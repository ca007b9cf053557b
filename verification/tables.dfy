/**
 A string-keyed table with the semantics of the concurrent dictionaries the
 store uses: lookup by key and insert-if-absent. A table is a sequence of
 entries with distinct keys in insertion order, which stands for the
 dictionary's (unspecified) enumeration order.
 */
module Tables {
  import opened Common

  predicate UniqueKeys<V>(t: seq<V>, key: V -> string) {
    forall i, j :: 0 <= i < j < |t| ==> key(t[i]) != key(t[j])
  }

  predicate HasKey<V>(t: seq<V>, k: string, key: V -> string) {
    exists i :: 0 <= i < |t| && key(t[i]) == k
  }

  /** The first entry under key `k`, as `TryGetValue` reports it. */
  function Find<V>(t: seq<V>, k: string, key: V -> string): (r: Option<V>)
    ensures r.Some? <==> HasKey(t, k, key)
    ensures r.Some? ==> r.value in t && key(r.value) == k
  {
    if |t| == 0 then None
    else if key(t[0]) == k then Some(t[0])
    else
      var r := Find(t[1..], k, key);
      assert HasKey(t, k, key) ==> HasKey(t[1..], k, key) by {
        if HasKey(t, k, key) {
          var i :| 0 <= i < |t| && key(t[i]) == k;
          assert t[1..][i - 1] == t[i];
        }
      }
      assert HasKey(t[1..], k, key) ==> HasKey(t, k, key) by {
        if HasKey(t[1..], k, key) {
          var i :| 0 <= i < |t| - 1 && key(t[1..][i]) == k;
          assert t[i + 1] == t[1..][i];
        }
      }
      r
  }

  /** A result of `TryAdd`: whether the entry went in, and the table after. */
  datatype Added<V> = Added(added: bool, table: seq<V>)

  /** `TryAdd`: inserts `v` under its key unless the key is present; reports
      whether it inserted. A present key leaves the table as it was. */
  function TryAdd<V>(t: seq<V>, v: V, key: V -> string): (r: Added<V>)
    ensures r.added <==> !HasKey(t, key(v), key)
    ensures r.added ==> r.table == t + [v]
    ensures !r.added ==> r.table == t
    ensures UniqueKeys(t, key) ==> UniqueKeys(r.table, key)
    ensures Find(r.table, key(v), key) == if r.added then Some(v) else Find(t, key(v), key)
    ensures forall k :: k != key(v) ==> Find(r.table, k, key) == Find(t, k, key)
  {
    if Find(t, key(v), key).Some? then Added(false, t)
    else
      FindAppend(t, v, key);
      Added(true, t + [v])
  }

  lemma {:induction false} FindAppend<V>(t: seq<V>, v: V, key: V -> string)
    ensures forall k :: Find(t + [v], k, key) == if HasKey(t, k, key) then Find(t, k, key) else if key(v) == k then Some(v) else None
    decreases |t|
  {
    if |t| > 0 {
      FindAppend(t[1..], v, key);
      assert (t + [v])[1..] == t[1..] + [v];
    }
  }

  /** The load loop: `TryAdd` of every item in list order. */
  function AddAll<V>(t: seq<V>, items: seq<V>, key: V -> string): (r: seq<V>)
    ensures UniqueKeys(t, key) ==> UniqueKeys(r, key)
    decreases |items|
  {
    if |items| == 0 then t else AddAll(TryAdd(t, items[0], key).table, items[1..], key)
  }

  /** Loading keeps an entry already present under a key, and otherwise the
      first item of the list that carries the key; later duplicates are ignored. */
  lemma {:induction false} AddAllKeepsFirst<V>(t: seq<V>, items: seq<V>, key: V -> string, k: string)
    ensures Find(AddAll(t, items, key), k, key) ==
      if HasKey(t, k, key) then Find(t, k, key) else Find(items, k, key)
    decreases |items|
  {
    if |items| > 0 {
      var t1 := TryAdd(t, items[0], key).table;
      AddAllKeepsFirst(t1, items[1..], key, k);
      assert Find(items, k, key) == if key(items[0]) == k then Some(items[0]) else Find(items[1..], k, key);
    }
  }

  /** `r` holds, under every key, what `t` held, or else the first item of
      `items` with that key. */
  ghost predicate LoadedFrom<V>(r: seq<V>, t: seq<V>, items: seq<V>, key: V -> string) {
    forall k :: Find(r, k, key) == (if HasKey(t, k, key) then Find(t, k, key) else Find(items, k, key))
  }

  lemma AddAllLoaded<V>(t: seq<V>, items: seq<V>, key: V -> string)
    ensures LoadedFrom(AddAll(t, items, key), t, items, key)
  {
    forall k {
      AddAllKeepsFirst(t, items, key, k);
    }
  }
}
