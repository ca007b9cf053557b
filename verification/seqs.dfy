/**
 The LINQ operators the core relies on, over sequences: `Where`, `OrderBy`
 on an integer key, and `TakeLast`.
 */
module Seqs {

  /** `Where(keep)`: the elements satisfying `keep`, in their original order. */
  function Filter<T(!new)>(s: seq<T>, keep: T -> bool): (r: seq<T>)
    ensures |r| <= |s|
    ensures forall i :: 0 <= i < |r| ==> keep(r[i])
    ensures forall x :: multiset(r)[x] == (if keep(x) then multiset(s)[x] else 0)
  {
    if |s| == 0 then []
    else
      assert s == [s[0]] + s[1..];
      if keep(s[0]) then [s[0]] + Filter(s[1..], keep) else Filter(s[1..], keep)
  }

  predicate SortedBy<T>(s: seq<T>, key: T -> int) {
    forall i, j :: 0 <= i < j < |s| ==> key(s[i]) <= key(s[j])
  }

  predicate StrictlySortedBy<T>(s: seq<T>, key: T -> int) {
    forall i, j :: 0 <= i < j < |s| ==> key(s[i]) < key(s[j])
  }

  /** Inserts `x` in front of the first element whose key is not smaller, so
      that `x` precedes the elements of `s` with an equal key. */
  function InsertBy<T>(x: T, s: seq<T>, key: T -> int): (r: seq<T>)
    requires SortedBy(s, key)
    ensures SortedBy(r, key)
    ensures multiset(r) == multiset(s) + multiset{x}
    ensures |r| == |s| + 1
    ensures r[0] == x || (|s| > 0 && r[0] == s[0])
  {
    if |s| == 0 then [x]
    else if key(x) <= key(s[0]) then [x] + s
    else
      assert s == [s[0]] + s[1..];
      [s[0]] + InsertBy(x, s[1..], key)
  }

  /** `OrderBy(key)`, as an insertion sort. */
  function SortBy<T>(s: seq<T>, key: T -> int): (r: seq<T>)
    ensures SortedBy(r, key)
    ensures multiset(r) == multiset(s)
    ensures |r| == |s|
  {
    if |s| == 0 then []
    else
      assert s == [s[0]] + s[1..];
      InsertBy(s[0], SortBy(s[1..], key), key)
  }

  lemma {:induction false} InsertByStrict<T>(x: T, s: seq<T>, key: T -> int)
    requires StrictlySortedBy(s, key)
    requires forall i :: 0 <= i < |s| ==> key(s[i]) != key(x)
    ensures SortedBy(s, key)
    ensures StrictlySortedBy(InsertBy(x, s, key), key)
    decreases |s|
  {
    if |s| > 0 && key(x) > key(s[0]) {
      assert StrictlySortedBy(s[1..], key) by {
        forall i, j | 0 <= i < j < |s| - 1 ensures key(s[1..][i]) < key(s[1..][j]) {
          assert s[1..][i] == s[i + 1] && s[1..][j] == s[j + 1];
        }
      }
      InsertByStrict(x, s[1..], key);
      var rest := InsertBy(x, s[1..], key);
      var r := [s[0]] + rest;
      forall i, j | 0 <= i < j < |r| ensures key(r[i]) < key(r[j]) {
        if i == 0 {
          assert r[j] == rest[j - 1];
          assert key(s[0]) < key(rest[0]);
        } else {
          assert r[i] == rest[i - 1] && r[j] == rest[j - 1];
        }
      }
    }
  }

  /** With pairwise distinct keys, the sort is strictly increasing. */
  lemma {:induction false} SortByStrict<T>(s: seq<T>, key: T -> int)
    requires forall i, j :: 0 <= i < j < |s| ==> key(s[i]) != key(s[j])
    ensures StrictlySortedBy(SortBy(s, key), key)
    decreases |s|
  {
    if |s| > 0 {
      var tail := s[1..];
      assert forall i, j :: 0 <= i < j < |tail| ==> key(tail[i]) != key(tail[j]) by {
        forall i, j | 0 <= i < j < |tail| ensures key(tail[i]) != key(tail[j]) {
          assert tail[i] == s[i + 1] && tail[j] == s[j + 1];
        }
      }
      SortByStrict(tail, key);
      var sorted := SortBy(tail, key);
      forall i | 0 <= i < |sorted| ensures key(sorted[i]) != key(s[0]) {
        assert sorted[i] in multiset(tail);
        var k :| 0 <= k < |tail| && tail[k] == sorted[i];
        assert tail[k] == s[k + 1];
      }
      InsertByStrict(s[0], sorted, key);
      assert s == [s[0]] + tail;
    }
  }

  /** `TakeLast(count)`: the last `count` elements, all of them when there are
      fewer, none when `count` is not positive. */
  function TakeLast<T>(s: seq<T>, count: int): (r: seq<T>)
    ensures |r| == if count <= 0 then 0 else if count < |s| then count else |s|
    ensures r == s[|s| - |r|..]
  {
    if count <= 0 then [] else if count < |s| then s[|s| - count..] else s
  }

  /** Of a sorted sequence, `TakeLast` keeps the elements with the greatest
      keys: none it drops has a greater key than one it keeps. */
  lemma TakeLastNewest<T>(s: seq<T>, count: int, key: T -> int)
    requires SortedBy(s, key)
    ensures var r := TakeLast(s, count);
      forall i, j :: 0 <= i < |s| - |r| && 0 <= j < |r| ==> key(s[i]) <= key(r[j])
  {
    var r := TakeLast(s, count);
    forall i, j | 0 <= i < |s| - |r| && 0 <= j < |r| ensures key(s[i]) <= key(r[j]) {
      assert r[j] == s[|s| - |r| + j];
    }
  }
}
