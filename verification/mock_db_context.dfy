/**
 The in-memory store: users, chat rooms and messages, each a table keyed by
 the record's id, filled once from already-parsed lists.
 */
module MockDbContext {
  import opened Common
  import opened Seqs
  import opened Tables
  import opened DataModels

  datatype Db = Db(users: seq<User>, chatRooms: seq<ChatRoom>, messages: seq<Message>, initialized: bool)

  /** Every table holds at most one record per id. */
  predicate Valid(db: Db) {
    && UniqueKeys(db.users, UserId)
    && UniqueKeys(db.chatRooms, RoomId)
    && UniqueKeys(db.messages, MessageId)
  }

  const EMPTY: Db := Db([], [], [], false)

  /** The result of an insert-if-absent. */
  datatype DbAdded = DbAdded(added: bool, db: Db)

  /** Loads the parsed users, rooms and messages once; a second call does
      nothing. For each id the record already present, or else the first in
      its list, is kept. */
  function Initialize(db: Db, users: seq<User>, rooms: seq<ChatRoom>, messages: seq<Message>): (r: Db)
    ensures db.initialized ==> r == db
    ensures r.initialized
    ensures Valid(db) ==> Valid(r)
    ensures !db.initialized ==> LoadedFrom(r.users, db.users, users, UserId)
    ensures !db.initialized ==> LoadedFrom(r.chatRooms, db.chatRooms, rooms, RoomId)
    ensures !db.initialized ==> LoadedFrom(r.messages, db.messages, messages, MessageId)
  {
    if db.initialized then db
    else
      AddAllLoaded(db.users, users, UserId);
      AddAllLoaded(db.chatRooms, rooms, RoomId);
      AddAllLoaded(db.messages, messages, MessageId);
      Db(AddAll(db.users, users, UserId), AddAll(db.chatRooms, rooms, RoomId),
        AddAll(db.messages, messages, MessageId), true)
  }

  function GetUser(db: Db, id: string): (r: Option<User>)
    ensures r.Some? <==> HasKey(db.users, id, UserId)
    ensures r.Some? ==> r.value in db.users && r.value.id == id
  {
    Find(db.users, id, UserId)
  }

  function GetChatRoom(db: Db, id: string): (r: Option<ChatRoom>)
    ensures r.Some? <==> HasKey(db.chatRooms, id, RoomId)
    ensures r.Some? ==> r.value in db.chatRooms && r.value.id == id
  {
    Find(db.chatRooms, id, RoomId)
  }

  predicate Visible(m: Message, roomId: string) {
    m.chatRoomId == roomId && !m.isDeleted
  }

  /** The room's messages that are not deleted, each as often as it is stored,
      ordered by send time (ties in storage order). */
  function GetMessagesForRoom(db: Db, roomId: string): (r: seq<Message>)
    ensures forall m :: multiset(r)[m] == if Visible(m, roomId) then multiset(db.messages)[m] else 0
    ensures forall i :: 0 <= i < |r| ==> Visible(r[i], roomId)
    ensures SortedBy(r, SentAt)
  {
    var visible := Filter(db.messages, m => Visible(m, roomId));
    var r := SortBy(visible, SentAt);
    assert forall i :: 0 <= i < |r| ==> Visible(r[i], roomId) by {
      forall i | 0 <= i < |r| ensures Visible(r[i], roomId) {
        assert r[i] in multiset(r);
        assert r[i] in multiset(visible);
      }
    }
    r
  }

  /** Inserts the user unless its id is taken. */
  function AddUser(db: Db, user: User): (r: DbAdded)
    ensures r.added <==> GetUser(db, user.id).None?
    ensures r.added ==> r.db == db.(users := db.users + [user])
    ensures !r.added ==> r.db == db
    ensures GetUser(r.db, user.id) == if r.added then Some(user) else GetUser(db, user.id)
    ensures Valid(db) ==> Valid(r.db)
  {
    var a := TryAdd(db.users, user, UserId);
    DbAdded(a.added, db.(users := a.table))
  }

  /** Inserts the message unless its id is taken. */
  function AddMessage(db: Db, message: Message): (r: DbAdded)
    ensures r.added <==> !HasKey(db.messages, message.id, MessageId)
    ensures r.added ==> r.db == db.(messages := db.messages + [message])
    ensures !r.added ==> r.db == db
    ensures Valid(db) ==> Valid(r.db)
  {
    var a := TryAdd(db.messages, message, MessageId);
    DbAdded(a.added, db.(messages := a.table))
  }

  /** A message stored under a fresh id joins its room's history exactly once,
      and every other room's history is unchanged; a taken id changes no
      history. */
  lemma AddMessageShowsInRoom(db: Db, message: Message, roomId: string)
    ensures var after := GetMessagesForRoom(AddMessage(db, message).db, roomId);
      var before := GetMessagesForRoom(db, roomId);
      forall m :: multiset(after)[m] ==
        multiset(before)[m] + (if m == message && Visible(m, roomId) && !HasKey(db.messages, message.id, MessageId) then 1 else 0)
  {
    if !HasKey(db.messages, message.id, MessageId) {
      assert multiset(db.messages + [message]) == multiset(db.messages) + multiset{message};
    }
  }
}
