/**
 The data-access service the grains call: thin queries over the store, plus
 the two writes (add a message, stamp a user's last login). The clock is the
 parameter `now`.
 */
module MockDataService {
  import opened Common
  import opened Seqs
  import opened Tables
  import opened DataModels
  import opened MockDbContext

  function GetUserAsync(db: Db, userId: string): (r: Option<User>)
    ensures r.Some? <==> exists u :: u in db.users && u.id == userId
    ensures r.Some? ==> r.value in db.users && r.value.id == userId
  {
    var r := GetUser(db, userId);
    assert r.None? ==> forall u :: u in db.users ==> u.id != userId by {
      if r.None? {
        forall u | u in db.users ensures u.id != userId {
          var i :| 0 <= i < |db.users| && db.users[i] == u;
          assert UserId(db.users[i]) != userId;
        }
      }
    }
    r
  }

  function GetActiveUsersAsync(db: Db): (r: seq<User>)
    ensures forall u :: u in r <==> u in db.users && u.isActive
    ensures forall u :: multiset(r)[u] == if u.isActive then multiset(db.users)[u] else 0
  {
    var r := Filter(db.users, (u: User) => u.isActive);
    assert forall u :: u in r <==> u in multiset(r);
    r
  }

  function GetChatRoomAsync(db: Db, roomId: string): (r: Option<ChatRoom>)
    ensures r.Some? <==> HasKey(db.chatRooms, roomId, RoomId)
    ensures r.Some? ==> r.value in db.chatRooms && r.value.id == roomId
  {
    GetChatRoom(db, roomId)
  }

  predicate ListsMember(room: ChatRoom, userId: string) {
    userId in room.members && room.isActive
  }

  /** The active rooms whose member list names the user. */
  function GetUserChatRoomsAsync(db: Db, userId: string): (r: seq<ChatRoom>)
    ensures forall room :: room in r <==> room in db.chatRooms && ListsMember(room, userId)
    ensures forall room :: multiset(r)[room] == if ListsMember(room, userId) then multiset(db.chatRooms)[room] else 0
  {
    var r := Filter(db.chatRooms, room => ListsMember(room, userId));
    assert forall room :: room in r <==> room in multiset(r);
    r
  }

  /** The newest `limit` visible messages of the room, oldest first. */
  function GetRoomMessagesAsync(db: Db, roomId: string, limit: int): (r: seq<Message>)
    ensures var all := GetMessagesForRoom(db, roomId);
      && |r| == (if limit <= 0 then 0 else if limit < |all| then limit else |all|)
      && r == all[|all| - |r|..]
    ensures forall i :: 0 <= i < |r| ==> Visible(r[i], roomId)
    ensures SortedBy(r, SentAt)
    ensures limit >= |GetMessagesForRoom(db, roomId)| ==> r == GetMessagesForRoom(db, roomId)
  {
    var all := GetMessagesForRoom(db, roomId);
    var r := TakeLast(all, limit);
    assert forall i :: 0 <= i < |r| ==> r[i] == all[|all| - |r| + i];
    r
  }

  /** The history query returns the newest messages: none it leaves out was
      sent after one it returns. */
  lemma RoomMessagesAreNewest(db: Db, roomId: string, limit: int)
    ensures var all := GetMessagesForRoom(db, roomId);
      var r := GetRoomMessagesAsync(db, roomId, limit);
      forall i, j :: 0 <= i < |all| - |r| && 0 <= j < |r| ==> all[i].sentAt <= r[j].sentAt
  {
    TakeLastNewest(GetMessagesForRoom(db, roomId), limit, SentAt);
  }

  /** Stores the message unless its id is taken, and says whether it did. */
  function AddMessageAsync(db: Db, message: Message): (r: DbAdded)
    ensures r.added <==> !HasKey(db.messages, message.id, MessageId)
    ensures r.added ==> r.db.messages == db.messages + [message]
    ensures r.db.users == db.users && r.db.chatRooms == db.chatRooms
    ensures !r.added ==> r.db == db
    ensures Valid(db) ==> Valid(r.db)
  {
    AddMessage(db, message)
  }

  /** The user table with the record under `userId` stamped with `now`. */
  function StampLogin(users: seq<User>, userId: string, now: int): (r: seq<User>)
    ensures |r| == |users|
    ensures forall k :: k != userId ==> Find(r, k, UserId) == Find(users, k, UserId)
    ensures Find(r, userId, UserId) ==
      (match Find(users, userId, UserId)
       case None => None
       case Some(u) => Some(u.(lastLoginAt := now)))
    ensures forall i :: 0 <= i < |r| ==> r[i].id == users[i].id
    ensures !HasKey(users, userId, UserId) ==> r == users
  {
    if |users| == 0 then []
    else if users[0].id == userId then [users[0].(lastLoginAt := now)] + users[1..]
    else
      var rest := StampLogin(users[1..], userId, now);
      assert ([users[0]] + rest)[1..] == rest;
      [users[0]] + rest
  }

  /** Sets the user's last-login time; an unknown user changes nothing. */
  function UpdateUserLastLoginAsync(db: Db, userId: string, now: int): (r: Db)
    ensures GetUser(db, userId).None? ==> r == db
    ensures GetUser(db, userId).Some? ==> GetUser(r, userId) == Some(GetUser(db, userId).value.(lastLoginAt := now))
    ensures forall k :: k != userId ==> GetUser(r, k) == GetUser(db, k)
    ensures r.chatRooms == db.chatRooms && r.messages == db.messages && r.initialized == db.initialized
    ensures Valid(db) ==> Valid(r)
  {
    db.(users := StampLogin(db.users, userId, now))
  }

  function UserExistsAsync(db: Db, userId: string): (r: bool)
    ensures r <==> exists u :: u in db.users && u.id == userId
  {
    GetUserAsync(db, userId).Some?
  }

  function ChatRoomExistsAsync(db: Db, roomId: string): (r: bool)
    ensures r <==> exists room :: room in db.chatRooms && room.id == roomId
  {
    var r := GetChatRoom(db, roomId);
    assert r.None? ==> forall room :: room in db.chatRooms ==> room.id != roomId by {
      if r.None? {
        forall room | room in db.chatRooms ensures room.id != roomId {
          var i :| 0 <= i < |db.chatRooms| && db.chatRooms[i] == room;
          assert RoomId(db.chatRooms[i]) != roomId;
        }
      }
    }
    r.Some?
  }
}
