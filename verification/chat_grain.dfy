/**
 A chat room grain: a set of subscribed observers and a roster of players
 keyed by player id. Sending a message stores it through the data service
 and delivers it to every subscriber; roster changes are announced to every
 subscriber.
 */
module ChatGrain {
  import opened Common
  import opened SharedModels
  import opened DataModels
  import opened Tables
  import opened MockDbContext
  import opened MockDataService
  import opened Observers

  datatype Room = Room(id: string, subscribers: set<ObserverRef>, players: map<string, PlayerInfo>)

  /** A freshly activated room: nobody subscribed, nobody on the roster. */
  function NewRoom(id: string): Room {
    Room(id, {}, map[])
  }

  /** The store after a send, and the deliveries it made. */
  datatype Sent = Sent(db: Db, deliveries: set<Delivery>)

  /** A room after a roster change, and the announcements it made. */
  datatype Changed = Changed(room: Room, deliveries: set<Delivery>)

  /** The number of subscribers, which is the number of deliveries any
      broadcast from the room makes. */
  function GetSubscriberCount(room: Room): (n: nat)
    ensures forall p :: n == |Broadcast(room.subscribers, p)|
  {
    assert forall p :: |room.subscribers| == |Broadcast(room.subscribers, p)| by {
      forall p {
        BroadcastCount(room.subscribers, p);
      }
    }
    |room.subscribers|
  }

  /** Adds the observer; subscribing twice is harmless. */
  function Subscribe(room: Room, o: ObserverRef): (r: Room)
    ensures o in r.subscribers
    ensures forall x :: x != o ==> (x in r.subscribers <==> x in room.subscribers)
    ensures o in room.subscribers ==> r == room
    ensures GetSubscriberCount(r) == GetSubscriberCount(room) + (if o in room.subscribers then 0 else 1)
    ensures r.id == room.id && r.players == room.players
  {
    room.(subscribers := room.subscribers + {o})
  }

  /** Removes the observer; unsubscribing an absent observer is harmless. */
  function Unsubscribe(room: Room, o: ObserverRef): (r: Room)
    ensures o !in r.subscribers
    ensures forall x :: x != o ==> (x in r.subscribers <==> x in room.subscribers)
    ensures o !in room.subscribers ==> r == room
    ensures GetSubscriberCount(r) == GetSubscriberCount(room) - (if o in room.subscribers then 1 else 0)
    ensures r.id == room.id && r.players == room.players
  {
    room.(subscribers := room.subscribers - {o})
  }

  /** Subscribing an absent observer and unsubscribing it again restores the
      room and its count. */
  lemma SubscribeUnsubscribe(room: Room, o: ObserverRef)
    requires o !in room.subscribers
    ensures Unsubscribe(Subscribe(room, o), o) == room
    ensures GetSubscriberCount(Unsubscribe(Subscribe(room, o), o)) == GetSubscriberCount(room)
  {
    assert (room.subscribers + {o}) - {o} == room.subscribers;
  }

  const SYSTEM_SENDER_ID: string := "system"
  const SYSTEM_SENDER_NAME: string := "系统"

  /** The record a room stores for a sent line: sender "system", type text, not deleted. */
  function SystemMessage(roomId: string, messageId: string, text: string, now: int): (m: Message)
    ensures m.id == messageId && m.chatRoomId == roomId && m.content == text && m.sentAt == now
    ensures m.senderId == SYSTEM_SENDER_ID && m.messageType == Text && !m.isDeleted
  {
    Message(messageId, roomId, SYSTEM_SENDER_ID, SYSTEM_SENDER_NAME, text, Text, now, false)
  }

  /** Stores the line as a system message under the fresh id (a taken id
      stores nothing, and the send goes ahead anyway), then delivers it once
      to every subscriber. */
  function SendMessage(room: Room, db: Db, messageId: string, text: string, now: int): (r: Sent)
    ensures !HasKey(db.messages, messageId, MessageId) ==>
      r.db.messages == db.messages + [SystemMessage(room.id, messageId, text, now)]
    ensures HasKey(db.messages, messageId, MessageId) ==> r.db == db
    ensures r.db.users == db.users && r.db.chatRooms == db.chatRooms
    ensures Valid(db) ==> Valid(r.db)
    ensures forall d :: d in r.deliveries <==> d.to in room.subscribers && d.payload == ChatMessage(text)
    ensures |r.deliveries| == GetSubscriberCount(room)
  {
    var stored := AddMessageAsync(db, SystemMessage(room.id, messageId, text, now));
    Sent(stored.db, Broadcast(room.subscribers, ChatMessage(text)))
  }

  /** Delivers the notice once to every subscriber; nothing is stored. */
  function SendNotification(room: Room, notice: Notice): (r: set<Delivery>)
    ensures forall d :: d in r <==> d.to in room.subscribers && d.payload == ChatNotification(notice)
    ensures |r| == GetSubscriberCount(room)
  {
    Broadcast(room.subscribers, ChatNotification(notice))
  }

  /** Every roster entry sits under its own id and is online. */
  ghost predicate WellFormedRoster(room: Room) {
    forall id :: id in room.players ==> room.players[id].id == id && room.players[id].isOnline
  }

  /** Adds an online entry for an absent player and announces it; a player
      already on the roster changes nothing and nothing is announced. */
  function PlayerJoin(room: Room, playerId: string, playerName: string, now: int): (r: Changed)
    ensures playerId in room.players ==> r == Changed(room, {})
    ensures playerId !in room.players ==>
      && r.room.players == room.players[playerId := PlayerInfo(playerId, playerName, now, [], true)]
      && r.deliveries == SendNotification(room, PlayerJoined(playerName))
    ensures r.room.id == room.id && r.room.subscribers == room.subscribers
    ensures playerId in r.room.players
    ensures WellFormedRoster(room) ==> WellFormedRoster(r.room)
  {
    if playerId in room.players then Changed(room, {})
    else
      var info := PlayerInfo(playerId, playerName, now, [], true);
      Changed(room.(players := room.players[playerId := info]), SendNotification(room, PlayerJoined(playerName)))
  }

  /** Removes a player on the roster and announces it under the stored name;
      an absent player changes nothing and nothing is announced. */
  function PlayerLeave(room: Room, playerId: string): (r: Changed)
    ensures playerId !in room.players ==> r == Changed(room, {})
    ensures playerId in room.players ==>
      && r.room.players == room.players - {playerId}
      && r.deliveries == SendNotification(room, PlayerLeft(room.players[playerId].name))
    ensures r.room.id == room.id && r.room.subscribers == room.subscribers
    ensures playerId !in r.room.players
    ensures WellFormedRoster(room) ==> WellFormedRoster(r.room)
  {
    if playerId !in room.players then Changed(room, {})
    else
      var name := room.players[playerId].name;
      Changed(room.(players := room.players - {playerId}), SendNotification(room, PlayerLeft(name)))
  }

  /** The roster entries that are online. */
  function GetOnlinePlayers(room: Room): (r: set<PlayerInfo>)
    ensures forall p :: p in r ==> p.isOnline && p in room.players.Values
    ensures forall id :: id in room.players && room.players[id].isOnline ==> room.players[id] in r
  {
    set p | p in room.players.Values && p.isOnline
  }

  /** On a well-formed roster every entry is online, so the online players
      are the whole roster. */
  lemma OnlinePlayersAreRoster(room: Room)
    requires WellFormedRoster(room)
    ensures GetOnlinePlayers(room) == room.players.Values
  {
    forall p | p in room.players.Values ensures p in GetOnlinePlayers(room) {
      var id :| id in room.players && room.players[id] == p;
    }
  }

  /** A player who joins and then leaves leaves the room as it was, and the
      leave is announced under the name given at the join. */
  lemma JoinThenLeave(room: Room, playerId: string, playerName: string, now: int)
    requires playerId !in room.players
    ensures PlayerLeave(PlayerJoin(room, playerId, playerName, now).room, playerId).room == room
    ensures PlayerLeave(PlayerJoin(room, playerId, playerName, now).room, playerId).deliveries ==
      SendNotification(room, PlayerLeft(playerName))
  {
    var joined := PlayerJoin(room, playerId, playerName, now).room;
    assert joined.players - {playerId} == room.players;
  }

  /** The line a player's message becomes: the name, a colon and a space,
      then the text. */
  function FormatPlayerMessage(name: string, message: string): (s: string)
    ensures |s| == |name| + 2 + |message|
    ensures s[..|name|] == name && s[|name|..|name| + 2] == ": " && s[|name| + 2..] == message
  {
    name + ": " + message
  }

  /** Sends `name: message` for a player on the roster (stored, like every
      line, as a system message); anyone else sends nothing and stores nothing. */
  function SendPlayerMessage(room: Room, db: Db, playerId: string, playerName: string, message: string,
                             messageId: string, now: int): (r: Sent)
    ensures playerId !in room.players ==> r == Sent(db, {})
    ensures playerId in room.players ==>
      r == SendMessage(room, db, messageId, FormatPlayerMessage(playerName, message), now)
    ensures playerId in room.players ==> forall d :: d in r.deliveries <==>
      d.to in room.subscribers && d.payload == ChatMessage(FormatPlayerMessage(playerName, message))
  {
    if playerId in room.players then SendMessage(room, db, messageId, FormatPlayerMessage(playerName, message), now)
    else Sent(db, {})
  }
}
