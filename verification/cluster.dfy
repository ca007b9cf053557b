/**
 The grains wired together. A world holds every activated player, room and
 chain grain and the shared store; a grain that is not yet in the world is
 activated on first use. A call from one grain to another is plain function
 composition, and a fan-out (to every joined chain, to every joined room)
 runs in join order. The observable output of an operation is the sequence
 of room announcements and direct observer deliveries it makes.
 */
module Cluster {
  import opened Common
  import opened SharedModels
  import opened Observers
  import MockDbContext
  import CG = ChatGrain
  import PG = PlayerGrain
  import TC = TaskChainGrain

  datatype World = World(
    players: map<string, PG.PlayerState>,
    rooms: map<string, CG.Room>,
    chains: map<string, TC.ChainState>,
    db: MockDbContext.Db)

  /** A room's broadcast, or a delivery to one player's observer. */
  datatype Outbound =
    | Announce(roomId: string, deliveries: set<Delivery>)
    | Direct(delivery: Delivery)

  datatype Effects = Effects(world: World, out: seq<Outbound>)

  /** The effects of a call on a chain grain, and the result returned to the caller. */
  datatype Answer<T> = Answer(world: World, out: seq<Outbound>, value: T)

  function PlayerOf(w: World, id: string, now: int): PG.PlayerState {
    if id in w.players then w.players[id] else PG.NewPlayer(id, now)
  }

  function RoomOf(w: World, id: string): CG.Room {
    if id in w.rooms then w.rooms[id] else CG.NewRoom(id)
  }

  /** The state under key `k`, or the default for a key not yet present. */
  function StateIn<S>(m: map<string, S>, k: string, init: string -> S): S {
    if k in m then m[k] else init(k)
  }

  /** A chain grain not yet in the world activates with its template. */
  function Activation(now: int): string -> TC.ChainState {
    c => TC.Activate(c, now)
  }

  function ChainOf(w: World, id: string, now: int): TC.ChainState {
    StateIn(w.chains, id, Activation(now))
  }

  /** The world once the player's grain is active. */
  function Activated(w: World, playerId: string, now: int): World {
    w.(players := w.players[playerId := PlayerOf(w, playerId, now)])
  }

  function Directs(ds: seq<Delivery>): (r: seq<Outbound>)
    ensures |r| == |ds| && forall i :: 0 <= i < |r| ==> r[i] == Direct(ds[i])
  {
    seq(|ds|, i requires 0 <= i < |ds| => Direct(ds[i]))
  }

  /** Every output is a direct call on the bound observer `o`: nothing reaches
      a room, and a player without an observer hears nothing. */
  predicate OnlyTo(out: seq<Outbound>, o: Option<ObserverRef>) {
    forall i :: 0 <= i < |out| ==> out[i].Direct? && o == Some(out[i].delivery.to)
  }

  lemma DirectsOnlyTo(ds: seq<Delivery>, o: Option<ObserverRef>)
    requires forall i :: 0 <= i < |ds| ==> o == Some(ds[i].to)
    ensures OnlyTo(Directs(ds), o)
  {
  }

  lemma OnlyToAppend(a: seq<Outbound>, b: seq<Outbound>, o: Option<ObserverRef>)
    requires OnlyTo(a, o) && OnlyTo(b, o)
    ensures OnlyTo(a + b, o)
  {
  }

  /** No player's ledger lost or changed an entry between `w` and `w'`. */
  ghost predicate LedgersGrow(w: World, w': World, now: int) {
    forall q :: PG.GetRewardHistory(PlayerOf(w, q, now)) <= PG.GetRewardHistory(PlayerOf(w', q, now))
  }

  lemma LedgersGrowTransitive(w1: World, w2: World, w3: World, now: int)
    requires LedgersGrow(w1, w2, now) && LedgersGrow(w2, w3, now)
    ensures LedgersGrow(w1, w3, now)
  {
  }

  /** Replacing the player's state by one with the same ledger keeps every ledger. */
  lemma KeptLedger(w: World, w1: World, playerId: string, p: PG.PlayerState, now: int)
    requires w1.players == w.players[playerId := p]
    requires p.rewardHistory == PlayerOf(w, playerId, now).rewardHistory
    ensures LedgersGrow(w, w1, now)
  {
  }

  /** Credits the player's ledger with `rewards`, one `AddReward` each. */
  function Credit(w: World, playerId: string, rewards: seq<Reward>, now: int): (w': World)
    ensures w'.players == w.players[playerId := PG.GiveRewards(PlayerOf(w, playerId, now), rewards)]
    ensures w'.rooms == w.rooms && w'.chains == w.chains && w'.db == w.db
    ensures LedgersGrow(w, w', now)
  {
    w.(players := w.players[playerId := PG.GiveRewards(PlayerOf(w, playerId, now), rewards)])
  }

  /** One chain's handling of one progress event from the player: the chain
      updates the record and credits the player's ledger with what it grants,
      tells the player when the chain is complete, and the player's observer
      hears the outcome. */
  function ChainUpdate(w: World, playerId: string, chainId: string, ev: PG.ProgressEvent, now: int): (r: Effects)
    ensures var step := TC.UpdateTaskProgress(ChainOf(w, chainId, now), playerId, ev.taskType, ev.targetId, ev.count, now);
      && r.world.chains == w.chains[chainId := step.state]
      && r.world.players == w.players[playerId := PG.GiveRewards(PlayerOf(w, playerId, now), step.granted)]
      && r.world.rooms == w.rooms && r.world.db == w.db
    // the observer hears the completion notice (when the chain finished), then the outcome
    ensures var step := TC.UpdateTaskProgress(ChainOf(w, chainId, now), playerId, ev.taskType, ev.targetId, ev.count, now);
      var p := PlayerOf(w, playerId, now);
      r.out == Directs((if step.notified then PG.NotifyTaskChainCompleted(p, chainId) else []) + PG.ProgressNotices(p, step.result))
    ensures OnlyTo(r.out, PlayerOf(w, playerId, now).observer)
    ensures LedgersGrow(w, r.world, now)
  {
    var step := TC.UpdateTaskProgress(ChainOf(w, chainId, now), playerId, ev.taskType, ev.targetId, ev.count, now);
    var w1 := Credit(w, playerId, step.granted, now).(chains := w.chains[chainId := step.state]);
    var p := PlayerOf(w1, playerId, now);
    var notices := (if step.notified then PG.NotifyTaskChainCompleted(p, chainId) else []) + PG.ProgressNotices(p, step.result);
    DirectsOnlyTo(notices, p.observer);
    Effects(w1, Directs(notices))
  }

  /** The player's private fan-out: the event goes to every chain in `chains`,
      in order. Chains not listed are untouched, and of the player only the
      ledger changes, by growing. */
  function ReportProgress(w: World, playerId: string, chains: seq<string>, ev: PG.ProgressEvent, now: int): (r: Effects)
    ensures r.world.rooms == w.rooms && r.world.db == w.db
    ensures forall c :: c !in chains ==> (c in r.world.chains <==> c in w.chains)
    ensures forall c :: c !in chains && c in w.chains ==> r.world.chains[c] == w.chains[c]
    ensures forall q :: q != playerId ==> (q in r.world.players <==> q in w.players)
    ensures forall q :: q != playerId && q in w.players ==> r.world.players[q] == w.players[q]
    ensures playerId in w.players ==> playerId in r.world.players
    ensures PlayerOf(r.world, playerId, now).(rewardHistory := PlayerOf(w, playerId, now).rewardHistory) ==
      PlayerOf(w, playerId, now)
    ensures OnlyTo(r.out, PlayerOf(w, playerId, now).observer)
    ensures LedgersGrow(w, r.world, now)
    decreases |chains|
  {
    if |chains| == 0 then Effects(w, [])
    else
      var e1 := ChainUpdate(w, playerId, chains[0], ev, now);
      var e2 := ReportProgress(e1.world, playerId, chains[1..], ev, now);
      assert forall c :: c !in chains ==> c != chains[0] && c !in chains[1..];
      LedgersGrowTransitive(w, e1.world, e2.world, now);
      OnlyToAppend(e1.out, e2.out, PlayerOf(w, playerId, now).observer);
      Effects(e2.world, e1.out + e2.out)
  }

  /** A fan-out over a keyed map of states: each listed key in turn replaces
      its state by `f` of it. */
  function UpdateEach<S>(m: map<string, S>, keys: seq<string>, f: (string, S) -> S, init: string -> S): (r: map<string, S>)
    ensures forall k :: k !in keys ==> (k in r <==> k in m)
    ensures forall k :: k !in keys && k in m ==> r[k] == m[k]
    decreases |keys|
  {
    if |keys| == 0 then m
    else
      var k := keys[0];
      assert forall x :: x !in keys ==> x != k && x !in keys[1..];
      UpdateEach(m[k := f(k, StateIn(m, k, init))], keys[1..], f, init)
  }

  /** With distinct keys, each listed key's final state is `f` of its state
      before the fan-out. */
  lemma {:induction false} UpdateEachReachesEach<S>(m: map<string, S>, keys: seq<string>, f: (string, S) -> S, init: string -> S)
    requires NoDup(keys)
    ensures var r := UpdateEach(m, keys, f, init);
      forall i :: 0 <= i < |keys| ==> keys[i] in r && r[keys[i]] == f(keys[i], StateIn(m, keys[i], init))
    decreases |keys|
  {
    if |keys| > 0 {
      var k := keys[0];
      var rest := keys[1..];
      var m1 := m[k := f(k, StateIn(m, k, init))];
      NoDupTail(keys);
      UpdateEachReachesEach(m1, rest, f, init);
      forall i | 0 <= i < |keys|
        ensures keys[i] in UpdateEach(m1, rest, f, init)
        ensures UpdateEach(m1, rest, f, init)[keys[i]] == f(keys[i], StateIn(m, keys[i], init))
      {
        if i > 0 {
          assert keys[i] == rest[i - 1] && keys[i] != k;
        }
      }
    }
  }

  /** The chain update of `ChainUpdate`, as a function of the chain's key and state. */
  function ChainStep(playerId: string, ev: PG.ProgressEvent, now: int): (string, TC.ChainState) -> TC.ChainState {
    (c: string, g: TC.ChainState) => TC.UpdateTaskProgress(g, playerId, ev.taskType, ev.targetId, ev.count, now).state
  }

  /** A fan-out changes the chain map exactly as `UpdateEach` of the chain update does. */
  lemma {:induction false} ReportProgressChains(w: World, playerId: string, chains: seq<string>, ev: PG.ProgressEvent, now: int)
    ensures ReportProgress(w, playerId, chains, ev, now).world.chains ==
      UpdateEach(w.chains, chains, ChainStep(playerId, ev, now), Activation(now))
    decreases |chains|
  {
    if |chains| > 0 {
      var e1 := ChainUpdate(w, playerId, chains[0], ev, now);
      ReportProgressChains(e1.world, playerId, chains[1..], ev, now);
    }
  }

  /** Each chain of a duplicate-free list receives the event exactly once:
      its state afterwards is its own update applied to its state before. */
  lemma ReportProgressReachesEach(w: World, playerId: string, chains: seq<string>, ev: PG.ProgressEvent, now: int)
    requires NoDup(chains)
    ensures var r := ReportProgress(w, playerId, chains, ev, now);
      forall i :: 0 <= i < |chains| ==>
        chains[i] in r.world.chains &&
        r.world.chains[chains[i]] == ChainStep(playerId, ev, now)(chains[i], ChainOf(w, chains[i], now))
  {
    ReportProgressChains(w, playerId, chains, ev, now);
    UpdateEachReachesEach(w.chains, chains, ChainStep(playerId, ev, now), Activation(now));
  }

  /** Joins the room: a room the player is already in is left alone (no room
      call, no progress event); otherwise the room adds the player and
      announces it, the room joins the player's set, and every joined chain
      receives one `JoinChatRoom` event for this room with count 1. */
  function JoinChatRoom(w: World, playerId: string, roomId: string, now: int): (r: Effects)
    ensures var p := PlayerOf(w, playerId, now);
      roomId in p.joinedRooms ==> r == Effects(Activated(w, playerId, now), [])
    ensures var p := PlayerOf(w, playerId, now);
      roomId !in p.joinedRooms ==>
        && roomId in PlayerOf(r.world, playerId, now).joinedRooms
        && r.world.rooms == w.rooms[roomId := CG.PlayerJoin(RoomOf(w, roomId), playerId, p.name, now).room]
        && |r.out| > 0 && r.out[0] == Announce(roomId, CG.PlayerJoin(RoomOf(w, roomId), playerId, p.name, now).deliveries)
        && (forall c :: c !in p.joinedTaskChains && c in w.chains ==> c in r.world.chains && r.world.chains[c] == w.chains[c])
    // after the announcement, only the player's observer hears the chains' answers
    ensures var p := PlayerOf(w, playerId, now);
      roomId !in p.joinedRooms ==> |r.out| > 0 && OnlyTo(r.out[1..], p.observer)
    ensures forall x :: x != roomId ==> (x in PlayerOf(r.world, playerId, now).joinedRooms <==> x in PlayerOf(w, playerId, now).joinedRooms)
    ensures PG.Valid(PlayerOf(w, playerId, now)) ==> PG.Valid(PlayerOf(r.world, playerId, now))
    ensures r.world.db == w.db
    ensures LedgersGrow(w, r.world, now)
  {
    var p := PlayerOf(w, playerId, now);
    if roomId in p.joinedRooms then Effects(Activated(w, playerId, now), [])
    else
      var joined := CG.PlayerJoin(RoomOf(w, roomId), playerId, p.name, now);
      var p' := PG.AddRoom(p, roomId);
      var w1 := w.(rooms := w.rooms[roomId := joined.room], players := w.players[playerId := p']);
      var e := ReportProgress(w1, playerId, p'.joinedTaskChains, PG.ProgressEvent(TaskType.JoinChatRoom, roomId, 1), now);
      KeptLedger(w, w1, playerId, p', now);
      LedgersGrowTransitive(w, w1, e.world, now);
      assert ([Announce(roomId, joined.deliveries)] + e.out)[1..] == e.out;
      Effects(e.world, [Announce(roomId, joined.deliveries)] + e.out)
  }

  /** Leaves the room: only a joined room is acted on; the room drops the
      player and announces it and the room leaves the player's set. No
      progress event is reported. */
  function LeaveChatRoom(w: World, playerId: string, roomId: string, now: int): (r: Effects)
    ensures var p := PlayerOf(w, playerId, now);
      roomId !in p.joinedRooms ==> r == Effects(Activated(w, playerId, now), [])
    ensures var p := PlayerOf(w, playerId, now);
      roomId in p.joinedRooms ==>
        && r.world.rooms == w.rooms[roomId := CG.PlayerLeave(RoomOf(w, roomId), playerId).room]
        && r.out == [Announce(roomId, CG.PlayerLeave(RoomOf(w, roomId), playerId).deliveries)]
    ensures roomId !in PlayerOf(r.world, playerId, now).joinedRooms
    ensures forall x :: x != roomId ==> (x in PlayerOf(r.world, playerId, now).joinedRooms <==> x in PlayerOf(w, playerId, now).joinedRooms)
    ensures r.world.chains == w.chains && r.world.db == w.db
    ensures LedgersGrow(w, r.world, now)
  {
    var p := PlayerOf(w, playerId, now);
    if roomId !in p.joinedRooms then Effects(Activated(w, playerId, now), [])
    else
      var left := CG.PlayerLeave(RoomOf(w, roomId), playerId);
      Effects(w.(rooms := w.rooms[roomId := left.room], players := w.players[playerId := PG.RemoveRoom(p, roomId)]),
        [Announce(roomId, left.deliveries)])
  }

  /** Sends a chat line: a room the player has not joined is a no-op;
      otherwise the room sends `name: message` (when its roster holds the
      player) and every joined chain receives one `SendMessages` event with
      an empty target and count 1. */
  function SendMessage(w: World, playerId: string, roomId: string, message: string, messageId: string, now: int): (r: Effects)
    ensures var p := PlayerOf(w, playerId, now);
      roomId !in p.joinedRooms ==> r == Effects(Activated(w, playerId, now), [])
    ensures var p := PlayerOf(w, playerId, now);
      roomId in p.joinedRooms ==>
        var sent := CG.SendPlayerMessage(RoomOf(w, roomId), w.db, playerId, p.name, message, messageId, now);
        && r.world.db == sent.db
        && |r.out| > 0 && r.out[0] == Announce(roomId, sent.deliveries)
        && (forall c :: c !in p.joinedTaskChains && c in w.chains ==> c in r.world.chains && r.world.chains[c] == w.chains[c])
    // after the line, only the player's observer hears the chains' answers
    ensures var p := PlayerOf(w, playerId, now);
      roomId in p.joinedRooms ==> |r.out| > 0 && OnlyTo(r.out[1..], p.observer)
    ensures PlayerOf(r.world, playerId, now).(rewardHistory := PlayerOf(w, playerId, now).rewardHistory) ==
      PlayerOf(w, playerId, now)
    ensures r.world.rooms == w.rooms
    ensures LedgersGrow(w, r.world, now)
  {
    var p := PlayerOf(w, playerId, now);
    if roomId !in p.joinedRooms then Effects(Activated(w, playerId, now), [])
    else
      var sent := CG.SendPlayerMessage(RoomOf(w, roomId), w.db, playerId, p.name, message, messageId, now);
      var w1 := w.(db := sent.db, players := w.players[playerId := p]);
      var e := ReportProgress(w1, playerId, p.joinedTaskChains, PG.ProgressEvent(SendMessages, "", 1), now);
      KeptLedger(w, w1, playerId, p, now);
      LedgersGrowTransitive(w, w1, e.world, now);
      assert ([Announce(roomId, sent.deliveries)] + e.out)[1..] == e.out;
      Effects(e.world, [Announce(roomId, sent.deliveries)] + e.out)
  }

  /** Sets the level and reports one `ReachLevel` event, targeted at the new
      level, to every joined chain. */
  function SetLevel(w: World, playerId: string, level: Int32, now: int): (r: Effects)
    ensures PG.GetLevel(PlayerOf(r.world, playerId, now)) == level
    ensures var p := PlayerOf(w, playerId, now);
      forall c :: c !in p.joinedTaskChains && c in w.chains ==> c in r.world.chains && r.world.chains[c] == w.chains[c]
    ensures PlayerOf(r.world, playerId, now).(rewardHistory := PlayerOf(w, playerId, now).rewardHistory, level := PlayerOf(w, playerId, now).level) ==
      PlayerOf(w, playerId, now)
    ensures r.world.rooms == w.rooms && r.world.db == w.db
    // only the player's observer hears of the change, through the chains' answers
    ensures OnlyTo(r.out, PlayerOf(w, playerId, now).observer)
    ensures LedgersGrow(w, r.world, now)
  {
    var p := PlayerOf(w, playerId, now);
    var change := PG.SetLevel(p, level);
    var w1 := w.(players := w.players[playerId := change.player]);
    var e := ReportProgress(w1, playerId, change.player.joinedTaskChains, change.event, now);
    KeptLedger(w, w1, playerId, change.player, now);
    LedgersGrowTransitive(w, w1, e.world, now);
    e
  }

  /** The fan-out from a world whose chains are those of `w` reaches each
      chain of a duplicate-free list once, starting from its state in `w`. */
  lemma FanOutReachesEach(w: World, w1: World, playerId: string, chains: seq<string>, ev: PG.ProgressEvent, now: int)
    requires NoDup(chains) && w1.chains == w.chains
    ensures var r := ReportProgress(w1, playerId, chains, ev, now);
      forall c :: c in chains ==>
        c in r.world.chains && r.world.chains[c] == TC.UpdateTaskProgress(ChainOf(w, c, now), playerId, ev.taskType, ev.targetId, ev.count, now).state
  {
    ReportProgressReachesEach(w1, playerId, chains, ev, now);
    assert forall c :: ChainOf(w1, c, now) == ChainOf(w, c, now);
  }

  /** Joining a new room sends every joined chain one `JoinChatRoom` event
      for that room, with count 1. */
  lemma JoinChatRoomReachesChains(w: World, playerId: string, roomId: string, now: int)
    requires roomId !in PlayerOf(w, playerId, now).joinedRooms && PG.Valid(PlayerOf(w, playerId, now))
    ensures var p := PlayerOf(w, playerId, now);
      var r := JoinChatRoom(w, playerId, roomId, now);
      forall c :: c in p.joinedTaskChains ==>
        c in r.world.chains && r.world.chains[c] == TC.UpdateTaskProgress(ChainOf(w, c, now), playerId, TaskType.JoinChatRoom, roomId, 1, now).state
  {
    var p := PlayerOf(w, playerId, now);
    var joined := CG.PlayerJoin(RoomOf(w, roomId), playerId, p.name, now);
    var p' := PG.AddRoom(p, roomId);
    var w1 := w.(rooms := w.rooms[roomId := joined.room], players := w.players[playerId := p']);
    FanOutReachesEach(w, w1, playerId, p'.joinedTaskChains, PG.ProgressEvent(TaskType.JoinChatRoom, roomId, 1), now);
  }

  /** Sending in a joined room sends every joined chain one `SendMessages`
      event with an empty target and count 1. */
  lemma SendMessageReachesChains(w: World, playerId: string, roomId: string, message: string, messageId: string, now: int)
    requires roomId in PlayerOf(w, playerId, now).joinedRooms && PG.Valid(PlayerOf(w, playerId, now))
    ensures var p := PlayerOf(w, playerId, now);
      var r := SendMessage(w, playerId, roomId, message, messageId, now);
      forall c :: c in p.joinedTaskChains ==>
        c in r.world.chains && r.world.chains[c] == TC.UpdateTaskProgress(ChainOf(w, c, now), playerId, SendMessages, "", 1, now).state
  {
    var p := PlayerOf(w, playerId, now);
    var sent := CG.SendPlayerMessage(RoomOf(w, roomId), w.db, playerId, p.name, message, messageId, now);
    var w1 := w.(db := sent.db, players := w.players[playerId := p]);
    FanOutReachesEach(w, w1, playerId, p.joinedTaskChains, PG.ProgressEvent(SendMessages, "", 1), now);
  }

  /** A level change sends every joined chain one `ReachLevel` event targeted
      at the new level in decimal, with count 1, whatever the old level was. */
  lemma SetLevelReachesChains(w: World, playerId: string, level: Int32, now: int)
    requires PG.Valid(PlayerOf(w, playerId, now))
    ensures var p := PlayerOf(w, playerId, now);
      var r := SetLevel(w, playerId, level, now);
      forall c :: c in p.joinedTaskChains ==>
        c in r.world.chains && r.world.chains[c] == TC.UpdateTaskProgress(ChainOf(w, c, now), playerId, ReachLevel, IntToString(level), 1, now).state
  {
    var p := PlayerOf(w, playerId, now);
    var change := PG.SetLevel(p, level);
    var w1 := w.(players := w.players[playerId := change.player]);
    FanOutReachesEach(w, w1, playerId, change.player.joinedTaskChains, change.event, now);
  }

  /** Joins a chain: on first join the chain creates the player's record;
      joining again changes nothing. */
  function JoinTaskChain(w: World, playerId: string, chainId: string, now: int): (r: Effects)
    ensures var p := PlayerOf(w, playerId, now);
      chainId in p.joinedTaskChains ==> r == Effects(Activated(w, playerId, now), [])
    ensures var p := PlayerOf(w, playerId, now);
      chainId !in p.joinedTaskChains ==>
        r.world.chains == w.chains[chainId := TC.GetPlayerProgress(ChainOf(w, chainId, now), playerId, now).state]
    ensures chainId in PlayerOf(r.world, playerId, now).joinedTaskChains
    ensures PG.Valid(PlayerOf(w, playerId, now)) ==> PG.Valid(PlayerOf(r.world, playerId, now))
    ensures r.out == [] && r.world.rooms == w.rooms && r.world.db == w.db
    ensures LedgersGrow(w, r.world, now)
  {
    var p := PlayerOf(w, playerId, now);
    var j := PG.JoinTaskChain(p, chainId);
    if !j.isNew then Effects(Activated(w, playerId, now), [])
    else
      var lk := TC.GetPlayerProgress(ChainOf(w, chainId, now), playerId, now);
      Effects(w.(players := w.players[playerId := j.player], chains := w.chains[chainId := lk.state]), [])
  }

  /** The presence announcement in each joined room, in join order. */
  function Announcements(w: World, rooms: seq<string>, notice: Notice): (r: seq<Outbound>)
    ensures |r| == |rooms|
    ensures forall i :: 0 <= i < |rooms| ==> r[i] == Announce(rooms[i], CG.SendNotification(RoomOf(w, rooms[i]), notice))
  {
    seq(|rooms|, i requires 0 <= i < |rooms| => Announce(rooms[i], CG.SendNotification(RoomOf(w, rooms[i]), notice)))
  }

  /** Announces the player as online in every joined room. The player's own
      online flag is written and never read, so no state changes. */
  function GoOnline(w: World, playerId: string, now: int): (r: Effects)
    ensures r.world == Activated(w, playerId, now)
    ensures var p := PlayerOf(w, playerId, now);
      && |r.out| == |p.joinedRooms|
      && forall i :: 0 <= i < |r.out| ==>
           r.out[i].Announce? && r.out[i].roomId == p.joinedRooms[i] &&
           forall d :: d in r.out[i].deliveries <==>
             d.to in RoomOf(w, p.joinedRooms[i]).subscribers && d.payload == ChatNotification(PlayerOnline(p.name))
  {
    var p := PlayerOf(w, playerId, now);
    Effects(Activated(w, playerId, now), Announcements(w, p.joinedRooms, PlayerOnline(p.name)))
  }

  /** Announces the player as offline in every joined room. */
  function GoOffline(w: World, playerId: string, now: int): (r: Effects)
    ensures r.world == Activated(w, playerId, now)
    ensures var p := PlayerOf(w, playerId, now);
      && |r.out| == |p.joinedRooms|
      && forall i :: 0 <= i < |r.out| ==>
           r.out[i].Announce? && r.out[i].roomId == p.joinedRooms[i] &&
           forall d :: d in r.out[i].deliveries <==>
             d.to in RoomOf(w, p.joinedRooms[i]).subscribers && d.payload == ChatNotification(PlayerOffline(p.name))
  {
    var p := PlayerOf(w, playerId, now);
    Effects(Activated(w, playerId, now), Announcements(w, p.joinedRooms, PlayerOffline(p.name)))
  }

  /** A client's forced completion on a chain grain: the chain's step, its
      grants credited to the ledger, and the completion notice when it
      finishes the chain. */
  function CompleteTask(w: World, playerId: string, chainId: string, taskId: Int32, now: int): (r: Answer<CompletionResult>)
    ensures var step := TC.CompleteTask(ChainOf(w, chainId, now), playerId, taskId, now);
      && r.value == step.result
      && r.world.chains == w.chains[chainId := step.state]
      && PG.GetRewardHistory(PlayerOf(r.world, playerId, now)) == PG.GetRewardHistory(PlayerOf(w, playerId, now)) + step.granted
      && r.out == Directs(if step.notified then PG.NotifyTaskChainCompleted(PlayerOf(w, playerId, now), chainId) else [])
    ensures r.world.rooms == w.rooms && r.world.db == w.db
    ensures LedgersGrow(w, r.world, now)
  {
    var step := TC.CompleteTask(ChainOf(w, chainId, now), playerId, taskId, now);
    var w1 := Credit(w, playerId, step.granted, now).(chains := w.chains[chainId := step.state]);
    var notices := if step.notified then PG.NotifyTaskChainCompleted(PlayerOf(w, playerId, now), chainId) else [];
    Answer(w1, Directs(notices), step.result)
  }

  /** A client's claim on a chain grain: what it returns is what the ledger
      is credited with. */
  function ClaimFinalRewards(w: World, playerId: string, chainId: string, now: int): (r: Answer<seq<Reward>>)
    ensures var claim := TC.ClaimFinalRewards(ChainOf(w, chainId, now), playerId, now);
      && r.value == claim.rewards
      && r.world.chains == w.chains[chainId := claim.state]
    ensures PG.GetRewardHistory(PlayerOf(r.world, playerId, now)) == PG.GetRewardHistory(PlayerOf(w, playerId, now)) + r.value
    ensures r.out == [] && r.world.rooms == w.rooms && r.world.db == w.db
    ensures LedgersGrow(w, r.world, now)
  {
    var claim := TC.ClaimFinalRewards(ChainOf(w, chainId, now), playerId, now);
    Answer(Credit(w, playerId, claim.rewards, now).(chains := w.chains[chainId := claim.state]), [], claim.rewards)
  }

  /** A client's reset of one player's record on a chain grain. */
  function ResetPlayerProgress(w: World, playerId: string, chainId: string, now: int): (r: World)
    ensures chainId in r.chains && r.chains[chainId].info == ChainOf(w, chainId, now).info
    ensures playerId !in r.chains[chainId].progress
    ensures forall q :: q != playerId ==>
      (q in r.chains[chainId].progress <==> q in ChainOf(w, chainId, now).progress)
    ensures forall q :: q in r.chains[chainId].progress ==>
      r.chains[chainId].progress[q] == ChainOf(w, chainId, now).progress[q]
    ensures forall c :: c != chainId ==> (c in r.chains <==> c in w.chains)
    ensures forall c :: c != chainId && c in w.chains ==> r.chains[c] == w.chains[c]
    ensures r.players == w.players && r.rooms == w.rooms && r.db == w.db
  {
    w.(chains := w.chains[chainId := TC.ResetPlayerProgress(ChainOf(w, chainId, now), playerId)])
  }
}
