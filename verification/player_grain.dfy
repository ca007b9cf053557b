/**
 A player grain's own state: name, the optional observer that makes the
 player online, the joined rooms and joined chains (sets, kept in join
 order), the level and the append-only reward ledger. The calls a player
 makes on rooms and chains are composed in the cluster module; this module
 holds the local half of each operation.
 */
module PlayerGrain {
  import opened Common
  import opened SharedModels
  import opened Observers

  datatype PlayerState = PlayerState(
    id: string,
    name: string,
    joinTime: int,
    observer: Option<ObserverRef>,
    joinedRooms: seq<string>,
    rewardHistory: seq<Reward>,
    joinedTaskChains: seq<string>,
    level: Int32)

  /** A progress event a player reports to each of its chains. */
  datatype ProgressEvent = ProgressEvent(taskType: TaskType, targetId: string, count: Int32)

  /** The local result of joining a chain: the player after, and whether the
      chain was new to it. */
  datatype ChainJoin = ChainJoin(player: PlayerState, isNew: bool)

  /** The result of a level change: the player after, and the event it reports. */
  datatype LevelChange = LevelChange(player: PlayerState, event: ProgressEvent)

  /** Sets and lists of the player are duplicate-free. */
  predicate Valid(p: PlayerState) {
    NoDup(p.joinedRooms) && NoDup(p.joinedTaskChains)
  }

  /** A freshly activated player: level 1, no name, offline, no rooms, no
      chains, an empty ledger. */
  function NewPlayer(id: string, now: int): (p: PlayerState)
    ensures p.id == id && p.joinTime == now && p.level == 1 && p.name == ""
    ensures p.observer == None && p.joinedRooms == [] && p.joinedTaskChains == [] && p.rewardHistory == []
    ensures Valid(p)
  {
    PlayerState(id, "", now, None, [], [], [], 1)
  }

  function GetName(p: PlayerState): string {
    p.name
  }

  function SetName(p: PlayerState, name: string): (r: PlayerState)
    ensures GetName(r) == name
    ensures r.(name := p.name) == p
  {
    p.(name := name)
  }

  /** The snapshot reported to callers: online exactly when an observer is bound. */
  function GetPlayerInfo(p: PlayerState): (info: PlayerInfo)
    ensures info.isOnline <==> p.observer.Some?
    ensures info.id == p.id && info.name == p.name && info.joinTime == p.joinTime
    ensures info.joinedRooms == p.joinedRooms
  {
    PlayerInfo(p.id, p.name, p.joinTime, p.joinedRooms, p.observer.Some?)
  }

  function SetObserver(p: PlayerState, o: ObserverRef): (r: PlayerState)
    ensures GetPlayerInfo(r).isOnline && r.observer == Some(o)
    ensures r.(observer := p.observer) == p
  {
    p.(observer := Some(o))
  }

  function RemoveObserver(p: PlayerState): (r: PlayerState)
    ensures !GetPlayerInfo(r).isOnline
    ensures r.(observer := p.observer) == p
  {
    p.(observer := None)
  }

  function GetRewardHistory(p: PlayerState): seq<Reward> {
    p.rewardHistory
  }

  /** Appends one reward to the ledger; nothing else changes. */
  function AddReward(p: PlayerState, reward: Reward): (r: PlayerState)
    ensures GetRewardHistory(r) == GetRewardHistory(p) + [reward]
    ensures r.(rewardHistory := p.rewardHistory) == p
  {
    p.(rewardHistory := p.rewardHistory + [reward])
  }

  /** One `AddReward` per reward, in list order: the ledger grows by exactly
      the list. */
  function GiveRewards(p: PlayerState, rewards: seq<Reward>): (r: PlayerState)
    ensures GetRewardHistory(r) == GetRewardHistory(p) + rewards
    ensures r.(rewardHistory := p.rewardHistory) == p
    decreases |rewards|
  {
    if |rewards| == 0 then p
    else
      var r := GiveRewards(AddReward(p, rewards[0]), rewards[1..]);
      assert rewards == [rewards[0]] + rewards[1..];
      r
  }

  /** The ledger read back holds every earlier entry first, then each later
      grant in grant order: granting never drops or reorders an entry. */
  lemma RewardHistoryKeepsGrantOrder(p: PlayerState, a: seq<Reward>, b: seq<Reward>)
    ensures GetRewardHistory(p) <= GetRewardHistory(GiveRewards(p, a))
    ensures GetRewardHistory(GiveRewards(GiveRewards(p, a), b)) == GetRewardHistory(p) + a + b
  {
  }

  /** The chain-completion notice, sent to the observer when one is bound. */
  function NotifyTaskChainCompleted(p: PlayerState, chainId: string): (r: seq<Delivery>)
    ensures p.observer.None? ==> r == []
    ensures p.observer.Some? ==> r == [Delivery(p.observer.value, ChatNotification(ChainCompletedBy(chainId)))]
    ensures forall i :: 0 <= i < |r| ==> p.observer == Some(r[i].to)
  {
    match p.observer
    case None => []
    case Some(o) => [Delivery(o, ChatNotification(ChainCompletedBy(chainId)))]
  }

  /** What the observer hears about one chain's answer to a progress event: a
      successful result is reported, followed, when it completed the chain,
      by the prompt to claim the final rewards. Failures and an unbound
      observer produce nothing. */
  function ProgressNotices(p: PlayerState, result: CompletionResult): (r: seq<Delivery>)
    ensures (p.observer.None? || result.Failed?) ==> r == []
    ensures p.observer.Some? && result.Success() ==>
      && |r| == (if result.ChainCompleted() then 2 else 1)
      && r[0] == Delivery(p.observer.value, ChatNotification(TaskUpdate(result)))
      && (result.ChainCompleted() ==> r[1] == Delivery(p.observer.value, ChatNotification(FinalRewardsClaimable)))
    ensures forall i :: 0 <= i < |r| ==> p.observer == Some(r[i].to)
  {
    match p.observer
    case None => []
    case Some(o) =>
      if !result.Success() then []
      else
        [Delivery(o, ChatNotification(TaskUpdate(result)))] +
        (if result.ChainCompleted() then [Delivery(o, ChatNotification(FinalRewardsClaimable))] else [])
  }

  /** Sets the level unconditionally (lower levels too) and reports one
      `ReachLevel` event whose target is the level in decimal and whose count
      is 1, however far the level moved. */
  function SetLevel(p: PlayerState, level: Int32): (r: LevelChange)
    ensures GetLevel(r.player) == level
    ensures r.player.(level := p.level) == p
    ensures r.event.taskType == ReachLevel && r.event.count == 1
    ensures ParseInt(r.event.targetId) == level
    ensures forall other: int :: other != level ==> IntToString(other) != r.event.targetId
  {
    ParseIntToString(level);
    assert forall other: int :: other != level ==> IntToString(other) != IntToString(level) by {
      forall other: int | other != level {
        IntToStringInjective(other, level);
      }
    }
    LevelChange(p.(level := level), ProgressEvent(ReachLevel, IntToString(level), 1))
  }

  function GetLevel(p: PlayerState): Int32 {
    p.level
  }

  function GetJoinedRooms(p: PlayerState): seq<string> {
    p.joinedRooms
  }

  function GetJoinedTaskChains(p: PlayerState): seq<string> {
    p.joinedTaskChains
  }

  /** The joined-rooms set after joining `roomId`. */
  function AddRoom(p: PlayerState, roomId: string): (r: PlayerState)
    ensures forall x :: x in r.joinedRooms <==> x in p.joinedRooms || x == roomId
    ensures roomId in p.joinedRooms ==> r == p
    ensures Valid(p) ==> Valid(r)
    ensures r.(joinedRooms := p.joinedRooms) == p
  {
    if roomId in p.joinedRooms then p else p.(joinedRooms := p.joinedRooms + [roomId])
  }

  /** The joined-rooms set after leaving `roomId`. */
  function RemoveRoom(p: PlayerState, roomId: string): (r: PlayerState)
    ensures forall x :: x in r.joinedRooms <==> x in p.joinedRooms && x != roomId
    ensures roomId !in p.joinedRooms ==> r == p
    ensures Valid(p) ==> Valid(r)
    ensures r.(joinedRooms := p.joinedRooms) == p
  {
    var r := p.(joinedRooms := Without(p.joinedRooms, roomId));
    assert Valid(p) ==> Valid(r) by {
      if Valid(p) {
        WithoutNoDup(p.joinedRooms, roomId);
      }
    }
    r
  }

  /** Leaving a room just joined restores the player. */
  lemma LeaveUndoesJoin(p: PlayerState, roomId: string)
    requires roomId !in p.joinedRooms
    ensures RemoveRoom(AddRoom(p, roomId), roomId) == p
  {
    WithoutAppended(p.joinedRooms, roomId);
  }

  /** `HashSet.Add` on the joined chains: reports whether the chain was new. */
  function JoinTaskChain(p: PlayerState, chainId: string): (r: ChainJoin)
    ensures r.isNew <==> chainId !in p.joinedTaskChains
    ensures forall x :: x in r.player.joinedTaskChains <==> x in p.joinedTaskChains || x == chainId
    ensures !r.isNew ==> r.player == p
    ensures Valid(p) ==> Valid(r.player)
    ensures r.player.(joinedTaskChains := p.joinedTaskChains) == p
  {
    if chainId in p.joinedTaskChains then ChainJoin(p, false)
    else ChainJoin(p.(joinedTaskChains := p.joinedTaskChains + [chainId]), true)
  }
}
