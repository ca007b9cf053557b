/**
 The newbie chain played through. Joining a room completes task 1, ten chat
 lines complete task 2, and five level changes complete task 3 and with it
 the chain. The level task counts level changes: its target is empty, so
 the level reported does not matter.
 */
module NewbieScenario {
  import opened Common
  import opened Seqs
  import opened SharedModels
  import opened Catalog
  import opened TaskChainGrain
  import opened TaskChainProofs
  import PG = PlayerGrain
  import Cluster

  /** The newbie catalog lists ids 1, 2, 3 in ascending order. */
  lemma NewbieIds()
    ensures |NEWBIE_TASKS| == 3
    ensures NEWBIE_TASKS[0].taskId == 1 && NEWBIE_TASKS[1].taskId == 2 && NEWBIE_TASKS[2].taskId == 3
    ensures StrictlySortedBy(NEWBIE_TASKS, TaskIdKey)
  {
  }

  /** The newbie tasks follow each other in catalog order, and each id finds
      its own task. */
  lemma NewbieSuccessors()
    ensures NextTask(NEWBIE_TASKS, 1) == Some(NEWBIE_TASKS[1])
    ensures NextTask(NEWBIE_TASKS, 2) == Some(NEWBIE_TASKS[2])
    ensures NextTask(NEWBIE_TASKS, 3) == None
  {
    NewbieIds();
    NextInStrictCatalog(NEWBIE_TASKS, 0);
    NextInStrictCatalog(NEWBIE_TASKS, 1);
    NextInStrictCatalog(NEWBIE_TASKS, 2);
  }

  /** A player's first access to the newbie chain creates a record at task 1. */
  lemma NewbieStart(activatedAt: int, playerId: string, now: int)
    ensures var lk := GetPlayerProgress(Activate("newbie-chain", activatedAt), playerId, now);
      && lk.progress == TaskProgress(playerId, "newbie-chain", 1, 0, [], false, now, None)
      && lk.state.info.tasks == NEWBIE_TASKS && lk.state.info.finalRewards == NEWBIE_FINAL_REWARDS
      && lk.state.progress == map[playerId := lk.progress]
  {
    var s := NEWBIE_TASKS;
    assert forall t :: t in s ==> t == s[0] || t == s[1] || t == s[2];
    assert s[0] in s;
  }

  /** Joining a room completes task 1 of a record standing at it: its rewards
      are granted and task 2 becomes current. */
  lemma JoinCompletesFirstTask(g: ChainState, playerId: string, roomId: string, now: int)
    requires g.info.tasks == NEWBIE_TASKS && playerId in g.progress
    requires var p := g.progress[playerId];
      p.currentTaskId == 1 && p.currentProgress == 0 && !p.isChainCompleted
    ensures var p := g.progress[playerId];
      UpdateTaskProgress(g, playerId, TaskType.JoinChatRoom, roomId, 1, now) ==
        Step(Put(g, playerId, p.(currentTaskId := 2, completedTasks := p.completedTasks + [1])),
          Advanced(NEWBIE_TASKS[0].rewards, NEWBIE_TASKS[1]), NEWBIE_TASKS[0].rewards, false)
  {
    NewbieSuccessors();
    assert FindTask(NEWBIE_TASKS, 1) == Some(NEWBIE_TASKS[0]);
    UpdateOnceCompletes(g, playerId, NEWBIE_TASKS[0], TaskType.JoinChatRoom, roomId, now);
  }

  /** Nine chat lines on a fresh counter of task 2 raise it to 9 and grant
      nothing. */
  lemma NineMessagesProgress(g: ChainState, playerId: string, now: int)
    requires g.info.tasks == NEWBIE_TASKS && playerId in g.progress
    requires var p := g.progress[playerId];
      p.currentTaskId == 2 && !p.isChainCompleted
    ensures var p := g.progress[playerId];
      UpdateTimes(Put(g, playerId, p.(currentProgress := 0)), playerId, SendMessages, "", 9, now) ==
        Step(Put(g, playerId, p.(currentProgress := 9)), Progressed(9, 10), [], false)
  {
    assert FindTask(NEWBIE_TASKS, 2) == Some(NEWBIE_TASKS[1]);
    UpdateTimesBelowThreshold(g, playerId, NEWBIE_TASKS[1], SendMessages, "", 0, 9, now);
  }

  /** The tenth chat line completes task 2: its rewards are granted and task 3
      becomes current with a fresh counter. */
  lemma TenthMessageCompletesSecondTask(g: ChainState, playerId: string, now: int)
    requires g.info.tasks == NEWBIE_TASKS && playerId in g.progress
    requires var p := g.progress[playerId];
      p.currentTaskId == 2 && p.currentProgress == 9 && !p.isChainCompleted
    ensures var p := g.progress[playerId];
      UpdateTaskProgress(g, playerId, SendMessages, "", 1, now) ==
        Step(Put(g, playerId, p.(currentTaskId := 3, currentProgress := 0, completedTasks := p.completedTasks + [2])),
          Advanced(NEWBIE_TASKS[1].rewards, NEWBIE_TASKS[2]), NEWBIE_TASKS[1].rewards, false)
  {
    NewbieSuccessors();
    assert FindTask(NEWBIE_TASKS, 2) == Some(NEWBIE_TASKS[1]);
    UpdateOnceCompletes(g, playerId, NEWBIE_TASKS[1], SendMessages, "", now);
  }

  /** One level change, to any level, raises a counter of task 3 below 4 by
      one and grants nothing. */
  lemma LevelChangeCounts(g: ChainState, playerId: string, level: string, c: Int32, now: int)
    requires g.info.tasks == NEWBIE_TASKS && playerId in g.progress
    requires var p := g.progress[playerId];
      p.currentTaskId == 3 && !p.isChainCompleted
    requires 0 <= c < 4
    ensures var p := g.progress[playerId];
      UpdateTaskProgress(Put(g, playerId, p.(currentProgress := c)), playerId, ReachLevel, level, 1, now) ==
        Step(Put(g, playerId, p.(currentProgress := c + 1)), Progressed(c + 1, 5), [], false)
  {
    var p := g.progress[playerId];
    assert FindTask(NEWBIE_TASKS, 3) == Some(NEWBIE_TASKS[2]);
    UpdateCountsOne(g, playerId, NEWBIE_TASKS[2], ReachLevel, level, now);
    assert UpdateOnce(playerId, ReachLevel, level, now)(Put(g, playerId, p.(currentProgress := c))) ==
      Step(Put(g, playerId, p.(currentProgress := c + 1)), Progressed(c + 1, 5), [], false);
  }

  /** Four level changes to different levels (2, 3, 4 and 5, reported in
      decimal), on a fresh counter of task 3, raise it to 4 without completing
      the task: each change counts once, whatever its level. */
  lemma FourLevelChangesProgress(g: ChainState, playerId: string, now: int)
    requires g.info.tasks == NEWBIE_TASKS && playerId in g.progress
    requires var p := g.progress[playerId];
      p.currentTaskId == 3 && !p.isChainCompleted
    ensures var p := g.progress[playerId];
      var s1 := UpdateTaskProgress(Put(g, playerId, p.(currentProgress := 0)), playerId, ReachLevel, IntToString(2), 1, now);
      var s2 := UpdateTaskProgress(s1.state, playerId, ReachLevel, IntToString(3), 1, now);
      var s3 := UpdateTaskProgress(s2.state, playerId, ReachLevel, IntToString(4), 1, now);
      var s4 := UpdateTaskProgress(s3.state, playerId, ReachLevel, IntToString(5), 1, now);
      && s4.state == Put(g, playerId, p.(currentProgress := 4))
      && s4.result == Progressed(4, 5)
      && s1.granted + s2.granted + s3.granted + s4.granted == []
      && !(s1.notified || s2.notified || s3.notified || s4.notified)
  {
    LevelChangeCounts(g, playerId, IntToString(2), 0, now);
    LevelChangeCounts(g, playerId, IntToString(3), 1, now);
    LevelChangeCounts(g, playerId, IntToString(4), 2, now);
    LevelChangeCounts(g, playerId, IntToString(5), 3, now);
  }

  /** A fifth level change, again to any level, completes task 3 and with it
      the chain; the completion time is stamped and the player is notified. */
  lemma FifthLevelChangeFinishesChain(g: ChainState, playerId: string, level: string, now: int)
    requires g.info.tasks == NEWBIE_TASKS && playerId in g.progress
    requires var p := g.progress[playerId];
      p.currentTaskId == 3 && p.currentProgress == 4 && !p.isChainCompleted
    ensures var p := g.progress[playerId];
      UpdateTaskProgress(g, playerId, ReachLevel, level, 1, now) ==
        Step(Put(g, playerId, p.(currentProgress := 5, completedTasks := p.completedTasks + [3],
                                isChainCompleted := true, completedTime := Some(now))),
          ChainFinished(NEWBIE_TASKS[2].rewards), NEWBIE_TASKS[2].rewards, true)
  {
    NewbieSuccessors();
    assert FindTask(NEWBIE_TASKS, 3) == Some(NEWBIE_TASKS[2]);
    UpdateOnceCompletes(g, playerId, NEWBIE_TASKS[2], ReachLevel, level, now);
  }

  /** Through the player grain: joining a new room moves a newbie record
      standing at task 1 of a joined newbie chain to task 2. */
  lemma JoinChatRoomAdvancesNewbie(w: Cluster.World, playerId: string, roomId: string, now: int)
    requires var p := Cluster.PlayerOf(w, playerId, now);
      roomId !in p.joinedRooms && PG.Valid(p) && "newbie-chain" in p.joinedTaskChains
    requires var g := Cluster.ChainOf(w, "newbie-chain", now);
      && g.info.tasks == NEWBIE_TASKS && playerId in g.progress
      && g.progress[playerId].currentTaskId == 1 && g.progress[playerId].currentProgress == 0
      && !g.progress[playerId].isChainCompleted
    ensures var r := Cluster.JoinChatRoom(w, playerId, roomId, now);
      var p := Cluster.ChainOf(w, "newbie-chain", now).progress[playerId];
      && "newbie-chain" in r.world.chains && playerId in r.world.chains["newbie-chain"].progress
      && r.world.chains["newbie-chain"].progress[playerId] ==
           p.(currentTaskId := 2, completedTasks := p.completedTasks + [1])
  {
    var g := Cluster.ChainOf(w, "newbie-chain", now);
    Cluster.JoinChatRoomReachesChains(w, playerId, roomId, now);
    JoinCompletesFirstTask(g, playerId, roomId, now);
  }
}
