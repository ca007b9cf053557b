/**
 The task-chain grain: one immutable chain template and a map from player id
 to that player's progress record. Every operation is a pure transition that
 returns the new grain state together with the rewards it grants to the
 player's ledger (in grant order) and whether it notified the player that the
 chain is complete.
 */
module TaskChainGrain {
  import opened Common
  import opened Seqs
  import opened SharedModels
  import Catalog

  datatype ChainState = ChainState(info: TaskChainInfo, progress: map<string, TaskProgress>)

  /** The result of a transition that reports a completion result. */
  datatype Step = Step(state: ChainState, result: CompletionResult, granted: seq<Reward>, notified: bool)

  /** The result of reading a player's record, which creates it when absent. */
  datatype Lookup = Lookup(state: ChainState, progress: TaskProgress)

  /** The result of claiming the final rewards: the list returned to the
      caller, which is also the list granted. */
  datatype Claim = Claim(state: ChainState, rewards: seq<Reward>)

  /** Activation: the template loaded for the grain's key, no progress yet. */
  function Activate(chainId: string, now: int): (g: ChainState)
    ensures g.info.chainId == chainId
    ensures |g.info.tasks| > 0 && Catalog.UniqueTaskIds(g.info.tasks)
    ensures g.progress == map[]
  {
    ChainState(Catalog.LoadTaskChainDefinition(chainId, now), map[])
  }

  function TaskIdKey(t: TaskDefinition): int {
    t.taskId
  }

  /** The tasks in ascending id order, ties kept in catalog order. */
  function OrderedTasks(tasks: seq<TaskDefinition>): seq<TaskDefinition> {
    SortBy(tasks, TaskIdKey)
  }

  lemma OrderedTasksMembers(tasks: seq<TaskDefinition>)
    ensures forall t :: t in OrderedTasks(tasks) <==> t in tasks
  {
    var s := OrderedTasks(tasks);
    assert multiset(s) == multiset(tasks);
    forall t ensures t in s <==> t in tasks {
      assert t in s <==> t in multiset(s);
      assert t in tasks <==> t in multiset(tasks);
    }
  }

  /** The first task in id order: a task of the catalog with the least id. */
  function FirstTask(tasks: seq<TaskDefinition>): (r: Option<TaskDefinition>)
    ensures r.None? <==> |tasks| == 0
    ensures r.Some? ==> r.value in tasks
    ensures r.Some? ==> forall t :: t in tasks ==> r.value.taskId <= t.taskId
  {
    var s := OrderedTasks(tasks);
    OrderedTasksMembers(tasks);
    if |s| == 0 then None
    else
      assert forall t :: t in tasks ==> s[0].taskId <= t.taskId by {
        forall t | t in tasks ensures s[0].taskId <= t.taskId {
          assert t in s;
          var k :| 0 <= k < |s| && s[k] == t;
          assert k == 0 || TaskIdKey(s[0]) <= TaskIdKey(s[k]);
        }
      }
      Some(s[0])
  }

  /** A fresh record: anchored at the least task id (0 for an empty catalog),
      counter 0, nothing completed, not completed, started now. */
  function NewProgress(info: TaskChainInfo, playerId: string, now: int): (p: TaskProgress)
    ensures p.playerId == playerId && p.chainId == info.chainId
    ensures p.currentProgress == 0 && p.completedTasks == [] && !p.isChainCompleted
    ensures p.startTime == now && p.completedTime == None
    ensures |info.tasks| == 0 ==> p.currentTaskId == 0
    ensures |info.tasks| > 0 ==> exists t :: t in info.tasks && t.taskId == p.currentTaskId
    ensures forall t :: t in info.tasks ==> p.currentTaskId <= t.taskId
  {
    var first := FirstTask(info.tasks);
    TaskProgress(playerId, info.chainId, if first.Some? then first.value.taskId else 0,
      0, [], false, now, None)
  }

  /** The player's record, created and stored on first access. */
  function GetPlayerProgress(g: ChainState, playerId: string, now: int): (r: Lookup)
    ensures r.state.info == g.info
    ensures r.state.progress == g.progress[playerId := r.progress]
    ensures playerId in g.progress ==> r.state == g && r.progress == g.progress[playerId]
    ensures playerId !in g.progress ==> r.progress == NewProgress(g.info, playerId, now)
  {
    if playerId in g.progress then Lookup(g, g.progress[playerId])
    else
      var p := NewProgress(g.info, playerId, now);
      Lookup(g.(progress := g.progress[playerId := p]), p)
  }

  /** The first task of the catalog (in catalog order) with the given id. */
  function FindTask(tasks: seq<TaskDefinition>, taskId: int): (r: Option<TaskDefinition>)
    ensures r.Some? <==> exists t :: t in tasks && t.taskId == taskId
    ensures r.Some? ==> r.value in tasks && r.value.taskId == taskId
  {
    if |tasks| == 0 then None
    else if tasks[0].taskId == taskId then Some(tasks[0])
    else
      assert tasks == [tasks[0]] + tasks[1..];
      FindTask(tasks[1..], taskId)
  }

  /** Position of the first element with the given id, or -1. */
  function IndexOfId(s: seq<TaskDefinition>, taskId: int): (i: int)
    ensures -1 <= i < |s|
    ensures i >= 0 ==> s[i].taskId == taskId
    ensures forall j :: 0 <= j < |s| && (i < 0 || j < i) ==> s[j].taskId != taskId
  {
    if |s| == 0 then -1
    else if s[0].taskId == taskId then 0
    else
      var i := IndexOfId(s[1..], taskId);
      if i < 0 then -1 else i + 1
  }

  /** The task after the one with the given id, in id order; none when the id
      is absent or is the last. */
  function NextTask(tasks: seq<TaskDefinition>, taskId: int): (r: Option<TaskDefinition>)
    ensures r.Some? ==> r.value in tasks && r.value.taskId >= taskId
  {
    var s := OrderedTasks(tasks);
    var i := IndexOfId(s, taskId);
    OrderedTasksMembers(tasks);
    if 0 <= i < |s| - 1 then
      assert TaskIdKey(s[i]) <= TaskIdKey(s[i + 1]);
      Some(s[i + 1])
    else None
  }

  function Put(g: ChainState, playerId: string, p: TaskProgress): ChainState {
    g.(progress := g.progress[playerId := p])
  }

  /** Completes `task` for a record whose counter has reached it: the id joins
      the completed list and the task's rewards are granted; the next task in
      id order becomes current with a zero counter, or, when there is none,
      the record is marked complete and the player notified. */
  function CompleteCurrentTask(g: ChainState, playerId: string, p: TaskProgress, task: TaskDefinition, now: int): (r: Step)
    ensures r.state.info == g.info
    ensures r.state.progress.Keys == g.progress.Keys + {playerId}
    ensures forall q :: q in g.progress && q != playerId ==> r.state.progress[q] == g.progress[q]
    ensures var p' := r.state.progress[playerId];
      && p'.completedTasks == p.completedTasks + [task.taskId]
      && r.granted == task.rewards
      && p'.playerId == p.playerId && p'.chainId == p.chainId && p'.startTime == p.startTime
    ensures var p' := r.state.progress[playerId];
      match NextTask(g.info.tasks, task.taskId)
      case Some(next) =>
        && r.result == Advanced(task.rewards, next)
        && p'.currentTaskId == next.taskId && p'.currentProgress == 0
        && p'.isChainCompleted == p.isChainCompleted && p'.completedTime == p.completedTime
        && !r.notified
      case None =>
        && r.result == ChainFinished(task.rewards)
        && p'.currentTaskId == p.currentTaskId && p'.currentProgress == p.currentProgress
        && p'.isChainCompleted && p'.completedTime == Some(now)
        && r.notified
  {
    var done := p.(completedTasks := p.completedTasks + [task.taskId]);
    match NextTask(g.info.tasks, task.taskId)
    case Some(next) =>
      Step(Put(g, playerId, done.(currentTaskId := next.taskId, currentProgress := 0)),
        Advanced(task.rewards, next), task.rewards, false)
    case None =>
      Step(Put(g, playerId, done.(isChainCompleted := true, completedTime := Some(now))),
        ChainFinished(task.rewards), task.rewards, true)
  }

  /** True when the event counts for `task`: same type, and the task either
      has no target filter or names exactly this target. */
  predicate Matches(task: TaskDefinition, taskType: TaskType, targetId: string) {
    task.taskType == taskType && (task.targetId == "" || task.targetId == targetId)
  }

  /** An accepted event on `task`, the record's current task: the counter
      grows by `count` without clamping (32-bit wrap-around); at the threshold
      the task is completed. */
  function Count(g: ChainState, playerId: string, p: TaskProgress, task: TaskDefinition, count: Int32, now: int): (r: Step)
    ensures r.state.info == g.info
    ensures r.state.progress.Keys == g.progress.Keys + {playerId}
    ensures forall q :: q in g.progress && q != playerId ==> r.state.progress[q] == g.progress[q]
    ensures r.result.Success()
    ensures AddInt32(p.currentProgress, count) < task.requiredCount ==>
      && r.result == Progressed(AddInt32(p.currentProgress, count), task.requiredCount)
      && r.state.progress[playerId] == p.(currentProgress := AddInt32(p.currentProgress, count))
      && r.granted == [] && !r.notified
    ensures AddInt32(p.currentProgress, count) >= task.requiredCount ==>
      r == CompleteCurrentTask(g, playerId, p.(currentProgress := AddInt32(p.currentProgress, count)), task, now)
    ensures AddInt32(p.currentProgress, count) >= task.requiredCount ==>
      && (r.result.Advanced? || r.result.ChainFinished?)
      && (r.result.ChainFinished? <==> NextTask(g.info.tasks, task.taskId).None?)
      && r.state.progress[playerId].completedTasks == p.completedTasks + [task.taskId]
      && r.granted == task.rewards && r.result.earnedRewards == task.rewards
  {
    var counted := p.(currentProgress := AddInt32(p.currentProgress, count));
    if counted.currentProgress >= task.requiredCount then
      CompleteCurrentTask(g, playerId, counted, task, now)
    else
      Step(Put(g, playerId, counted), Progressed(counted.currentProgress, task.requiredCount), [], false)
  }

  /** Reports `count` events of `taskType` on `targetId` for the player. */
  function UpdateTaskProgress(g: ChainState, playerId: string, taskType: TaskType, targetId: string, count: Int32, now: int): (r: Step)
    ensures r.state.info == g.info
    ensures r.state.progress.Keys == g.progress.Keys + {playerId}
    ensures forall q :: q in g.progress && q != playerId ==> r.state.progress[q] == g.progress[q]
    // a refused event changes nothing beyond creating the record, and grants nothing
    ensures r.result.Failed? ==> r.state == GetPlayerProgress(g, playerId, now).state && r.granted == [] && !r.notified
    ensures var p := GetPlayerProgress(g, playerId, now).progress;
      p.isChainCompleted ==> r.result == Failed(ChainAlreadyCompleted)
    ensures var p := GetPlayerProgress(g, playerId, now).progress;
      !p.isChainCompleted && (forall t :: t in g.info.tasks ==> t.taskId != p.currentTaskId)
      ==> r.result == Failed(CurrentTaskNotFound)
    ensures var p := GetPlayerProgress(g, playerId, now).progress;
      !p.isChainCompleted && FindTask(g.info.tasks, p.currentTaskId).Some? ==>
        var task := FindTask(g.info.tasks, p.currentTaskId).value;
        && (task.taskType != taskType ==> r.result == Failed(TypeMismatch(task.taskType, taskType)))
        && (task.taskType == taskType && task.targetId != "" && task.targetId != targetId ==>
              r.result == Failed(TargetMismatch(task.targetId, targetId)))
        && (Matches(task, taskType, targetId) ==> r.result.Success())
    // an accepted event adds `count` to the counter, unclamped (32-bit wrap-around)
    ensures var p := GetPlayerProgress(g, playerId, now).progress;
      r.result.Progressed? ==>
        var p' := r.state.progress[playerId];
        && p' == p.(currentProgress := AddInt32(p.currentProgress, count))
        && p'.currentProgress < r.result.required
        && r.result.counter == p'.currentProgress
        && r.granted == [] && !r.notified
    ensures var p := GetPlayerProgress(g, playerId, now).progress;
      (r.result.Advanced? || r.result.ChainFinished?) ==>
        var task := FindTask(g.info.tasks, p.currentTaskId).value;
        && AddInt32(p.currentProgress, count) >= task.requiredCount
        && (r.result.ChainFinished? <==> NextTask(g.info.tasks, p.currentTaskId).None?)
        && r.state.progress[playerId].completedTasks == p.completedTasks + [p.currentTaskId]
        && r.granted == task.rewards && r.result.earnedRewards == task.rewards
    // ... and the completion is exactly `CompleteCurrentTask` on the counted record
    ensures var lk := GetPlayerProgress(g, playerId, now);
      (r.result.Advanced? || r.result.ChainFinished?) ==>
        r == CompleteCurrentTask(lk.state, playerId, lk.progress.(currentProgress := AddInt32(lk.progress.currentProgress, count)),
               FindTask(g.info.tasks, lk.progress.currentTaskId).value, now)
    // a matching event on an unfinished record is counted: completion exactly at the threshold
    ensures var lk := GetPlayerProgress(g, playerId, now);
      !lk.progress.isChainCompleted && FindTask(g.info.tasks, lk.progress.currentTaskId).Some?
      && Matches(FindTask(g.info.tasks, lk.progress.currentTaskId).value, taskType, targetId) ==>
        r == Count(lk.state, playerId, lk.progress, FindTask(g.info.tasks, lk.progress.currentTaskId).value, count, now)
  {
    var lk := GetPlayerProgress(g, playerId, now);
    var p := lk.progress;
    if p.isChainCompleted then Step(lk.state, Failed(ChainAlreadyCompleted), [], false)
    else match FindTask(g.info.tasks, p.currentTaskId)
      case None => Step(lk.state, Failed(CurrentTaskNotFound), [], false)
      case Some(task) =>
        if task.taskType != taskType then
          Step(lk.state, Failed(TypeMismatch(task.taskType, taskType)), [], false)
        else if task.targetId != "" && task.targetId != targetId then
          Step(lk.state, Failed(TargetMismatch(task.targetId, targetId)), [], false)
        else
          Count(lk.state, playerId, p, task, count, now)
  }

  /** Forces completion of `taskId`, which must be the record's current task.
      The completion flag is not consulted. */
  function CompleteTask(g: ChainState, playerId: string, taskId: Int32, now: int): (r: Step)
    ensures r.state.info == g.info
    ensures r.state.progress.Keys == g.progress.Keys + {playerId}
    ensures forall q :: q in g.progress && q != playerId ==> r.state.progress[q] == g.progress[q]
    ensures r.result.Failed? ==> r.state == GetPlayerProgress(g, playerId, now).state && r.granted == [] && !r.notified
    ensures var p := GetPlayerProgress(g, playerId, now).progress;
      p.currentTaskId != taskId ==> r.result == Failed(NotCurrentTask(taskId, p.currentTaskId))
    ensures var p := GetPlayerProgress(g, playerId, now).progress;
      p.currentTaskId == taskId ==>
        match FindTask(g.info.tasks, taskId)
        case None => r.result == Failed(TaskNotFound)
        case Some(task) =>
          && (r.result.Advanced? || r.result.ChainFinished?)
          && r.state.progress[playerId].completedTasks == p.completedTasks + [taskId]
          && r.granted == task.rewards
    // the counter is forced to the required count before the completion
    ensures var lk := GetPlayerProgress(g, playerId, now);
      lk.progress.currentTaskId == taskId && FindTask(g.info.tasks, taskId).Some? ==>
        var task := FindTask(g.info.tasks, taskId).value;
        r == CompleteCurrentTask(lk.state, playerId, lk.progress.(currentProgress := task.requiredCount), task, now)
  {
    var lk := GetPlayerProgress(g, playerId, now);
    var p := lk.progress;
    if p.currentTaskId != taskId then Step(lk.state, Failed(NotCurrentTask(taskId, p.currentTaskId)), [], false)
    else match FindTask(g.info.tasks, taskId)
      case None => Step(lk.state, Failed(TaskNotFound), [], false)
      case Some(task) => CompleteCurrentTask(lk.state, playerId, p.(currentProgress := task.requiredCount), task, now)
  }

  /** Grants the chain's final rewards to a player whose record is complete, on
      every call; an incomplete record gets (and is granted) nothing. */
  function ClaimFinalRewards(g: ChainState, playerId: string, now: int): (r: Claim)
    ensures r.state == GetPlayerProgress(g, playerId, now).state
    ensures GetPlayerProgress(g, playerId, now).progress.isChainCompleted ==> r.rewards == g.info.finalRewards
    ensures !GetPlayerProgress(g, playerId, now).progress.isChainCompleted ==> r.rewards == []
  {
    var lk := GetPlayerProgress(g, playerId, now);
    if !lk.progress.isChainCompleted then Claim(lk.state, [])
    else Claim(lk.state, g.info.finalRewards)
  }

  /** Discards the player's record; other records are kept. */
  function ResetPlayerProgress(g: ChainState, playerId: string): (g': ChainState)
    ensures g'.info == g.info
    ensures playerId !in g'.progress
    ensures forall q :: q != playerId ==> (q in g'.progress <==> q in g.progress)
    ensures forall q :: q in g'.progress ==> g'.progress[q] == g.progress[q]
  {
    g.(progress := g.progress - {playerId})
  }

  function GetChainInfo(g: ChainState): TaskChainInfo {
    g.info
  }

  /** A snapshot of every stored record: the players are those with a record,
      and each value is what `GetPlayerProgress` returns for that player. */
  function GetAllPlayersProgress(g: ChainState): (r: map<string, TaskProgress>)
    ensures r.Keys == g.progress.Keys
    ensures forall q, now :: q in r ==> GetPlayerProgress(g, q, now).progress == r[q]
  {
    g.progress
  }

  /** A chain has expired once the clock is past its end time; a chain without
      an end time never expires. No transition consults this. */
  function IsExpired(g: ChainState, now: int): (expired: bool)
    ensures g.info.endTime.None? ==> !expired
    ensures g.info.endTime.Some? ==> (expired <==> now > g.info.endTime.value)
  {
    g.info.endTime.Some? && now > g.info.endTime.value
  }
}
