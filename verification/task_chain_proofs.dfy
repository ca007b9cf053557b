/**
 Properties of the task-chain progression that relate several transitions:
 the next task is the next-higher id, progress records stay consistent with
 the catalog order, the completed list never repeats an id under progress
 updates, and the two behaviours the code has as written — a forced
 completion on a finished chain re-completes its last task, and the final
 rewards can be claimed any number of times.
 */
module TaskChainProofs {
  import opened Common
  import opened Seqs
  import opened SharedModels
  import opened TaskChainGrain
  import Catalog

  lemma OrderedStrict(tasks: seq<TaskDefinition>)
    requires Catalog.UniqueTaskIds(tasks)
    ensures StrictlySortedBy(OrderedTasks(tasks), TaskIdKey)
  {
    SortByStrict(tasks, TaskIdKey);
  }

  /** In a strictly ordered list, the position of an element's id is that element's position. */
  lemma IndexOfStrict(s: seq<TaskDefinition>, k: int)
    requires StrictlySortedBy(s, TaskIdKey)
    requires 0 <= k < |s|
    ensures IndexOfId(s, s[k].taskId) == k
  {
  }

  /** The task after the k-th task in id order. */
  lemma NextAfterPosition(tasks: seq<TaskDefinition>, k: int)
    requires Catalog.UniqueTaskIds(tasks)
    requires 0 <= k < |OrderedTasks(tasks)|
    ensures var s := OrderedTasks(tasks);
      NextTask(tasks, s[k].taskId) == if k + 1 < |s| then Some(s[k + 1]) else None
  {
    OrderedStrict(tasks);
    IndexOfStrict(OrderedTasks(tasks), k);
  }

  /** With distinct task ids, the next task is exactly the task with the least
      id above the given one, and there is one iff the given id is a task id
      and some task id lies above it. */
  lemma {:induction false} NextTaskIsNextHigher(tasks: seq<TaskDefinition>, taskId: int)
    requires Catalog.UniqueTaskIds(tasks)
    ensures NextTask(tasks, taskId).Some? <==>
      (exists t :: t in tasks && t.taskId == taskId) && (exists u :: u in tasks && u.taskId > taskId)
    ensures NextTask(tasks, taskId).Some? ==>
      var n := NextTask(tasks, taskId).value;
      && n in tasks && n.taskId > taskId
      && forall u :: u in tasks && u.taskId > taskId ==> n.taskId <= u.taskId
  {
    var s := OrderedTasks(tasks);
    OrderedStrict(tasks);
    OrderedTasksMembers(tasks);
    var i := IndexOfId(s, taskId);
    if i < 0 {
      assert NextTask(tasks, taskId) == None;
      forall t | t in tasks ensures t.taskId != taskId {
        assert t in s;
      }
    } else if i < |s| - 1 {
      var n := s[i + 1];
      assert NextTask(tasks, taskId) == Some(n);
      assert s[i] in tasks && n in tasks;
      StrictSuccessorIsLeastAbove(s, i);
      forall u | u in tasks && u.taskId > taskId ensures n.taskId <= u.taskId {
        assert u in s;
      }
    } else {
      assert NextTask(tasks, taskId) == None;
      StrictLastIsGreatest(s);
      forall u | u in tasks ensures u.taskId <= taskId {
        assert u in s;
      }
    }
  }

  /** In a strictly ordered list the element after position `i` has the least
      id above the id at `i`. */
  lemma StrictSuccessorIsLeastAbove(s: seq<TaskDefinition>, i: int)
    requires StrictlySortedBy(s, TaskIdKey)
    requires 0 <= i < |s| - 1
    ensures s[i + 1].taskId > s[i].taskId
    ensures forall u :: u in s && u.taskId > s[i].taskId ==> s[i + 1].taskId <= u.taskId
  {
    assert TaskIdKey(s[i]) < TaskIdKey(s[i + 1]);
    forall u | u in s && u.taskId > s[i].taskId ensures s[i + 1].taskId <= u.taskId {
      var j :| 0 <= j < |s| && s[j] == u;
      if j > i + 1 {
        assert TaskIdKey(s[i + 1]) < TaskIdKey(s[j]);
      }
    }
  }

  /** In a strictly ordered list no id exceeds the last one. */
  lemma StrictLastIsGreatest(s: seq<TaskDefinition>)
    requires StrictlySortedBy(s, TaskIdKey)
    requires |s| > 0
    ensures forall u :: u in s ==> u.taskId <= s[|s| - 1].taskId
  {
    forall u | u in s ensures u.taskId <= s[|s| - 1].taskId {
      var j :| 0 <= j < |s| && s[j] == u;
      assert j == |s| - 1 || TaskIdKey(s[j]) < TaskIdKey(s[|s| - 1]);
    }
  }

  /** In a strictly ascending catalog, position order is id order. */
  lemma StrictIndexOrder(s: seq<TaskDefinition>, i: int, j: int)
    requires StrictlySortedBy(s, TaskIdKey)
    requires 0 <= i < |s| && 0 <= j < |s|
    ensures i < j <==> s[i].taskId < s[j].taskId
    ensures i == j <==> s[i].taskId == s[j].taskId
  {
    if i < j {
      assert TaskIdKey(s[i]) < TaskIdKey(s[j]);
    } else if j < i {
      assert TaskIdKey(s[j]) < TaskIdKey(s[i]);
    }
  }

  /** In a catalog already in strictly ascending id order, the next task is
      the next entry, and the last entry has none. */
  lemma NextInStrictCatalog(tasks: seq<TaskDefinition>, k: int)
    requires StrictlySortedBy(tasks, TaskIdKey)
    requires 0 <= k < |tasks|
    ensures NextTask(tasks, tasks[k].taskId) == if k + 1 < |tasks| then Some(tasks[k + 1]) else None
  {
    assert Catalog.UniqueTaskIds(tasks) by {
      forall i, j | 0 <= i < j < |tasks| ensures tasks[i].taskId != tasks[j].taskId {
        assert TaskIdKey(tasks[i]) < TaskIdKey(tasks[j]);
      }
    }
    NextTaskIsNextHigher(tasks, tasks[k].taskId);
    assert tasks[k] in tasks;
    if k + 1 < |tasks| {
      assert tasks[k + 1] in tasks && TaskIdKey(tasks[k]) < TaskIdKey(tasks[k + 1]);
      var n := NextTask(tasks, tasks[k].taskId).value;
      var j :| 0 <= j < |tasks| && tasks[j] == n;
      StrictIndexOrder(tasks, k + 1, j);
    } else {
      forall u | u in tasks ensures u.taskId <= tasks[k].taskId {
        var j :| 0 <= j < |tasks| && tasks[j] == u;
        StrictIndexOrder(tasks, j, k);
      }
    }
  }

  /** A record agrees with the catalog order: its completed list is the ids of
      the first tasks in id order; an unfinished record points at the next one
      (or at 0 for an empty catalog); a finished record has completed every
      task and still points at the last one. */
  ghost predicate Consistent(info: TaskChainInfo, p: TaskProgress) {
    var s := OrderedTasks(info.tasks);
    var k := |p.completedTasks|;
    && k <= |s|
    && (forall i :: 0 <= i < k ==> p.completedTasks[i] == s[i].taskId)
    && (if p.isChainCompleted then 0 < k == |s| && p.currentTaskId == s[k - 1].taskId
        else if |s| == 0 then p.currentTaskId == 0
        else k < |s| && p.currentTaskId == s[k].taskId)
  }

  ghost predicate AllConsistent(g: ChainState) {
    forall q :: q in g.progress ==> Consistent(g.info, g.progress[q])
  }

  lemma NewProgressConsistent(info: TaskChainInfo, playerId: string, now: int)
    ensures Consistent(info, NewProgress(info, playerId, now))
  {
  }

  lemma LookupConsistent(g: ChainState, playerId: string, now: int)
    requires AllConsistent(g)
    ensures AllConsistent(GetPlayerProgress(g, playerId, now).state)
  {
    NewProgressConsistent(g.info, playerId, now);
  }

  /** The ids in a consistent record's completed list are pairwise distinct. */
  lemma ConsistentNoDup(info: TaskChainInfo, p: TaskProgress)
    requires Catalog.UniqueTaskIds(info.tasks)
    requires Consistent(info, p)
    ensures NoDup(p.completedTasks)
  {
    var s := OrderedTasks(info.tasks);
    OrderedStrict(info.tasks);
    forall i, j | 0 <= i < j < |p.completedTasks| ensures p.completedTasks[i] != p.completedTasks[j] {
      assert TaskIdKey(s[i]) < TaskIdKey(s[j]);
    }
  }

  /** Completing the current task of an unfinished consistent record gives a
      consistent record. */
  lemma CompletedRecordConsistent(g: ChainState, playerId: string, p: TaskProgress, task: TaskDefinition, now: int)
    requires Catalog.UniqueTaskIds(g.info.tasks)
    requires Consistent(g.info, p) && !p.isChainCompleted
    requires task in g.info.tasks && task.taskId == p.currentTaskId
    ensures Consistent(g.info, CompleteCurrentTask(g, playerId, p, task, now).state.progress[playerId])
  {
    var s := OrderedTasks(g.info.tasks);
    var k := |p.completedTasks|;
    assert |s| > 0 by {
      OrderedTasksMembers(g.info.tasks);
      assert task in s;
    }
    NextAfterPosition(g.info.tasks, k);
    var p' := CompleteCurrentTask(g, playerId, p, task, now).state.progress[playerId];
    assert |p'.completedTasks| == k + 1;
    forall i | 0 <= i < k + 1 ensures p'.completedTasks[i] == s[i].taskId {
      if i < k {
        assert p'.completedTasks[i] == p.completedTasks[i];
      }
    }
  }

  /** Completing the current task of an unfinished consistent record keeps
      every record consistent. */
  lemma CompleteCurrentConsistent(g: ChainState, playerId: string, p: TaskProgress, task: TaskDefinition, now: int)
    requires Catalog.UniqueTaskIds(g.info.tasks)
    requires AllConsistent(g)
    requires Consistent(g.info, p) && !p.isChainCompleted
    requires task in g.info.tasks && task.taskId == p.currentTaskId
    ensures AllConsistent(CompleteCurrentTask(g, playerId, p, task, now).state)
  {
    CompletedRecordConsistent(g, playerId, p, task, now);
  }

  /** Every progress update keeps every record consistent with the catalog. */
  lemma UpdatePreservesConsistency(g: ChainState, playerId: string, taskType: TaskType, targetId: string, count: Int32, now: int)
    requires Catalog.UniqueTaskIds(g.info.tasks)
    requires AllConsistent(g)
    ensures AllConsistent(UpdateTaskProgress(g, playerId, taskType, targetId, count, now).state)
  {
    var lk := GetPlayerProgress(g, playerId, now);
    LookupConsistent(g, playerId, now);
    var p := lk.progress;
    var r := UpdateTaskProgress(g, playerId, taskType, targetId, count, now);
    if p.isChainCompleted {
      assert r.state == lk.state;
    } else {
      match FindTask(g.info.tasks, p.currentTaskId)
      case None =>
        assert r.state == lk.state;
      case Some(task) =>
        if !Matches(task, taskType, targetId) {
          assert r.state == lk.state;
        } else {
          var counted := p.(currentProgress := AddInt32(p.currentProgress, count));
          if counted.currentProgress >= task.requiredCount {
            assert r == Count(lk.state, playerId, p, task, count, now);
            assert r == CompleteCurrentTask(lk.state, playerId, counted, task, now);
            CompleteCurrentConsistent(lk.state, playerId, counted, task, now);
          } else {
            assert r.state == Put(lk.state, playerId, counted);
          }
        }
    }
  }

  /** Hence, under progress updates alone, no task id is ever completed twice. */
  lemma UpdateKeepsCompletedDistinct(g: ChainState, playerId: string, taskType: TaskType, targetId: string, count: Int32, now: int)
    requires Catalog.UniqueTaskIds(g.info.tasks)
    requires AllConsistent(g)
    ensures var g' := UpdateTaskProgress(g, playerId, taskType, targetId, count, now).state;
      forall q :: q in g'.progress ==> NoDup(g'.progress[q].completedTasks)
  {
    UpdatePreservesConsistency(g, playerId, taskType, targetId, count, now);
    var g' := UpdateTaskProgress(g, playerId, taskType, targetId, count, now).state;
    forall q | q in g'.progress ensures NoDup(g'.progress[q].completedTasks) {
      ConsistentNoDup(g'.info, g'.progress[q]);
    }
  }

  /** An update completes the chain iff the task it completes has no successor
      in id order, i.e. no task id lies above it. */
  lemma ChainCompletesIffLastTask(g: ChainState, playerId: string, taskType: TaskType, targetId: string, count: Int32, now: int)
    requires Catalog.UniqueTaskIds(g.info.tasks)
    requires AllConsistent(g)
    ensures var p := GetPlayerProgress(g, playerId, now).progress;
      var r := UpdateTaskProgress(g, playerId, taskType, targetId, count, now);
      (r.result.Advanced? || r.result.ChainFinished?) ==>
        (r.result.ChainFinished? <==> forall u :: u in g.info.tasks ==> u.taskId <= p.currentTaskId)
  {
    var p := GetPlayerProgress(g, playerId, now).progress;
    NextTaskIsNextHigher(g.info.tasks, p.currentTaskId);
  }

  /** A forced completion keeps records consistent when the player's chain is
      not yet finished. */
  lemma CompleteTaskPreservesConsistency(g: ChainState, playerId: string, taskId: Int32, now: int)
    requires Catalog.UniqueTaskIds(g.info.tasks)
    requires AllConsistent(g)
    requires playerId in g.progress ==> !g.progress[playerId].isChainCompleted
    ensures AllConsistent(CompleteTask(g, playerId, taskId, now).state)
  {
    var lk := GetPlayerProgress(g, playerId, now);
    LookupConsistent(g, playerId, now);
    var p := lk.progress;
    if p.currentTaskId == taskId {
      match FindTask(g.info.tasks, taskId)
      case None =>
      case Some(task) =>
        CompleteCurrentConsistent(lk.state, playerId, p.(currentProgress := task.requiredCount), task, now);
    }
  }

  /** A forced completion of the current task sets the counter to the
      required count and then completes the task as a counted event would:
      with a next task that task becomes current with a zero counter and no
      notice; without one the chain is finished at `now` and the player is
      notified. */
  lemma CompleteTaskForcesCompletion(g: ChainState, playerId: string, taskId: Int32, now: int)
    requires var p := GetPlayerProgress(g, playerId, now).progress;
      p.currentTaskId == taskId && FindTask(g.info.tasks, taskId).Some?
    ensures var r := CompleteTask(g, playerId, taskId, now);
      && (r.result.ChainFinished? <==> NextTask(g.info.tasks, taskId).None?)
      && (r.notified <==> NextTask(g.info.tasks, taskId).None?)
    ensures var r := CompleteTask(g, playerId, taskId, now);
      var p' := r.state.progress[playerId];
      match NextTask(g.info.tasks, taskId)
      case Some(next) => p'.currentTaskId == next.taskId && p'.currentProgress == 0 && !r.notified
      case None =>
        && p'.currentProgress == FindTask(g.info.tasks, taskId).value.requiredCount
        && p'.isChainCompleted && p'.completedTime == Some(now)
  {
  }

  /** As written, a forced completion never looks at the completion flag: on a
      finished chain, naming the stale current task completes it again — its id
      is appended a second time, its rewards are granted again, the completion
      time is restamped and the player is notified again. */
  lemma CompleteTaskRepeatsOnFinishedChain(g: ChainState, playerId: string, now: int)
    requires Catalog.UniqueTaskIds(g.info.tasks)
    requires playerId in g.progress
    requires Consistent(g.info, g.progress[playerId]) && g.progress[playerId].isChainCompleted
    ensures var p := g.progress[playerId];
      var last := OrderedTasks(g.info.tasks)[|OrderedTasks(g.info.tasks)| - 1];
      var r := CompleteTask(g, playerId, p.currentTaskId, now);
      var p' := r.state.progress[playerId];
      && r.result == ChainFinished(last.rewards)
      && r.granted == last.rewards
      && r.notified
      && p'.completedTasks == p.completedTasks + [last.taskId]
      && last.taskId in p.completedTasks
      && !NoDup(p'.completedTasks)
      && p'.completedTime == Some(now)
  {
    var p := g.progress[playerId];
    var s := OrderedTasks(g.info.tasks);
    var k := |s| - 1;
    var last := s[k];
    OrderedTasksMembers(g.info.tasks);
    assert last in g.info.tasks;
    var task := FindTask(g.info.tasks, p.currentTaskId).value;
    assert task == last by {
      assert task in g.info.tasks && task.taskId == last.taskId;
      var a :| 0 <= a < |g.info.tasks| && g.info.tasks[a] == task;
      var b :| 0 <= b < |g.info.tasks| && g.info.tasks[b] == last;
      assert a == b;
    }
    NextAfterPosition(g.info.tasks, k);
    var r := CompleteTask(g, playerId, p.currentTaskId, now);
    var p' := r.state.progress[playerId];
    assert p.completedTasks[k] == last.taskId;
    assert p'.completedTasks[k] == p'.completedTasks[|p.completedTasks|];
  }

  /** As written, no claimed flag exists: a second claim on a finished chain
      returns and grants the final rewards again and changes nothing. */
  lemma ClaimFinalRewardsRepeats(g: ChainState, playerId: string, now: int, later: int)
    requires playerId in g.progress && g.progress[playerId].isChainCompleted
    ensures var first := ClaimFinalRewards(g, playerId, now);
      var second := ClaimFinalRewards(first.state, playerId, later);
      && first.rewards == g.info.finalRewards
      && second.rewards == g.info.finalRewards
      && first.state == g && second.state == g
  {
  }

  /** After a reset the next access builds a fresh record, as on first access. */
  lemma ResetRecreatesFreshRecord(g: ChainState, playerId: string, now: int)
    ensures var g' := ResetPlayerProgress(g, playerId);
      && GetPlayerProgress(g', playerId, now).progress == NewProgress(g.info, playerId, now)
      && GetPlayerProgress(g', playerId, now).progress.currentProgress == 0
      && GetPlayerProgress(g', playerId, now).progress.completedTasks == []
  {
  }

  /** With an empty catalog the fresh record points at id 0 and every update
      fails because that task does not exist. */
  lemma EmptyCatalogUpdatesFail(g: ChainState, playerId: string, taskType: TaskType, targetId: string, count: Int32, now: int)
    requires |g.info.tasks| == 0
    requires playerId !in g.progress
    ensures GetPlayerProgress(g, playerId, now).progress.currentTaskId == 0
    ensures UpdateTaskProgress(g, playerId, taskType, targetId, count, now).result == Failed(CurrentTaskNotFound)
  {
  }

  /** No transition changes the chain's template, so none changes whether the
      chain has expired at any time `t`. */
  lemma TransitionsKeepExpiry(g: ChainState, playerId: string, taskType: TaskType, targetId: string,
                              count: Int32, taskId: Int32, now: int, t: int)
    ensures IsExpired(GetPlayerProgress(g, playerId, now).state, t) == IsExpired(g, t)
    ensures IsExpired(UpdateTaskProgress(g, playerId, taskType, targetId, count, now).state, t) == IsExpired(g, t)
    ensures IsExpired(CompleteTask(g, playerId, taskId, now).state, t) == IsExpired(g, t)
    ensures IsExpired(ClaimFinalRewards(g, playerId, now).state, t) == IsExpired(g, t)
    ensures IsExpired(ResetPlayerProgress(g, playerId), t) == IsExpired(g, t)
  {
  }

  /** Once expired, a chain stays expired as the clock advances. */
  lemma ExpiryIsPermanent(g: ChainState, t1: int, t2: int)
    requires t1 <= t2
    ensures IsExpired(g, t1) ==> IsExpired(g, t2)
  {
  }

  /** `n` successive steps of `f`, `n` at least 1: the last state and result,
      everything granted in order, and whether any step notified. */
  function Repeat(f: ChainState -> Step, g: ChainState, n: nat): (r: Step)
    requires n >= 1
    ensures n == 1 ==> r == f(g)
    decreases n
  {
    var first := f(g);
    if n == 1 then first
    else
      var rest := Repeat(f, first.state, n - 1);
      Step(rest.state, rest.result, first.granted + rest.granted, first.notified || rest.notified)
  }

  /** One report of the event, counting 1, as a step function. */
  function UpdateOnce(playerId: string, taskType: TaskType, targetId: string, now: int): ChainState -> Step {
    g => UpdateTaskProgress(g, playerId, taskType, targetId, 1, now)
  }

  /** `n` reports of one event, each counting 1, `n` at least 1. */
  function UpdateTimes(g: ChainState, playerId: string, taskType: TaskType, targetId: string, n: nat, now: int): Step
    requires n >= 1
  {
    Repeat(UpdateOnce(playerId, taskType, targetId, now), g, n)
  }

  /** Storing a record twice keeps the second. */
  lemma PutPut(g: ChainState, playerId: string, a: TaskProgress, b: TaskProgress)
    ensures Put(Put(g, playerId, a), playerId, b) == Put(g, playerId, b)
  {
    assert Put(Put(g, playerId, a), playerId, b).progress == Put(g, playerId, b).progress;
  }

  /** One matching event that stays below the threshold raises the counter by
      one and changes nothing else. */
  lemma UpdateOnceBelowThreshold(g: ChainState, playerId: string, task: TaskDefinition, taskType: TaskType, targetId: string, now: int)
    requires playerId in g.progress
    requires FindTask(g.info.tasks, g.progress[playerId].currentTaskId) == Some(task)
    requires !g.progress[playerId].isChainCompleted && Matches(task, taskType, targetId)
    requires 0 <= g.progress[playerId].currentProgress && g.progress[playerId].currentProgress + 1 < task.requiredCount
    ensures var p := g.progress[playerId];
      UpdateTaskProgress(g, playerId, taskType, targetId, 1, now) ==
        Step(Put(g, playerId, p.(currentProgress := p.currentProgress + 1)),
          Progressed(p.currentProgress + 1, task.requiredCount), [], false)
  {
    var p := g.progress[playerId];
    assert AddInt32(p.currentProgress, 1) == p.currentProgress + 1;
    assert UpdateTaskProgress(g, playerId, taskType, targetId, 1, now) == Count(g, playerId, p, task, 1, now);
  }

  /** The matching event that brings the counter to the threshold completes
      the task, counter included. */
  lemma UpdateOnceCompletes(g: ChainState, playerId: string, task: TaskDefinition, taskType: TaskType, targetId: string, now: int)
    requires playerId in g.progress
    requires FindTask(g.info.tasks, g.progress[playerId].currentTaskId) == Some(task)
    requires !g.progress[playerId].isChainCompleted && Matches(task, taskType, targetId)
    requires 0 <= g.progress[playerId].currentProgress && g.progress[playerId].currentProgress + 1 == task.requiredCount
    ensures var p := g.progress[playerId];
      UpdateTaskProgress(g, playerId, taskType, targetId, 1, now) ==
        CompleteCurrentTask(g, playerId, p.(currentProgress := task.requiredCount), task, now)
  {
    var p := g.progress[playerId];
    assert AddInt32(p.currentProgress, 1) == task.requiredCount;
    assert UpdateTaskProgress(g, playerId, taskType, targetId, 1, now) == Count(g, playerId, p, task, 1, now);
  }

  /** `f` raises the player's counter by one from any value below `required - 1`. */
  ghost predicate CountsOne(f: ChainState -> Step, base: ChainState, playerId: string, p: TaskProgress, required: Int32) {
    forall c: Int32 :: 0 <= c && c + 1 < required ==>
      f(Put(base, playerId, p.(currentProgress := c))) ==
        Step(Put(base, playerId, p.(currentProgress := c + 1)), Progressed(c + 1, required), [], false)
  }

  lemma {:induction false} RepeatCountsUp(f: ChainState -> Step, base: ChainState, playerId: string, p: TaskProgress,
                                          required: Int32, c: Int32, n: nat)
    requires CountsOne(f, base, playerId, p, required)
    requires 0 <= c && 0 < n && c + n < required
    ensures Repeat(f, Put(base, playerId, p.(currentProgress := c)), n) ==
      Step(Put(base, playerId, p.(currentProgress := c + n)), Progressed(c + n, required), [], false)
    decreases n
  {
    if n > 1 {
      RepeatCountsUp(f, base, playerId, p, required, c + 1, n - 1);
    }
  }

  /** Below the threshold, a report raises the counter of any record that
      differs from the player's only in its counter. */
  lemma UpdateCountsOne(g: ChainState, playerId: string, task: TaskDefinition, taskType: TaskType, targetId: string, now: int)
    requires playerId in g.progress
    requires FindTask(g.info.tasks, g.progress[playerId].currentTaskId) == Some(task)
    requires !g.progress[playerId].isChainCompleted && Matches(task, taskType, targetId)
    ensures CountsOne(UpdateOnce(playerId, taskType, targetId, now), g, playerId, g.progress[playerId], task.requiredCount)
  {
    var p := g.progress[playerId];
    forall c: Int32 | 0 <= c && c + 1 < task.requiredCount
      ensures UpdateOnce(playerId, taskType, targetId, now)(Put(g, playerId, p.(currentProgress := c))) ==
        Step(Put(g, playerId, p.(currentProgress := c + 1)), Progressed(c + 1, task.requiredCount), [], false)
    {
      var gc := Put(g, playerId, p.(currentProgress := c));
      assert gc.progress[playerId] == p.(currentProgress := c) && gc.info == g.info;
      UpdateOnceBelowThreshold(gc, playerId, task, taskType, targetId, now);
      PutPut(g, playerId, p.(currentProgress := c), p.(currentProgress := c + 1));
    }
  }

  /** Matching events that stay below the threshold raise the counter by one
      each and change nothing else: from counter `c`, `n` reports leave the
      record at `c + n` with nothing granted. */
  lemma UpdateTimesBelowThreshold(g: ChainState, playerId: string, task: TaskDefinition,
                                  taskType: TaskType, targetId: string, c: Int32, n: nat, now: int)
    requires playerId in g.progress
    requires FindTask(g.info.tasks, g.progress[playerId].currentTaskId) == Some(task)
    requires !g.progress[playerId].isChainCompleted && Matches(task, taskType, targetId)
    requires 0 < n && 0 <= c && c + n < task.requiredCount
    ensures var p := g.progress[playerId];
      UpdateTimes(Put(g, playerId, p.(currentProgress := c)), playerId, taskType, targetId, n, now) ==
        Step(Put(g, playerId, p.(currentProgress := c + n)), Progressed(c + n, task.requiredCount), [], false)
  {
    UpdateCountsOne(g, playerId, task, taskType, targetId, now);
    RepeatCountsUp(UpdateOnce(playerId, taskType, targetId, now), g, playerId, g.progress[playerId], task.requiredCount, c, n);
  }
}
