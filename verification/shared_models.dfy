/**
 The records exchanged between the grains: task-chain definitions, progress
 records, rewards and the outcome of a progress update, plus the player
 snapshot a chat room keeps in its roster.
 */
module SharedModels {
  import opened Common

  /** The event a task counts. */
  datatype TaskType =
    | KillMonsters
    | CollectItems
    | ReachLevel
    | CompleteQuests
    | JoinChatRoom
    | SendMessages

  /** A reward; `kind` is the free-form type tag ("Gold", "Exp", "Item", "Title"). */
  datatype Reward = Reward(kind: string, amount: Int32, itemId: string, title: string, description: string)

  /** One task of a chain. An empty `targetId` matches any target. */
  datatype TaskDefinition = TaskDefinition(
    taskId: Int32,
    name: string,
    description: string,
    taskType: TaskType,
    requiredCount: Int32,
    rewards: seq<Reward>,
    targetId: string)

  /** A chain template. Times are clock ticks. */
  datatype TaskChainInfo = TaskChainInfo(
    chainId: string,
    name: string,
    description: string,
    tasks: seq<TaskDefinition>,
    finalRewards: seq<Reward>,
    startTime: int,
    endTime: Option<int>)

  /** One player's progress through one chain. */
  datatype TaskProgress = TaskProgress(
    playerId: string,
    chainId: string,
    currentTaskId: Int32,
    currentProgress: Int32,
    completedTasks: seq<Int32>,
    isChainCompleted: bool,
    startTime: int,
    completedTime: Option<int>)

  /** Why a progress update or a forced completion was refused. */
  datatype Failure =
    | ChainAlreadyCompleted
    | CurrentTaskNotFound
    | TypeMismatch(expected: TaskType, actual: TaskType)
    | TargetMismatch(expectedTarget: string, actualTarget: string)
    | NotCurrentTask(requested: Int32, current: Int32)
    | TaskNotFound

  /** The outcome of a progress update, in place of the success flag, message,
      earned rewards, chain-completed flag and next task of the original result. */
  datatype CompletionResult =
    | Failed(reason: Failure)
    | Progressed(counter: Int32, required: Int32)
    | Advanced(earnedRewards: seq<Reward>, nextTask: TaskDefinition)
    | ChainFinished(earnedRewards: seq<Reward>)
  {
    predicate Success() {
      !Failed?
    }

    predicate ChainCompleted() {
      ChainFinished?
    }
  }

  /** A player snapshot, as a chat room's roster and a player's info query report it. */
  datatype PlayerInfo = PlayerInfo(id: string, name: string, joinTime: int, joinedRooms: seq<string>, isOnline: bool)
}
