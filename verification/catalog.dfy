/**
 The hard-coded chain templates a task-chain grain loads on activation,
 keyed by the grain's chain id. Validity windows are relative to the
 activation time `now`, in clock ticks.
 */
module Catalog {
  import opened Common
  import opened SharedModels

  /** 100-nanosecond ticks in one day. */
  const TICKS_PER_DAY: int := 864_000_000_000

  function Gold(amount: Int32, description: string): Reward {
    Reward("Gold", amount, "", "", description)
  }

  function Exp(amount: Int32, description: string): Reward {
    Reward("Exp", amount, "", "", description)
  }

  function Title(title: string, description: string): Reward {
    Reward("Title", 0, "", title, description)
  }

  function Item(itemId: string, amount: Int32, description: string): Reward {
    Reward("Item", amount, itemId, "", description)
  }

  const NEWBIE_TASKS: seq<TaskDefinition> := [
    TaskDefinition(1, "加入你的第一个聊天室", "加入任意一个聊天室开始社交", JoinChatRoom, 1,
      [Gold(100, "新手奖励金币"), Exp(50, "经验值")], ""),
    TaskDefinition(2, "发送10条消息", "在聊天室中发送10条消息，开始交流", SendMessages, 10,
      [Gold(200, "活跃奖励"), Title("话痨", "聊天达人称号")], ""),
    TaskDefinition(3, "达到5级", "将角色等级提升到5级", ReachLevel, 5,
      [Gold(500, "等级奖励"), Item("SuperChatBadge", 1, "超级聊天徽章")], "")
  ]

  const NEWBIE_FINAL_REWARDS: seq<Reward> := [
    Gold(1000, "任务链完成奖励"),
    Item("NewbieGraduateCertificate", 1, "新手毕业证书"),
    Title("社交新星", "新手毕业生专属称号")
  ]

  function NewbieChain(now: int): TaskChainInfo {
    TaskChainInfo("newbie-chain", "新手礼包任务链", "完成新手引导，获得丰厚奖励！",
      NEWBIE_TASKS, NEWBIE_FINAL_REWARDS, now - 30 * TICKS_PER_DAY, Some(now + 30 * TICKS_PER_DAY))
  }

  function ChatMasterChain(now: int): TaskChainInfo {
    TaskChainInfo("chat-master-chain", "聊天大师挑战", "成为真正的聊天大师！",
      [ TaskDefinition(1, "加入3个不同的聊天室", "体验不同聊天室的氛围", JoinChatRoom, 3,
          [Gold(300, "探索奖励")], ""),
        TaskDefinition(2, "发送100条消息", "在聊天室中发送100条有意义的消息", SendMessages, 100,
          [Gold(1000, "活跃大师奖励"), Title("聊天达人", "聊天大师称号")], "") ],
      [Gold(2000, "聊天大师奖励"), Title("聊天大师", "聊天大师专属称号")],
      now - 7 * TICKS_PER_DAY, Some(now + 7 * TICKS_PER_DAY))
  }

  function SocialButterflyChain(now: int): TaskChainInfo {
    TaskChainInfo("social-butterfly-chain", "社交蝴蝶", "像蝴蝶一样在各个聊天室间飞舞",
      [ TaskDefinition(1, "加入5个聊天室", "成为5个不同聊天室的成员", JoinChatRoom, 5,
          [Gold(500, "社交奖励")], ""),
        TaskDefinition(2, "达到10级", "将等级提升到10级", ReachLevel, 10,
          [Gold(1500, "等级成就奖励")], "") ],
      [Gold(3000, "社交蝴蝶奖励"), Title("社交蝴蝶", "社交达人专属称号")],
      now, Some(now + 14 * TICKS_PER_DAY))
  }

  /** The single-task template every unrecognised chain id resolves to. */
  function DefaultChain(chainId: string, now: int): TaskChainInfo {
    TaskChainInfo(chainId, "自定义任务链 - " + chainId, "这是一个示例任务链",
      [ TaskDefinition(1, "示例任务", "这是一个示例任务", SendMessages, 1, [Gold(100, "示例奖励")], "") ],
      [Gold(500, "完成奖励")],
      now, None)
  }

  /** Task ids are pairwise distinct. The code does not demand it; every
      template above satisfies it. */
  predicate UniqueTaskIds(tasks: seq<TaskDefinition>) {
    forall i, j :: 0 <= i < j < |tasks| ==> tasks[i].taskId != tasks[j].taskId
  }

  /** The template loaded for a chain id: the three named chains, otherwise the
      default chain carrying the requested id. Every template has at least one
      task, distinct task ids, and carries the id it was loaded for. */
  function LoadTaskChainDefinition(chainId: string, now: int): (info: TaskChainInfo)
    ensures info.chainId == chainId
    ensures |info.tasks| > 0 && UniqueTaskIds(info.tasks)
    ensures chainId == "newbie-chain" ==> info.tasks == NEWBIE_TASKS && info.finalRewards == NEWBIE_FINAL_REWARDS
  {
    match chainId
    case "newbie-chain" => NewbieChain(now)
    case "chat-master-chain" => ChatMasterChain(now)
    case "social-butterfly-chain" => SocialButterflyChain(now)
    case _ => DefaultChain(chainId, now)
  }
}
