# Orleans observer example: task chains, chat rooms and players in Dafny

This project models the server core of the Orleans observer example as pure
Dafny functions over immutable datatypes:

- the **task-chain grain** (`TaskChainGrain`): one chain template, and for
  each player a progress record with a current task, a counter, a list of
  completed task ids and a completion flag. `UpdateTaskProgress`,
  `CompleteTask`, `ClaimFinalRewards` and `ResetPlayerProgress` are guarded
  transitions. Each returns the new grain state, a structured result, the
  rewards it grants to the player's ledger (in grant order), and whether it
  notified the player that the chain is complete. The four hard-coded
  templates (`newbie-chain`, `chat-master-chain`, `social-butterfly-chain`
  and the default chain) are constants in `Catalog`.
- the **chat-room grain** (`ChatGrain`): a set of subscribed observers and a
  roster of players. A broadcast is the set of deliveries it makes, one per
  subscriber (`Observers`).
- the **player grain** (`PlayerGrain`): name, optional observer, joined rooms,
  joined chains, level and an append-only reward ledger.
- the **in-memory store** (`MockDbContext`, `MockDataService`): tables keyed
  by id with insert-if-absent (`Tables`), and the message-history queries
  (`Where` / `OrderBy(SentAt)` / `TakeLast`, in `Seqs`).
- the **cluster** (`Cluster`): a world holding every activated grain and the
  store. A call from one grain to another is function composition, and a
  grain not yet in the world is activated on first use. A player's fan-out
  to its joined chains runs in join order. A chain's grants are credited to
  the player's ledger, and the completion notice reaches the player's observer.
- a **scenario** (`NewbieScenario`) that plays the newbie chain through.
  Joining a room completes task 1. Nine chat lines raise the counter of
  task 2 to 9, and the tenth completes it. Four level changes raise the
  counter of task 3 to 4 without completing it, and the fifth finishes the
  chain.

C# `int` is the subset type `Int32`. The unchecked `+=` on the progress
counter wraps around explicitly (`AddInt32`). Clock readings are an `int`
parameter `now` in ticks, and the `Guid` of a new message is a parameter
`messageId`. Dictionaries that are enumerated become sequences with unique
keys in insertion order. The `HashSet`s of joined rooms and chains become
duplicate-free sequences in join order. The order of a dictionary or set
enumeration is unspecified in .NET, and the model fixes it to insertion order.

Where the interface documentation and the code disagree, the model follows
the code:

- `Subscribe` is documented as reporting whether the observer was new; the
  code returns nothing.
- The level task of the newbie chain counts level *changes*. Its target is
  empty, so any reported level matches, and five calls to `SetLevel` (to any
  levels) complete it. Reaching level 5 is neither needed nor sufficient.

## Model

| member | source | states |
|---|---|---|
| Common.AddInt32 | src/OrleansObserverExample.Server/Grains/TaskChain/TaskChainGrain.cs:95 | The counter update is C# unchecked `int` addition: the exact sum when it fits in 32 bits, otherwise the sum shifted by 2^32 back into range |
| Common.ParseIntToString | src/OrleansObserverExample.Server/Grains/Player/PlayerGrain.cs:212 | The decimal text of a level reads back as that level, so distinct levels give distinct event targets |
| Seqs.Filter | src/OrleansObserverExample.Data/DbContext/MockDbContext.cs:188 | `Where` keeps exactly the elements satisfying the predicate, each as often as it occurs in the input |
| Seqs.SortBy | src/OrleansObserverExample.Data/DbContext/MockDbContext.cs:189 | `OrderBy` returns a permutation of its input, sorted by the key |
| Seqs.SortByStrict | src/OrleansObserverExample.Server/Grains/TaskChain/TaskChainGrain.cs:249 | With pairwise distinct task ids, the id-ordered task list is strictly increasing |
| Seqs.TakeLast | src/OrleansObserverExample.Data/Services/MockDataService.cs:59 | `TakeLast(n)` is the suffix of length min(n, length), and empty for n <= 0 |
| Seqs.TakeLastNewest | src/OrleansObserverExample.Data/Services/MockDataService.cs:59 | On a sorted sequence, no element `TakeLast` drops has a greater key than an element it keeps |
| Catalog.LoadTaskChainDefinition | src/OrleansObserverExample.Server/Grains/TaskChain/TaskChainGrain.cs:274-286 | Every chain id loads a template carrying that id, with at least one task and distinct task ids; `newbie-chain` loads the newbie tasks and final rewards |
| TaskChainGrain.FirstTask | src/OrleansObserverExample.Server/Grains/TaskChain/TaskChainGrain.cs:183 | The first task in id order is absent exactly for an empty catalog, and otherwise is a catalog task whose id is the least |
| TaskChainGrain.NewProgress | src/OrleansObserverExample.Server/Grains/TaskChain/TaskChainGrain.cs:181-194 | A fresh record points at the least task id (0 for an empty catalog), with counter 0, nothing completed, not completed, started now |
| TaskChainGrain.GetPlayerProgress | src/OrleansObserverExample.Server/Grains/TaskChain/TaskChainGrain.cs:40-50 | A stored record is returned unchanged; an absent one is created fresh and stored; no other record changes |
| TaskChainGrain.Activate | src/OrleansObserverExample.Server/Grains/TaskChain/TaskChainGrain.cs:26-33 | An activated grain holds a template carrying its own key as chain id, with at least one task and distinct task ids, and no player records |
| TaskChainGrain.GetAllPlayersProgress | src/OrleansObserverExample.Server/Grains/TaskChain/TaskChainGrain.cs:166-170 | The snapshot holds exactly the players with a record, each mapped to the record `GetPlayerProgress` returns for them |
| TaskChainGrain.FindTask | src/OrleansObserverExample.Server/Grains/TaskChain/TaskChainGrain.cs:196-199 | The lookup finds a catalog task with the id exactly when one exists |
| TaskChainGrain.CompleteCurrentTask | src/OrleansObserverExample.Server/Grains/TaskChain/TaskChainGrain.cs:201-245 | Completion appends the task id and grants the task's rewards; with a next task it becomes current with counter 0 and no notice; without one the record is marked complete at `now`, the player is notified and the result reports the chain completed |
| TaskChainGrain.Count | src/OrleansObserverExample.Server/Grains/TaskChain/TaskChainGrain.cs:95-109 | An accepted event adds `count` with 32-bit wrap-around; below the threshold it only raises the counter and grants nothing; at or above it the result is exactly the completion of the current task on the counted record, rewards granted |
| TaskChainGrain.UpdateTaskProgress | src/OrleansObserverExample.Server/Grains/TaskChain/TaskChainGrain.cs:52-110 | A completed record fails; a missing current task fails; a type mismatch or a mismatch with a non-empty target fails; a failure changes nothing but the record's creation and grants nothing; a matching event on an unfinished record is exactly `Count`: the counter grows by `count` unclamped, a total below the task's required count progresses and reports that required count, and a total at or above it completes the current task on the counted record (next task current with counter 0, or the chain finished at `now` with the player notified) |
| TaskChainGrain.CompleteTask | src/OrleansObserverExample.Server/Grains/TaskChain/TaskChainGrain.cs:112-138 | A task id other than the current one fails without change; an id with no task fails; otherwise the counter is set to the required count and the task is completed exactly as a counted event would complete it, whatever the completion flag says |
| TaskChainProofs.CompleteTaskForcesCompletion | src/OrleansObserverExample.Server/Grains/TaskChain/TaskChainGrain.cs:134-137 | A forced completion finishes the chain and notifies the player exactly when no next task exists; otherwise the next task becomes current with counter 0; a finished record keeps the counter at the required count |
| TaskChainGrain.ClaimFinalRewards | src/OrleansObserverExample.Server/Grains/TaskChain/TaskChainGrain.cs:140-155 | An incomplete record gets an empty list; a complete one gets the chain's final rewards; the state is not changed beyond creating the record |
| TaskChainGrain.ResetPlayerProgress | src/OrleansObserverExample.Server/Grains/TaskChain/TaskChainGrain.cs:157-164 | The player's record is gone and every other record is kept as it was |
| Cluster.ResetPlayerProgress | src/OrleansObserverExample.Server/Grains/TaskChain/TaskChainGrain.cs:157-164 | A client's reset removes the player's record from that chain, keeps the chain's template and every other record, and touches no other chain, player, room or store |
| TaskChainProofs.TransitionsKeepExpiry | src/OrleansObserverExample.Server/Grains/TaskChain/TaskChainGrain.cs:172-179 | Expiry depends only on the template's end time, which no transition changes, so reading, updating, completing, claiming and resetting leave the chain's expiry at every time as it was |
| TaskChainProofs.ExpiryIsPermanent | src/OrleansObserverExample.Server/Grains/TaskChain/TaskChainGrain.cs:172-179 | Once the clock is past the end time the chain stays expired at every later time |
| TaskChainGrain.NextTask | src/OrleansObserverExample.Server/Grains/TaskChain/TaskChainGrain.cs:247-257 | The next task is a catalog task with an id no lower than the given one |
| TaskChainProofs.NextTaskIsNextHigher | src/OrleansObserverExample.Server/Grains/TaskChain/TaskChainGrain.cs:247-257 | With distinct ids, the next task exists iff the id is a task id and some task id lies above it, and then it is the task with the least id above |
| TaskChainProofs.NextInStrictCatalog | src/OrleansObserverExample.Server/Grains/TaskChain/TaskChainGrain.cs:247-257 | In a catalog listed in ascending id order, the next task after an entry is the following entry, and the last entry has none |
| TaskChainProofs.UpdatePreservesConsistency | src/OrleansObserverExample.Server/Grains/TaskChain/TaskChainGrain.cs:201-245 | Progress updates keep every record consistent with the id order: completed ids are the first tasks in order, and the current task is the next one (or the last, once complete) |
| TaskChainProofs.UpdateKeepsCompletedDistinct | src/OrleansObserverExample.Server/Grains/TaskChain/TaskChainGrain.cs:204 | Under progress updates no task id is ever completed twice |
| TaskChainProofs.ChainCompletesIffLastTask | src/OrleansObserverExample.Server/Grains/TaskChain/TaskChainGrain.cs:213-243 | An update that completes a task completes the chain iff no task id lies above the completed one |
| TaskChainProofs.CompleteTaskPreservesConsistency | src/OrleansObserverExample.Server/Grains/TaskChain/TaskChainGrain.cs:112-138 | A forced completion on an unfinished chain keeps every record consistent with the id order |
| TaskChainProofs.CompleteTaskRepeatsOnFinishedChain | src/OrleansObserverExample.Server/Grains/TaskChain/TaskChainGrain.cs:116-137 | On a finished chain, forcing the stale current task re-completes the last task: its id is appended a second time, its rewards are granted again, the time is restamped and the player is notified again |
| TaskChainProofs.ClaimFinalRewardsRepeats | src/OrleansObserverExample.Server/Grains/TaskChain/TaskChainGrain.cs:144-154 | There is no claimed flag: a second claim on a finished chain returns the final rewards again and changes nothing |
| TaskChainProofs.ResetRecreatesFreshRecord | src/OrleansObserverExample.Server/Grains/TaskChain/TaskChainGrain.cs:157-164 | After a reset the next access recreates a fresh record with counter 0 and nothing completed |
| TaskChainProofs.EmptyCatalogUpdatesFail | src/OrleansObserverExample.Server/Grains/TaskChain/TaskChainGrain.cs:65-73 | With no tasks a new record points at id 0 and every update fails with "current task not found" |
| TaskChainProofs.UpdateOnceBelowThreshold | src/OrleansObserverExample.Server/Grains/TaskChain/TaskChainGrain.cs:95-109 | One matching event below the threshold raises the counter by one, grants nothing and changes nothing else |
| TaskChainProofs.UpdateOnceCompletes | src/OrleansObserverExample.Server/Grains/TaskChain/TaskChainGrain.cs:99-103 | The matching event that brings the counter to the required count completes the current task |
| TaskChainProofs.UpdateTimesBelowThreshold | src/OrleansObserverExample.Server/Grains/TaskChain/TaskChainGrain.cs:95-109 | `n` matching events that stay below the threshold raise the counter from `c` to `c + n` and grant nothing |
| Tables.Find | src/OrleansObserverExample.Data/DbContext/MockDbContext.cs:168-172 | `TryGetValue` finds an entry exactly when the key is present, and the entry found carries that key |
| Tables.TryAdd | src/OrleansObserverExample.Data/DbContext/MockDbContext.cs:195-206 | `TryAdd` inserts exactly when the key is absent and then reports true; a present key leaves the table unchanged; keys stay unique; lookups of other keys are unaffected |
| Tables.AddAllKeepsFirst | src/OrleansObserverExample.Data/DbContext/MockDbContext.cs:90-93 | Loading a list keeps, for each key, the entry already present or else the first item of the list with that key; later duplicates are ignored |
| MockDbContext.Initialize | src/OrleansObserverExample.Data/DbContext/MockDbContext.cs:47-82 | A second initialisation does nothing; the first loads users, rooms and messages keeping the first record per id, and keeps the tables keyed uniquely |
| MockDbContext.GetUser | src/OrleansObserverExample.Data/DbContext/MockDbContext.cs:168-172 | The stored user with the id, or null exactly when none is stored |
| MockDbContext.GetChatRoom | src/OrleansObserverExample.Data/DbContext/MockDbContext.cs:177-181 | The stored room with the id, or null exactly when none is stored |
| MockDbContext.GetMessagesForRoom | src/OrleansObserverExample.Data/DbContext/MockDbContext.cs:186-190 | Exactly the room's non-deleted messages, each as often as stored, ordered by non-decreasing send time |
| MockDbContext.AddUser | src/OrleansObserverExample.Data/DbContext/MockDbContext.cs:195-198 | Inserts the user iff its id is absent and reports whether it did; afterwards the id looks up the inserted user, or the old one |
| MockDbContext.AddMessage | src/OrleansObserverExample.Data/DbContext/MockDbContext.cs:203-206 | Inserts the message iff its id is absent and reports whether it did; a taken id leaves the store unchanged |
| MockDbContext.AddMessageShowsInRoom | src/OrleansObserverExample.Data/DbContext/MockDbContext.cs:203-206 | A visible message stored under a fresh id joins its room's history exactly once; every other history is unchanged |
| MockDataService.GetUserAsync | src/OrleansObserverExample.Data/Services/MockDataService.cs:28-33 | Finds a user with the id exactly when the store holds one |
| MockDataService.GetActiveUsersAsync | src/OrleansObserverExample.Data/Services/MockDataService.cs:35-40 | Exactly the active users, each as often as stored |
| MockDataService.GetChatRoomAsync | src/OrleansObserverExample.Data/Services/MockDataService.cs:42-47 | The stored room with the id, or none exactly when absent |
| MockDataService.GetUserChatRoomsAsync | src/OrleansObserverExample.Data/Services/MockDataService.cs:49-54 | Exactly the active rooms whose member list names the user |
| MockDataService.GetRoomMessagesAsync | src/OrleansObserverExample.Data/Services/MockDataService.cs:56-61 | At most `limit` messages, the suffix of the room's ordered visible history; the whole history when the limit covers it |
| MockDataService.RoomMessagesAreNewest | src/OrleansObserverExample.Data/Services/MockDataService.cs:56-61 | No message the history query leaves out was sent after one it returns |
| MockDataService.AddMessageAsync | src/OrleansObserverExample.Data/Services/MockDataService.cs:63-79 | Returns the store's insert-if-absent verdict; a duplicate id leaves the store unchanged |
| MockDataService.UpdateUserLastLoginAsync | src/OrleansObserverExample.Data/Services/MockDataService.cs:81-96 | A missing user changes nothing; an existing user gets `now` as last login and nothing else changes |
| MockDataService.UserExistsAsync | src/OrleansObserverExample.Data/Services/MockDataService.cs:98-103 | True iff a user with the id is stored |
| MockDataService.ChatRoomExistsAsync | src/OrleansObserverExample.Data/Services/MockDataService.cs:105-110 | True iff a room with the id is stored |
| Observers.Broadcast | src/OrleansObserverExample.Server/Grains/Chat/ChatGrain.cs:100-114 | A broadcast delivers the payload to every subscriber and to nobody else |
| Observers.BroadcastCount | src/OrleansObserverExample.Server/Grains/Chat/ChatGrain.cs:122-136 | A broadcast makes exactly one delivery per subscriber |
| ChatGrain.GetSubscriberCount | src/OrleansObserverExample.Server/Grains/Chat/ChatGrain.cs:139-144 | The subscriber count is the number of deliveries any broadcast from the room makes |
| ChatGrain.Subscribe | src/OrleansObserverExample.Server/Grains/Chat/ChatGrain.cs:54-65 | Subscribing adds the observer; subscribing a present observer changes nothing; the count grows by one exactly for a new observer |
| ChatGrain.Unsubscribe | src/OrleansObserverExample.Server/Grains/Chat/ChatGrain.cs:67-78 | Unsubscribing removes the observer; an absent observer changes nothing; the count drops by one exactly for a present observer |
| ChatGrain.SubscribeUnsubscribe | src/OrleansObserverExample.Server/Grains/Chat/ChatGrain.cs:54-78 | Subscribing an absent observer and unsubscribing it restores the room and its count |
| ChatGrain.SystemMessage | src/OrleansObserverExample.Server/Grains/Chat/ChatGrain.cs:85-95 | The stored record of a line has sender "system", type text, the room, the content and the send time, and is not deleted |
| ChatGrain.SendMessage | src/OrleansObserverExample.Server/Grains/Chat/ChatGrain.cs:80-115 | Stores one system message under a fresh id (a taken id stores nothing), then delivers the line once to every subscriber and nobody else |
| ChatGrain.SendNotification | src/OrleansObserverExample.Server/Grains/Chat/ChatGrain.cs:117-137 | Delivers the notice once to every subscriber and stores nothing |
| ChatGrain.PlayerJoin | src/OrleansObserverExample.Server/Grains/Chat/ChatGrain.cs:146-170 | An absent player is added online and announced to every subscriber; a present player changes nothing and nothing is sent |
| ChatGrain.PlayerLeave | src/OrleansObserverExample.Server/Grains/Chat/ChatGrain.cs:172-188 | A present player is removed and announced under the stored name; an absent player changes nothing and nothing is sent |
| ChatGrain.GetOnlinePlayers | src/OrleansObserverExample.Server/Grains/Chat/ChatGrain.cs:190-196 | Exactly the roster entries that are online |
| ChatGrain.OnlinePlayersAreRoster | src/OrleansObserverExample.Server/Grains/Chat/ChatGrain.cs:148-154 | Every entry a join adds is online, so on such a roster the online players are the whole roster |
| ChatGrain.JoinThenLeave | src/OrleansObserverExample.Server/Grains/Chat/ChatGrain.cs:146-188 | A join followed by a leave restores the room, and the leave is announced under the name given at the join |
| ChatGrain.FormatPlayerMessage | src/OrleansObserverExample.Server/Grains/Chat/ChatGrain.cs:202 | The line is the name, then ": ", then the message |
| ChatGrain.SendPlayerMessage | src/OrleansObserverExample.Server/Grains/Chat/ChatGrain.cs:198-213 | A player on the roster sends `name: message` through `SendMessage`; anyone else stores and delivers nothing |
| PlayerGrain.NewPlayer | src/OrleansObserverExample.Server/Grains/Player/PlayerGrain.cs:16-21 | A new player has level 1, no observer, no rooms, no chains and an empty ledger |
| PlayerGrain.SetName | src/OrleansObserverExample.Server/Grains/Player/PlayerGrain.cs:42-47 | Only the name changes |
| PlayerGrain.GetPlayerInfo | src/OrleansObserverExample.Server/Grains/Player/PlayerGrain.cs:49-60 | The snapshot is online iff an observer is bound, and carries the id, name, join time and joined rooms |
| PlayerGrain.SetObserver | src/OrleansObserverExample.Server/Grains/Player/PlayerGrain.cs:134-140 | Binding an observer makes the player online and changes nothing else |
| PlayerGrain.RemoveObserver | src/OrleansObserverExample.Server/Grains/Player/PlayerGrain.cs:142-148 | Unbinding makes the player offline and changes nothing else |
| PlayerGrain.AddReward | src/OrleansObserverExample.Server/Grains/Player/PlayerGrain.cs:176-187 | The ledger grows by exactly the reward at its end; nothing else changes |
| PlayerGrain.GiveRewards | src/OrleansObserverExample.Server/Grains/TaskChain/TaskChainGrain.cs:259-266 | Granting a list appends exactly that list, in order, to the ledger |
| PlayerGrain.RewardHistoryKeepsGrantOrder | src/OrleansObserverExample.Server/Grains/Player/PlayerGrain.cs:176-187 | The reward history read back keeps every earlier entry as a prefix and lists later grants after it in grant order |
| PlayerGrain.NotifyTaskChainCompleted | src/OrleansObserverExample.Server/Grains/Player/PlayerGrain.cs:189-200 | The completion notice goes to the bound observer, and nowhere without one |
| PlayerGrain.ProgressNotices | src/OrleansObserverExample.Server/Grains/Player/PlayerGrain.cs:252-260 | A successful result is reported to the bound observer, followed by the claim prompt when it completed the chain; failures and an unbound observer produce nothing |
| PlayerGrain.SetLevel | src/OrleansObserverExample.Server/Grains/Player/PlayerGrain.cs:202-216 | The level is set unconditionally, and one `ReachLevel` event with count 1 is reported whose target denotes the new level and no other |
| PlayerGrain.AddRoom | src/OrleansObserverExample.Server/Grains/Player/PlayerGrain.cs:73 | The joined rooms gain the room; a joined room changes nothing; rooms stay duplicate-free |
| PlayerGrain.RemoveRoom | src/OrleansObserverExample.Server/Grains/Player/PlayerGrain.cs:91 | The joined rooms lose the room and nothing else; rooms stay duplicate-free |
| PlayerGrain.LeaveUndoesJoin | src/OrleansObserverExample.Server/Grains/Player/PlayerGrain.cs:62-93 | Leaving a room just joined restores the player |
| PlayerGrain.JoinTaskChain | src/OrleansObserverExample.Server/Grains/Player/PlayerGrain.cs:230 | Joining a chain reports whether it was new; joining again changes nothing |
| Cluster.Credit | src/OrleansObserverExample.Server/Grains/TaskChain/TaskChainGrain.cs:259-266 | A chain's grants reach the player's ledger in order; no ledger loses an entry |
| Cluster.ChainUpdate | src/OrleansObserverExample.Server/Grains/Player/PlayerGrain.cs:249-260 | One chain's handling of an event stores the chain's new state, credits exactly what it granted to the player's ledger, and sends the player's observer the completion notice when the chain finished, then the outcome notice and, on completion, the claim prompt |
| Cluster.ReportProgress | src/OrleansObserverExample.Server/Grains/Player/PlayerGrain.cs:242-269 | The fan-out touches only the listed chains, changes of the player only the ledger, never removes a ledger entry, and sends nothing except to the player's own observer |
| Cluster.ReportProgressReachesEach | src/OrleansObserverExample.Server/Grains/Player/PlayerGrain.cs:242-269 | Each chain of a duplicate-free list receives the event exactly once: its state afterwards is its update applied to its state before |
| Cluster.JoinChatRoom | src/OrleansObserverExample.Server/Grains/Player/PlayerGrain.cs:62-78 | A joined room is left alone; a new room adds the player to its roster with an announcement, joins the player's rooms, and leaves chains the player has not joined untouched; everything after the announcement goes only to the player's own observer |
| Cluster.JoinChatRoomReachesChains | src/OrleansObserverExample.Server/Grains/Player/PlayerGrain.cs:70-77 | Joining a new room sends every joined chain one `JoinChatRoom` event targeted at the room, with count 1 |
| Cluster.LeaveChatRoom | src/OrleansObserverExample.Server/Grains/Player/PlayerGrain.cs:80-93 | Only a joined room is acted on: the room drops the player with an announcement, the player's rooms lose it, and no chain is touched |
| Cluster.SendMessage | src/OrleansObserverExample.Server/Grains/Player/PlayerGrain.cs:100-116 | A room not joined is a no-op; otherwise the room sends the player's line first, everything after it goes only to the player's own observer, and only the ledger of the player can change |
| Cluster.SendMessageReachesChains | src/OrleansObserverExample.Server/Grains/Player/PlayerGrain.cs:108-115 | Sending in a joined room sends every joined chain one `SendMessages` event with an empty target and count 1 |
| Cluster.SetLevel | src/OrleansObserverExample.Server/Grains/Player/PlayerGrain.cs:202-216 | The level is set, chains the player has not joined are untouched, of the player only the level and ledger change, and nothing is sent except to the player's own observer |
| Cluster.SetLevelReachesChains | src/OrleansObserverExample.Server/Grains/Player/PlayerGrain.cs:209-213 | A level change sends every joined chain one `ReachLevel` event targeted at the new level in decimal, with count 1 |
| Cluster.JoinTaskChain | src/OrleansObserverExample.Server/Grains/Player/PlayerGrain.cs:228-238 | A first join creates the player's record on the chain; joining again changes nothing |
| Cluster.GoOnline | src/OrleansObserverExample.Server/Grains/Player/PlayerGrain.cs:150-161 | Each joined room, in join order, announces the player online to all its subscribers |
| Cluster.GoOffline | src/OrleansObserverExample.Server/Grains/Player/PlayerGrain.cs:163-174 | Each joined room, in join order, announces the player offline to all its subscribers |
| Cluster.CompleteTask | src/OrleansObserverExample.Server/Grains/TaskChain/TaskChainGrain.cs:112-138 | A client's forced completion credits the player's ledger with exactly what the chain granted, and sends the completion notice when it finished the chain |
| Cluster.ClaimFinalRewards | src/OrleansObserverExample.Server/Grains/TaskChain/TaskChainGrain.cs:140-155 | What a claim returns is exactly what the player's ledger is credited with |
| NewbieScenario.NewbieSuccessors | src/OrleansObserverExample.Server/Grains/TaskChain/TaskChainGrain.cs:297-339 | In the newbie chain task 2 follows task 1, task 3 follows task 2, and task 3 is the last |
| NewbieScenario.NewbieStart | src/OrleansObserverExample.Server/Grains/TaskChain/TaskChainGrain.cs:288-347 | A player's first access to the newbie chain creates a record at task 1 with counter 0 |
| NewbieScenario.JoinCompletesFirstTask | src/OrleansObserverExample.Server/Grains/TaskChain/TaskChainGrain.cs:299-312 | Joining any room completes task 1: its rewards are granted and task 2 becomes current with counter 0 |
| NewbieScenario.NineMessagesProgress | src/OrleansObserverExample.Server/Grains/TaskChain/TaskChainGrain.cs:313-325 | Nine chat lines raise the counter of task 2 to 9 and grant nothing |
| NewbieScenario.TenthMessageCompletesSecondTask | src/OrleansObserverExample.Server/Grains/TaskChain/TaskChainGrain.cs:313-325 | The tenth chat line completes task 2 with its rewards and makes task 3 current |
| NewbieScenario.LevelChangeCounts | src/OrleansObserverExample.Server/Grains/TaskChain/TaskChainGrain.cs:326-338 | A single level change, to any level, raises a counter of task 3 below 4 by one and grants nothing |
| NewbieScenario.FourLevelChangesProgress | src/OrleansObserverExample.Server/Grains/TaskChain/TaskChainGrain.cs:326-338 | Four level changes to the different levels 2, 3, 4 and 5, reported in decimal as `SetLevel` reports them, raise the counter of task 3 from 0 to 4, grant nothing and notify no one |
| NewbieScenario.FifthLevelChangeFinishesChain | src/OrleansObserverExample.Server/Grains/TaskChain/TaskChainGrain.cs:326-338 | A fifth level change completes task 3 and the chain, stamps the completion time and notifies the player |
| NewbieScenario.JoinChatRoomAdvancesNewbie | src/OrleansObserverExample.Server/Grains/Player/PlayerGrain.cs:62-78 | Through the player grain, joining a new room moves a newbie record at task 1 to task 2 |

## Left out

- The Orleans runtime: activation, `GrainFactory`, the turn-based scheduler, re-entrant calls and the single-writer guarantee. Each grain is sequential state, and a call between grains is a function call.
- Concurrency. The `Task.WhenAll` fan-outs in the chat and player grains run sequentially, in join order. The fire-and-forget `Task.Run` in `SetLevel` runs at once.
- Failures inside a fan-out. The code catches and logs an exception thrown by one subscriber or chain; the model has no exceptions, so every branch succeeds.
- The clock and `Guid.NewGuid`. Both are parameters (`now`, `messageId`). The code reads two clocks: `DateTime.Now` for start, join and expiry times, and `DateTime.UtcNow` for message and login times. The model passes one `now` to both, which is harmless because no comparison mixes the two. `IsExpired` is modelled and, as in the code, no transition consults it.
- JSON loading and path probing in `MockDbContext`. Only the insertion of an already-parsed list is modelled. `SaveChangesAsync` is a no-op and is left out.
- Log output and the human-readable message text of results and notifications. Results are a datatype with a failure reason, and notifications carry a `Notice`. Only the `name: message` formatting of chat lines is kept as text.
- `SendPrivateMessage`: it only logs.
- The free-form `Metadata` and `Settings` dictionaries of the data records. They carry no behaviour.
- The `IsOnline` field the player grain writes in `SetObserver`, `RemoveObserver`, `GoOnline` and `GoOffline`: nothing reads it, because `GetPlayerInfo` derives online-ness from the observer.
- The chat room's activation, which loads its record and ten history messages only to log them.
- Both `Program.cs` files, `ChatObserver.cs` and `DataPreloadFilter.cs`: wiring, console output and start-up.
- The enumeration order of dictionaries and hash sets. The model fixes it to insertion order.
- TaskChainGrain.NextTask: its own contract says only that the next task is a catalog task with an id no lower than the given one. The full characterisation (the task with the least id above, and none for an absent or last id) is `TaskChainProofs.NextTaskIsNextHigher`, which needs distinct task ids. Every built-in template has them.
- TaskChainGrain.IsExpired: its contract is its definition; what it means for the grain is stated by `TaskChainProofs.TransitionsKeepExpiry` and `TaskChainProofs.ExpiryIsPermanent`.
- Seqs.SortBy: `OrderBy` is stable, and so is the insertion sort, but no contract states stability. Only sortedness and permutation are promised, so the order of messages sent at the same instant is not pinned down.
- MockDataService.GetRoomMessagesAsync: the default argument `limit = 50` is not modelled; the limit is always passed explicitly.
- Common.IntToString: a level's text is formatted with an ASCII '-' for negative levels. `ToString()` uses the current culture's negative sign, which the model does not vary; only negative levels are affected.
- ChatGrain.GetOnlinePlayers: returns a set, so the list's order and any repeats of equal entries are not modelled.
- Cluster.SendMessage: after the room's broadcast, every output is stated to be a direct call on the player's own observer. Their order and content are stated per chain through `Cluster.ChainUpdate` and `PlayerGrain.ProgressNotices`, not for the whole fan-out.
- Cluster.JoinChatRoom: states the room's announcement as the first output, and that every later output goes only to the player's own observer. Their order and content are stated per chain only, as for `Cluster.SendMessage`.
- Cluster.SetLevel: every output is stated to be a direct call on the player's own observer. The order and content of the progress notices are stated per chain through `Cluster.ChainUpdate` and `PlayerGrain.ProgressNotices`, not for the whole fan-out.
