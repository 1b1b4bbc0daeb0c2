# A verified model of the game server's stateful cores

This project models, in Dafny, the parts of the C++ game server framework whose correctness depends on
whole runs of operations, and proves what those runs keep. Each file follows one component:

- `Leaderboard.dfy`: the bounded leaderboard (`base/nSequence.h`). The board is a sorted sequence beside the
  key index, and every operation comes with the rank-change calls it makes. A listener who replays the
  calls is right after every step exactly when the leader never falls.
- `CmdQueue.dfy`: the command ring with its overflow deque (`base/nCmdQueue.h`), as an object and as a machine
  in which producer and consumer interleave access by access.
- `ItemStacks.dfy`, `ItemPackage.dfy`: the inventory (`game/nItemPackage.h`). What sorting and topping up do to
  lists of stacks, and the package of shared items that does it in place.
- `WriteBehind.dfy`: player records with dirty flags, a FIFO of SQL updates and the guard on the next login
  (`dataServer/dtUser.cpp`, `dtUserService.cpp`, `dtSerializeService.cpp`).
- `StateMachine.dfy`: the re-entrant state machine (`base/nStateMachine.h`). Callbacks take their actions from
  a finite script of events and table switches, so every nesting ends.
- `LoginSessions.dfy`: ownership of login sessions when every lock-protected region of every operation may
  interleave with every other (`gatewayServer/gwLoginSessionManager.cpp`).
- `Managers.dfy`: the manager with three indexes over a hash table into a list (`base/nManager.h`,
  `base/nHashListTable.h`).
- `LineDrawing.dfy`: integer lines with a 16-bit decision variable (`game/nAlgo.h`).
- `Clocks.dfy`: points in time, the interval timer and the alarm clock (`base/nTime.h`, `base/nTimer.h`).
- `ScriptActions.dfy`: delayed script actions and the tick that swaps finished ones out (`game/nScriptObj.h`).
- `Splitters.dfy`: three string splitters, `unique` and `join` (`base/nStringTool.h`).
- `IdAllocators.dfy`: allocators with reuse (`base/nIDManager.h`) and the index that numbers its entities.

Code that changes objects is modelled as classes whose methods are proved equal to functions on values; the
theorems about runs are about those functions.

`Common.dfy` and `Arithmetic.dfy` hold the option type and the facts about products and quotients they share.

Where a property does not hold of the code in general, a lemma says exactly when it does:

- When the leader falls, the hint iterator is already the successor and the walk steps past it
  (`base/nSequence.h:188-190`, `225`). Rank calls can be replayed exactly when that never happens.
- `sortItem` can change counts and tell nobody (`game/nItemPackage.h:500-514`): exactly when
  `std::sort` left the items as they stood, they stood at 0, 1, 2, ..., some group was not packed, and every
  group was packed or had no more stacks than its units need.
- `setStateTable` outside a transition clears its state only after the exit callback; exactly when that callback
  raises an event that takes effect, the state is left twice (`base/nStateMachine.h:309-313`).
- `popCmd` without a command in hand frees the newest command, exactly when the ring is full.
- A sweep of timed-out sessions keeps ids between its locks. It can free a session that has not timed out
  exactly when that session, not timed out yet, was added under an id such a sweep held at that moment.
- `nManager::remove` goes by keys; it tears the indexes apart exactly when the keys of the entity disagree.
- The decision variable of a line has 16 bits; the points drawn are the nearest ones exactly as long as its sign
  survives in them, which for a whole line follows from the two sides and their greatest common divisor. The
  first step and `getLineDirect` agree exactly when the first value fits; a line from a point to itself drifts
  away from it, because both signs are then negative.
- `nIndexSequenceID` looks for 0 where its allocator reports exhaustion by its greatest id; adding then goes
  wrong exactly when no id is left.
- The time-reuse allocator hands out its own invalid id exactly as the number after 0xFFFFFFFE and when that one has
  rested. While the clock fits 32 bits, ids go out free and rested over whole runs exactly as long as every
  call finds an id at the front whose rest is over, its end fitting 32 bits, or, with none rested, a next
  number that is free. A number is free until all have been given out; at that moment the next one is 1,
  and it is in use exactly when 1 is.
- A clock rings twice at one moment exactly for a time with the adjustment already taken out, when that
  adjustment is a backward one no smaller than the wait.
- Splitting by a list ends exactly when no empty separator is ever the first to match.
- A script action is pending until its last call is made or a call is answered with false, exactly so long.

`removeData` increments an iterator that has been erased (`base/nSequence.h:125`); it is modelled as the entry after
the one removed.

## Model

| member | source | states |
|---|---|---|
| `Leaderboard.ReplayIsTrueRanking` | base/nSequence.h:108-268 | for every run of updates and removals: a listener that replays all rank calls, reading ranks above the size as none, has every key's true rank after every step exactly when the leader never falls |
| `Leaderboard.StepTracks` | base/nSequence.h:108-268 | for one call from an accurate listener: it stays accurate exactly when the leader does not fall, and then the old ranks it is told are the ones it knows |
| `Leaderboard.TopFallMisleads` | base/nSequence.h:188-232 | when the leader falls the walk begins one entry late; every key's reading after it: the entry that now leads is read as second, those the old leader has fallen behind as one better than they are, all others, the old leader included, right |
| `Leaderboard.CallsAreWellTold` | base/nSequence.h:108-268 | in every operation, falls of the leader included: no key is told twice, none without a change, the key of the operation first, and all others shift by one place in the same direction, rank after rank |
| `Leaderboard.BoardOrder` | base/nSequence.h:9-33 | in plain values and keys: the greater value stands first on a descending board, and of equal values the greater key; both the other way round on an ascending one |
| `Leaderboard.RefusedWhen` | base/nSequence.h:145-153 | a new key is refused exactly when the board is full and its value does not beat the last one, equal values refused |
| `Leaderboard.UpdatedOrRefused` | base/nSequence.h:142-268 | in plain fields: an update that is not refused leaves its value on the board, one that is refused changes nothing and calls nobody |
| `Leaderboard.RunKeepsBoard` | base/nSequence.h:108-268 | over every run the board is strictly sorted, has distinct keys and at most the maximal size |
| `Leaderboard.ApplyKeepsBoard` | base/nSequence.h:108-268 | the same for one operation, admission with eviction included |
| `Leaderboard.RankCountsAhead` | base/nSequence.h:281-297 | a rank is one more than the number of entries strictly ahead |
| `Leaderboard.RunIsTop` | base/nSequence.h:142-179 | without removals and without a worsening score, no key left out has a latest value better than any on the board, and the board is full if anybody is left out |
| `Leaderboard.TopStep` | base/nSequence.h:142-179 | one update keeps the board a true top exactly when the key was not on it or nobody left out beats its new value; a score that does not worsen always does |
| `Leaderboard.NewcomerStays` | base/nSequence.h:145-177 | a key that is admitted to a full board is never the one evicted |
| `Leaderboard.LastIsWorst` | base/nSequence.h:146-153 | the code compares with the last entry only: a value refused by it is refused by all |
| `Leaderboard.RemoveMembers` | base/nSequence.h:120-121 | removal takes out one entry and nothing else |
| `Leaderboard.RescoreMembers` | base/nSequence.h:194-199 | a new score replaces the entry of its key and nothing else |
| `Leaderboard.AdmitMembers` | base/nSequence.h:154-177 | admission adds the newcomer and drops at most the last |
| `Leaderboard.RemoveTracks` | base/nSequence.h:108-136 | the calls of a removal, walked once, are what re-ranking from scratch gives |
| `Leaderboard.InsertTracks` | base/nSequence.h:154-178 | the same for an insertion with its eviction |
| `Leaderboard.MoveTracks` | base/nSequence.h:181-241 | the same for a new score, rising or falling, when the leader does not fall |
| `Leaderboard.IndexSize` | base/nSequence.h:142-179 | index and ordered set have the same size |
| `Leaderboard.Sequence.constructor` | base/nSequence.h:99-102 | an empty valid board |
| `Leaderboard.Sequence.RemoveData` | base/nSequence.h:108-136 | new board, index and calls are those of a removal; the index stays a bijection onto the set |
| `Leaderboard.Sequence.UpdateData` | base/nSequence.h:142-268 | new board, index and calls are those of an update: the calls tell a replaying listener right, as StepTracks, and, when the leader falls, to what TopFallMisleads says |
| `Leaderboard.Sequence.CheckFull` | base/nSequence.h:145-153 | full and refused, in both directions |
| `Leaderboard.Sequence.EvictIf` | base/nSequence.h:172-177 | the last entry leaves set and index together |
| `Leaderboard.Sequence.InsertNew` | base/nSequence.h:154-178 | set, index and calls after an admission |
| `Leaderboard.Sequence.Rescore` | base/nSequence.h:182-261 | set, index and calls after a new score, a fall of the leader included |
| `Leaderboard.Sequence.EraseAndInsert` | base/nSequence.h:187-199 | the entry at its new place, and where the iterator kept as a hint then stands |
| `Leaderboard.Sequence.AnnounceMove` | base/nSequence.h:204-260 | the calls of a move, those of the leader included; the branches that need a rank above the size are proved unreachable |
| `Leaderboard.Sequence.AnnounceShift` | base/nSequence.h:227-238 | the walk over the entries that shift |
| `Leaderboard.Sequence.AnnounceLeave` | base/nSequence.h:123-129 | the calls after a removal |
| `Leaderboard.Sequence.AnnounceEnter` | base/nSequence.h:161-169 | the calls after an insertion |
| `Leaderboard.Sequence.FindRank` | base/nSequence.h:115-118 | place and rank of an entry |
| `Leaderboard.Sequence.NewRank` | base/nSequence.h:201-203 | the rank after a move, found within the size |
| `Leaderboard.Sequence.GetOrderNum` | base/nSequence.h:281-297 | present exactly when indexed, and then the rank |
| `Leaderboard.Sequence.Clear` | base/nSequence.h:299-304 | an empty valid board |
| `CmdQueues.NothingLostOrOvertaken` | base/nCmdQueue.h:25-84 | after every interleaving of single memory accesses of producer and consumer, what was pushed is, in order, what was delivered, what the ring holds, what the deque holds and what is being pushed |
| `CmdQueues.RunKeepsInv` | base/nCmdQueue.h:25-84 | pops, reads and writes stay ordered, and exactly the slots of the window from pops to writes are occupied, each with its command |
| `CmdQueues.NextKeepsInv` | base/nCmdQueue.h:25-84 | the same for one memory access of either side |
| `CmdQueues.StrayPop` | base/nCmdQueue.h:36-41 | popCmd without a command in hand is harmless exactly when the ring is not full |
| `CmdQueues.NoCommandMeansRingEmpty` | base/nCmdQueue.h:25-35 | getCmd finds nothing exactly when all that is undelivered waits in the deque or is being pushed |
| `CmdQueues.PushIsProducerAlone` | base/nCmdQueue.h:42-56 | the call pushCmd is the run of the producer alone |
| `CmdQueues.WriteSlotFree` | base/nCmdQueue.h:72-75 | the slot to write is free exactly when the window is not full |
| `CmdQueues.ReadSlotNext` | base/nCmdQueue.h:28-31 | the slot to read holds the next undelivered command, or nothing is written |
| `CmdQueues.DrainedKeepsInv` | base/nCmdQueue.h:70-84 | moving waiting commands into the ring keeps order and contents, and stops only at a full ring |
| `CmdQueues.PushedKeepsInv` | base/nCmdQueue.h:42-56 | a whole push keeps all that: a command overtakes none |
| `CmdQueues.PushedFillsRing` | base/nCmdQueue.h:42-56 | after a push something waits in the deque only when the ring is full |
| `CmdQueues.PushedIsVisible` | base/nCmdQueue.h:42-56 | after a push a consumer that has popped what it took finds a command at once: the oldest one undelivered, which on an empty queue is the one pushed |
| `CmdQueues.PushedByProducer` | base/nCmdQueue.h:42-56 | the call pushCmd is what the producer does alone, one access after the other |
| `CmdQueues.ProducerDecides` | base/nCmdQueue.h:42-84 | under every interleaving the producer sends a command to the deque exactly when at its look the ring is full |
| `CmdQueues.InRingIsPushed` | base/nCmdQueue.h:25-56 | the slots of the window are the commands pushed, in order, across the wrap of the index |
| `CmdQueues.CmdQueue.constructor` | base/nCmdQueue.h:16-20 | an empty valid queue |
| `CmdQueues.CmdQueue.GetCmd` | base/nCmdQueue.h:25-35 | the next undelivered command, or nothing exactly when the ring is empty |
| `CmdQueues.CmdQueue.PopCmd` | base/nCmdQueue.h:36-41 | frees the slot of the command taken and nothing else |
| `CmdQueues.CmdQueue.PutQueueToArray` | base/nCmdQueue.h:70-84 | the ring filled from the deque; true exactly when something still waits |
| `CmdQueues.CmdQueue.PushCmd` | base/nCmdQueue.h:42-56 | the command is the last one pushed; the deque is non-empty afterwards only with a full ring; the slot read next holds the oldest undelivered command |
| `CmdQueues.CmdQueue.EmptyRing` | base/nCmdQueue.h:62-67 | everything in the ring is taken and freed |
| `CmdQueues.CmdQueue.Clear` | base/nCmdQueue.h:59-69 | everything ever pushed has been taken once, in order, and every slot is free |
| `WriteBehind.LoginRestoresLogout` | dataServer/dtUser.cpp:273-346 | after every guarded run of changes, ticks, logouts, SQL executions and hand-backs, a guarded login gives a character exactly the record it had at its previous logout, the login address aside |
| `WriteBehind.RunKeepsInv` | dataServer/dtUser.cpp:273-346 | for every character in every guarded run: the database row overlaid with the queued updates equals memory on all unflagged fields |
| `WriteBehind.StepKeepsInv` | dataServer/dtUser.cpp:273-346 | the same for one step |
| `WriteBehind.UnguardedLogin` | dataServer/dtUser.cpp:313-323 | without the guard, column by column: what the login restores differs from the record at the logout, the login address aside, exactly where a statement is still queued that will write another value; so the whole record is right exactly when the pending updates change nothing |
| `WriteBehind.OverlayColumn` | dataServer/dtSerializeService.cpp:138-149 | once the queue is worked off a column holds what the last statement that names it writes, or what it held |
| `WriteBehind.SessionPending` | dataServer/dtUser.cpp:313-346 | for every session of login, save and logout: an unguarded login right after it finds every column as it was before the session, although what was saved is on record as the state at the logout |
| `WriteBehind.GuardIsNeeded` | dataServer/dtUser.cpp:313-317 | a run in which an unguarded login loses what was saved at logout |
| `WriteBehind.EverybodyMayReturn` | dataServer/dtUserService.cpp:358-375 | once the queue is worked off and the callbacks handed back nobody waits, and every offline row is that of the last logout |
| `WriteBehind.FlushAgrees` | dataServer/dtUser.cpp:273-304 | a flush makes the row, once updated, equal to memory on every field |
| `WriteBehind.ChangeAllAgrees` | dataServer/dtUser.cpp:378-652 | a block of fields keeps unflagged fields in agreement with the row |
| `WriteBehind.ChangeAllInFields` | dataServer/dtUser.cpp:378-652 | over table, flags and switch: every field given holds the last value given for it, every other is unchanged, what has changed is flagged and asks for a flush, nothing else is flagged, and values that are there already change nothing |
| `WriteBehind.LoginIPAgrees` | dataServer/dtUser.cpp:726-734 | the same for the login address, which is flagged without asking for a flush |
| `WriteBehind.ClosingAgrees` | dataServer/dtUser.cpp:337-342 | the same for the preparation of the last save |
| `WriteBehind.ClosingSaves` | dataServer/dtUser.cpp:337-346 | the last save of a record: the time since the login is added in 32 bits, and the statement has the time of going offline, every flagged column and the online time if that has changed, all with the values in memory |
| `WriteBehind.User.constructor` | dataServer/dtUser.cpp:158-180 | the record as restored |
| `WriteBehind.User.SetField` | dataServer/dtUser.cpp:654-662 | a field assigned and flagged |
| `WriteBehind.User.UpdateUserData` | dataServer/dtUser.cpp:378-652 | as ChangeAllInFields: the last value given for each field, flags and switch exactly for what changed |
| `WriteBehind.User.UpdateOnlineTime` | dataServer/dtUser.cpp:715-724 | the online time grown by the time since login, in 32 bits; flagged exactly when that is not zero |
| `WriteBehind.User.SaveCharBaseData` | dataServer/dtUser.cpp:273-294 | the columns saved are the flagged fields and the offline time |
| `WriteBehind.User.CheckFlush` | dataServer/dtUser.cpp:296-304 | a statement exactly when a flush is due, with the flagged columns and the offline time as in memory; table, flags and switch after it |
| `WriteBehind.User.Unreg` | dataServer/dtUser.cpp:337-346 | there is always a last statement, as ClosingSaves, and nothing is flagged after it |
| `WriteBehind.DataServer.CreateRole` | dataServer/dtUserService.cpp:153-201 | a new row, once |
| `WriteBehind.DataServer.LoginUser` | dataServer/dtUserService.cpp:89-116 | the user with the record of its last logout and the new address, flagged if it differs, if there is a row and it is not online |
| `WriteBehind.DataServer.SaveUserData` | dataServer/dtSerializeService.cpp:88-108 | the record of that user changes as ChangeAllInFields says, and no other |
| `WriteBehind.DataServer.TickUser` | dataServer/dtUser.cpp:306-311 | one statement more, with the flagged columns, exactly when a flush is due |
| `WriteBehind.TickQueues` | dataServer/dtUser.cpp:296-311 | after a tick that was due the row, once the queue is worked off, is the record in memory |
| `WriteBehind.LogoutQueues` | dataServer/dtUserService.cpp:144-151 | a logout queues one statement, the last save, and leaves the record it was made from as the state at the logout |
| `WriteBehind.DataServer.LogoutUser` | dataServer/dtUserService.cpp:144-151 | the user is gone, waits, and its last statement, as ClosingSaves, carries the callback |
| `WriteBehind.DataServer.ExecuteSql` | dataServer/dtSerializeService.cpp:138-149 | the oldest statement is executed, column by column, and its callback noted |
| `WriteBehind.DataServer.DoTick` | dataServer/dtSerializeService.cpp:151-167 | all callbacks noted are handed back, and those users wait no more |
| `StateMachines.EveryRunAlternates` | base/nStateMachine.h:303-488 | on every run, whatever events enter, exit, change, non-change, update and collect callbacks raise and whatever tables those of enter, update and collection switch to: enter and exit calls alternate exactly when no table switch outside a transition had an exit callback that moved the machine; then at most one state is entered at any time, current equals next and the guards are clear |
| `StateMachines.RunInv` | base/nStateMachine.h:303-488 | the invariant behind it, for every run |
| `StateMachines.GuardedEvent` | base/nStateMachine.h:396-416 | an event raised inside a transition or update sets the pending state, unless it leads to the current one; then only what onStateNonChange raises may set it |
| `StateMachines.GuardedRun` | base/nStateMachine.h:441-445 | all events of a guarded callback together, with the notifications in between, only move the pending state, to a state given outright |
| `StateMachines.UpdateDefers` | base/nStateMachine.h:376-391 | events raised in an update take effect only after it returns, as one transition to the state then pending |
| `StateMachines.QuietTransition` | base/nStateMachine.h:396-416 | in terms of the table: the state's own entry decides, whatever the global table holds, without one the global entry; it takes effect unless its chance is below 100 and the roll above it; then the state is left once and the new one entered once, after exactly the callbacks for leaving, change, entering and each of its events; otherwise only the notification is called |
| `StateMachines.TransitionAnswered` | base/nStateMachine.h:439-488 | for every transition in which one callback, whichever it is, sends an event: sent on leaving or with the change it turns the transition aside, and the state first meant is never entered; sent on entering or during the collection it leads on, the state is entered and left again and what is left to collect is not; one that leads nowhere is only told of |
| `StateMachines.TransitionSwitched` | base/nStateMachine.h:439-483 | a state whose enter callback switches tables is left at once for the initial state of the new one; its events are collected once, or twice when it is the table the transition began with |
| `StateMachines.SwitchedOnCollecting` | base/nStateMachine.h:139-159 | a table switch during the collection ends it, unless it leads to the same state |
| `StateMachines.SilentSwitch` | base/nStateMachine.h:303-326 | a table switch with silent callbacks: the old state left once, the initial state entered once and its events collected, nothing pending and no previous state |
| `StateMachines.UpdateAnswered` | base/nStateMachine.h:376-391 | an event sent in an update is looked up once, and followed once, after the update has returned |
| `StateMachines.ActionsInTurn` | base/nStateMachine.h:396-416 | a callback that sends several events sends each of them, in order |
| `StateMachines.MovingRunLeaves` | base/nStateMachine.h:303-314 | events of an exit callback that move the machine, at once or through a notification, leave the state a second time |
| `StateMachines.HarmlessRun` | base/nStateMachine.h:303-314 | events that do not move it leave machine and trace as they are |
| `StateMachines.LeaveTable` | base/nStateMachine.h:303-314 | the exit half of a table switch breaks the alternation exactly when its exit callback moves the machine |
| `StateMachines.DestroyedLeavesAll` | base/nStateMachine.h:262-267 | destruction leaves what was entered, and nothing twice, exactly when the last exit callback does not move the machine |
| `StateMachines.SetCurrentInv` | base/nStateMachine.h:439-488 | a transition keeps the invariant |
| `StateMachines.SettleInv` | base/nStateMachine.h:456-483 | so does its loop, with the callbacks of every round |
| `StateMachines.HopInv` | base/nStateMachine.h:457-466 | and one round |
| `StateMachines.SetTableInv` | base/nStateMachine.h:303-326 | and a table switch |
| `StateMachines.UpdateInv` | base/nStateMachine.h:376-391 | and an update |
| `StateMachines.RegEventsInv` | base/nStateMachine.h:139-159 | and the collection of missed events |
| `StateMachines.AtMostOneEntered` | base/nStateMachine.h:456-483 | in an alternating trace at most one state is entered at any time |
| `StateMachines.StateMachine.constructor` | base/nStateMachine.h:250-252 | no table, nothing entered |
| `StateMachines.StateMachine.Send` | base/nStateMachine.h:396-416 | the machine after an event; on a machine at rest with silent callbacks what the table says, as QuietTransition |
| `StateMachines.StateMachine.SetCurrentState` | base/nStateMachine.h:439-488 | the machine after a transition, nested ones included |
| `StateMachines.StateMachine.OneHop` | base/nStateMachine.h:457-466 | one round of it |
| `StateMachines.StateMachine.RegStateEvent` | base/nStateMachine.h:139-159 | collection stops as soon as the state is no longer the current one |
| `StateMachines.StateMachine.SetStateTable` | base/nStateMachine.h:303-326 | the machine after a table switch |
| `StateMachines.StateMachine.UpdateState` | base/nStateMachine.h:376-391 | the machine after an update |
| `StateMachines.StateMachine.Destroy` | base/nStateMachine.h:262-267 | the machine after its destruction |
| `ItemStacks.SortTheorem` | game/nItemPackage.h:477-506 | sorting a vector: every item exactly once, survivors in comparator order, the absorbed empty and last, units of every group unchanged, in as few stacks as getNeedCapacity says |
| `ItemStacks.PackedIsMinimal` | game/nTable.h:109-115 | a group of which all but the last stack are full takes exactly getNeedCapacity slots |
| `ItemStacks.CompactPacks` | game/nItemPackage.h:480-499 | the merge pass leaves every stack full that is followed by one of its group |
| `ItemStacks.CompactConserves` | game/nItemPackage.h:489-498 | it moves units only inside a group |
| `ItemStacks.CompactKeepsItems` | game/nItemPackage.h:489-498 | every item survives or is absorbed, once, and the absorbed are empty |
| `ItemStacks.PackedIsOrdered` | game/nItemPackage.h:444-463 | full stacks before the rest are in comparator order |
| `ItemStacks.OrderInFields` | game/nItemPackage.h:444-463 | the comparator order in plain fields: by kind, then id, then unbound before bound, then the larger count |
| `ItemStacks.MergeFills` | game/nItemPackage.h:489-498 | a merge stops only when the stack is full or its group has ended |
| `ItemStacks.PartialMergeGoesUnreported` | game/nItemPackage.h:482-515 | merging empties no stack and yet changes counts exactly when some group is not packed and every group is packed or has no more stacks than its units need |
| `ItemStacks.AbsorbsNothing` | game/nItemPackage.h:482-500 | no stack is emptied exactly when every group is packed or has no more stacks than getNeedCapacity of its units |
| `ItemStacks.PackedStays` | game/nItemPackage.h:482-500 | merging changes nothing at all exactly when every group is packed |
| `ItemStacks.TightByCount` | game/nItemPackage.h:482-500 | with no empty stacks that is: no group has more stacks than getNeedCapacity of its units |
| `ItemStacks.EmptyMeansPacked` | game/nItemPackage.h:482-500 | when nothing is absorbed, a group with an empty stack was packed |
| `ItemStacks.TwoStacksMerge` | game/nItemPackage.h:482-500 | 6 and 6 with a limit of 10 become 10 and 2, and nothing is emptied: so it is with any two stacks that together exceed one slot |
| `ItemStacks.FillConserves` | game/nItemPackage.h:310-334 | topping up takes exactly what was asked for or what there is room for |
| `ItemStacks.FillAt` | game/nItemPackage.h:310-334 | it only adds, within limits, to stacks of the same sort |
| `ItemStacks.FillInOrder` | game/nItemPackage.h:310-334 | first come first served: behind a stack of the sort that is not full nothing has changed |
| `ItemPackages.PouringFills` | game/nItemPackage.h:285-334 | collecting candidates first and pouring into them later gives the stacks and the remainder of one pass over all |
| `ItemPackages.NoneCollected` | game/nItemPackage.h:297-321 | there are no candidates exactly when no stack can take anything |
| `ItemPackages.SameTotal` | game/nItemPackage.h:468-474 | the same items in another order have the same units |
| `ItemPackages.StayedPut` | game/nItemPackage.h:477-513 | when nothing was emptied, some item moved exactly if the location map has changed |
| `ItemPackages.Item.UnionItem` | game/nItemPackage.h:328-330 | exactly k units move; all is said exactly when the source is empty |
| `ItemPackages.MergeRun` | game/nItemPackage.h:489-498 | the inner loop, which advances the index of the outer one: the merge of one stack with what follows it |
| `ItemPackages.SortVec` | game/nItemPackage.h:473-474 | some order in which nothing stands before what is less |
| `ItemPackages.ItemPackage.SortItem` | game/nItemPackage.h:466-516 | dense positions 0 to n-1, each item once; survivors in order, the emptied last; every group keeps its units in as few stacks as they allow; the sort is silent exactly when std::sort left the items as they stood, they stood at 0, 1, 2, ... and every group was packed or had no stack too many, and silent with changed counts exactly when moreover some group was not packed |
| `ItemPackages.SilenceIs` | game/nItemPackage.h:500-515 | the same condition, from the stacks before the sort alone |
| `ItemPackages.StrictIsKept` | game/nItemPackage.h:473-474 | items in strict order are left as they stood by any sort |
| `ItemPackages.StoodAs` | game/nItemPackage.h:477-487 | the items stood at 0, 1, 2, ... in the order of the vector exactly when the keys are dense and the vector is the order of iteration |
| `ItemPackages.SortTwo` | game/nItemPackage.h:466-516 | 7 and 6 become 10 and 3 and nobody is told; 6 and 6 become 10 and 2 likewise unless the two, which compare equal, are swapped |
| `ItemPackages.ItemPackage.Arrange` | game/nItemPackage.h:476-516 | the same in terms of the ordered vector |
| `ItemPackages.ItemPackage.Survivors` | game/nItemPackage.h:476-499 | after the first loop the survivors are filed at 0, 1, 2, ... and the others listed |
| `ItemPackages.ItemPackage.PlaceRest` | game/nItemPackage.h:501-506 | the emptied items behind them |
| `ItemPackages.ItemPackage.GetEmptyPos` | game/nItemPackage.h:559-581 | the least free position; the invalid one exactly when 0, 1, 2, ... are all taken up to the capacity |
| `ItemPackages.ItemPackage.AddItem` | game/nItemPackage.h:337-369 | succeeds exactly when the item manager accepts and, with no position wished, fewer items than the capacity are filed, or the position wished is free and allowed; an automatic position is the least free and below the capacity; nothing changes on failure |
| `ItemPackages.ItemPackage.CollectUnion` | game/nItemPackage.h:285-317 | the candidates, in order, up to the one that makes room enough |
| `ItemPackages.ItemPackage.PourInto` | game/nItemPackage.h:325-333 | what pouring into them leaves |
| `ItemPackages.ItemPackage.UnionItem` | game/nItemPackage.h:311-334 | the stacks after one pass; AllUnioned exactly when there is a candidate and room for everything, NoChange exactly when there is none |
| `ItemPackages.ItemPackage.AddAndUnionItem` | game/nItemPackage.h:244-283 | the result in every case, in plain counts: AllUnioned whenever merging is tried and there is room, Fail exactly when nothing merged and the item cannot be filed; units of every group are conserved; nothing changes on Fail |
| `ItemPackages.ItemPackage.RemoveItem` | game/nItemPackage.h:429-441 | the item leaves with its units and nothing else changes |
| `LoginSessions.EveryRunOwnsOnce` | gatewayServer/gwLoginSessionManager.cpp:17-142 | under every interleaving of the lock-protected regions: every session created is in the manager under both keys, or with exactly one connection, user or ending call, or freed |
| `LoginSessions.StepKeepsInv` | gatewayServer/gwLoginSessionManager.cpp:17-142 | the same for one region |
| `LoginSessions.VerifyAlone` | gatewayServer/gwLoginSessionManager.cpp:30-64 | a verification nothing interferes with ends with the session of its name on the connection and out of the manager |
| `LoginSessions.VerifyUserAlone` | gatewayServer/gwLoginSessionManager.cpp:48-63 | without one in the manager it gets the session kept for a protected user of that name, and is refused if there is none |
| `LoginSessions.EndAlone` | gatewayServer/gwLoginSessionManager.cpp:120-142 | endLoginSession frees the session of its name and no other |
| `LoginSessions.SweepAlone` | gatewayServer/gwLoginSessionManager.cpp:86-112 | a sweep nothing interferes with frees exactly the sessions that began at least the time-out ago |
| `LoginSessions.FreedOnce` | gatewayServer/gwLoginSessionManager.cpp:86-142 | no session is freed twice, and what a step frees belonged to that step alone |
| `LoginSessions.RunKeepsLate` | gatewayServer/gwLoginSessionManager.cpp:86-112 | an id a sweep holds between its two locks is always that of some session that had timed out |
| `LoginSessions.SweptAreLate` | gatewayServer/gwLoginSessionManager.cpp:97-110 | with ids never used again, a sweep frees only sessions that have timed out |
| `LoginSessions.YoungIsSweptWhen` | gatewayServer/gwLoginSessionManager.cpp:17-110 | when a session is added, some way to go on has a sweep free it before it has timed out exactly when it has not timed out at that moment and a sweep between its two locks holds its id |
| `LoginSessions.RunSweepsLate` | gatewayServer/gwLoginSessionManager.cpp:17-110 | over every run from the start in which no session begins under an id held, every session a sweep frees has timed out |
| `LoginSessions.NewIdsAreClear` | gatewayServer/gwLoginSessionManager.cpp:17-110 | a run in which no id is used twice is such a run |
| `LoginSessions.SafeIsNeverSwept` | gatewayServer/gwLoginSessionManager.cpp:89-110 | a session not held when it is in the manager is never swept early, however the run goes on |
| `LoginSessions.StepKeepsSafe` | gatewayServer/gwLoginSessionManager.cpp:17-110 | only its own start under an id held makes a session unsafe |
| `LoginSessions.ReusedIdIsSwept` | gatewayServer/gwLoginSessionManager.cpp:89-110 | with an id used again, a run in which a sweep frees a session that has only just begun |
| `LoginSessions.AddedIsConsistent` | gatewayServer/gwLoginSessionManager.cpp:17-28 | a session is added to both indexes or to neither |
| `LoginSessions.SweptIsConsistent` | gatewayServer/gwLoginSessionManager.cpp:99-109 | a sweep takes out exactly the sessions there with a collected id |
| `LoginSessions.LoginSessionManager.Add` | gatewayServer/gwLoginSessionManager.cpp:19-27 | into both indexes exactly when both keys are free, else into neither, with the roll-back |
| `LoginSessions.LoginSessionManager.TakeByName` | gatewayServer/gwLoginSessionManager.cpp:36-42 | look again under the write lock and take what is there now |
| `LoginSessions.LoginSessionManager.CollectTimeOuts` | gatewayServer/gwLoginSessionManager.cpp:89-92 | exactly the ids of the sessions that began at least the time-out ago |
| `LoginSessions.LoginSessionManager.RemoveTimeOuts` | gatewayServer/gwLoginSessionManager.cpp:97-110 | the sessions still there are taken out, and those are freed |
| `LoginSessions.LoginSessionManager.DestroyAll` | gatewayServer/gwLoginSessionManager.cpp:114-118 | both indexes empty, every session freed |
| `Managers.AddAllOrNothing` | base/nManager.h:242-264 | an entity is in all indexes afterwards, or contents and order of all are as before |
| `Managers.AddKeepsSame` | base/nManager.h:242-264 | adding keeps the indexes holding the same entities and list and hash in bijection |
| `Managers.RemoveKeepsSame` | base/nManager.h:266-271 | removal goes by keys alone; it keeps the indexes together exactly when the keys of the entity lead to one entity or nowhere |
| `Managers.RunKeepsSame` | base/nManager.h:242-271 | along a run the indexes hold the same after every step exactly when every removal meets keys that agree |
| `Managers.InsertDelete` | base/nHashListTable.h:22-36 | taking out what was just put in restores contents and order |
| `Managers.InsertLinks` | base/nHashListTable.h:22-36 | insertion keeps list and hash in bijection |
| `Managers.DeleteLinks` | base/nHashListTable.h:48-57 | so does removal |
| `Managers.NodesRemoved` | base/nManager.h:329-344 | removing a collected list takes out exactly its entities |
| `Managers.EntityManager.InsertNode` | base/nHashListTable.h:22-36 | in front of the list, unless the key is there |
| `Managers.EntityManager.DeleteNode` | base/nHashListTable.h:48-57 | the entry of the key and nothing else |
| `Managers.EntityManager.AddEntity` | base/nManager.h:242-264 | success exactly when all keys are free |
| `Managers.EntityManager.RemoveEntity` | base/nManager.h:266-271 | the entries of the three keys are gone |
| `Managers.EntityManager.ExecAll` | base/nManager.h:291-301 | the entities there at the start are given to the callback in order, each once, although callbacks add entities and remove any but the next one; those removed before their turn are passed over; the visit ends early only when a callback says so |
| `Managers.TourMeets` | base/nManager.h:291-301 | every entity there at the start is visited, or some callback removed it before its turn |
| `Managers.TourIsAll` | base/nManager.h:291-301 | all are visited when callbacks remove only entities whose turn has come |
| `Managers.TourIsOnce` | base/nManager.h:291-301 | none is visited twice |
| `Managers.RemoveKeepsRest` | base/nHashListTable.h:48-57 | removing an entity changes what is behind the iterator only by that entity |
| `Managers.RemoveAllMembers` | base/nManager.h:266-271 | what callbacks remove is gone, and nothing else |
| `Managers.AddAllMembers` | base/nManager.h:242-264 | what callbacks add is there unless a key was in use; nothing is lost and nothing else is new |
| `Managers.EntityManager.Destroy` | base/nManager.h:329-344 | the entities that do not meet the condition are left, in their order, and no others |
| `Managers.SelectedErased` | base/nManager.h:329-344 | erasing the selected nodes one by one leaves the others in order |
| `LineDrawing.LineTheorem` | game/nAlgo.h:167-203 | for every two different points, up to the end: every point is the one nearest to the ideal line, and the last is the end, exactly when the decision variable keeps its sign in 16 bits; it does when neither the shorter side nor the difference of the two sides is more than 2^14 |
| `LineDrawing.WholeLine` | game/nAlgo.h:167-203 | every point of a whole line is the nearest one exactly when the least and the greatest value of the decision variable, given by the two sides and their greatest common divisor, fit into 16 bits |
| `LineDrawing.WholeLineSigns` | game/nAlgo.h:180-200 | the sign of the decision variable survives along a whole line exactly under that condition |
| `LineDrawing.ValueReached` | game/nAlgo.h:180-200 | along a whole line the variable takes every value from the least on at a distance of twice the divisor |
| `LineDrawing.ValueWithin` | game/nAlgo.h:180-200 | and none below the least or above the greatest |
| `LineDrawing.NextIsNeighbour` | game/nAlgo.h:182-201 | for every line and step: the next point is another one and one of the eight neighbours, on the plane whose edges meet; in plain numbers too, while the decision variable keeps its sign |
| `LineDrawing.PointDrifts` | game/nAlgo.h:167-203 | from a point to itself every step goes back along both axes |
| `LineDrawing.DrawsTheLine` | game/nAlgo.h:180-201 | for every line, beyond the end too: the points are the nearest ones exactly as long as the sign of the decision variable survives in 16 bits |
| `LineDrawing.ExactRun` | game/nAlgo.h:180-201 | until then the 16-bit variable holds the lowest 16 bits of the exact one |
| `LineDrawing.DecisionFits` | game/nAlgo.h:180-200 | the range of the decision variable, and exactly which of its values lose their sign in 16 bits; with the longer side at most 2^14 all fit, even inside a step |
| `LineDrawing.NearestIsOne` | game/nAlgo.h:180-201 | there is only one nearest point |
| `LineDrawing.FirstMove` | game/nAlgo.h:126-202 | for all pairs of points: the first step goes where getLineDirect says exactly when the ends differ and the first decision value fits into 16 bits |
| `LineDrawing.LineDirectLeads` | game/nAlgo.h:126-202 | as long as that value fits, one step in the direction getLineDirect gives leads to the second point of the line |
| `LineDrawing.StepInDirection` | game/nAlgo.h:64-85 | the direction of the point one step away in a direction, by MoveDirectAdjust, is that direction |
| `LineDrawing.NeighbourInDirection` | game/nAlgo.h:64-85 | one step in the direction of a neighbour leads to it |
| `LineDrawing.BresenhamLine` | game/nAlgo.h:167-203 | len + 1 points of the 16-bit machine |
| `Clocks.DelayAdds` | base/nTime.h:115-124 | a delay moves a time by exactly that much; whole seconds leave the fraction alone |
| `Clocks.EscapeIsLeast` | base/nTimer.h:307-319 | no ring lies between a second and the one the clock is moved to |
| `Clocks.EscapeFromRing` | base/nTimer.h:307-319 | from a ring the next one is a whole interval away |
| `Clocks.RingsFromRing` | base/nTimer.h:294-303 | from a clock that stands at a ring the rings due are the whole intervals passed, and one; none before it is due |
| `Clocks.NeverTooOften` | base/nTimer.h:103-117 | success number k comes no earlier than k intervals after the first deadline, whatever the times of the checks |
| `Clocks.NeverTooSeldom` | base/nTimer.h:103-117 | after a success, a check a whole interval later is preceded by or is another success |
| `Clocks.SuccessMoves` | base/nTimer.h:103-117 | a success at cur leaves a deadline after cur and at most an interval after it |
| `Clocks.Clocker.constructor` | base/nTimer.h:228-254 | the clock stands at the first ring after its start |
| `Clocks.Clocker.Delay` | base/nTimer.h:307-319 | the clock moves to the least local second strictly after it that is congruent to long modulo interval |
| `Clocks.Clocker.Ring` | base/nTimer.h:279-289 | rings exactly when the adjusted time has reached that of the clock, a time with the adjustment already taken out counting as earlier by it; then waits for the next ring after now, with no adjustment in the time kept; it rings again at the same moment exactly for a time with the adjustment taken out and a backward adjustment no smaller than the wait |
| `Clocks.Clocker.CheckReady` | base/nTimer.h:321-324 | the raw comparison in terms of adjusted times |
| `Clocks.Clocker.GetContinueRingTimes` | base/nTimer.h:294-303 | it ends and returns, in 32 bits, the rings due from wherever the clock stands: one if it is due itself, and one for every ring from the next on |
| `Clocks.Timer.IsReady` | base/nTimer.h:103-117 | ready exactly at or after the deadline; the next deadline is an interval after the last, or after now when a whole interval has been missed |
| `ScriptActions.EveryActionOnce` | game/nScriptObj.h:122-152 | while the owner lives a tick looks at every pending action exactly once, although finished ones are replaced by the last |
| `ScriptActions.TickFires` | game/nScriptObj.h:115-155 | when nothing is put off on the way, a tick calls exactly the actions due, each once, takes out those that are finished or refused, sets the others for their next time and leaves those not due as they are |
| `ScriptActions.StepObeys` | game/nScriptObj.h:97-152 | what a call asks for is done: the delays of each id are added to the first action with that id, the one called counting with its new time, and the owner disposed of |
| `ScriptActions.RunKeepsInv` | game/nScriptObj.h:81-155 | over whole runs: an action with a limit is called at most so often, and needRemove is true on exactly the last of these calls |
| `ScriptActions.PendingUntil` | game/nScriptObj.h:81-155 | over whole runs: a registered action is pending exactly until its last call is made or one of its calls is answered with false |
| `ScriptActions.StepAccounts` | game/nScriptObj.h:122-151 | the same for one action looked at in a tick |
| `ScriptActions.StepKeys` | game/nScriptObj.h:142-151 | a step takes out the action looked at, if any, and no other |
| `ScriptActions.TickKeepsInv` | game/nScriptObj.h:122-152 | after a tick whatever is pending is due strictly after now |
| `ScriptActions.RefiredInTime` | game/nScriptObj.h:130-134 | a fired action comes due again after now, within an interval, and at least an interval after it was due: exactly an interval after it was due if that is after now, else an interval after now |
| `ScriptActions.StepCovers` | game/nScriptObj.h:122-151 | one action looked at: nothing pending is forgotten |
| `ScriptActions.StepKeysDiffer` | base/nSTL.h:110-117 | the move of the last action into the gap duplicates none |
| `ScriptActions.ScriptObj.RegisterScriptAction` | game/nScriptObj.h:81-94 | the action is pending behind the others; an unknown clear type is refused |
| `ScriptActions.ScriptObj.AddActionDelay` | game/nScriptObj.h:97-112 | the first action with the id is put off |
| `ScriptActions.PutOffAt` | game/nScriptObj.h:97-112 | the delay goes to the first action with the id and to no other |
| `ScriptActions.PutOffAllAt` | game/nScriptObj.h:97-112 | several delays add up |
| `ScriptActions.ScriptObj.RemoveByIndex` | base/nSTL.h:110-117 | the last action in its place |
| `ScriptActions.ScriptObj.FireAction` | game/nScriptObj.h:128-148 | the next time, the call and whether it stays |
| `ScriptActions.ScriptObj.DoScriptTick` | game/nScriptObj.h:115-155 | nothing before it is time; then all actions in the order of the loop |
| `Splitters.TokensAreRuns` | base/nStringTool.h:499-526 | the tokens are exactly the maximal non-empty runs without the separator, in order |
| `Splitters.SplittersAgree` | base/nStringTool.h:499-633 | on a separator of one character all splitters agree, for every limit |
| `Splitters.PiecesAreTokens` | base/nStringTool.h:564-633 | the pieces between separators are the tokens |
| `Splitters.PiecesAreBetween` | base/nStringTool.h:564-633 | for every list of separators: the pieces are the non-empty stretches between the separators, each of which is the first place from the last one on where one of the list stands |
| `Splitters.MatchIsFirst` | base/nStringTool.h:611-622 | of the separators that stand at a place the one that comes first in the list counts |
| `Splitters.SplitJoin` | base/nStringTool.h:499-653 | splitting a join of non-empty separator-free tokens returns them |
| `Splitters.JoinedConcat` | base/nStringTool.h:641-653 | for every glue: joining two lists is joining each, with one glue between |
| `Splitters.UniqMatches` | base/nStringTool.h:469-489 | leaving out repeated separators does not change what stands where |
| `Splitters.UniqFacts` | base/nStringTool.h:469-489 | every string once |
| `Splitters.UniqOrder` | base/nStringTool.h:469-489 | in the order of the first occurrences |
| `Splitters.SplitChar` | base/nStringTool.h:499-526 | the first so many tokens |
| `Splitters.SplitString` | base/nStringTool.h:564-592 | the first so many pieces, the whole string for an empty separator |
| `Splitters.SplitList` | base/nStringTool.h:594-633 | the first so many pieces, the separator that comes first in the list counting, whenever the loop ends |
| `Splitters.LoopEnds` | base/nStringTool.h:611-629 | the loop ends exactly when scanning never comes to a place where an empty separator is the first to match; always, when no separator is empty |
| `Splitters.EmptyFindsNothing` | base/nStringTool.h:611-631 | with an empty separator in the list, a loop that ends has found nothing |
| `Splitters.StandsStill` | base/nStringTool.h:611-629 | otherwise it is not over after any number of turns |
| `Splitters.Unique` | base/nStringTool.h:469-489 | the first occurrences |
| `Splitters.Join` | base/nStringTool.h:641-653 | the tokens with the glue between them |
| `IdAllocators.RunKeepsInv` | base/nIDManager.h:64-114 | for every run that gives back only ids in use: ids in use and free ids are apart, none twice, together all ever given out |
| `IdAllocators.GetKeepsInv` | base/nIDManager.h:64-89 | an id is new to its user; the invalid one comes exactly when all are in use |
| `IdAllocators.PutKeepsInv` | base/nIDManager.h:101-113 | giving back keeps the order exactly when the id is in use or none of the pool |
| `IdAllocators.FirstBackFirstOut` | base/nIDManager.h:64-113 | ids given back go out again in the order they were given back, before any new one |
| `IdAllocators.AddWhenExhausted` | base/nManager.h:160-181 | numbering an entity when no id is left succeeds once, under the invalid id, and fails after that |
| `IdAllocators.IdsRest` | base/nIDManager.h:292-317 | for every run with a clock that does not go back and fits into 32 bits, however often the numbers begin again: every id that goes out is in nobody's use and was not given back within the interval exactly when every call finds an id at the front whose rest, of an end within 32 bits, is over, or, with none rested, a next number that is neither in use nor resting |
| `IdAllocators.IdsRestUntilRunOut` | base/nIDManager.h:292-317 | for every run from a state in which the numbers have not begun again: that holds exactly until an id goes out again whose end of rest does not fit into 32 bits, or a call comes when all numbers have been given out and nothing at the front has rested |
| `IdAllocators.StepRests` | base/nIDManager.h:292-313 | the same condition for one call |
| `IdAllocators.StepKeepsHistory` | base/nIDManager.h:292-317 | as long as it is met, what rests stays in nobody's use, in order and noted, across the wrap of the numbers too |
| `IdAllocators.GetTimedIsSafe` | base/nIDManager.h:292-313 | until the numbers begin again, and as long as the end of the rest at the front fits into 32 bits: an id that goes out is free and rested, no id is lost, and one is used again exactly when one has rested long enough |
| `IdAllocators.RestedWhen` | base/nIDManager.h:295-302 | an id goes out again when the interval has passed, or when the 32-bit sum of put time and interval wraps |
| `IdAllocators.TimedIdsRunOut` | base/nIDManager.h:304-312 | in any state: the invalid id goes out exactly as the number after 0xFFFFFFFE or when it has rested; an id goes out free exactly when it has rested or the next number is free. In states in which the numbers have not begun again that is so exactly until all are given out, and at the wrap the id is in use exactly when 1 is |
| `IdAllocators.PutTimedIsSafe` | base/nIDManager.h:314-317 | an id given back rests: no id is lost |
| `IdAllocators.UniqueId.GetUniqueID` | base/nIDManager.h:64-89 | the free id that was given back first, else a new one, else the invalid one; nothing for a caller that has one |
| `IdAllocators.UniqueId.PutUniqueID` | base/nIDManager.h:101-113 | the id in front of the free ones, if in range |
| `IdAllocators.TimeReuseId.GetUniqueID` | base/nIDManager.h:292-313 | the longest resting id if it has rested, else a new one |
| `IdAllocators.TimeReuseId.PutUniqueID` | base/nIDManager.h:314-317 | the id behind the resting ones |

## Left out

- Leaderboard with `needStoreValue` false: the set then reads live scores, so its order is outside its control. Keys are compared by an arbitrary strict total order; ranks do not wrap at 32 bits.
- `updateData` on a key alone, `getValue`, `execAllInSeq`, `checkIn`: they read without changing anything of interest.
- Command queue: memory order. Each access to a slot or counter is one atomic step; commands are values, and freeing is taking out of the slot. The capacity is the source's 102400.
- Items: `unionItem`, `checkUnion` and `getLeftOverlayNum` of the item type are not part of this model beyond their contracts: exactly k units move, AllUnioned means the source is empty, union needs equal base and bind and space for one, space is the limit minus the count. `maxOverlayNum` is read as that limit.
- ItemPackages.SortVec: stands in for `std::sort`; any order the comparator allows would do, so whether items that compare equal are swapped is left open (`same`).
- `dealAdd`, `dealRemove`, `dealUnion` and `dealSort` hooks, `checkItemCapacity` (true on every path unless union is forbidden), swap, sell and use checks. An addition refused by the item manager is modelled as never filed; the source files it and takes it back. An explicit position is checked for being free, not against the capacity, as in the source.
- Write-behind: identity columns, the unread mail count, connections and login data. A NULL binary column counts as the empty value a restore leaves; the SQL thread is assumed to run statements in order and without failure.
- State machine: registration of events with observers, `resumeStateTable`, the constructor with a table, debug output and the debug loop check. Table switches are left to enter, update and collect callbacks; exit callbacks and the notifications of a change or of none only raise events. Events before the first table are ignored; the source would fail.
- Login sessions: what a session carries besides its keys and start. Nothing in this code gives a user under offline protection a session, so from the start state that path refuses; the step invariant also covers users that hold one. Connections verify at most once, and the destructor of a connection or user frees its session.
- Manager: the two-index form, which is the three-index form without its last table; multi-name indexes; `destroyAll`; the index by sequence id as one of several. Callbacks of `execAll` that remove the entity after the one they are given, where the iterator already stands: the source's iterator breaks. They remove entities that are managed.
- Lines: floating-point geometry. `len` is a byte, so at most 256 points are drawn.
- Clocks: `reset`, `next`, `leftSec`, the random timer and calendar functions. Local time is not before its epoch; unsigned long does not wrap. The ring counter has 32 bits, as in the source.
- Script actions: callbacks that register actions (the container may move under the reference held), `callScriptAction`, Lua itself. The time does not change during a tick.
- Splitters: `splitValue`, `trim` and character classes. `SplitList` is stated for the strings and lists on which the loop of the source ends.
- `nUniqueAutoIncID`: after exhaustion it returns its least id, so uniqueness stops there. Id widths of the pool allocator are its range.
- Sockets, threads, zip, DES, HTTP, mail, Lua, XML, SQL, protobuf, logging, configuration and command dispatch.
