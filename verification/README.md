# IntOS crash consistency, verified in Dafny

IntOS is a real-time operating system whose memory survives power failures: the power may fail before any store, and
execution resumes at a reboot that runs recovery code and starts tasks from the top. This project models the mechanisms
that make this work, as the default configuration builds them (`crash_safe`, `opt_list`, `opt_loop_end`,
`opt_tx_cache_space`, 16-bit position words), and proves that they do. The size of a machine word is a parameter
(`JournalBytes.WORD`: two, four or eight bytes).

## How failures are modelled

Persistent state is the fields of classes. Each operation is the sequence of its stores, and every store is preceded by
a `Tick` of a `Power` supply: `Failing(n)` carries exactly `n` more stores (a store that a test may skip counts in both
cases), `Mains` never fails. An operation that finds the supply exhausted stops where it is. The contract of such a
method says what a reboot may find after *every* cut, and what holds if the operation came to its end. The theorems
named `...UnderFailures` run an operation, cut it, recover, cut the recovery, and so on, for any number of supplies;
their conclusion mentions failures only where it says which number of stores decides. Ghost parameters hold the abstract
value that the concrete state stands for (the sequence of nodes of a list, the memory at the beginning of a
transaction); no stored value depends on them.

## Modules

| files | what they model |
|---|---|
| `PowerSupply` | power failures, counted in stores |
| `PLists`, `ListLog` | nodes and lists, the operation log word |
| `ListRemove`, `ListPopFront`, `ListInsertFront`, `ListInsertSorted`, `ListInsertCursor` | the list operations without undo log and their recoveries |
| `RemoveLimits` | where the recovery of a removal does not meet its promise |
| `TimerList`, `TimerPop`, `TimerStop`, `TimerMoves` | the transactions of the timer daemon on its active list, and the recovery that dispatches on them |
| `WaitListInsertion`, `DelayInsertion`, `WaitListPop` | blocking a task, putting it to sleep and waking it: several lists and a status in one transaction |
| `JournalBytes`, `JournalRefinement` | the undo journal, byte by byte, and the undo log of the transactions that it implements |
| `TxPrograms`, `ProgramMeaning`, `TxWord`, `TxBits`, `TxCaching`, `TxCacheFifo`, `TxCacheBytes`, `ReplaySpec`, `UserTxs` | transactions, their cache, persistent loops, replay |
| `LogElision`, `HandleRules`, `HandleRuns`, `PBoxHandles` | which undo records may be left out, and the handles that decide it |
| `Syscalls` | system calls inside a user transaction: kernel transactions under a second replay cache |
| `TimerDaemon` | the expiry of a timer: callback under the undo log, list rolled forward, one commit |
| `TimerMessages` | a message that starts, resets or stops a timer: received by a system call, list rolled forward, one commit |
| `QueueBuffer` | queues: a ring buffer with logged indices and unlogged bytes |
| `EventGroups` | setting event bits; without failures |
| `KernelLists`, `TaskLists`, `TaskNodes`, `KernelSteps`, `Scheduler` | all lists of the kernel together, which of them a task is in, and what runs of kernel steps come to; without failures |

## Main results

* **Replay** (`UserTxs.UserTxInfo.RunUnderFailures`). Any program of logged and unlogged transactions, sequencing and nested
  `nv_for_loop!`s, cut any number of times before any store of its bodies, commits, loop entries and exits, or of recovery,
  ends with the memory and the local values of its crash-free meaning `Eval`, which knows no cache, log or persistent
  counter. That meaning is the flat list of its transactions and iterations performed one after the other
  (`ProgramMeaning.MeaningIsActs`): a loop runs its body once for each counter value (`LoopRuns`), a transaction leaves what
  it stored last (`TxLeaves`), and the values at the end are the results of the transactions outside loops, in order.
* **Log elision** (`LogElision.ElidedIsRestartable`). A body that reads each location only, or stores it before reading it,
  or logs it before storing it, may take the place of a fully logged transaction in those programs, although rollback does
  not restore everything it wrote.
* **Handles** (`HandleRuns.CleanIffDisciplined`, `HandleProgramsRestart`). A run of operations on handles as the source has
  them (reading, writing, logging, storing a field, converting, lending and giving back, in any order the states admit,
  several handles on one object) keeps that discipline if and only if each store of it is clean, which is decided operation
  by operation from the locations read and logged so far. A transaction that reaches its objects through clean runs alone
  can be cut, rolled back and run again. A run in which the lender is closed during a loan, and a `Ptr` after it exactly if
  the returned handle claims as much, is always clean (`RunKeeps`), does the same accesses as the run of the source
  (`SameAccesses`), and what is tracked for it is exactly what is needed (`BorneOutIffAlwaysDisciplined`).
  `PBoxHandles.TxObjects` carries the operations of the source out on memory and journal, and `HandleRules.SafeConversions`
  shows that exactly the conversions marked `unsafe` would leave the discipline.
* **Undo journal** (`JournalBytes.Journal.Transact`). For every interleaving of records (of any sizes, overlapping and
  repeated) and stores to recorded bytes, cut between any two bytes and recovered under any number of cuts, all of the
  stores happened or none did: every byte is what was stored to it last, or every byte is what it was, and the number of
  stores of the supply says which. Rolling it back is rolling back the undo log of the replay theorem
  (`JournalRefinement.JournalIsUndoLog`).
* **Lists** (`ListInsertSorted.RecoverFromFailedInsertSorted` and its siblings). From the fields of the half-updated nodes
  alone, recovery produces exactly the list of the uncut operation, for lists of any length, from every crash point after
  the operation was logged, and again after its own crashes. The compounds `RemoveReinsertUnderFailures`,
  `PopReinsertUnderFailures`, `StopUnderFailures`, `BlockUnderFailures`, `DelayUnderFailures` and `WakeUnderFailures` carry
  this over several lists, and say by the number of stores of the first supply whether the operation takes place.
* **System calls** (`Syscalls.SyscallTask.RunUnderFailures`). Any number of crashes at any stores of a user transaction with
  any number of system calls, or of its recoveries: every kernel transaction takes effect exactly once, as long as no crash
  finds a call half done while the calls before it are being bypassed, and the run is the sequence of the calls that the
  body makes after the results of the ones before (`IsRunOf`). The first crash never does, and after it the
  recovery may crash any number of times (`CrashOnce`).
* **Timer daemon** (`TimerMessages.MessageUnderFailures`, `TimerDaemon.ExpireUnderFailures`). A message that starts, resets
  or stops a timer, under any number of failures in the receiving call, its kernel transactions, the list operation, the
  commit or any recovery: the message is taken exactly once and the timer ends where it asks for. An expiry runs its callback
  and changes the list exactly once and together, without exception for a timer that does not reload; for one that does see
  the next section.
* **Queues** (`QueueBuffer.Queue.RunUnderFailures`). Any run of operations under any failures is the run of a bounded deque:
  what was there and what came in is what went out and what is left, in order (`FirstInFirstOut`); as many items as there
  is room for are taken, handed out in order, and then the queue is empty (`FillAndDrain`).
* **Scheduler** (`Scheduler.Kernel.Run`, `DoTick`). After every run of kernel steps on the linked lists themselves, all lists
  are well formed and hold exactly the tasks they should, and every step has had its effect: time is the number of ticks,
  a sleeper that nobody wakes sleeps and waits until its time, and is ready after the tick at which it comes
  (`KernelSteps.TimeAndTasks`, `SleepsUntil`, `WakesInTime`, `FrontWakes`).
* **Event bits** (`EventGroups.EventGroup.SetBits`). Stated bit by bit: which bits are set afterwards, which tasks are woken,
  what they find in their value, and who is left, in order.

## Where the code does not meet its promise

These are proved about the code as it is.

* `TimerDaemon.ExpireUnderFailures`: the next expiry time of a timer that reloads is stored into it without a record
  (src/time.rs:176-180, 774-776) before the list operation is logged. A failure between that store and the log record of
  the pop rolls the callback back and leaves a timer that is no longer due, so that this expiry is skipped. For every
  sequence of supplies the contract says so with *if and only if*: `LastStage` computes the outcome from the supplies, the
  steps of the callback and the commit bit that was found. The timer keeps the first place with its later key, so that due
  timers behind it are not seen either (`TimerDaemon.LostHidesOthers`).
* `RemoveLimits.RemoveOnlyRingNodeUnderFailures`: the recovery of a removal has no case for the only node of a ready list. A
  failure after one or two stores, and no other, leaves a list of length 0 with a head, which holds no sequence of nodes.
  `BlockUnderFailures` and `DelayUnderFailures` say when that happens to the ready list of a task that blocks or sleeps.
* `TimerStop.StopInactiveUnderFailures`: stopping a timer that is not active leaves the list alone, except for a failure
  after exactly three stores: recovery then takes one from its length, and the list holds nothing.
* `DelayInsertion.DelayUnderFailures`: a failure after exactly one store, when the op code is stored and the removal is not
  recorded, loses the delay: recovery marks the list transaction of the task done although nothing moved, and the replayed
  call passes it by (`DelayReplayed`).
* `WaitListPop.WakeUnderFailures`: a failure after exactly two stores, when the op code is stored and the pop is not recorded,
  gives the wake-up away: recovery marks the call done and wakes nobody. A boot that gives out between the log record of the
  last insertion and the store of `node.list` leaves that field unset for good. The contract computes from the supplies of
  all boots which of the outcomes is reached; for one failure `OneFailureGap` names the only supply with the second.
* `Syscalls.BypassingCrashRunsTwice`: a crash while earlier system calls are being bypassed makes recovery empty the
  transaction cache of a call that is half done, whose transactions then run again; the method drives a task into that
  state and through it. `Recover` forgets what an open call has committed if and only if the state is `Bypassing`.
* `HandleRuns.LoansAsInSourceFail`: two safe functions lend an object without giving up a claim on it. After
  `Ptr::as_pref` (src/user/pbox.rs:205-209) the `Ptr` may `write` without a record although the borrower has read;
  `PStatic::as_pref` (src/user/pstatics.rs:63) hands out any number of `PRef`s, of which one may read and another write, and
  `PStatic::as_ref` may read before. Such a transaction is not restartable. A run of the source is disciplined if and only
  if it is clean (`SourceRuns`); leaving the lender a `Ptr` is sound in every situation if and only if the returned handle
  still claims what a `Ptr` claims (`HandleRules.SoundReturns`); and all runs that the source admits from owners and statics
  are disciplined if and only if every location of their objects is free to be stored to already
  (`SourceAlwaysDisciplinedIff`).
* `TxWord.OverflowSpillsIntoOffset`: a 256th transaction spills into the cache offset.
* `Scheduler.Kernel.DoWakeFront`: wait lists are sorted upwards by an order in which the less important task is the smaller
  one (src/task.rs:250-275), so that the task that is woken is the least important one of its list, and the most important
  one exactly if all waiters have the same level; `LessImportantFirst` is an instance.

## Model

| member | source | states |
|---|---|---|
| `ListLog.PackIsLossless` | src/list.rs:129-190 | one word store records micro operation and old length; both are read back for every length below 4096, and only "no operation" with length 0 is the zero word |
| `ListLog.StartOpLog` | src/list.rs:1020-1031 | after the one store both halves are readable; a cut leaves the previous word |
| `PLists.WithoutIsLinked` | src/list.rs:1316-1353 | when the neighbours of a node point at each other and all other links are intact, the rest is a well-linked chain or ring |
| `PLists.WithIsLinked` | src/list.rs:1788-1844 | the same for putting a node between two neighbours |
| `ListRemove.OptimizedRemove` | src/list.rs:1305-1353 | removes exactly the node from a chain or a ring of two or more, cursor and head stepping past it; the record is the first store: without it the list is untouched, with it every cut is a state the recovery accepts; the number of stores is exact |
| `ListRemove.RecoverFromFailedRemove` | src/list.rs:1355-1381 | from every cut of the removal, and every cut of itself, the list without the node, length from the log |
| `RemoveLimits.RecoverRemoveOfAny` | src/list.rs:1355-1381 | what the recovery does to any node at all: header, length, container, and its neighbours made to point past it |
| `RemoveLimits.RemoveOnlyRingNode` | src/list.rs:1316-1353 | removing the only node of a ring: the exact state after each number of stores, from the record over cursor, head and length to the container |
| `RemoveLimits.RecoverOnlyRingNode` | src/list.rs:1355-1381 | the recovery leaves cursor and head of such a ring as it found them, and stores length 0 and no container |
| `RemoveLimits.RemoveOnlyRingNodeUnderFailures` | src/list.rs:1305-1381 | removal and any number of cut recoveries: intact for a first supply of no stores, a list that holds nothing at all for one of one or two, the empty ring for any other |
| `RemoveLimits.RecoverRemoveOfFreeNode` | src/list.rs:930-952 | recovering the logged removal of a node that is in no list always leaves a wrong length |
| `ListPopFront.OptimizedPopFront` | src/list.rs:1403-1430 | returns the head and leaves the rest; the record is the first store and the head moves with the second; every cut is recoverable; the number of stores is exact |
| `ListPopFront.RecoverFromFailedPopFront` | src/list.rs:1432-1453 | from every logged cut, and every cut of itself, the list without its head |
| `ListInsertFront.OptimizedInsertFront` | src/list.rs:1488-1516 | from behind the record: the node comes first, the rest is unchanged; every cut is recoverable |
| `ListInsertFront.RecoverFromFailedInsertFront` | src/list.rs:1518-1545 | from every cut after the record, and every cut of itself, the list of the uncut insertion |
| `ListInsertFront.InsertFrontUnderFailures` | src/list.rs:1481-1545 | insertion with its record, and recovery, under any number of failures: the list of the uncut insertion, or an untouched one if and only if the first supply made no store |
| `ListInsertSorted.SpotExists` | src/list.rs:1788-1844 | every list has the slot the walk looks for |
| `ListInsertSorted.InsertKeepsSorted` | src/list.rs:1788-1844 | inserting at that slot keeps the list sorted |
| `ListInsertSorted.OptimizedInsertSorted` | src/list.rs:1773-1844 | inserts at the slot before the first element whose key is not below; every cut satisfies the cut predicate |
| `ListInsertSorted.FieldsTellTheStage` | src/list.rs:1846-1903 | the fields of the node and its neighbours alone tell which of the five stages the cut was in |
| `ListInsertSorted.RecoverFromFailedInsertSorted` | src/list.rs:1846-1903 | from every cut after the record, and every cut of itself, exactly the list of the uncut insertion: links, head, length and container |
| `ListInsertCursor.OptimizedInsertBeforeCursor` | src/list.rs:1154-1194 | from behind the record: a free node enters the ring before the cursor, which stays on its node; the container is the first store; every cut is recoverable; a node that is in a list is left where it is, with no store |
| `ListInsertCursor.RecoverFromFailedInsertBeforeCursor` | src/list.rs:1196-1231 | links, head, cursor and length of the uncut insertion from every cut; the ring owns the node if and only if its container had been stored before the cut |
| `TimerList.RemoveReinsert` | src/list.rs:796-812 | the timer is moved to the slot of its new key; a cut leaves an untouched list, a recoverable one or the final one, and a micro operation is recorded if and only if three stores were made |
| `TimerList.RecoverRemoveReinsert` | src/list.rs:813-845 | rolls forward from either logged micro operation, and reports that nothing was logged only when the list is untouched |
| `TimerList.RemoveReinsertUnderFailures` | src/list.rs:796-845 | under any number of failures the list of the uncut operation if the first supply made three stores, an untouched one otherwise |
| `TimerPop.PopReinsert` | src/list.rs:847-873 | the first timer is moved to the slot of its new key; the record of the pop is its third store |
| `TimerPop.RecoverPopReinsert` | src/list.rs:874-912 | rolls forward if and only if something was logged |
| `TimerPop.PopReinsertUnderFailures` | src/list.rs:847-912 | under any number of failures the list of the uncut operation if the first supply made three stores, an untouched one otherwise |
| `TimerStop.StopUnderFailures` | src/list.rs:914-952 | under any number of failures an active timer is removed if the first supply made three stores, and the list is untouched otherwise |
| `TimerStop.StopInactive` | src/list.rs:914-927 | the removal of an inactive timer leaves the list as it is wherever it is cut, and only a failure after exactly three stores leaves a record for recovery |
| `TimerStop.StopInactiveUnderFailures` | src/list.rs:914-952 | with its recoveries, for every supply: the length is one too small if and only if the first supply gave out after three stores, and the list is what it was otherwise |
| `TimerMoves.MakeMove` | src/list.rs:796-952 | each of the three transactions of the daemon: uncut its list, cut a state that names it, recorded if and only if three stores were made |
| `TimerMoves.FinishMove` | src/recover.rs:121-172 | one recovery for all of them, chosen by the op code: it completes what was recorded, touches nothing otherwise, and may be cut and repeated |
| `WaitListInsertion.InsertIntoWaitListTx` | src/list.rs:468-497 | ready list, wait list, delay list and status change together, for a task with or without company in its ready list; every cut satisfies one predicate that names the stage; three stores decide whether the task will be blocked |
| `WaitListInsertion.RecoverWaitListInsert` | src/list.rs:533-573 | from every cut, and every cut of itself: blocked in both lists if a micro operation was recorded, unchanged in the ready list otherwise |
| `WaitListInsertion.BlockUnderFailures` | src/list.rs:468-573 | blocking is all or nothing over three lists and a status, under any number of failures: all if the first supply made three stores, nothing otherwise; the ready list is the one without the task, except for a task alone in it and a first supply of three or four stores, after which it holds nothing |
| `WaitListInsertion.OwnersKeepListsApart` | src/list.rs:478-497 | the container fields alone imply that no node is in two of the lists |
| `DelayInsertion.InsertIntoDelayListTx` | src/list.rs:706-721 | ready list, delay list and status change together, and any wait list is left alone; two stores decide whether the task will sleep; a task whose list transaction is done passes it by |
| `DelayInsertion.RecoverDelayListInsert` | src/list.rs:723-752 | asleep if a micro operation was recorded, unchanged otherwise; cut anywhere it can be repeated; complete, it has marked the list transaction done in both cases |
| `DelayInsertion.DelayUnderFailures` | src/list.rs:706-752 | under any number of failures: asleep if the first supply made two stores, untouched otherwise, and marked done unless it made none |
| `DelayInsertion.DelayReplayed` | src/task.rs:1174-1186 | with the call made again after the reboots the task sleeps, if and only if the first supply did not give out after exactly one store |
| `WaitListPop.PopRemoveTx` | src/list.rs:299-324 | wait list, delay list, ready list and status change together; the stage of every cut is a function of the number of stores |
| `WaitListPop.RecoverPopRemove` | src/list.rs:326-378 | the stage that a recovery leaves is a function of the one it finds and of its supply; complete, it has woken the task exactly if the pop was recorded, and has marked the call done |
| `WaitListPop.WakeUnderFailures` | src/list.rs:289-378 | for every sequence of supplies: marked done from two stores of the first on, woken from three on, and owned by the ready list if and only if the computed last stage is `Entered` |
| `WaitListPop.LastIsEnded` | src/list.rs:326-378 | recoveries of a recorded wake-up always end it, with or without the container; an unrecorded one stays given away |
| `WaitListPop.OneFailureGap` | src/list.rs:299-378 | with one failure the container stays unset for exactly one supply, the one that gives out behind the record of the last insertion |
| `WaitListPop.PopRemoveNobody` | src/list.rs:299-324 | on an empty wait list only the transaction is marked done: op code, block node and mark after each number of stores |
| `WaitListPop.PopNobodyUnderFailures` | src/list.rs:299-378 | the same with its recoveries: nothing moves, and the call is marked done if and only if the first supply made two stores |
| `JournalBytes.WordRoundTrip` | src/pmem.rs:388-395 | a word written as bytes, lowest first, is read back, for every width and value |
| `JournalBytes.AlignMaskIsQuotient` | src/util.rs:15-17 | the mask expression rounds up to the next multiple of the word size, for words of two, four and eight bytes |
| `JournalBytes.RecordBuilt` | src/pmem.rs:362-404 | object, address and size written one behind the other extend the log by one record and leave the records before it |
| `JournalBytes.OneReading` | src/pmem.rs:426-444 | the bytes of a log determine its records: the backward parse has one result |
| `JournalBytes.UndoForgets` | src/pmem.rs:426-444 | a recorded byte is restored whatever was stored to it since |
| `JournalBytes.UndoFrame` | src/pmem.rs:426-444 | bytes that no record covers are left alone |
| `JournalBytes.LastStoreStays` | src/pmem.rs:362-444 | a byte ends as the last operation that stores to it left it |
| `JournalBytes.NoStoreNoChange` | src/pmem.rs:362-444 | a byte that no operation stores to stays what it was |
| `JournalBytes.Journal.AppendLogOf` | src/pmem.rs:362-404 | cut between any two bytes the log is the old one; otherwise it has one more record, of the present bytes; the state to be restored does not change |
| `JournalBytes.Journal.Recover` | src/pmem.rs:426-444 | restores every byte of every record and ends exactly at offset 0; cut, it leaves the whole log and the same state to be restored |
| `JournalBytes.Journal.RecoverUnderFailures` | src/pmem.rs:426-444 | cut and restarted any number of times it restores the memory of the beginning of the transaction |
| `JournalBytes.Journal.Transact` | src/pmem.rs:362-444 | any sequence of records and stores to recorded bytes, under any number of failures: done if and only if the first supply carries all of its stores, and then every byte is what was stored to it last or else what it was; not done, no byte has changed |
| `JournalRefinement.JournalIsUndoLog` | src/pmem.rs:426-444 | on memory seen byte by byte, rolling back the journal is rolling back the undo log of `TxPrograms`, for records of any sizes, overlapping and repeated |
| `JournalRefinement.RecoverAsModel` | src/pmem.rs:426-444 | the recovery of the journal, cut and restarted any number of times, leaves the memory that this undo log restores |
| `TxWord.CommitKeepsPos` | src/transaction.rs:571-578 | setting or clearing the commit bit moves no position |
| `TxWord.AdvanceMovesPos` | src/transaction.rs:714-733 | on the packed word, one more transaction id and `size` more bytes of offset, within the bounds |
| `TxWord.IncrementMovesPos` | src/transaction.rs:638-650 | plus one on the whole word is one more transaction id |
| `TxWord.OverflowSpillsIntoOffset` | src/transaction.rs:638-650 | outside the bounds a 256th transaction eats a byte of the cache |
| `TxBits.IdMaskReadsTxId` | src/transaction.rs:703-712 | on the bits of every word, the mask gives the transaction id that the model computes with |
| `TxBits.PtrMaskReadsCachePtr` | src/transaction.rs:691-696 | on the bits of every word, mask and shift give its cache offset |
| `TxBits.CommitMaskTestsCommitted` | src/transaction.rs:604-606 | the test of the top bit is the test of the model |
| `TxBits.CommitMaskSets` | src/transaction.rs:662-664 | setting the top bit changes nothing else |
| `TxBits.CommitMaskClears` | src/transaction.rs:131-134 | clearing it changes nothing else |
| `TxBits.OrIsAdvance` | src/transaction.rs:714-731 | within the bounds the bitwise or of the fields is the position one transaction further |
| `TxCaching.TxCache.CacheResult` | src/transaction.rs:743-768 | the store to the tail is the commit: cut before it nothing is committed, after it position and cached bytes are those of the finished commit; earlier results are untouched |
| `TxCaching.TxCache.TryRetrieveResult` | src/transaction.rs:770-795 | hits exactly if the pointer is behind the tail, and then returns the bytes at the pointer and steps over them |
| `TxCacheFifo.RoundTrip` | src/transaction.rs:743-795 | with id and offset packed into one word: results of any sizes, none included, committed and replayed after `reset_ptr`: the same in the same order, and then no more |
| `TxCacheBytes.ByteCache.CacheResult` | src/transaction.rs:743-768 | with plain byte offsets the store to the tail is the commit, of the result's bytes or of a word for none; a cut before it leaves the committed position, and committed bytes are never touched |
| `TxCacheBytes.RoundTrip` | src/transaction.rs:743-795 | with plain byte offsets, where a result of no bytes takes a word: after commits cut by any supply and a reboot, the results replayed are those whose commit the supply carried, the last store but one of each deciding, in their order; the pointer ends where the tail is |
| `TxPrograms.RollBackRestores` | src/transaction.rs:110-122 | if every store was logged before in the transaction, rollback after any prefix restores the memory of its beginning |
| `TxPrograms.LoggedIsRestartable` | src/transaction.rs:178-186 | a closure that logs before it stores can be cut, rolled back and run again |
| `TxPrograms.StoresAreThere` | src/transaction.rs:178-186 | the steps of a transaction leave at each location the value stored there last, or what it held |
| `TxPrograms.NoTxNoEffect` | src/user/transaction.rs:30-61 | a loop body that commits no transaction has no effect |
| `ProgramMeaning.MeaningIsActs` | src/user/transaction.rs:21-62 | the meaning of a program, inside loops of any depth, is its flat list of transactions and iteration ends performed in order |
| `ProgramMeaning.VariablesPersist` | src/user/transaction.rs:21-62 | whatever a program runs, the variables it found are there behind it |
| `ProgramMeaning.ResultsOutside` | src/user/transaction.rs:163-191 | the variables it adds are one result for each transaction outside loops, in order and of its size, and none for a loop |
| `ProgramMeaning.LoopRuns` | src/user/transaction.rs:21-62 | a loop runs its body once for each counter value from its begin below its end, a step apart, each time on the memory of the time before |
| `ProgramMeaning.TxLeaves` | src/transaction.rs:178-186 | a transaction leaves at each location what it stored there last, and its result behind the variables |
| `ReplaySpec.FreshResumes` | src/task.rs:780-812 | a program of which nothing is committed can be run from its position |
| `ReplaySpec.CompletedResumes` | src/task.rs:780-812 | a completed program can be passed over |
| `ReplaySpec.ResumeIsAhead` | src/user/transaction.rs:163-191 | the committed position of a program under way is never before its start, and at its start nothing was committed |
| `ReplaySpec.DoneFrame` | src/transaction.rs:770-795 | what is behind the replay position depends only on the bytes cached for it and on its own loop counters |
| `ReplaySpec.ReplayedResult` | src/transaction.rs:770-795 | what replay reads is what the closure returned |
| `ReplaySpec.IterEnd` | src/transaction.rs:907-926 | when tail and counter have stepped together, the rest of the loop means what it meant |
| `ReplaySpec.IterEndIdle` | src/transaction.rs:907-926 | an iteration that committed nothing may be cut between the two stores as well |
| `UserTxs.UserTxInfo.RunTx` | src/transaction.rs:178-186 | wherever it is cut, the transaction can be resumed; otherwise it is committed with its result |
| `UserTxs.UserTxInfo.FastTx` | src/transaction.rs:202-213 | the same without a journal, for a body that may be repeated from any of its stores |
| `UserTxs.UserTxInfo.ExecRun` | src/user/transaction.rs:163-191 | replays exactly if the result is cached, and returns the value of the crash-free run either way |
| `UserTxs.UserTxInfo.EnterLoop` | src/transaction.rs:898-904 | remembers the position at the top of the iteration |
| `UserTxs.UserTxInfo.LogLoopCnt` | src/transaction.rs:884-889 | preparing the increment does not change what a reboot sees |
| `UserTxs.UserTxInfo.ExitLoop` | src/transaction.rs:907-926 | the store to the tail is the one switch-over point: position and counter step together or not at all, except in an iteration that committed nothing |
| `UserTxs.UserTxInfo.Iterate` | src/user/transaction.rs:30-61 | one iteration, cut anywhere, leaves the loop resumable; uncut it is one crash-free run of the body |
| `UserTxs.UserTxInfo.ExecFor` | src/user/transaction.rs:21-62 | the whole loop, run or replayed, with the cache space of each iteration reused |
| `UserTxs.UserTxInfo.Exec` | src/user/transaction.rs:163-285 | run or replay of any program: resumable wherever it is cut, and what was passed over is not touched |
| `UserTxs.UserTxInfo.RollBack` | src/pmem.rs:426-444 | cut anywhere, the memory to be restored stays the same |
| `UserTxs.UserTxInfo.Recover` | src/task.rs:780-812 | applies a pending loop increment, settles the open transaction and restarts the pointer; cut anywhere, what a reboot sees stays the same |
| `UserTxs.UserTxInfo.RunUnderFailures` | src/task.rs:716-812 | any program, any number of power failures: memory and values of the run without failures, which are those of its flat list of acts, with one value for each transaction outside loops |
| `LogElision.RollBackRestoresRest` | src/user/pbox.rs:148-152 | rollback restores every location except those whose first access was a store |
| `LogElision.ClosureDoes` | src/user/pbox.rs:148-152 | the closure of a body makes the steps of its actions, action by action, and hands back what the body returns |
| `LogElision.ReadSees` | src/user/pbox.rs:188-195 | a body reads what it has stored last, and what memory held where it has stored nothing |
| `LogElision.SameRun` | src/user/pbox.rs:148-152 | a second run from what rollback left does the same actions and reads the same values, and has repaired the difference at its end |
| `LogElision.ElidedIsRestartable` | src/user/pbox.rs:148-152 | a body of that discipline is restartable, so the replay theorem covers it |
| `LogElision.BumpIsNotRestartable` | src/user/pbox.rs:148-152 | a body that reads a location and stores to it without a record is outside the discipline and not restartable |
| `HandleRules.SafeConversions` | src/user/pbox.rs:197-276 | a conversion of handles without a record is sound in every situation if and only if it claims no more than before |
| `HandleRules.SoundReturns` | src/user/pbox.rs:205-209 | leaving the lender a `Ptr` at the end of a loan is sound in every situation if and only if the returned handle ranks at least as high |
| `HandleRules.OpKeeps` | src/user/pbox.rs:176-402 | every operation that tracked lenders admit keeps the discipline and what all handles claim: a lender is closed during the loan, and a `Ptr` after it if and only if the returned handle ranks at least as high |
| `HandleRuns.CleanIffDisciplined` | src/user/pbox.rs:176-402 | behind any disciplined accesses, an admitted run keeps the discipline if and only if no operation of it stores to a location that was read and not stored or logged, before or since, as decided operation by operation |
| `HandleRuns.SourceRuns` | src/user/pbox.rs:176-402 | from the beginning of a transaction: a run that the source admits is disciplined if and only if it is clean |
| `HandleRuns.LoggedIsOpen` | src/user/pbox.rs:337-402 | behind a log record of the whole object, read or not, every store to a field of it is admitted and clean |
| `HandleRuns.RunKeeps` | src/user/pbox.rs:176-402 | the same for every sequence of operations that tracked lenders admit |
| `HandleRuns.SameAccesses` | src/user/pbox.rs:176-402 | a run admitted with lenders as in the source and with tracked lenders does the same accesses with both |
| `HandleRuns.TrackedSourceRuns` | src/user/pbox.rs:176-402 | a run of the source that tracked lenders admit as well is disciplined |
| `HandleRuns.BorneOutIffAlwaysDisciplined` | src/user/pbox.rs:176-402 | the claims of the handles are borne out if and only if every run that tracked lenders admit from there keeps the discipline |
| `HandleRuns.HandleProgramsRestart` | src/user/pbox.rs:148-402 | a transaction that reaches its objects through clean runs of the operations of the source can be cut anywhere, rolled back and run again |
| `HandleRuns.TrackedProgramsRestart` | src/user/pbox.rs:148-402 | so can one that tracked lenders admit, which needs no look at the locations |
| `HandleRuns.SourceAlwaysDisciplinedIff` | src/user/pbox.rs:205-209 | of owners and statics, every run that the source admits keeps the discipline if and only if each location of their objects is already free to be stored to |
| `HandleRuns.LoanFails` | src/user/pbox.rs:205-209 | otherwise there is a run, for every owner and every static with such a location, that stores to it without a record after reading it |
| `HandleRuns.StoredLoanIsFine` | src/user/pbox.rs:205-209 | lent, stored through the loan, given back and written: admitted with both kinds of lenders, and disciplined |
| `HandleRuns.OwnerFails` | src/user/pbox.rs:205-209 | lent by its owner, read, given back and written: admitted by the source, a read before an unlogged store, and refused by tracked lenders |
| `HandleRuns.TwiceLentStaticFails` | src/user/pstatics.rs:63-65 | a static lent twice, read through one loan and written through the other: the same |
| `HandleRuns.ShownStaticFails` | src/user/pstatics.rs:50-65 | a static read directly, then lent and written: the same |
| `HandleRuns.LoansAsInSourceFail` | src/user/pbox.rs:205-209 | the body that reads and stores the successor can be written with the handles of the source, on an owned object and on a static, and is not restartable; with tracked lenders it cannot be written |
| `PBoxHandles.TxObjects.Write` | src/user/pbox.rs:181-186 | the whole object is stored without a record and its handle becomes read-write; handles and accesses are those of the rules; as long as the accesses keep the discipline, rollback restores every location but those stored to before they were read |
| `PBoxHandles.TxObjects.Read` | src/user/pbox.rs:188-195 | returns the contents, and the handle turns into one that logs before it stores; soundness of rollback as for `Write` |
| `PBoxHandles.TxObjects.LogObject` | src/user/pbox.rs:369-402 | one record of each location of the object as it is, after which stores are free |
| `PBoxHandles.TxObjects.StoreField` | src/user/pbox.rs:329-335 | one location stored through a handle that admits it; soundness of rollback as for `Write` |
| `PBoxHandles.TxObjects.Lend` | src/user/pbox.rs:205-209 | a handle more on the object, the owner closed as the borrow closes it and a static open as the source leaves it |
| `PBoxHandles.TxObjects.GiveBack` | src/user/pbox.rs:205-209 | the loan ends, and the owner is the `Ptr` that the source leaves it |
| `PBoxHandles.TxObjects.Run` | src/user/pbox.rs:176-402 | any sequence of operations that the source admits, on memory and journal: memory is that after the stores of the operations in order, handles and accesses are those of the rules, and rollback restores every location but those stored to before they were read as long as the discipline holds |
| `PBoxHandles.TxObjects.Transaction` | src/user/pbox.rs:148-402 | every location holds what the run stored to it last, or what it held; with a clean run, rollback gives the memory of the beginning outside the locations stored to before they were read |
| `Syscalls.SyscallTask.EndSyscall` | src/syscalls.rs:193-205 | the store to the tail of the replay cache ends the call; cut before it the call is resumed, cut after it recovery empties the kernel transaction cache |
| `Syscalls.SyscallTask.DoSyscall` | src/syscalls.rs:146-190 | bypasses exactly the calls whose result is entered, and returns the crash-free result either way; a cut is unsafe only while a call is bypassed and the next one is half done |
| `Syscalls.SyscallTask.Recover` | src/task.rs:780-812 | from any state it keeps the memory that a reboot sees; an open call keeps what it has committed if and only if the state is not `Bypassing`; from every safe state, and every cut of itself, the next call can be begun or resumed |
| `Syscalls.SyscallTask.Boot` | src/task.rs:716-812 | a boot cut anywhere leaves a committed transaction, a safe one, or one that is `Bypassing`, and says which; the first boot is always safe |
| `Syscalls.SyscallTask.CrashOnce` | src/syscalls.rs:146-238 | one crash of the run and any number of crashes of its recovery: every kernel effect once, in the sequence of calls that the body makes, and the crash-free result |
| `Syscalls.SyscallTask.RunUnderFailures` | src/syscalls.rs:146-238 | any number of crashes anywhere: kernel memory and result are those of the sequence of calls in which each is the one the body makes after the results before it, unless a crash found the state `Bypassing`, which one crash never does |
| `Syscalls.TheRun` | src/syscalls.rs:146-238 | the recursion by which results are found during the run describes exactly that sequence |
| `Syscalls.CrashWhileBypassing` | src/task.rs:789-795 | two crashes drive a task into that state |
| `Syscalls.BypassingCrashRunsTwice` | src/task.rs:789-795 | and the boot after them runs a kernel transaction twice: a location is three larger, where the run without failures makes it two |
| `TimerDaemon.ProcessExpired` | src/time.rs:457-488 | every cut is one of four states, and the number of stores made says which: waiting, with how many records in the undo log, skipped, or moved |
| `TimerDaemon.RecoverDaemon` | src/recover.rs:121-172 | rolls the list forward and commits if the list operation was recorded, rolls the callback back otherwise, in a number of stores that the undo log gives; cut anywhere it can be repeated; it neither loses an expiry nor finds a lost one |
| `TimerDaemon.ExpireUnderFailures` | src/time.rs:457-488 | under any number of failures the last stores of the callback are in memory and the list is the one it is to be, once and together; only an expiry of a timer that reloads may be skipped, with memory as it was, and it is if and only if the stage computed from the supplies of all boots is `Skipped` |
| `TimerDaemon.LostHidesOthers` | src/time.rs:460-463 | a timer whose expiry was lost is the head and not due; unless its new slot is the first one the list is no longer sorted, the next timer having a smaller key, and only the head is ever looked at |
| `TimerMessages.Receive` | src/time.rs:208-224 | hands back the message of the crash-free run, whether it is received now or was received before a crash |
| `TimerMessages.ProcessMessage` | src/time.rs:203-247 | wherever it is cut after its beginning, recovery can tell whether to roll forward or back |
| `TimerMessages.RecoverList` | src/recover.rs:121-172 | commits exactly if a list operation was recorded, and leaves everything to be done again otherwise; cut anywhere it can be repeated |
| `TimerMessages.OneCallIsSafe` | src/task.rs:789-795 | with a single call in the transaction, recovery never mistakes a call that is half done for one that has ended |
| `TimerMessages.MessageUnderFailures` | src/time.rs:203-247 | under any number of failures, and begun if and only if the first supply made four stores: the kernel transactions of the receiving call have been run once, and the timer has the key, the flag and the place that the message asks for, or is out of the list |
| `QueueBuffer.FreeSlotsDoNotMatter` | src/queue.rs:123-168 | the contents do not depend on the bytes of free slots |
| `QueueBuffer.Queue.DoPushBack` | src/queue.rs:123-143 | the item comes last if there are fewer than the queue has room for, and it replies that it is full otherwise; cut anywhere, rollback of the indices restores the contents although bytes of the buffer are not restored |
| `QueueBuffer.Queue.DoPushFront` | src/queue.rs:145-168 | the same in front, the read position moving before the item is there |
| `QueueBuffer.Queue.DoDequeue` | src/queue.rs:170-187 | returns and removes the first item or reports an empty queue; cut anywhere, nothing is lost |
| `QueueBuffer.Queue.Recover` | src/queue.rs:123-187 | restoring the logged indices, in several cuts if need be, keeps the contents |
| `QueueBuffer.Queue.RunUnderFailures` | src/queue.rs:123-197 | any run of operations under any failures gives the contents and replies of a bounded deque, never longer than it has room for; without pushes to the front, contents and items taken in are items handed out and contents, in order |
| `QueueBuffer.FirstInFirstOut` | src/queue.rs:123-187 | what was there and was pushed back and taken in is what was handed out and what is left, in this order |
| `QueueBuffer.FillAndDrain` | src/queue.rs:123-197 | up to the length of the queue all items are taken, a full queue refuses, they come out in order, and then it replies that it is empty |
| `EventGroups.WakesWhenConditionOk` | src/event_group.rs:104-123 | the test of the setter on the stored value is the test of the waiting task, for all bits and all options |
| `EventGroups.WakesIsSatisfied` | src/event_group.rs:352-383 | the test of the setter on whole words is all, or one, of the awaited event bits being set, for every value and all bits |
| `EventGroups.PlusBit` | src/event_group.rs:344-350 | setting bits sets exactly those that were set or are to be, the control bits excepted |
| `EventGroups.MinusBit` | src/event_group.rs:98-100 | clearing bits clears exactly those |
| `EventGroups.MarkBit` | src/event_group.rs:375 | the mark adds exactly the flag that tells a woken task that it did not time out |
| `EventGroups.WokenOrLeft` | src/event_group.rs:352-383 | every waiter is woken if its condition holds and stays if it does not |
| `EventGroups.OrderKept` | src/event_group.rs:352-383 | the woken and the left are in the order of the wait list |
| `EventGroups.ClearedBits` | src/event_group.rs:369-388 | a bit is cleared exactly if a woken task waited for it and asked for clearing |
| `EventGroups.EventGroup.SetBits` | src/event_group.rs:335-393 | bit by bit: an event bit is set afterwards if it was or is to be and no woken task consumes it; exactly the tasks whose request these bits satisfy are woken and free, with the bits and the mark in their value; the list keeps the others, in order and well linked |
| `KernelLists.RemoveFromRing` | src/list.rs:1316-1353 | without failures a node leaves a ring of any size, and the cursor position is the one of its node or of the next one |
| `KernelLists.CursorStays` | src/list.rs:1316-1353 | the node under the cursor stays so, or its successor is if it leaves |
| `KernelLists.ListTable.Remove` | src/list.rs:1305-1353 | one list loses exactly the node, which is free; every other list holds what it held, and no node is in two; the cursor of the ring is the exact one and no other moves |
| `KernelLists.ListTable.Insert` | src/list.rs:1143-1194 | a free node enters one list, at the cursor, in order or in front; every other list holds what it held; the cursor stays on its node and no other moves |
| `TaskNodes.RepInserted` | src/list.rs:1788-1844 | the slot found by the keys in the nodes is the place of the task in the order of the keys |
| `TaskLists.FrontIsLeastImportant` | src/task.rs:250-275 | the first of an ascending list has the largest level value, and the smallest exactly if all have one level |
| `Scheduler.Kernel.Release` | src/list.rs:300-324 | a woken task leaves delay and wait list and enters its ready ring at the cursor, on the linked lists; the task that is next to run stays so; all lists stay well formed and in order |
| `Scheduler.Kernel.Block` | src/list.rs:478-497 | a ready task leaves its ring, where the cursor stays or steps on, and is in its wait list, at the place of its priority or in front, and in the delay list at the place of its wake-up time; all lists stay well formed and in order |
| `Scheduler.Kernel.DelayOnly` | src/list.rs:706-722 | the same without a wait list |
| `Scheduler.Kernel.DoTick` | src/task.rs:1037-1080 | after a tick exactly the tasks with a wake-up time at most now have left the delay list and their wait list and are ready; the others are in the same order; nobody is due before the next unblock time |
| `Scheduler.Kernel.DoWakeFront` | src/list.rs:300-324 | the front waiter, if there is one, becomes ready; in a sorted list nobody is less important, and it is the most important one exactly if all waiters have the same level |
| `Scheduler.LessImportantFirst` | src/task.rs:250-275 | of a task of level 1 and one of level 5 in a sorted list the one of level 5 is woken |
| `Scheduler.Kernel.DoCreate` | src/task.rs:878-938 | a new task starts ready, in the ring of its level |
| `Scheduler.TurnAfterEntering` | src/list.rs:1154-1194 | a task that enters at the cursor does not change who is next to run, and the first one to enter is next |
| `Scheduler.TurnAfterLeaving` | src/list.rs:1316-1353 | when the task that is next leaves, its successor is next; when another one leaves, nothing changes |
| `KernelSteps.TimeAndTasks` | src/task.rs:1037-1080 | over every run, time grows by the number of ticks and the tasks by those asked for, up to the limit |
| `KernelSteps.SleepsUntil` | src/task.rs:1037-1080 | over every run, a sleeper that nobody wakes stays blocked, with its wake-up time and in its wait list, as long as that time has not come |
| `KernelSteps.WakesInTime` | src/task.rs:1037-1080 | it is blocked until, and ready and in no wait list after, the tick at which its time comes |
| `KernelSteps.FrontWakes` | src/list.rs:300-324 | over every run, a wake-up makes the front waiter ready, the others move up, and in a sorted list nobody has a larger level value |
| `KernelSteps.FallsAsleep` | src/list.rs:478-497 | a task that goes to sleep was ready, and is blocked, with the wake-up time and in the wait list that it names; nobody leaves a list |
| `KernelSteps.IsMade` | src/task.rs:878-938 | a new task has the next number, the level asked for, and is ready; a new list is empty and sorted as asked for |
| `KernelSteps.RunKeeps` | src/task.rs:604-706 | over every run levels do not change, and lists stay and stay sorted or not |
| `KernelSteps.ReadyStays` | src/task.rs:604-706 | a ready task stays so until it goes to sleep itself |
| `Scheduler.Kernel.Run` | src/task.rs:604-706 | after every run of kernel steps each list of the kernel is a well-linked ring or chain of exactly its tasks; each task is in exactly one of its ready ring and the delay list, blocked exactly if delayed, and in a wait list only if delayed; delay list and sorted wait lists are in order; every step has had its effect on time, tasks and wait lists, time has gone on by the ticks, and every task asked for was made as long as there was room |
| `Scheduler.RunFromStart` | src/task.rs:59-80 | the empty lists of a new kernel satisfy all of that, so it holds after every run from the start, with time the number of ticks |

## Left out

- 32-bit position words: the cast to 16 bits in `enter_idempotent_loop` drops the cache offset there (src/transaction.rs:903).
- The loop variant without `opt_loop_end`, `nv_loop!`, `breaki!` and `continuei!`.
- Wrap-around of a loop counter: counters are natural numbers; the source adds on `usize`.
- UserTxs.UserTxInfo.RunUnderFailures: asks for pairwise distinct loop counters, at most eight nested loops, at most 255 live transactions and a cache that fits the program, as the source does; a loop body does not store to the counters, and its local variables do not outlive an iteration.
- UserTxs.UserTxInfo.FastTx: asks that the body may be repeated from any of its stores, which is what makes `fast_run` sound.
- JournalBytes.Journal.AppendLogOf: asks for room in the log, where the source panics.
- Syscalls.SyscallTask.RunUnderFailures: promises the crash-free result only as long as every crash is safe, for the reason given by `BypassingCrashRunsTwice`; user memory is restored by the user journal and appears as the body's fixed starting point.
- TxCacheBytes.RoundTrip: alignment of results in the cache, and 32-bit words, whose commit bit is higher.
- Syscalls: the flag `list_tx_done` and the list transactions inside system calls; they are modelled in `WaitListInsertion`, `DelayInsertion` and `WaitListPop`.
- TimerMessages.MessageUnderFailures: which timer the message names (a parameter here), the period that SetPeriod stores before it moves the timer, and a Stop of a timer that is not active (see `TimerStop.StopInactiveUnderFailures`); Delete does what Stop does; the message buffer and `timer.active` are stored again by every retry.
- TimerDaemon.ProcessExpired: the bookkeeping of `next_expiry_time`, which is stored again by every retry.
- ListRemove.RecoverFromFailedRemove: on rings of two or more nodes and chains only; the other cases are in `RemoveLimits`.
- WaitListInsertion.BlockUnderFailures: `next_unblock_time`, whose update recovery does not redo (src/list.rs:559-563); the same holds for `DelayInsertion.DelayUnderFailures`.
- DelayInsertion.DelayReplayed: the wake-up time of a replayed call, which is computed anew; here the call is made again with the same one.
- WaitListPop.PopNobodyUnderFailures: recovery unwraps the absent block node unchecked (src/list.rs:330-333) before it finds that nothing was recorded; here that has no effect.
- WaitListPop.WakeUnderFailures: asks that the woken task is in the delay list and in the front of its wait list.
- Recovery of the delay-list removal (src/list.rs:642-695): it reads a field that the operation does not record (src/list.rs:626-638).
- Recovery of the unsorted wait list (src/list.rs:415-464, 576-620): the removal case may apply the length of one list to the other.
- Recovery of a context switch (src/list.rs:954-1010): it looks up the list of the previous task.
- Scheduler: no power failures; the running task counts as ready; the rotation of a ready ring at a task switch.
- EventGroups.EventGroup.SetBits: the moves from delay to ready list of the woken tasks are `Scheduler.Kernel.Release`; crash points and the yield to a woken task are not modelled.
- QueueBuffer.Queue.RunUnderFailures: one operation a transaction, as the source has it, and items of the declared size; blocking senders and receivers are left out.
- HandleRules: conversions between the handle kinds are admitted by rank, which includes harmless ones the source does not offer; handles to parts of an object; lifetimes, beyond the order in which loans end.
- PBoxHandles.TxObjects.LogObject: one record a location, where the source makes one record of the object.
- Semaphores, mutexes, the heap, benchmarks, architecture code and statistics.
- Hardware: stores are atomic by word (by byte in the journal, the caches and the queue buffer) and reach memory in program order.
