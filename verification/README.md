# A verified model of the mm-halow driver's run-time

This driver runs a Wi-Fi HaLow stack written for an RTOS on a host that has none.
What stands in for the RTOS is small and delicate: a cooperative scheduler whose
poll skips passes it believes would find nothing, a private heap that keeps its
headers among its payloads, blocking primitives, timers, a packet memory touched
from several contexts at once.  The Dafny files here model those parts and prove
what the driver relies on them for.

| file | what it models |
|---|---|
| `Config.dfy`, `Lists.dfy` | the build-time configuration, left open; what several modules share |
| `Words.dfy`, `Memory.dfy` | 32-bit wrap-around, `int32_t` comparisons, little-endian fields, a byte array with `memset` and `memcpy` |
| `Blocks.dfy` | the heap's block list as a value: the reference for malloc and free |
| `Heap.dfy` | the heap as written: headers and payloads in one byte array, proved against `Blocks` |
| `SchedMachine.dfy`, `SchedProofs.dfy` | the scheduler, the tasks, and all other contexts as one state machine, an atomic action at a time |
| `RunProofs.dfy` | what a run makes of its passes, its tasks and their waits, told from its history alone |
| `SleepProofs.dfy` | sleeps, whose two reads of the clock may disagree, on that machine |
| `GateProofs.dfy` | the poll's gate over whole runs: gated and always-run schedulers compared |
| `Scheduler.dfy` | the pass loop and the poll gate as written, proved to take only steps of that machine |
| `Tasks.dfy` | the task table: slots, the list threaded through them, and stacks in the heap |
| `Context.dfy` | the context switch on a word memory, and any interleaving of contexts |
| `Waiting.dfy` | the wait loop with semaphores, mutexes, notifications, queues and sleep |
| `Queue.dfy` | the ring-buffer queue |
| `Timers.dfy` | the timer list and its walk under callbacks that change it |
| `FlowControl.dfy` | transmit flow control, one atomic operation at a time, in any number of contexts |
| `PacketMemory.dfy` | counted data packets and the reserved command pools |
| `Claims.dfy` | the claim on the transceiver by a thread and the interrupt that preempts it, and the scheduler run under it |
| `Caches.dfy` | the scan cache and the access point's station list |
| `Crc16.dfy`, `SdBlocks.dfy` | the emulated transceiver's SD-over-SPI bus and its CRC |

An object the source updates in place is a class with the same fields; its
methods are proved against a specification function or a ghost view of the state
(a heap's map of live blocks, a queue's contents, a scheduler's history), and
what the source promises is proved of those.  Interleaved code is a state machine
over its atomic steps, and its theorems are about every run.

## What the proofs show about the code

* **No wake-up is lost**, with interrupts and threads acting between any two
  statements, as long as a pass lasts less than 2^31 ms less the cap on a wait and
  the poll is never 2^31 ms late.  Beyond that the deadline is missed for the
  following 2^31 ms (`LatePollsMissTheDeadline`).
* `mmosal_task_sleep()` reads the clock twice (src/mm_halow_osal.c:250-251).  A
  sleeper can be ready with nothing pending, to be found only by chance:
  `MissedRun` is a run in which that happens.  Sleeps of a duration d with their
  reads g apart are never missed, in any run, exactly when g + min(d, cap) <= d
  or d <= g (`SleepsAreNeverMissedExactlyWhenTheySpare`): for a sleep within the
  cap, when the two reads agree or are at least the whole sleep apart.  Every
  sleep is cut to the cap on a wait, 10000 ms by default, and one longer than 2^31
  ms is over at once (`SleepIsOverAtOnce`).
* The header says that no wait lasts for ever (src/mm_halow_sched.h:71-73); the
  code honours a wait without end outside teardown (src/mm_halow_sched.c:326-353).
  The model follows the code.
* The comment at src/mm_halow_pktmem.c:55 says that transmission pauses with all
  but one of the allocations in use; the test at line 244 pauses it when all are,
  and until the counter has stood at that it is never paused
  (`NoPauseBelowTheLimit`).  The model follows the code.
* With two or more contexts on the transmit path all packets can be out with
  transmission not paused, when one decides to unpause before the other takes the
  last packet and unpauses after: in every interleaving a quiet, full path is paused
  exactly when there is one context at most (`FullMeansPausedExactlyAlone`).
* **Transmission can stay paused with nothing outstanding** once more than
  `MM_HALOW_TX_BLOCKS` - 2 contexts use the transmit path at once: with the least
  number of blocks allowed, three, two contexts suffice
  (`NeverStuckExactlyBelowTheThreshold`).
* A mutex may be released by anyone (src/mm_halow_osal.c:388-396): over any
  sequence of locks and releases exclusion holds all along exactly when nobody
  releases the mutex while somebody else holds it (`ExclusionIsUpToReleases`).
* A notification count wraps from 2^32 - 1 to none (`GiveIsExact`).
* A timer callback may delete any timer, its own included, but the one saved as the
  next: deleting that one, and nothing else, leaves the walk on freed memory
  (`Poll`, `OnlyTheSuccessorMatters`).  An auto-reload timer whose period is 0 or more than
  2^31 ms is due again the moment it fires.
* A claim depth of 256 wraps to zero, after which the releases do nothing and the
  other context is refused for ever (`NestedTooDeep`).
* `mm_halow_sched_task_create()` multiplies the stack size by four without a
  check (src/mm_halow_sched.c:156).  From 2^30 words on it asks for too little:
  if the heap has that little, and only then, it paints past the end of its block
  (`Create`, `PaintStaysInside`; 2^30 + 1 words is such a size, 2^30 is not,
  `ALargeStackOverruns`).
* A CMD53 with a count of zero makes the emulator send one block of 2^32 bytes
  (`ZeroCountReadsOn`); and it does not check the CRC of blocks written to it.
* Once more stations have joined the access point than it has room for, one left
  out is not listed when room is made, whatever the others do, but only when it is
  authorized again (`LeftOutStaysOut`).
* Receive commands that fall back to the heap are not waited for when the packet
  memory is shut down: the test for that means that no packet is out exactly when
  there are none of those (`Drained`).
* A command to an SDIO function beyond the second makes the emulator index its
  address windows out of range (`SpiByte`).

## Model

| member | source | states |
|---|---|---|
| Words.SignedDifference | src/mm_halow_sched.c:64 | the cast to `int32_t` of a difference of two wrapped clocks is the true difference exactly when that fits in an `int32_t` |
| Blocks.ListIsDeterminedByLiveBlocks | src/mm_halow_osal.c:97-135 | two block lists of the same pool with no two free neighbours and the same live blocks are equal: the list is a function of what is live |
| Blocks.MergeKeepsLiveBlocks | src/mm_halow_osal.c:126-133 | the coalescing walk leaves a list that still tiles the pool, has no two free neighbours, and has the same live blocks |
| Blocks.FreeRemovesOneLiveBlock | src/mm_halow_osal.c:118-135 | after a free the list is canonical and exactly the freed block is no longer live |
| Blocks.Carve | src/mm_halow_osal.c:101-110 | what replaces the block taken tiles the same stretch, is aligned, has one used block, first, and gives the caller no more than a header and an alignment too many |
| Blocks.AllocAddsOneLiveBlock | src/mm_halow_osal.c:97-113 | after an allocation the list is canonical and exactly one block, new, is live in addition |
| Blocks.VacantLiesInOneFreeBlock | src/mm_halow_osal.c:97-135 | any stretch of the pool touching no live block lies inside a single free block |
| Blocks.FirstFitIsComplete | src/mm_halow_osal.c:97-115 | first fit fails exactly when no stretch of non-live bytes could hold header and payload, and otherwise finds the lowest such address |
| Blocks.FreeUndoesMalloc | src/mm_halow_osal.c:97-135 | freeing what was just allocated gives back the identical list |
| Blocks.FreeAllRemovesExactlyTheVictims | src/mm_halow_osal.c:118-135 | after any sequence of frees of distinct blocks exactly those are no longer live, and the list is canonical |
| Blocks.FreeOrderIsImmaterial | src/mm_halow_osal.c:118-135 | a set of frees gives the same list in every order |
| Blocks.FreeingEverythingRestoresThePool | src/mm_halow_osal.c:72-75 | freeing every live block, in any order, gives back the one block the pool started as |
| Layouts.LiveBlocksAreDisjoint | src/mm_halow_osal.c:37-49 | distinct live blocks share no byte, of header or payload |
| Layouts.PayloadWrite | src/mm_halow_osal.c:37-49 | a caller writing inside its own payload changes no header and no other payload |
| Layouts.Carved | src/mm_halow_osal.c:101-112 | once malloc has written its headers, the bytes still thread a canonical list, and every live payload is as it was |
| Layouts.MarkStep | src/mm_halow_osal.c:123 | clearing the used flag in the bytes takes that block, and no other, off the live ones |
| Layouts.JoinStep | src/mm_halow_osal.c:127-129 | rewriting one header joins two free neighbours, and no live payload changes |
| HeapMemory.RoundIsExactUnlessItWraps | src/mm_halow_osal.c:46 | rounding a size up is right exactly while it does not wrap, and is zero when it does: what the size guard is for |
| HeapMemory.Heap.constructor | src/mm_halow_osal.c:51-60 | before init there is no pool and nothing is live |
| HeapMemory.Heap.Init | src/mm_halow_osal.c:62-77 | succeeds exactly when there was a pool already or one is to be had, and then the new one is a single free block; it leaves an existing pool alone |
| HeapMemory.Heap.Deinit | src/mm_halow_osal.c:146-150 | afterwards there is no pool and nothing is live |
| HeapMemory.Heap.Malloc | src/mm_halow_osal.c:79-116 | NULL exactly for no pool, a size out of range, or no room anywhere; otherwise the lowest address that fits, aligned, big enough and not much too big; live allocations gain exactly this one and keep their bytes |
| HeapMemory.Heap.Place | src/mm_halow_osal.c:95-115 | the same for a size already rounded |
| HeapMemory.Heap.Search | src/mm_halow_osal.c:97-100 | the walk over the headers in memory stops at the reference's first fit |
| HeapMemory.Heap.Take | src/mm_halow_osal.c:101-112 | the block found becomes exactly one live allocation, at the same address |
| HeapMemory.Split | src/mm_halow_osal.c:102-109 | the two headers written in memory are those of the two parts, and nothing outside the block is written |
| HeapMemory.Cut | src/mm_halow_osal.c:101-110 | the bytes of the block come to lay out what the reference carves from it, and nothing outside it is written |
| HeapMemory.CoalesceStep | src/mm_halow_osal.c:126-133 | one turn of the walk keeps the merged list it is heading for and every live payload, and makes progress |
| HeapMemory.Coalesce | src/mm_halow_osal.c:126-133 | the walk over the headers in memory leaves them threading the merged list, with every live payload as it was |
| HeapMemory.Heap.Free | src/mm_halow_osal.c:118-135 | NULL is ignored; otherwise exactly that allocation is gone, every other keeps its bytes, and the list is the reference's |
| HeapMemory.Heap.Calloc | src/mm_halow_osal.c:157-170 | NULL exactly when the product does not fit in a word or malloc would fail; otherwise at least the product of bytes, the product of them zero, nothing else changed |
| HeapMemory.Heap.Realloc | src/mm_halow_osal.c:172-190 | NULL allocates, exactly as malloc would; zero frees; a size that fits stays put; growing keeps every old byte, or fails and keeps the old block as it was |
| HeapMemory.Heap.Grow | src/mm_halow_osal.c:184-189 | growing moves the allocation to a new block whose bytes begin with the old ones, or leaves everything as it was |
| SchedProofs.PendingIsDue | src/mm_halow_sched.c:63-65 | inside the half window the wrapped comparison says whether the unbounded time has come |
| SchedProofs.NotYet | src/mm_halow_osal.c:240-242 | a time less than 2^32 ms ahead and not long past is seen as still to come exactly when it is, within 2^31 ms |
| SchedProofs.NextInv | src/mm_halow_sched.c:206-432 | every step of scheduler, task or any other context, killing the task that is running included, keeps the invariant: each task a pass has been by is parked on something false, dead, or signalled, and wake_at is no later than any deadline |
| SchedProofs.NextFair | src/mm_halow_sched.c:406-428 | every step keeps turns in list order, at most one a pass, none missed |
| SchedProofs.RunInv | src/mm_halow_sched.c:393-432 | both hold in every state of every run from power-on |
| SchedProofs.NoLostWakeup | src/mm_halow_sched.c:44-65 | whenever the scheduler is idle in any run, a task that could make progress (unless a sleeper whose reads of the clock came too far apart) means pending says so, or some context has yet to make its wake call |
| SchedProofs.WakeAtIsTheEarliestDeadline | src/mm_halow_sched.c:50-65 | with nothing woken and no wake call owed, wake_at is modulo 2^32 the least of the parked deadlines and the reset value, and pending turns true exactly at that time |
| SchedProofs.ParkKeepsTheEarlierDeadline | src/mm_halow_sched.c:313-322 | the wrapped comparison in park picks the earlier of the two unbounded times |
| SchedProofs.EveryPassIsFair | src/mm_halow_sched.c:409-423 | every pass, as it ends, has given each task not dead exactly one turn, in creation order, those created during the pass included |
| SchedProofs.RunsAreBounded | src/mm_halow_sched.c:401-428 | however many tasks the tasks create, a run gives no more turns than passes times slots |
| SchedProofs.SkippedPassChangesNothing | src/mm_halow_ctrl.c:303-312 | the run the poll skips would have left every task, and all that tasks share, as they are, at each of its steps |
| SchedProofs.LatePollsMissTheDeadline | src/mm_halow_sched.c:63-65 | a deadline is seen by polls less than 2^31 ms late, missed by the next 2^31 ms of them, and so on |
| RunProofs.RunTallied | src/mm_halow_sched.c:393-428 | in every state of every run the program's woken, pass count and deadline are the wake calls since the last pass began, the passes begun, and the clock at the start of the run, counted from the history |
| RunProofs.PassesFollowWakes | src/mm_halow_sched.c:406-428 | a pass goes on to the end of the list, and is followed by the test for another exactly when somebody has called wake since it began; that test lets another begin exactly while passes and time are left |
| RunProofs.RunsStopForAReason | src/mm_halow_sched.c:406-430 | a run that comes to the reap had nothing woken as its last pass ended, or had made as many passes as there may be, or had spent its budget |
| RunProofs.RunsFinish | src/mm_halow_sched.c:393-432 | a run that is over went through its passes to the reap, and stopped for one of those reasons |
| RunProofs.OnlyTheDeadLeave | src/mm_halow_sched.c:377-391 | from any state of any run to the next, tasks stay listed in order, none comes back to life, and one leaves only if it was dead |
| RunProofs.NewTasksHaveATurn | src/mm_halow_sched.c:183-188 | a task created by anyone at any moment has a turn in the first pass to end from then on, unless dead by then |
| RunProofs.TheEndedAreTheDead | src/mm_halow_sched.c:206-223 | those who join see as ended exactly the tasks that have been marked dead by then, whoever marked them |
| RunProofs.ConditionsMeanWhatTheySay | src/mm_halow_osal.c:240-293 | a sleeper's time reads as come for half of each turn of the clock from then on, and a join's task as ended exactly when it has been marked dead |
| RunProofs.WaitsTakeWhatTheyFind | src/mm_halow_sched.c:340-375 | a call into the scheduler takes a token exactly where it calls a condition that finds one, takes one of that kind and no other, and then goes on to call wake |
| RunProofs.WaitsGiveUpOnTime | src/mm_halow_sched.c:359-365 | in every run a timed wait that compares the clock asks its last time exactly when its time has come, in unbounded time, and otherwise parks |
| SleepProofs.SparingSleepersAreNeverMissed | src/mm_halow_osal.c:244-252 | in a run all of whose sleeps leave enough between their reads and their ends, whatever else goes on, no sleeper is ever ready with the scheduler idle, nothing pending and no wake call owed |
| SleepProofs.MissedRun | src/mm_halow_osal.c:250-251 | for any other duration and distance of the reads, a run from power-on that ends with the sleeper ready, the scheduler idle, nothing pending and no wake call owed |
| SleepProofs.SleepsAreNeverMissedExactlyWhenTheySpare | src/mm_halow_osal.c:250-251 | over all runs: sleeps of duration d whose reads are g apart are never missed exactly when g + min(d, cap) <= d or d <= g |
| GateProofs.AgreeingStep | src/mm_halow_ctrl.c:303-317 | a step of the scheduler that never skips is a step of the gated one too, and leaves the two agreeing on all that tasks and others can see |
| GateProofs.GateIsAnOptimisation | src/mm_halow_ctrl.c:303-312 | over any history, with any interference in the runs that are made, a scheduler that skips what the gate shuts out takes only steps of the machine and leaves tasks, tokens and the dead exactly as one that never skips |
| Scheduling.Scheduler.constructor | src/mm_halow_sched.c:434-446 | the state after deinit is an initial state of the machine |
| Scheduling.Scheduler.Interfere | src/mm_halow_sched.c:44-48 | between any two statements the clock, interrupts and threads may take any steps of their own, and none of them moves the scheduler |
| Scheduling.Scheduler.SwitchTo | src/mm_halow_sched.c:418 | a task's turn, whatever it does and is done to, is a run of the machine that comes back to the scan at the next task |
| Scheduling.Scheduler.Wake | src/mm_halow_sched.c:59-61 | pays off one wake call owed, and sets woken |
| Scheduling.Scheduler.IsPending | src/mm_halow_sched.c:63-65 | between runs a no means that no task could do anything with a turn, unless some context still owes its wake call or a sleeper read the clock too far apart |
| Scheduling.Scheduler.RunTasks | src/mm_halow_sched.c:393-432 | terminates, having made one whole run of the machine whatever happens between its statements, with a bounded number of turns: it began at this call, and came to the reap because nobody had called wake in its last pass, or its passes were as many as there may be, or its budget of time was spent; a no-op when re-entered |
| Scheduling.Scheduler.OnePass | src/mm_halow_sched.c:407-427 | one pass is a run of the machine to the end of the list, and another follows exactly when somebody has called wake since it began |
| Scheduling.Scheduler.Reap | src/mm_halow_sched.c:377-391 | ends, whoever acts between one task and the next; a dead task still listed was killed meanwhile, and that has been or is about to be signalled |
| Scheduling.Scheduler.ReapOne | src/mm_halow_sched.c:379-390 | one turn of the walk takes exactly the task it stands at off the list if it is dead, and ends the run with the last |
| Scheduling.Scheduler.Poll | src/mm_halow_ctrl.c:285-319 | stands aside before the driver is up, inside a task, or refused the claim; otherwise makes a whole run, ended for one of those reasons, unless none of its own four reasons holds, and then nothing has changed and no task had anything to do |
| TaskLists.Appended | src/mm_halow_sched.c:183-188 | storing through the tail pointer puts the slot at the end of the list, which stays free of cycles and repeats |
| TaskLists.Unlinked | src/mm_halow_sched.c:378-387 | storing through the previous pointer takes exactly that slot off the list and keeps the others in order |
| TaskLists.Enlisted | src/mm_halow_sched.c:138-192 | with a new slot filled in, the slots in use are those listed, and each listed one has a heap block of its own |
| TaskLists.Retired | src/mm_halow_sched.c:383-385 | with a slot cleared and its stack freed, the same holds of those left |
| TaskLists.StackWordsAreEnough | src/mm_halow_sched.c:152-155 | the rounded stack is even, has room for a context, and is no smaller than asked exactly unless the request is the largest word |
| TaskLists.PaintStaysInside | src/mm_halow_sched.c:156-166 | when malloc has a block for the wrapped size, the painting of the stack stays inside it exactly below 2^30 words |
| TaskLists.ALargeStackOverruns | src/mm_halow_sched.c:152-166 | asked for 2^30 + 1 words, create paints 2^30 + 2 on the block it gets for 8 bytes; 2^30 words wrap to none and get none |
| TaskLists.ContextBuilt | src/mm_halow_sched.c:178-181 | a painted stack with zeros and the trampoline stored at its top is the image a new task starts from |
| TaskLists.FreshIsUntouched | src/mm_halow_sched.c:194-204 | on a stack just created the free words are all but the context |
| TaskLists.StepKeepsOthers | src/mm_halow_sched.c:138-223 | creating, deleting or reaping tasks leaves every heap allocation that is not a stack, with its bytes, alone |
| TaskLists.HistoryKeepsOthers | src/mm_halow_sched.c:138-391 | so does any history of them |
| TaskLists.NoTasksLeaveNoTrace | src/mm_halow_sched.c:377-391 | with no tasks before or after and the same other allocations, the heap's block list is the original one, down to the last header |
| TaskLists.StacksAreDisjoint | src/mm_halow_sched.c:156-170 | the stacks of distinct tasks share no byte, and all lie in the pool |
| TaskTables.TaskTable.constructor | src/mm_halow_sched.c:36-42 | an empty table: no slot in use, nothing listed |
| TaskTables.TaskTable.HistoryLeavesNoTrace | src/mm_halow_sched.c:377-391 | after any history of a table's tasks from none to none, nobody else using the heap, its block list is the original one |
| TaskTables.TaskTable.Create | src/mm_halow_sched.c:138-192 | NULL exactly when every slot is taken or malloc has no block of the wrapped size, changing nothing; otherwise the paint overruns the block exactly from 2^30 words on; otherwise the first free slot goes on the end of the list with a new block for a stack, painted but for a restorable context, its stack pointers 8-byte aligned |
| TaskTables.TaskTable.NewStack | src/mm_halow_sched.c:156-166 | NULL exactly when malloc has no block of the wrapped size; otherwise a new block, too small for the painting exactly from 2^30 words on, and else with every word painted |
| TaskTables.TaskTable.BuildContext | src/mm_halow_sched.c:176-181 | leaves the initial image in that stack, and every other allocation as it was |
| TaskTables.TaskTable.Append | src/mm_halow_sched.c:183-188 | the walk to the tail ends at the last task listed, and links the new one there |
| TaskTables.TaskTable.FreeWords | src/mm_halow_sched.c:194-204 | the length of the longest painted run at the low end of the stack |
| TaskTables.TaskTable.Delete | src/mm_halow_sched.c:206-223 | the task named, or the one running, is dead, still listed, everything else as it was, and the scheduler woken; nothing happens with neither |
| TaskTables.TaskTable.Unlink | src/mm_halow_sched.c:381-385 | one dead task leaves the list, its slot is free, and its block alone leaves the heap |
| TaskTables.TaskTable.Reap | src/mm_halow_sched.c:377-391 | exactly the dead leave the list, the others keep their order and their stacks, each dead task's stack is freed once, and no other allocation is touched |
| Context.Core.Switch | src/mm_halow_sched.c:112-125 | the registers go below the old stack pointer, the new ones come from the other stack, and the stored pointer is where the old ones are |
| Context.Core.Push | src/mm_halow_sched.c:114-117 | the registers end up in order just below the old stack pointer, and no other word is written |
| Context.Core.Pop | src/mm_halow_sched.c:120-123 | the registers are the words from the stack pointer up |
| Context.SwitchResumes | src/mm_halow_sched.c:112-125 | switching to a parked context restores exactly the registers and stack pointer it left with, and parks the one that was running |
| Context.NextInv | src/mm_halow_sched.c:112-223 | computing, switching, creating and removing contexts keep every parked context's saved frame intact in its own stack |
| Context.ResumesAsItLeft | src/mm_halow_sched.c:112-125 | over any interleaving, a context that switches away has its own registers and stack pointer back when it next runs |
| Context.StartsInTheTrampoline | src/mm_halow_sched.c:131-136 | a new context first runs in the trampoline, with its whole stack free and its stack pointer 8-byte aligned |
| Context.StackAreasAreApart | src/mm_halow_sched.c:156-170 | the stacks contexts run on are apart because the heap's live blocks are |
| Context.FreshIsAnEntry | src/mm_halow_sched.c:176-181 | the context built at creation is, word for word, one a switch restores |
| Waiting.TakeIsExact | src/mm_halow_osal.c:299-308 | a condition that finds a token takes exactly one, and one that does not takes none, for every primitive |
| Waiting.GiveIsExact | src/mm_halow_osal.c:424-438 | a give that is accepted adds exactly one token, unless a notification count wraps, and one that is refused none |
| Waiting.GiveConserves | src/mm_halow_osal.c:424-438 | tokens to be had and taken stay equal to those there were and those given, across a give |
| Waiting.TakeConserves | src/mm_halow_osal.c:444-453 | ... and across a take |
| Waiting.StaysInOrder | src/mm_halow_osal.c:548-582 | what has been pushed stays what has been popped followed by what is held, across any push or pop |
| Waiting.Kernel.GiveOne | src/mm_halow_osal.c:388-505 | a semaphore accepts exactly below its maximum, and counts one more; a queue exactly when there is room; a binary semaphore, mutex or notification always; the caller is told so, and the scheduler woken exactly then |
| Waiting.Kernel.TakeOne | src/mm_halow_osal.c:294-505 | each condition succeeds exactly when there is something to take, and takes just that |
| Waiting.SemaphoreStaysWithin | src/mm_halow_osal.c:408-453 | over any gives and takes a semaphore created within its maximum stays within it, and refuses a give exactly when it is at it; created above, it only comes down |
| Waiting.TheLastUseShows | src/mm_halow_osal.c:356-505 | after any uses a binary semaphore is signalled, and a mutex unlocked, exactly when the last of them was a give |
| Waiting.Kernel.Call | src/mm_halow_osal.c:356-367 | succeeds exactly when there is a token, room, or the time has come, and exactly then takes one, or pushes; a mutex is then the caller's, since that moment, and an item popped is the oldest |
| Waiting.Kernel.LastChance | src/mm_halow_sched.c:359-363 | the condition is asked again after whatever happened while the time was found to be up, so a token that came meanwhile is not left |
| Waiting.Kernel.Wait | src/mm_halow_sched.c:325-375 | true exactly when its last call of the condition succeeded, having taken one token or pushed one item; false having done neither, with nothing to be had even at the last moment, not before the capped timeout, and never, for a wait without end, outside teardown; still parked only with nothing to be had and time in hand |
| Waiting.Kernel.Loop | src/mm_halow_sched.c:340-366 | the loop returns the value of its last call, gives up only once the interval measured is over, and when teardown begins in a wait without end measures it from there |
| Waiting.Kernel.MutexGet | src/mm_halow_osal.c:369-386 | takes the mutex once, so that it is the caller's, or finds it held; a lock without end, its first nine seconds included, does not give up outside teardown |
| Waiting.Kernel.QueuePop | src/mm_halow_osal.c:600-603 | yields the last item to have come out, items coming out in the order they went in, or finds the queue empty |
| Waiting.Kernel.QueuePush | src/mm_halow_osal.c:605-608 | the item is the last to have gone in, or the queue is full |
| Waiting.Kernel.Sleep | src/mm_halow_osal.c:244-252 | a sleep of up to half the clock's range is no shorter than asked for, up to the cap, and takes no token |
| Waiting.DeadlineIsExact | src/mm_halow_osal.c:240-242 | a sleeper's deadline within half the clock's range is never seen as passed before its time |
| Waiting.SleepIsOverAtOnce | src/mm_halow_osal.c:244-252 | a sleep is over at once exactly when it is for nothing or for more than 2^31 ms |
| Mutexes.DisciplineKeepsOneHolder | src/mm_halow_osal.c:356-396 | over any sequence of locks and releases by holders, a mutex has at most one holder, and is locked exactly when it has one |
| Mutexes.ExclusionIsUpToReleases | src/mm_halow_osal.c:356-396 | from a state in which it holds, exclusion holds after every prefix of a sequence of locks and releases exactly when each release comes with no other holder |
| Mutexes.ForeignReleaseBreaksExclusion | src/mm_halow_osal.c:388-396 | one release of a held mutex by any other task leaves it free and held |
| Rings.CreateCheckIsExact | src/mm_halow_osal.c:529-532 | the check refuses exactly the sizes whose total does not fit in a word |
| Rings.Create | src/mm_halow_osal.c:527-542 | NULL exactly for those sizes or no memory; otherwise an empty queue |
| Rings.StoreTail | src/mm_halow_osal.c:573 | a copy into the slot at the tail makes the ring hold one more item, last, and disturbs none |
| Rings.DropHead | src/mm_halow_osal.c:555-557 | moving the head on leaves the ring holding all but the first |
| Rings.ModAt | src/mm_halow_osal.c:556-574 | the step the ring is kept with is addition modulo the capacity |
| Rings.Queue.Push | src/mm_halow_osal.c:566-582 | succeeds exactly when there is room, zero capacity included, and puts the item last; what was pushed is still what was popped and what is held; to those who wait it is the give of an item |
| Rings.Queue.Pop | src/mm_halow_osal.c:548-564 | succeeds exactly when there is an item, and yields the one pushed first of those held; to those who wait it is the take of one |
| Timers.CallsMean | src/mm_halow_osal.c:639-701 | a timer started is due once its period has passed, for 2^31 ms, and at no moment before exactly when the period is no more than half the clock's range; one created or stopped is never due; one deleted is off the list; a change of period restarts exactly a timer that is running: until the next call on that timer, whatever else is called meanwhile and however time passes |
| Timers.UntouchedStays | src/mm_halow_osal.c:639-701 | calls on other timers leave a timer as it is |
| Timers.FiringResets | src/mm_halow_osal.c:728-733 | a reloaded timer that fires goes off again once its period has passed, and a one-shot no more |
| Timers.DueAgainAfterItsPeriod | src/mm_halow_osal.c:721-733 | what has fired in one walk is due in a later one exactly when it is reloaded and its period has passed since |
| Timers.DueAgainAtOnce | src/mm_halow_osal.c:729-730 | one that has fired is due again at the same tick exactly when it is reloaded for nothing or more than half the range |
| Timers.OpKeepsAhead | src/mm_halow_osal.c:725-727 | anything a callback may do, but deleting the saved successor, leaves what is ahead of the walk as it was but for what it touches |
| Timers.ReckonedFiring | src/mm_halow_osal.c:728-735 | with one more timer fired, each that was due has fired, or is ahead and as it was, or was touched by the callback of one before it |
| Timers.OnlyTheSuccessorMatters | src/mm_halow_osal.c:725-726 | a callback that deletes the timer after its own spoils the walk, and one that deletes its own does not |
| Timers.TimerService.Apply | src/mm_halow_osal.c:639-701 | each timer call leaves the timer it is of to go off when it should, or not at all, and every other timer alone; it does to list, timers, clock and counts what the reference desk does, and keeps the account: a one-shot never fires more often than it is started |
| Timers.TimerService.IsPending | src/mm_halow_osal.c:711-719 | true exactly when some listed timer is due |
| Timers.TimerService.Callback | src/mm_halow_osal.c:725-734 | all that a callback does is done, in turn, unless it deletes the saved successor, and exactly then the walk has lost its footing; otherwise the successor is still listed, with what followed it but what the callback deleted, untouched unless it touched it |
| Timers.TimerService.Fire | src/mm_halow_osal.c:728-735 | the timer is reloaded or stopped, counted, and called back once, whatever the callback does |
| Timers.TimerService.Poll | src/mm_halow_osal.c:721-739 | timers listed fire at most once each, in list order, and no other does; something fires exactly when pending says so; one that was due fires unless the callback of one before it stopped, restarted, changed or deleted it; the walk loses its footing exactly when a callback deletes the timer saved as the next, which is never its own; with callbacks that leave the timers be, exactly those due fire and are reloaded or stopped |
| FlowControl.StepInv | src/mm_halow_pktmem.c:180-250 | every atomic step of any context keeps the counter accounted for, the flag in step with the callbacks, and, with few enough contexts, a way out of every pause |
| FlowControl.RunInv | src/mm_halow_pktmem.c:180-250 | so does every interleaving |
| FlowControl.PacketsAreBounded | src/mm_halow_pktmem.c:232-241 | whatever the interleaving no more data packets are out than the limit, and a free never finds the counter at zero |
| FlowControl.OneCallPerChange | src/mm_halow_pktmem.c:185-189 | the callback runs exactly once for each change of the flag |
| FlowControl.StuckRun | src/mm_halow_pktmem.c:232-248 | with one context more than the unpause threshold there is an interleaving that ends paused, with every packet free and nobody mid-way |
| FlowControl.NeverStuckExactlyBelowTheThreshold | src/mm_halow_pktmem.c:55-58 | every pause, in every interleaving, can be undone by some packet's return exactly when the contexts are no more than the unpause threshold |
| FlowControl.NoPauseBelowTheLimit | src/mm_halow_pktmem.c:244-248 | in every interleaving the flag has not been set while the counter has never stood at the number of packets |
| FlowControl.UnpausedRun | src/mm_halow_pktmem.c:185-189 | two contexts can end quiet, with every packet out and transmission going on |
| FlowControl.FullMeansPausedExactlyAlone | src/mm_halow_pktmem.c:185-248 | in every interleaving, all packets out and nobody mid-way means paused exactly when there is one context at most |
| FlowControl.OneCallAlone | src/mm_halow_pktmem.c:180-250 | each call of the only context frees one packet, or adds at most one and is refused outright exactly when all are out; the flag is then as the contracts of PacketMemory say, with one callback if it changed |
| PacketMemory.FullListMeansNoneHeld | src/mm_halow_pktmem.c:111-115 | a free list of full length means exactly that no packet holds one of its blocks |
| PacketMemory.Dequeued | src/mm_halow_pktmem.c:139-141 | a block taken off the free list is in exactly one packet, and was in none |
| PacketMemory.Appended | src/mm_halow_pktmem.c:157-161 | one put back is on the list once, and in no packet |
| PacketMemory.PacketMemory.constructor | src/mm_halow_pktmem.c:84-103 | every block carved is on its free list, nothing is out, transmission is not paused |
| PacketMemory.PacketMemory.TxPoolAlloc | src/mm_halow_pktmem.c:136-155 | yields a block no packet holds, exactly when there is one and it is big enough; when it is not, the block goes back |
| PacketMemory.PacketMemory.AllocTx | src/mm_halow_pktmem.c:215-250 | which source serves a request, or none; one more packet from that source only; transmission is paused by the packet that uses up the last allocation, with one callback |
| PacketMemory.PacketMemory.FreeTxCommand | src/mm_halow_pktmem.c:157-161 | a reserved block goes back to the list it came from |
| PacketMemory.PacketMemory.FreeTxData | src/mm_halow_pktmem.c:180-190 | the packet is no longer out; a pause outlasts it exactly while at least the unpause threshold are |
| PacketMemory.PacketMemory.RxPoolAlloc | src/mm_halow_pktmem.c:136-155 | the same for the receive pool |
| PacketMemory.PacketMemory.AllocRx | src/mm_halow_pktmem.c:252-278 | which source serves a request, or none; commands are never refused for the number of data packets out |
| PacketMemory.PacketMemory.AllocRxCommand | src/mm_halow_pktmem.c:257-263 | a receive command comes from its pool, or else from the heap, and then is out without the shutdown test noticing |
| PacketMemory.PacketMemory.FreeRxCommand | src/mm_halow_pktmem.c:167-171 | a reserved block goes back to the list it came from |
| PacketMemory.PacketMemory.FreeRxData | src/mm_halow_pktmem.c:196-201 | the packet is no longer out |
| PacketMemory.PacketMemory.Free | src/mm_halow_pktmem.c:157-205 | each packet goes back to the source it came from and no other, and no other packet is affected |
| PacketMemory.PacketMemory.Drained | src/mm_halow_pktmem.c:111-115 | the test before the pools are given back holds exactly when no counted packet and no reserved block is out; and then no packet at all is out exactly when no receive command is on the heap |
| Claims.StepIsSound | src/mm_halow_sched.c:259-277 | while fewer than 256 claims are open, a claim or release keeps: owned exactly when the depth is not zero, the depth the number of open claims, and all of them the owner's |
| Claims.SoundExactlyWhenShallow | src/mm_halow_sched.c:235-277 | that holds throughout any interleaving of the two contexts exactly when fewer than 256 claims are ever open |
| Claims.ClaimsExclude | src/mm_halow_sched.c:259-269 | then the two contexts never both hold a claim, and a claim is refused exactly while the other holds one |
| Claims.NestedTooDeep | src/mm_halow_sched.c:236 | the 256th nested claim leaves, once all are released, an owner with no claim open, and the other context refused |
| Servicing.NextInv | src/mm_halow_ctrl.c:291-318 | every step of thread, interrupt, scheduler and task keeps: a task is current only inside a run, a run is under a claim of the context making it, and whoever has found no task current can rely on it |
| Servicing.NoClaimOnATask | src/mm_halow_ctrl.c:291-302 | over any run, though test and claim are two steps and tasks run, poll and yield under claims, no claim is ever made while a task is current, to be parked on its stack |
| Servicing.InterruptedRun | src/mm_halow_ctrl.c:291-318 | the interrupt does come between the thread's test and its claim, and runs a task that polls in vain; and the thread then has its claim |
| Servicing.WorldsAreSound | src/mm_halow_sched.c:235-277 | with fewer than 256 claims open, owner, depth and claims agree throughout any such run |
| Servicing.RunsExclude | src/mm_halow_sched.c:285-291 | while one context runs the scheduler the other holds no claim and is refused one |
| Claims.Service.Claim | src/mm_halow_sched.c:259-269 | granted exactly when nobody or this context owns the transceiver, and then counted |
| Claims.Service.Release | src/mm_halow_sched.c:271-277 | gives up one claim, and the transceiver with the last |
| Claims.Service.Begin | src/mm_halow_ctrl.c:291-302 | while a task is current nothing is claimed, and otherwise what claim grants |
| Caches.FirstSeenIsDistinct | src/mm_halow_ctrl.c:527-535 | the reference list of access points has no repeats |
| Caches.FirstSeenIsComplete | src/mm_halow_ctrl.c:527-535 | ... and has exactly those heard |
| Caches.FirstSeenIsInOrder | src/mm_halow_ctrl.c:533-535 | ... in the order they were first heard |
| Caches.LatestIsTheLastHeard | src/mm_halow_ctrl.c:528-530 | the reference result for one is the last heard of it |
| Caches.AddKeepsCaching | src/mm_halow_ctrl.c:523-536 | one more result leaves a cache of the first so many access points heard, each with the latest result, again just that |
| Caches.ScanCache.Add | src/mm_halow_ctrl.c:523-536 | after any sequence of results the cache is the first so many distinct access points in the order first seen, each with its latest result |
| Caches.ScanCache.Copy | src/mm_halow_ctrl.c:562-567 | what is copied out is the latest result of as many of them as there is room for, in that order, and no more is written |
| Caches.RemovesOne | src/mm_halow_ctrl.c:347-349 | the compaction removes exactly the one station, and leaves no repeats |
| Caches.ArrivalBeginsTheStay | src/mm_halow_ctrl.c:341-357 | the reference arrival of a station is where it was authorized, having not been just before, and not been revoked since |
| Caches.ListedIsSound | src/mm_halow_ctrl.c:341-357 | after any events the list has no repeats, only stations now authorized, and no more than its capacity |
| Caches.ListedIsExact | src/mm_halow_ctrl.c:341-357 | where there has always been room it is exactly the stations authorized, in order of arrival |
| Caches.ListedIsExactIffRoom | src/mm_halow_ctrl.c:354 | it is exact at every moment exactly when there has always been room |
| Caches.LeftOutStaysOut | src/mm_halow_ctrl.c:354-356 | a station that found no room, joined or not, is off the list whatever events of other stations follow |
| Caches.OneTooManyIsForgotten | src/mm_halow_ctrl.c:354-356 | even when one of those listed leaves and makes room |
| Caches.Stations.StatusCallback | src/mm_halow_ctrl.c:341-357 | the array holds what the reference lists for the events so far |
| Caches.Stations.MoveDown | src/mm_halow_ctrl.c:348-349 | the move closes the gap and keeps the order of the rest |
| Crc16.Update | tests/qemu_driver/mm8108_emu.c:103-109 | the bit loop leaves the remainder, on long division over GF(2) by x^16 + x^12 + x^5 + 1, of the register with the byte added at its top and eight zeros |
| Crc16.CrcIsTheRemainder | tests/qemu_driver/mm8108_emu.c:103-109 | byte by byte it computes the remainder, on long division over GF(2) by x^16 + x^12 + x^5 + 1, of the data and sixteen zeros |
| Crc16.ResidueIsZeroExactlyForTheCrc | tests/qemu_driver/mm8108_emu.c:323-337 | data with two more bytes has CRC zero exactly when they are the CRC of the data, high byte first |
| Crc16.AdjacentDamageIsDetected | tests/qemu_driver/mm8108_emu.c:103-109 | changing two adjacent bytes anywhere changes the CRC, always |
| Crc16.CrcIsInjectiveInItsStart | tests/qemu_driver/mm8108_emu.c:103-109 | over the same data, different registers stay different |
| SdBlocks.SdBus.constructor | tests/qemu_driver/mm8108_emu.c:375-377 | after a reset the bus is idle with nothing to answer |
| SdBlocks.SdBus.SdioCommand | tests/qemu_driver/mm8108_emu.c:278-299 | decodes a command to a function with an address window into response, window, and transfer as the specification function does |
| SdBlocks.SdBus.SpiByte | tests/qemu_driver/mm8108_emu.c:301-361 | each byte clocked moves the structure, answers, and touches memory as one step of the reference bus, except exactly where the source would index an address window out of range |
| SdBlocks.ReadDataPhase | tests/qemu_driver/mm8108_emu.c:323-331 | a block's data is the bytes fetched from consecutive addresses, as many as the counter steps before it reads zero, with the CRC keeping up |
| SdBlocks.ReadBlock | tests/qemu_driver/mm8108_emu.c:317-337 | one block is a token, the data, and its CRC high byte first |
| SdBlocks.ReadBlocks | tests/qemu_driver/mm8108_emu.c:317-337 | n blocks of B bytes take exactly n * (B + 3) byte times back to back, then idle |
| SdBlocks.CommandPhase | tests/qemu_driver/mm8108_emu.c:301-316 | a command is decoded on its sixth byte and answered in the next two |
| SdBlocks.CommandsDecode | tests/qemu_driver/mm8108_emu.c:278-297 | a command whose argument is put together field by field is decoded into those fields |
| SdBlocks.WindowIsSet | tests/qemu_driver/mm8108_emu.c:285-289 | a CMD52 write to one of the two window registers of a function puts its data in that half of that window and no other, and is answered with it |
| SdBlocks.TransferIsSetUp | tests/qemu_driver/mm8108_emu.c:290-297 | a CMD53 sets up a transfer in the direction, of the blocks and at the address its fields and its function's window say, and leaves the windows alone |
| SdBlocks.OtherCommandsSetNothing | tests/qemu_driver/mm8108_emu.c:278-299 | any other command is answered, and sets nothing up |
| SdBlocks.TransferFollowsItsWindow | tests/qemu_driver/mm8108_emu.c:278-299 | after two CMD52 that set the halves of a window, in either order, a CMD53 transfers at the address made of the bytes they carried and the low 16 bits of its own |
| SdBlocks.IdleIgnoresNoise | tests/qemu_driver/mm8108_emu.c:307-309 | an idle bus takes no notice of bytes that do not begin a command |
| SdBlocks.ReadCommand | tests/qemu_driver/mm8108_emu.c:278-337 | a read command of a count that is not zero is answered by two zero bytes and exactly its blocks, fetched from consecutive addresses, whatever the host drives meanwhile, and then the bus is idle |
| SdBlocks.ReadEndsOnTime | tests/qemu_driver/mm8108_emu.c:292-298 | the bus is idle on the byte time the host expects exactly when the count was not zero |
| SdBlocks.ZeroCountReadsOn | tests/qemu_driver/mm8108_emu.c:323-331 | a count of zero sends one block of 2^32 bytes |
| SdBlocks.BlockAt | tests/qemu_driver/mm8108_emu.c:317-337 | each block of a transfer is where a host looks for it |
| SdBlocks.BlockChecks | tests/qemu_driver/mm8108_emu.c:317-337 | and passes the check a host makes: the CRC of the data with its two CRC bytes is zero |
| SdBlocks.WriteBlock | tests/qemu_driver/mm8108_emu.c:338-358 | after any byte times that are not a token, a block's bytes reach consecutive addresses, and it is answered as accepted |
| SdBlocks.WriteBlocks | tests/qemu_driver/mm8108_emu.c:338-358 | the bytes of all the blocks, and nothing else, reach the chip in order, and the bus ends idle |
| SdBlocks.WriteCommand | tests/qemu_driver/mm8108_emu.c:278-358 | the same from the first byte of a write command to the answer to its last block |

## Left out

- SchedProofs.NoLostWakeup: takes `mm_halow_sched_teardown` as constant, because it is flipped without a wake at src/mm_halow_ctrl.c:249 and 508, and takes passes and polls to be timely, as said above; sleepers whose reads of the clock come too far apart are for SleepProofs.
- GateProofs.GateIsAnOptimisation: the runs skipped are undisturbed, and skipped with no wake call owed; in one that somebody disturbs, a scheduler that never skips can give a turn one poll earlier.
- HeapMemory.Heap.Malloc: for a target with 32-bit pointers and 16-byte headers; the atomic section around it is taken to keep other contexts out.
- TaskTables.TaskTable.Create: when the paint would run off the block the model stops, with the block allocated; what the source then overwrites is undefined.
- Scheduling.Scheduler.Reap: each turn of the walk is one step, and freeing the stack is TaskTables.TaskTable.Reap, where nothing else runs meanwhile.
- Context.ResumesAsItLeft: assumes that a task spares the stacks of the others and leaves room on its own for a context; stack overflow is for the painted words to show.
- Waiting.Kernel.Wait: follows one wait and what the rest of the system does around it, an event at a time; that the scheduler gives the waiter a turn when it should is SchedProofs.NoLostWakeup.
- Timers.TimerService.Poll: stops where a callback has deleted the saved successor, since what the source then reads is freed memory.
- PacketMemory.PacketMemory.AllocTx: one context at a time; the interleaving of several is FlowControl.
- SdBlocks.SdBus.SdioCommand: for commands to the three functions that have an address window; SpiByte stops before any other, since the source then indexes out of range.
- A task slot's re-use after a join: a joiner reads the state of a slot that may by then be another task's.
- The station list and scan cache hold whole entries; the six bytes of an address are one value, and `memcmp` is equality.
- The contents of the emulated chip's memory, its register map, packets and command replies: `chip_read()` is whatever it answers.
- morselib, `mmwlan_*`, `mmpkt_*` and the host's allocator: their results are parameters.
- lwIP glue, Ethernet transmission, DHCP and DNS.
- SPI and pin access, reset and wake sequencing, firmware blobs.
- Getters, setters and error mapping in src/mm_halow_ctrl.c.
- Logging, the fatal record, and the stack limit register.
