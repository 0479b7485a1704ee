# ZeOS: processes, semaphores and address spaces

A verified model of the core of ZeOS, a small teaching kernel for x86. The kernel has 15 task structures. Each one
moves between the free queue, the ready queue, the blocked queues of 20 semaphores and the processor; all queues are
intrusive circular doubly linked lists. The scheduler is round robin with a quantum per task. User memory is paged:
`fork` copies 20 data pages through a window in its own page table, `clone` shares a page directory, `exit` frees the
data frames when nobody else uses the directory. System calls and the clock interrupt run with interrupts off, so each
is one atomic step.

## How the model is built

* **Lists at pointer level** (`Lists`, `Queues`): `struct list_head` as a class, each C function as a method on the
  links, proved against a sequence. `Queues` puts one node in each of the 15 tasks and proves that all 22 queues stay
  apart.
* **Memory** (`Memory`): the arrays `phys_mem`, `pagusr_table`, `refs_DIR` and physical memory, with every copy made
  through translation and a TLB that may cache any present entry at any access until `set_cr3`.
* **The kernel** (`KernelObject`): the class `Kernel` with the global variables of `sched.c` and `sys.c`, one method per C function.
* **Specification on values** (`SchedSpec`, `SchedSteps`, `MemSpec`, `Machine`): what each C function does to an
  abstract state, and the steps of the machine. Every method of the classes is proved equal to these functions, and
  `KernelObject.Kernel.Run` carries this over to whole runs, so the theorems about runs are theorems about the arrays and links.
* **Theorems about runs** (`SchedInv`, `SchedRuns`, `Waiting`, `Accounting`, `UserTime`, `Ledger`,
  `Identifiers`, `SemTable`, `FirstWaits`, `SemHistory`, `MutualExclusion`, `Population`, `AddressSpaces`,
  `MachineRuns`, `ForkCapacity`). In these runs any task may exit,
  the initial process too, and forks may fail half way.
* **What the code does where it is wrong** (`ExitAsWritten`): exit with both of its insertions.
* **Two smaller loop cores**: `Decimal` (`itoa`, `strlen`) and `ConsoleOutput` (`sys_write`, `copy_from_user`).

The main theorems, each for all states or all runs:

* `KernelObject.Kernel.Run`: arrays, list nodes, page tables and TLB follow the abstract machine over every run.
* `AddressSpaces.AccessRights`: in every state programs may write exactly their data pages and read exactly these and
  the shared code, by the bits of the tables.
* `MachineRuns.PrivateMemory`, `MachineRuns.Isolation`: over every run paged memory shows each directory exactly the
  bytes it would have with a memory of its own.
* `MachineRuns.FramesInUse`, `MachineRuns.ForkRunExitRestores`: the used frames are exactly 256 + 8 + 20 for each user
  directory in use; a fork, any run in which no directory is born or dies, and the last exit restore the bytemap.
* `Machine.ForkOutcomes`, `ForkCapacity.LosesExactly`, `ForkCapacity.CapacityFromBoot`, `ForkCapacity.InitMustLive`:
  when `fork` succeeds in any state; a run loses a task exactly if some fork in it finds a free task and all 15
  directories counted; while the initial process lives that never happens; and a run in which it happens.
* `MachineRuns.QueuePartition`, `KernelObject.Kernel.NodeOnOneRing`: every task is in exactly one place, on sequences
  and on links, and the tag `estado` decides truly whether `list_del` applies.
* `Waiting.BoundedWaiting`: a task at position k of the ready queue runs within qLeft + k * Q clock ticks.
* `SemHistory.AugStepInv`, `SemHistory.CompletedWaits`, `SemHistory.WokenBySignal`, `SemHistory.TruthfulReturn`:
  semaphores conserve; the waiter at position p is woken by signal number p + 1; and return codes are true.
* `FirstWaits.FirstWaitsPass`, `MutualExclusion.AtMostGivenValue`: after initialisation with v the first v waits pass
  and the next blocks; and clients that bracket wait and signal are never more than v inside.
* `Identifiers.NeverTwice`: the identifiers that `fork` and `clone` give are 2, 3, 4 and so on, none twice.
* `SemTable.InitCommutes` and its companions: the 20-slot table is a finite map from identifiers to semaphores.
* `Ledger.UserIsTimeOutside`, `Ledger.TransIsTurns`: over every run a task's user ticks are exactly the time it has
  spent outside the kernel on the processor, and its transitions exactly its turns.
* `Accounting.NoTickTwice`, `UserTime.UserTimeFromBoot`: no clock tick is charged twice to one task; and the user
  ticks of all tasks but idle together never exceed the clock.
* `ExitAsWritten.Step`: one step of the code as written keeps the free queue a list exactly if it is not an exit.

## Where the code departs from its intent, and what the model does

* `sys_exit` appends the exiting task to the free queue at sys.c:140 and again through `update_process_state_rr` at
  sys.c:144, with no `list_del` between. `ExitAsWritten.SysExit` does both, on the kernel's own variables, and proves
  that the free queue is no list afterwards, from any state between kernel entries. `ExitAsWritten.ExitThenForks`
  says what a series of forks in a row then gets, some of them refused a directory: the tasks that were free, and
  after them the exited task every time, until one of these is refused and the next goes through null links. The
  class `Kernel`, and with it the theorems about runs, makes one insertion, the one of sys.c:144.
* `sys_sem_init` does not look whether a slot is free (sys.c:216-217); with a full table it would write before the
  array. `SemTable.InitWritesInside` says exactly when it does not, and `SemTable.TableFills` that a full table is
  reachable. `Kernel.SysSemInit` and the runs require a free slot for a new identifier.
* The error exits of `sys_fork` after sys.c:60 do not put the task structure back. They are modelled as written, in
  the runs too. `ForkCapacity.LosesExactly` says when a run loses a task that way. Directory 1 stays counted for ever,
  because `init_task1` counts it twice (sched.c:174); so once its tasks have gone the 15 directories can be all
  counted with a task free (`ForkCapacity.InitMustLive`), and while the initial process lives, as its program intends
  (user.c:71), they cannot (`ForkCapacity.CapacityFromBoot`).
* `get_quantum` ignores its argument and returns the quantum of the running task (sched.c:241-243), and `set_quantum`
  sets that of the running task (sched.c:244-246). So a task runs with the quantum of the task that left. Modelled as
  written; a quantum of 0 would starve everybody else (`Waiting.ZeroQuantumStarves`). No system call of the table
  reaches `set_quantum`; the model lets it happen at any time.
* `sched_next_rr` charges the whole time since a task's last mark to its system counter before it looks at the ready
  counter (sched.c:113-117), and nothing adds to the blocked counter. `Accounting.NoTickTwice` proves that blocked
  ticks are always 0, and ready ticks too unless the clock moves between two reads, although `struct stats` suggests
  otherwise.
* `total_trans` counts a dispatch from a queue and a renewal of the quantum for want of others, but neither the first
  turn of the initial process nor idle's first activation (`Ledger.TransIsTurns`), although `struct stats` has it as
  the number of times the process has got the processor.
* The idle task starts with a mark of 0, so its first entry to the kernel charges it all ticks since the clock began,
  which other tasks have been charged before (`UserTime.IdleCountsAgain`).
* `free_frame` refuses frame 256 (mm.c:239). It never matters, since that frame becomes code at boot.
* `init_idle` and `init_task1` count their directory twice (sched.c:150, sched.c:174); the counts are exact with one
  extra reference for each of the two, so that the frames of directory 1 are never freed.
* A call of int 0x80 with a number out of range skips `statsLeaveSys` (entry.S:102-113), and so does the model.
* The idle task joins the ready queue when it is preempted (sched.c:124-130). Its first activation starts in its own
  loop rather than at the end of a system call, so `statsLeaveSys` does not run then.
* The failure path of `fork` returns without the flush of sys.c:91; the model keeps this, and coherence of the TLB is
  stated for the success path, the only one that can happen.

## Model

| member | source | states |
|---|---|---|
| Lists.RingDeterminesSequence | list.c:6-66 | the links of a list determine one sequence of nodes, so "the contents of the list" is well defined |
| Lists.InitListHead | list.c:6-10 | an initialised head is the empty list |
| Lists.InternalAdd | list.c:18-26 | the four assignments, also when the new node coincides with its neighbours |
| Lists.ListAdd | list.c:36-39 | inserts at the front and keeps both link directions mutual inverses; no other node is written |
| Lists.ListAddTail | list.c:50-53 | inserts at the back, with the same frame |
| Lists.ListDel | list.c:74-79 | takes out the node at any position, keeps the order of the rest, and leaves the node's own links null |
| Lists.ListIsLast | list.c:85-90 | true exactly for the last node |
| Lists.ListEmpty | list.c:96-99 | exact: true if and only if the list holds no node |
| Lists.ListFirst | include/list.h:131-132 | the first node of a list that is not empty |
| Lists.AppendTwice | sys.c:140-144 | the two insertions of exit as written leave links through which no sequence at all is threaded |
| Lists.TakeKnotted | sys.c:58-60 | after that, takes give the nodes that were free in their order, and then the exited one, at which the head goes on pointing |
| Lists.ForksAfterExit | sys.c:58-103 | a series of forks on the knotted queue, each of which may be refused: which node each gets, how many can be made before one goes through null links, and what the ready queue then is |
| Common.ErrorNumbers | include/errno.h:7-28 | the error numbers that the calls return |
| Queues.QueueTable.Init | sched.c:198-205 | initialises one queue's head and disturbs no other queue |
| Queues.QueueTable.Empty | list.c:96-99 | exact for each of the 22 queues |
| Queues.QueueTable.First | include/list.h:131-132 | the task at the front of a queue |
| Queues.QueueTable.AddTail | list.c:50-53 | a task linked nowhere joins the back of one queue; all other queues keep their sequences and their links |
| Queues.QueueTable.Add | list.c:36-39 | the same at the front |
| Queues.QueueTable.Del | list.c:74-79 | a task leaves whatever queue it is in, from whatever position, with no hint of which; all other queues stay |
| SchedSpec.FindSem | sys.c:205-212 | the search finds the first used slot with the identifier, and -1 exactly if there is none |
| SchedSpec.FindFreeSem | sys.c:197-204 | the search finds the first free slot, and -1 exactly if there is none |
| SchedSpec.MoveLinks | sched.c:91-102 | moving a task by its tag keeps tag and links in agreement, from any queue to any queue |
| SchedSpec.LeaveLinks | sched.c:131-137 | the running task joins the end of a queue and nothing else moves |
| SchedSpec.NextLinks | sched.c:104-123 | afterwards one task has the processor, the head of the ready queue if there is one and else idle, and tags and links agree |
| SchedSpec.WakeAllLinks | sys.c:231-239 | waking all waiters of a slot and freeing it keeps tags, links and empty queues of free slots |
| SchedSteps.SpawnLinks | sys.c:58-103 | fork and clone move the first free task to the end of the ready queue; a failed fork takes it off the free queue and links it nowhere |
| SchedSteps.StepLinks | entry.S:70-116 | every step starts and ends with true tags, proper links and one task on the processor |
| SchedInv.NextForm | sched.c:104-123 | the dispatcher in closed form: who runs, with which quantum, and that only the statistics and the tag of that task change |
| SchedInv.WakeFirst | sys.c:248-248 | a signal with waiters moves the first of them, and nobody else, to the end of the ready queue |
| SchedInv.WaitPasses | sys.c:256-263 | a wait that does not block takes one off the counter, leaves 0 as its result and changes nothing else |
| SchedInv.StepInv | entry.S:97-116 | every enabled system call or clock interrupt keeps unique identifiers, unique semaphores, living owners, true tags |
| SchedInv.DestroyOwnedInv | sys.c:141-142 | the loop destroys each slot owned by the caller, keeps every other slot and queue, and keeps the invariant |
| SchedInv.ExitDestroysOwn | sys.c:131-146 | after exit no used semaphore belongs to the task that left; all others and their waiters are untouched |
| SchedInv.ExitReleasesWaiters | sys.c:131-146 | the ready queue is the old one and then the released waiters in slot order, each with result -1; its head runs |
| SchedInv.VacateWakes | sys.c:140-144 | the same before the dispatch, for every field of every other task |
| SchedInv.LostInv | sys.c:58-65 | a failed fork keeps the scheduler's invariant although it loses a task |
| SchedRuns.BootInv | sched.c:138-213 | the state that boot leaves satisfies the invariant |
| SchedRuns.BootIs | sched.c:138-213 | the boot state in numbers: tasks, identifiers, quanta, queues, next identifier |
| SchedRuns.Run | interrupt.c:101-103 | every state of every run of the scheduler satisfies the invariant |
| Waiting.TickQueues | sched.c:76-88 | a tick takes one off the quantum; at zero the current task goes last and the first ready task runs |
| Waiting.TickAlone | sched.c:80-88 | a tick with nobody ready takes one off the quantum, at zero renews it and counts a transition, and changes nothing else |
| Waiting.StepQuanta | sched.c:76-89 | between steps the quantum in use is at least 1 and at most the largest live quantum |
| Waiting.StepPatience | sched.c:76-130 | the measure qLeft + k * Q falls by one with each tick and no system call adds to it |
| Waiting.StepQuantum | sched.c:244-246 | a step gives the caller of `set_quantum` that quantum, a new task its parent's, and leaves all others alone |
| Waiting.BoundedWaiting | sched.c:76-130 | in every run the task at position k of the ready queue has the processor within qLeft + k * Q ticks |
| Waiting.QuantaFromBoot | sched.c:71-71 | the bound applies in every state reached from boot |
| Waiting.ZeroQuantumStarves | sched.c:80-89 | once the quantum in use is 0 or less, no number of ticks takes the processor away |
| Accounting.NoTickTwice | sched.c:227-239 | in every run, for each task, user, system, blocked and ready ticks together never exceed the last mark, nor the mark the clock, with equality while paired clock reads agree |
| Accounting.NoTickTwiceFromBoot | sched.c:247-255 | the same from boot for every task |
| Accounting.StepUpdates | sched.c:113-118 | one step, whoever runs before and after, charges only time that passed since the mark |
| UserTime.StepKeeps | sched.c:227-232 | one step keeps the user ticks of all tasks but idle within the mark of the running task, or within the clock while idle runs |
| UserTime.UserTimeFromBoot | sched.c:227-232 | in every run from boot the user ticks of all tasks but idle together never exceed the clock |
| UserTime.IdleCountsAgain | sched.c:122-122 | with idle they can: a run of two steps charges the initial process and idle every tick each |
| Ledger.StepLedger | entry.S:70-116 | one kernel entry to the tick: user time to the caller up to its entry, system time to whoever leaves and to who was queued, ready time between two reads at a dispatch, each mark, each transition; a new task starts with nothing |
| Ledger.StepUser | sched.c:227-239 | a step adds to the caller's user ticks exactly the time from its mark to its entry and nothing to others'; the mark of who then runs is the time it leaves the kernel |
| Ledger.StepTurns | sched.c:83-118 | a step adds one to the transitions of a task that gets the processor from a queue or has its quantum renewed, and to no others' |
| Ledger.UserIsTimeOutside | entry.S:70-116 | over every run a task's user ticks are exactly the sum of the gaps between leaving and entering the kernel while it runs, since its birth |
| Ledger.TransIsTurns | sched.c:83-118 | over every run `total_trans` is exactly the number of turns, counted from queues and the running task, since the task's birth |
| Ledger.CountersFromBoot | sched.c:247-255 | both from boot, where all counters and marks are 0 |
| Identifiers.NewTask | sys.c:64-105 | the task that fork or clone makes carries the number they return, which no other live task has, and its parent's quantum; no other task changes |
| Identifiers.NoNewTask | sys.c:58-65 | a failed fork gives no identifier away and leaves a copy of the caller in the task it loses |
| Identifiers.GivenInOrder | sys.c:94-94 | over every run the tasks born get consecutive identifiers |
| Identifiers.NeverTwice | sys.c:33-33 | from boot the next identifier is 2 plus the number of successful forks and clones, and none is given twice |
| SemTable.TableIsUnique | sys.c:205-212 | the slots represent one map and no other |
| SemTable.FindIsLookup | sys.c:205-212 | the linear search is map lookup |
| SemTable.InitCommutes | sys.c:214-224 | init adds the identifier with the caller as owner, the converted value and no waiters, and refuses one in use |
| SemTable.InitCounter | sys.c:220-221 | the new counter is the 32-bit integer congruent to the value given, and that value itself below 2 to the 31st |
| FirstWaits.FirstWaitsPass | sys.c:214-264 | after init of a new identifier with v the first v waits pass and every later one blocks, as long as it is neither signalled nor destroyed, whatever else happens |
| FirstWaits.StepCounter | sys.c:251-263 | only a wait on it that passes changes the counter of a semaphore in use that is not signalled |
| SemTable.InitWritesInside | sys.c:215-217 | the slot that init writes lies in the table if and only if the identifier is in use or some slot is free |
| SemTable.TableFills | sys.c:214-224 | from boot 20 calls fill the table, and then init of any other identifier finds no slot |
| SemTable.DestroyCommutes | sys.c:225-241 | destroy removes the identifier if the caller owns it, and else changes nothing |
| SemTable.RefusedCalls | sys.c:214-255 | refused calls change nothing: unknown identifiers, a destroy by another task, an init of an identifier in use |
| SemTable.SignalCommutes | sys.c:242-250 | signal removes the first waiter, or adds one to the counter if there is none |
| SemTable.WaitCommutes | sys.c:251-264 | wait takes one off a positive counter, or appends the caller to the waiters |
| SemTable.ExitCommutes | sys.c:141-142 | exit removes exactly the identifiers its task owns |
| SemTable.OthersKeepTable | sys.c:56-106 | clock, fork and clone leave the map as it is |
| SemHistory.AugStepInv | sys.c:214-264 | every step keeps: counter + completed waits = initial value + signals, arrivals = woken + waiting in order, and results in `sem_ret` are true |
| SemHistory.CompletedWaits | sys.c:247-262 | completed waits never exceed initial value plus signals, and equal them whenever somebody waits |
| SemHistory.FirstComeFirstServed | sys.c:247-258 | the tasks woken so far are the first of those that blocked, in that order |
| SemHistory.WakesInOrder | sys.c:231-258 | in every run in which the semaphore stays in use, signals wake the tasks waiting now, in their order, before any that blocks later; those not woken still head the queue |
| SemHistory.RunGrows | sys.c:242-264 | in such a run signals, completed waits, arrivals and wake-ups are only ever added to, at the end |
| SemHistory.SignalsWake | sys.c:247-248 | in such a run, until the tasks waiting now are all awake, each signal has woken exactly one |
| SemHistory.WokenBySignal | sys.c:242-258 | in such a run the task at position p of the blocked queue is woken by signal number p + 1, neither earlier nor later |
| SemHistory.TruthfulReturn | sys.c:256-260 | a resumed wait returns 0 exactly if a signal woke it and -1 exactly if its semaphore was destroyed, even if the identifier was initialised again since |
| SemHistory.HistoryOnlyWatches | sys.c:214-264 | the history variables forbid no run and change none |
| SemHistory.InOwnedWaiters | sys.c:141-142 | a task is released by an exit exactly if it waits in a slot of the exiting task |
| MutualExclusion.HolderStep | sys.c:242-264 | while clients bracket, holders plus counter equal the initial value, and no holder waits |
| MutualExclusion.AtMostInitialValue | sys.c:214-264 | in every run there are at most as many holders as the initial value |
| MutualExclusion.AtMostGivenValue | sys.c:214-264 | after any run from boot, init of a new identifier with v: as long as it is in use and its clients bracket, at most v tasks are inside |
| MutualExclusion.MutualExclusionFromBoot | sys.c:214-264 | with value 1 two tasks inside are the same task |
| MutualExclusion.StaysAlive | sys.c:131-146 | a live task stays alive in every step but its own exit |
| Population.StepMoves | sys.c:56-195 | only a successful fork or clone brings a task to life, only exit ends one, and directories never change otherwise |
| MemSpec.FirstFree | mm.c:209-222 | the lowest free frame at an even distance from the kernel, and -1 exactly if there is none |
| MemSpec.FirstDir | sched.c:46-57 | the lowest directory with count 0, and -1 exactly if there is none |
| MemSpec.ForkPagesCopies | sys.c:77-89 | the page loop in closed form: fresh even frames, one per page, filled with the parent's pages; every other frame and entry as before |
| AddressSpaces.AccessRights | mm.c:63-99 | by the bits of the table of a directory in use, programs may write exactly pages 264 to 283, read besides exactly 256 to 263, the kernel's pages are 1 to 255, and nothing else is present |
| AddressSpaces.NoAccess | mm.c:53-71 | a directory not in use gives programs nothing to write and at most the shared code to read, idle's nothing at all |
| AddressSpaces.FailedFork | sys.c:78-82 | a fork that runs out of frames restores the bytemap exactly and leaves its directory counted |
| AddressSpaces.FrameConservation | mm.c:84-100 | the number of used frames is 264 + 20 for each user directory in use |
| AddressSpaces.UsedFramesAre | mm.c:193-241 | the used frames are exactly the kernel's, the eight code frames and the data frames of the directories in use |
| AddressSpaces.AvailableCount | mm.c:207-222 | how many frames `alloc_frame` can still hand out |
| AddressSpaces.AllocTakesOne | mm.c:209-222 | `alloc_frame` fails exactly if none is left, and else takes exactly one away |
| AddressSpaces.ForkPagesOk | sys.c:77-82 | the page loop succeeds if and only if enough frames are left |
| AddressSpaces.ForkMemOk | sys.c:66-89 | with a directory to spare, 20 frames are always left |
| AddressSpaces.ForkMemEffect | sys.c:66-91 | fork's whole effect on tables, frames, counts and memory |
| AddressSpaces.ForkTables | sys.c:66-91 | fork keeps the shape of all tables, with the window empty again |
| AddressSpaces.ForkFrames | sys.c:76-89 | fork keeps data frames disjoint and the bytemap exact |
| AddressSpaces.ExitFrames | sys.c:131-139 | the last user's exit gives back exactly its data frames |
| AddressSpaces.ExitTables | sys.c:135-138 | and leaves its data entries empty |
| AddressSpaces.ExitMemEffect | sys.c:131-139 | the loop of exit in closed form, and nothing but the count for any but the last user |
| AddressSpaces.ForkPreservesMeaning | sys.c:66-91 | afterwards each byte of the child's data pages, read through its table, is the parent's; no other directory reads anything new |
| AddressSpaces.ForkThenExitRestores | sys.c:131-139 | fork and then the child's exit restore the bytemap and the counts |
| AddressSpaces.ExitPreservesMeaning | sys.c:131-139 | exit changes nothing that other directories read |
| AddressSpaces.StoreIsPrivate | mm.c:92-100 | a store is seen at its own address in its own directory and nowhere else |
| Machine.ForkOutcomes | sys.c:58-89 | in every state fork succeeds exactly when a task is free and a directory is not counted, fails for lack of a directory exactly when a task is free and all are counted, and never lacks frames |
| Machine.Capacity | sys.c:58-89 | while some task uses directory 1, fork succeeds exactly when the free queue is not empty |
| Machine.DirectoryToSpare | sched.c:46-57 | then a free task implies a directory nobody counts, by counting |
| Machine.KStepInv | sys.c:56-195 | every step, whoever exits and however a fork fails, keeps exact directory counts, isolated address spaces and an exact bytemap |
| Machine.StoresAllowed | mm.c:97-99 | every program that runs may write each of its data pages |
| Machine.LiveDirInUse | sys.c:132-133 | the directory of a live task has a positive count |
| MachineRuns.BootKInv | sched.c:138-182 | the machine that boot leaves satisfies the whole invariant |
| MachineRuns.KRun | interrupt.c:101-103 | every state of every run satisfies the whole invariant |
| MachineRuns.SchedulerView | interrupt.c:101-103 | a run of the machine is a run of the scheduler machine, so its theorems apply |
| MachineRuns.QueuePartition | sched.c:91-123 | each task in exactly one place, or lost by a failed fork; outside the free queue the tag "running" says exactly that a task is linked nowhere; tasks wait only in used slots |
| MachineRuns.Isolation | sys.c:72-89 | two live user tasks share a data frame exactly if they share directory and page; data frames are used, above the kernel and apart from the code |
| MachineRuns.ExitFreesLast | sys.c:131-139 | exit frees the frames exactly when no other live task uses the directory and it is not directory 1 |
| MachineRuns.FramesInUse | mm.c:84-100 | in every state of every run the used frames number 264 + 20 for each user directory in use, and those are directory 1 and the directories of live user tasks |
| MachineRuns.MapsFollow | sys.c:56-195 | one step changes what a directory reads exactly as private byte maps would: its own stores, and a copy of the parent at birth |
| MachineRuns.PrivateMemory | sys.c:56-195 | over every run paged memory and private byte maps show each directory in use the same bytes |
| MachineRuns.FixedStays | sys.c:84-86 | no step writes to the kernel's frames or the shared code: stores go to data pages and copies to fresh frames |
| MachineRuns.CodeStays | sys.c:73-74 | over every run no store and no page copy changes a byte of the kernel's frames or of the shared code |
| MachineRuns.SameCode | sys.c:73-74 | every directory in use reads in its code pages what any directory read there at any time before |
| MachineRuns.QuietStep | sys.c:131-139 | a step in which no directory is born or dies changes neither the bytemap nor any table |
| MachineRuns.ForkRunExitRestores | sys.c:76-139 | a fork, any run in which no directory is born or dies, and the last exit in the child's directory restore the bytemap and the data pages of all directories |
| ForkCapacity.ForkExactly | sys.c:56-106 | for any memory at all, fork succeeds if and only if a task, a directory and 20 frames are free |
| ForkCapacity.LostExactly | sys.c:58-65 | a step loses a task exactly if it is a fork with a free task and all 15 directories counted; it loses the first free task, for ever |
| ForkCapacity.LosesExactly | sys.c:58-65 | a run loses a task exactly if one of its steps is such a fork |
| ForkCapacity.CapacityFromBoot | sys.c:58-89 | from boot, while the initial process does not exit, no task is lost and fork succeeds exactly when a task is free |
| ForkCapacity.InitMustLive | sys.c:58-65 | a run from boot, 13 successful forks, an exit and a fork that finds no directory, after which the task of the initial process is lost |
| ForkCapacity.OneMoreFork | sched.c:46-57 | successive forks of the initial process take successive directories, until the 15 are used |
| Memory.PhysicalMemory.AllocFrame | mm.c:209-222 | the loop finds and marks the lowest available frame, or changes nothing |
| Memory.PhysicalMemory.ReleaseFrame | mm.c:237-241 | frees the frame, except those up to 256 |
| Memory.PhysicalMemory.SetSsPag | mm.c:244-252 | one entry changes, in one table |
| Memory.PhysicalMemory.DelSsPag | mm.c:255-258 | one entry is emptied |
| Memory.PhysicalMemory.GetFrame | mm.c:261-263 | the frame an entry names |
| Memory.PhysicalMemory.AllocateDir | sched.c:46-57 | the loop finds and counts the lowest unused directory, or changes nothing |
| Memory.PhysicalMemory.SetCr3 | mm.c:104-107 | afterwards the processor holds no stale translation |
| Memory.PhysicalMemory.Translate | mm.c:103-107 | an access to a page that is not being remapped reaches the frame its table names, whatever the TLB holds |
| Memory.PhysicalMemory.CopyData | utils.c:7-21 | copies exactly size bytes of a page and nothing more, word loop and byte tail, through translation of every access |
| Memory.PhysicalMemory.ShareSpace | sys.c:69-74 | the two loops give the child the kernel pages and the shared code, entries 1 to 263 |
| Memory.PhysicalMemory.CopyPage | sys.c:84-87 | one turn: map in the child and in the window, copy, unmap; only the window page used may be stale |
| Memory.PhysicalMemory.CopySpace | sys.c:76-91 | the page loop with its revert; on success no stale translation is left and none was used |
| Memory.PhysicalMemory.GiveBack | sys.c:79-80 | the revert loop frees the frames taken so far |
| Memory.PhysicalMemory.FreeSpace | sys.c:134-138 | frees and unmaps the 20 data pages |
| Memory.PhysicalMemory.DropDir | sys.c:132-139 | the count falls, and at zero the pages go |
| Memory.PhysicalMemory.InitTablePages | mm.c:53-71 | every table maps the kernel's pages to themselves and nothing else; page 0 is left out |
| Memory.PhysicalMemory.InitFrames | mm.c:193-205 | exactly the kernel's frames are used |
| Memory.PhysicalMemory.SetUserPages | mm.c:76-101 | code and data of the initial process on every other frame after the kernel |
| Memory.PhysicalMemory.TakeDir | sched.c:149-150 | the next directory in order, counted twice |
| Memory.PhysicalMemory.InitMm | mm.c:129-137 | tables with the kernel's pages only, exactly the kernel's frames used, directory 0 loaded |
| KernelObject.Kernel.constructor | system.c:90-101 | boot leaves the abstract boot state in variables, links, tables and bytemap, so runs of the kernel start where the runs of the theorems start |
| KernelObject.Kernel.InitSched | sched.c:198-213 | all tasks in the free queue, the last one first; ready queue empty; semaphores free |
| KernelObject.Kernel.InitIdle | sched.c:138-157 | takes the first free task and directory 0 for idle, counted twice |
| KernelObject.Kernel.InitTask1 | sched.c:159-182 | takes the next task and directory for the initial process, with its frames mapped, and gives it the processor with no stale translation: memory is then the boot memory of the theorems |
| KernelObject.Kernel.UpdateProcessState | sched.c:91-102 | queues and tag of one task move; nothing else changes |
| KernelObject.Kernel.ExitRunCurrent | sched.c:131-137 | the running task is charged and queued |
| KernelObject.Kernel.SchedNextRr | sched.c:104-123 | the head of the ready queue, or idle, gets the processor with its directory loaded and the TLB flushed |
| KernelObject.Kernel.TaskSwitch | sched.c:185-196 | the current task and its directory change together, and no stale translation survives |
| KernelObject.Kernel.Schedule | sched.c:124-130 | the clock's scheduling step on the real queues |
| KernelObject.Kernel.NeedsSched | sched.c:80-89 | true exactly at quantum 0 with somebody ready; alone, the task gets a new quantum |
| KernelObject.Kernel.StatsEntrySys | sched.c:227-232 | charges user time to the running task only |
| KernelObject.Kernel.StatsLeaveSys | sched.c:234-239 | charges system time to the running task only |
| KernelObject.Kernel.SetQuantum | sched.c:244-246 | sets the quantum of the running task, whatever task is given |
| KernelObject.Kernel.SysFork | sys.c:56-106 | state, memory and result of each of the four outcomes, and which one occurs |
| KernelObject.Kernel.SysClone | sys.c:169-195 | a thread in the caller's directory, counted once more; or the error codes in their order |
| KernelObject.Kernel.SysExit | sys.c:131-146 | directory, semaphores, queues and dispatch of an exit |
| KernelObject.Kernel.NodeOnOneRing | sched.c:91-102 | the node of a task is on the ring of one queue head at most, for any sequences threaded through the heads; unless the task is free, its tag is "running" exactly if it is on none |
| ExitAsWritten.Leave | sys.c:140-144 | the two insertions with the semaphores destroyed between them knot the free queue and leave the ready queue a list |
| ExitAsWritten.SysExit | sys.c:131-146 | exit with both insertions, from any state between kernel entries: the same task runs next and the same tasks are ready, in a list, as with one; the free queue is knotted, apart from them |
| ExitAsWritten.ExitThenForks | sys.c:56-146 | and then a series of forks, each of which may be refused: they get the tasks that were free, and from then on the exited task every time, until one of these is refused |
| ExitAsWritten.Step | sys.c:131-146 | one step as written keeps the free queue a list if and only if it is not an exit |
| KernelObject.Kernel.DestroyOwn | sys.c:141-142 | the loop over the 20 slots |
| KernelObject.Kernel.CercaSem | sys.c:205-212 | the loop finds the first used slot with the identifier |
| KernelObject.Kernel.CercaSemLliure | sys.c:197-204 | the loop finds the first free slot |
| KernelObject.Kernel.SysSemInit | sys.c:214-224 | a free slot is taken, with the value converted to int; or -EBUSY and no change |
| KernelObject.Kernel.SysSemDestroy | sys.c:225-241 | -EINVAL, -EPERM or 0 and the waiters' release |
| KernelObject.Kernel.ReleaseAll | sys.c:231-236 | the loop empties the blocked queue in order, and each waiter's result becomes -1 |
| KernelObject.Kernel.SysSemSignal | sys.c:242-250 | -EINVAL, or 0 with the first waiter ready or the counter up |
| KernelObject.Kernel.SysSemWait | sys.c:251-264 | -EINVAL, 0 with the counter down, or the processor given away |
| KernelObject.Kernel.Step | entry.S:70-116 | one entry to the kernel with its accounting is one step of the abstract machine; the invariant and TLB coherence hold again |
| KernelObject.Kernel.Run | entry.S:70-116 | a whole run of the kernel is the run of the abstract machine |
| Decimal.TextValue | libc.c:35-57 | round trip: the digits parse back to the number, with no leading zero unless it is 0 |
| Decimal.ValueText | libc.c:35-57 | and back: each canonical digit string is the one of its number |
| Decimal.WriteDigits | libc.c:42-48 | the digit loop writes the decimal string backwards and nothing after it |
| Decimal.ReversePrefix | libc.c:50-55 | the swap loop reverses in place and leaves the rest |
| Decimal.Itoa | libc.c:35-57 | decimal string, terminator, and the rest of the buffer untouched; an empty string for a negative number |
| Decimal.Strlen | libc.c:59-68 | the position of the first zero byte |
| ConsoleOutput.CopyFromUser | utils.c:23-38 | copies exactly size bytes and nothing more, for any size; nothing for a negative one |
| ConsoleOutput.Console.SysWriteConsole | devices.c:11-19 | size bytes reach the screen in order |
| ConsoleOutput.Console.SysWrite | sys.c:109-127 | for a valid call exactly the buffer's size bytes, in order, and size as result; for an error its code and no output |
| ConsoleOutput.Console.PrintNumber | user.c:13-14 | itoa, strlen and write together show the decimal digits of the number and nothing else |

## Left out

- KernelObject.Kernel.SysExit: inserts the exiting task in the free queue once, because the second insertion of the code leaves no list (`Lists.AppendTwice`).
- KernelObject.Kernel.SysSemInit: requires a free slot when the identifier is new, because the code does not look for a full table and would write outside it.
- KernelObject.Kernel.SysFork: the 4 KB union of task and kernel stack is modelled by the fields of the task that matter; the kernel stack of the child and `ret_from_fork` are not.
- KernelObject.Kernel.SysClone: `access_ok` is a parameter, and the user stack and entry point of the thread are not modelled.
- SchedInv.ExitReleasesWaiters: its free queue is that of an exit with one insertion; `ExitAsWritten.SysExit` has both.
- ExitAsWritten.ExitThenForks: the list operations of the forks; whether each gets a directory and frames is a parameter.
- SchedInv.VacateWakes: describes exit with one insertion into the free queue; `ExitAsWritten.Leave` has both.
- SemTable.InitCommutes: says nothing of a new identifier with a full table, where the code writes outside it; `SemTable.InitWritesInside` says when that is.
- Memory.PhysicalMemory.CopyData: source and destination lie in one page each, as in `sys_fork`; the copies of task structures and of the user's image at boot are not made through it.
- `sys_sbrk` and the heap: from boot it never maps a page, because it allocates only for pages already present.
- The keyboard: `cirBuffer.c`, `sys_read`, `sys_read_keyboard`, the keyboard queue and what `keyboard_rutine` does; the interrupt itself is a step, with its accounting.
- `sys_get_stats`, `sys_gettime`, `sys_getpid` and the tick counter `zeos_ticks`: reads without effect on the rest.
- `access_ok` itself: one decision without loop or state.
- Boot sector, GDT, IDT, TSS, MSRs, wrappers, kernel stacks and `perror`; a task switch is an atomic change of current task and directory with a TLB flush.
- `printc` and the position on the screen; the console is the sequence of characters printed.
- `get_ticks` and `rdtsc`: the clock is any sequence of reads that never goes back, given to each step as a parameter.
- 32-bit overflow of process identifiers, counters of semaphores and ticks; only the conversion of the `unsigned int` argument of `sys_sem_init` to `int` is modelled.
- Programs as such: a running program is any sequence of system calls and of stores to its data pages; its reads have no effect and are what `PrivateMemory` speaks of.
- Frame numbers of 1024 and more in page table entries, which no code path writes.
