# Process bookkeeping of a small uARM nucleus

This project models the process bookkeeping of the kernel in `src/`: the pool of process control blocks,
the circular process queues and the process forest (`src/pcb.c`), the active semaphore list with its free descriptors
(`src/asl.c`), process creation and termination (`src/syscall.c`) and dispatch (`src/ProvaScheduler.c`). All of these
lists are threaded through the fields of the same control blocks; `p_next` alone serves the free list, the ready queue
and every semaphore queue. The table size (MAXPROC, 20 in `src/const.h:6`) is a parameter: every statement is about any
number of processes.

## How it is built

Three layers, each proved against the one above it.

1. **Linked structures.** `ProcQueue`, `Pool`, `ProcTree`, `SemLists` and `ActiveSemaphores` hold the objects and the
   loops of the source, in place. Each method is specified by a function on the sequence, map or forest that the links
   represent.
2. **One kernel.** `Processes.Manager` (pool, ready queue, forest, current process, counters) and `Nucleus.Kernel`
   (that and the active semaphore list) put them together. Each operation turns the represented state `View()` into the
   state the specification names. `Kernel.Run` carries this over whole runs.
3. **Specification and theorems.** `SystemState`, `Operations`, `Termination`, `Killing`, `Guarantees`, `Runs`,
   `Placement` and `Laws` treat the state as a value and prove what the operations are worth: the invariant of every
   reachable state, where every process is, conservation, order of service, waiting time, exact conditions, and what
   operations make of each other when repeated or undone. `Scenarios` has short
   runs from the initial state in which what fails is seen to fail.

HALT, PANIC and WAIT do not return. They are the states `Halted`, `Panicked` and `Waiting`. An access through NULL on
which the lists or the processor state then depend is `Faulted`. After any of these nothing more happens. Two accesses
through NULL have no such effect: what the search of `outBlocked` reads there is an arbitrary value, which is shown not to
matter, and what STST stores there belongs to no list.

## What the code does that its comments do not say

The model follows the code. Where that is not what comments promise, a lemma gives the exact condition.

- **`outProcQ` on the tail.** The search loop ends when `tmp->p_next == *tp` (`src/pcb.c:131`). So when `*tp == p`, the
  test for a single element at line 147 is always true: the tail pointer becomes NULL whatever the length of the queue,
  the other members are lost, and lines 153-157 cannot be reached. The comment promises to remove p; that holds if and
  only if p is not the tail of a queue of two or more (`OutQExact`). `src/p1test.c:116-127` takes out a first, a middle
  and an absent entry only.
- **Consequences.** `insertBlocked` followed by `outBlocked` drops the whole queue, so it restores the list only when
  the semaphore was inactive (`BlockThenUnblock`). Terminating the tail of the ready queue empties the ready queue
  (`TerminateReadyExact`), and the others on it are lost for good (`BystanderLost`).
- **`outBlocked` and NULL.** The emptied descriptor is spliced behind `semdFree_h` (`src/asl.c:96-97`). That pointer is
  NULL exactly when every process is blocked alone on its own semaphore (`Kernel.FreeHeadNull`), and then every
  `outBlocked` faults (`OutBlockedSafe`); one process in a table of one is enough (`LoneProcessFaults`).
- **`insertBlocked` never fails** on a process that is not blocked already (`Kernel.InsertAny`). The TRUE expected by
  `src/p1test.c:219` comes from inserting a process that is queued already; `Asl.InsertBlocked` covers that call too.
- **`terminateProcess`.** It is declared without a parameter but called with one (`src/syscall.c:67-74`); taken literally
  it never returns once the current process has a child (`AsWrittenReturns`). The model honours the argument: this is a
  repair. So repaired it does not descend into the children of later siblings (`WholeSubtree`, `GrandchildSurvives`), and
  it needs every victim on the ready queue (`TerminateExact`; `FamilyDies` is a run where it is). A process that
  `scheduler` has dispatched is not there, so its own termination always ends in PANIC or in a read through NULL
  (`RunningCannotTerminate`). `currentProcess` is left pointing into the pool.
- **`scheduler(0)`** frees the current process without taking it out of the forest; **`scheduler(9)`** overwrites it.
  `CleanExact` and `PlacedExact` say exactly when this leaves a pooled process in the forest, or loses one;
  `EndLeavesFamily` and `SwitchForgets` are runs where it does.
- **`createProcess` after a completed termination.** The current process is then the first of the pool, and would become its own
  child. `CreateSound` says that this is the only case that breaks the invariant.
- **The first process.** `main` never counts it and calls `scheduler(1)` while `currentProcess` is NULL
  (`src/nucleusinizializaiont.c:77, 118-120`); `FirstProcess` shows where that, and `scheduler(9)` in its place, leads.

## Model

| member | source | states |
|---|---|---|
| ProcQueue.InsertProcQ | src/pcb.c:88-101 | p becomes the last member of the ring, whatever its length; no other link changes |
| ProcQueue.RemoveProcQ | src/pcb.c:106-123 | the head leaves and the rest keeps its order; an empty queue gives NULL; the tail pointer changes only when the queue becomes empty |
| ProcQueue.OutProcQ | src/pcb.c:127-161 | terminates on every ring; a stranger gives NULL and changes nothing, a member that is not the tail is unlinked with the order kept, and taking out the tail leaves a NULL tail pointer whatever the length; the last four statements cannot be reached |
| ProcQueue.OutQExact | src/pcb.c:125-126 | the documented promise, remove p and nothing else, is kept if and only if p is not the tail of a queue of two or more |
| ProcQueue.OutQEmpties | src/pcb.c:145-151 | a non-empty queue is left empty exactly when p was its tail, and never gains or repeats a member |
| ProcQueue.OutQLosesRest | src/pcb.c:145-151 | concrete failing queue: taking b out of [a, b] loses a |
| ProcQueue.RingUnique | src/pcb.c:88-123 | a tail pointer and the links represent at most one sequence, so the abstraction loses nothing |
| ProcQueue.HeadProcQ | src/pcb.c:163-170 | the head of the represented queue, NULL for the empty one |
| Pool.PcbPool.InitPcbs | src/pcb.c:52-65 | the free list is the whole table in order, for any table size of at least one |
| Pool.PcbPool.FreePcb | src/pcb.c:13-26 | the process becomes the first of the free list |
| Pool.PcbPool.AllocPcb | src/pcb.c:30-48 | last in, first out; the process comes back with every field reset; NULL exactly when the pool is empty |
| ProcTree.InsertChild | src/pcb.c:185-189 | the links represent the forest with p as the new first child of prnt |
| ProcTree.RemoveChild | src/pcb.c:192-205 | the first child is unlinked and returned, NULL when there is none |
| ProcTree.OutChild | src/pcb.c:209-235 | the search among the siblings ends before NULL; exactly p leaves its child list and keeps its own children; NULL exactly for a process without parent |
| Forests.InsertMatched | src/pcb.c:185-189 | inserting keeps the agreement of child lists and parent links: c has parent x exactly when it occurs, once, in the list of x |
| Forests.OutMatched | src/pcb.c:209-235 | so does removing, which touches the parent of p only |
| Forests.InsertAcyclic | src/pcb.c:185-189 | insertChild keeps the forest free of cycles if and only if p is neither prnt nor one of its ancestors |
| Forests.OutWf | src/pcb.c:209-235 | outChild keeps the forest well formed |
| Forests.InsertThenOut | src/pcb.c:185-235 | outChild undoes insertChild |
| Forests.OutThenInsert | src/pcb.c:185-235 | insertChild undoes outChild if and only if p was the first child |
| Forests.AboveChild | src/pcb.c:185-189 | the ancestors of a child are its parent and the ancestors of the parent, which bounds every descent |
| Semaphores.BlockWf | src/asl.c:10-41 | blocking a process that is on no queue keeps the queues non-empty and disjoint and adds just that process |
| Semaphores.WakeWf | src/asl.c:45-76 | waking keeps them so and takes off just the head |
| Semaphores.UnblockMember | src/asl.c:80-105 | outBlocked changes one queue only; it takes off p, or all members of the queue when p is the tail |
| Semaphores.UnblockStranger | src/asl.c:80-105 | outBlocked on a process that is on no queue changes nothing |
| Semaphores.BlockThenUnblock | src/asl.c:10-105 | insertBlocked then outBlocked leaves the list without s; it restores the list if and only if s was inactive |
| Semaphores.UnblockExact | src/asl.c:79-105 | outBlocked removes just the process it is asked for if and only if that is not the tail of a queue of two or more |
| Semaphores.Pigeonhole | src/asl.c:19-22 | there are never more active semaphores than blocked processes, and as many only when each is alone |
| SemLists.OrderedSearch | src/asl.c:14-19 | on an ascending list the early-stopping search finds s exactly when s is an address of the list |
| SemLists.FullScan | src/asl.c:50-52 | the unordered scan finds s exactly when s is an address of the list |
| SemLists.SearchesAgree | src/asl.c:14-115 | the ordered search and the scans stop at the same descriptor when there is one, and fail together |
| SemLists.InsertedAscending | src/asl.c:24-28 | inserting at the place found keeps the addresses strictly ascending |
| SemLists.RemovedAscending | src/asl.c:68-71 | removing a descriptor keeps them so and drops exactly its address |
| ActiveSemaphores.Asl.InitASL | src/asl.c:128-149 | no semaphore is active; dummy and free descriptors make up the table |
| ActiveSemaphores.Asl.InsertBlocked | src/asl.c:10-41 | TRUE and no change exactly when s is inactive and no descriptor is free; otherwise p joins the end of the queue of s, every other queue is unchanged, and the invariant of list, queues and free descriptors is kept |
| ActiveSemaphores.Asl.RemoveBlocked | src/asl.c:45-76 | returns the head of the queue of s and pops it, retiring the semaphore when the queue becomes empty; NULL and no change for an inactive one |
| ActiveSemaphores.Asl.OutBlocked | src/asl.c:80-105 | returns p exactly when p is on some queue, else NULL with the whole list unchanged, even when its stale address names an active semaphore, and whatever the loop test reads through NULL; faults exactly when the emptied descriptor meets a NULL semdFree_h, having lost that descriptor |
| ActiveSemaphores.Asl.HeadBlocked | src/asl.c:109-124 | the head of the queue of s, NULL for an inactive semaphore |
| ActiveSemaphores.Pop | src/asl.c:59-66 | the local copy of the tail pointer equals the field afterwards unless the queue became empty, which is when the descriptor is released: not writing it back is right |
| ActiveSemaphores.Occupy | src/asl.c:28-39 | a fresh descriptor with p alone extends the represented map by s |
| ActiveSemaphores.Join | src/asl.c:35-39 | inserting p behind the tail appends it to the queue of s and leaves every other queue alone |
| ActiveSemaphores.Withdraw | src/asl.c:92-94 | outProcQ on the field itself has its order effect on the queue of s only, and the field becomes NULL exactly when the queue is emptied |
| SemLists.MoveIn | src/asl.c:24-27 | the pointer steps take the first free descriptor into the list behind the one found |
| SemLists.MoveOut | src/asl.c:67-71 | the pointer steps make the descriptor found the first free one |
| SemLists.MoveBehind | src/asl.c:95-97 | the pointer steps make it the second free one |
| ActiveSemaphores.OthersStay | src/asl.c:10-105 | relinking the queue of one descriptor leaves all others, their queues and all stamps as they were |
| ActiveSemaphores.Asl.TakeFree | src/asl.c:24-27 | this keeps the partition of the table, the list and the free list |
| ActiveSemaphores.Asl.ReleaseFirst | src/asl.c:68-71 | the descriptor leaves the list and becomes the first free one |
| ActiveSemaphores.Asl.ReleaseSecond | src/asl.c:95-97 | the descriptor leaves the list and becomes the second free one |
| ActiveSemaphores.Asl.Drop | src/asl.c:95-96 | what the fault leaves: the descriptor is out of the list and in no other |
| ActiveSemaphores.Asl.DescriptorCount | src/asl.c:5 | as long as no fault has lost one, active semaphores, free descriptors and the dummy add up to the table |
| ActiveSemaphores.Asl.NowhereElse | src/asl.c:39 | a process is blocked exactly when it is on the queue its address names; a stale address is harmless |
| Termination.KillListBelow | src/syscall.c:67-91 | the processes killed are distinct and all below the current one |
| Termination.KilledIffParentOnSpine | src/syscall.c:67-91 | exactly the members of the child lists along the chain of first children are killed |
| Termination.ChildBeforeParent | src/syscall.c:72-85 | whoever is killed is killed before its parent |
| Termination.SiblingsInOrder | src/syscall.c:80-85 | siblings are killed in the order of their list |
| Termination.KidsKilled | src/syscall.c:80-85 | the children of a killed process are killed if and only if it is the current process or a first child |
| Termination.WholeSubtree | src/syscall.c:63-91 | nothing outside the subtree is killed, and the whole subtree is, as the comment promises, if and only if no killed later sibling has children |
| Operations.StepSound | src/pcb.c:13-235 | every operation keeps the global invariant and the set of processes |
| Operations.CreateSound | src/syscall.c:14-37 | createProcess keeps the invariant if and only if the current process is not itself the next one in the pool |
| Operations.ScheduleSound | src/ProvaScheduler.c:15-61 | scheduler keeps the invariant for every control value, given for 0 and 1 that the current process is on no list |
| Operations.ScheduleSoundExact | src/ProvaScheduler.c:29-57 | and this is needed: with a ready queue that does not start with the current process, control 0 or 1 keeps the invariant if and only if that process is on no list |
| Operations.KillAllSound | src/syscall.c:47-91 | killing any list of processes, stopped early or not, keeps the invariant |
| Killing.KillAllExact | src/syscall.c:47-63 | a list of distinct victims is killed to the end if and only if all are ready and none but the last is the tail of the ready queue; pool, ready queue and count afterwards are given exactly |
| Killing.KillAllForest | src/syscall.c:52 | afterwards exactly the victims have lost their parents |
| Killing.TerminateExact | src/syscall.c:67-91 | terminateProcess runs to its end if and only if all victims are ready and none but the current process is the tail of the ready queue; it then frees exactly the victims, each once |
| Killing.TerminateClean | src/syscall.c:64-91 | after a completed terminateProcess no pooled process is left in the forest if and only if the whole subtree was killed |
| Killing.RunningCannotTerminate | src/syscall.c:54-56 | the terminateProcess of a process that is on no list never completes: it reads through NULL if the ready queue runs dry before some victim, and panics otherwise |
| Killing.KillAllStop | src/syscall.c:47-61 | which of completion, read through NULL and PANIC a list of victims ends in |
| Killing.KillAllPartial | src/syscall.c:47-63 | when killing stops, exactly the victims before some victim have been killed, and that one has left its parent only |
| Killing.TerminateReadyExact | src/syscall.c:54-56 | a completed terminateProcess takes only its victims off the ready queue if and only if the current process was not its tail or nobody else was left on it; otherwise exactly all the others are lost |
| Killing.TerminateWaiting | src/syscall.c:54-56 | a completed terminateProcess moves no survivor of the ready queue further back |
| Killing.AsWrittenReturns | src/syscall.c:67-91 | without the missing parameter terminateProcess returns if and only if the current process has no children, and then does what the repaired one does |
| Killing.DoomedSplit | src/syscall.c:72-90 | an activation kills what its recursive call kills, then the process itself or its whole child list, which the recursion left untouched |
| Killing.KillAllElsewhere | src/syscall.c:47-63 | a child list none of whose members is killed stays as it is |
| Guarantees.NeverFull | src/asl.c:19-22 | while some process is not blocked there are fewer active semaphores than processes |
| Guarantees.Exhausted | src/asl.c:128-148 | there are as many active semaphores as processes if and only if every process is blocked, each alone on its semaphore |
| Guarantees.OutBlockedSafe | src/asl.c:91-98 | the outBlocked step faults if and only if every process is blocked, each alone on its semaphore |
| Guarantees.DropsNobody | src/asl.c:79-105 | outBlocked drops nobody else if and only if p is not the tail of a queue of two or more; otherwise it drops all the others of the queue |
| Guarantees.CleanExact | src/ProvaScheduler.c:29-33 | for each operation the exact condition under which it leaves no pooled process in the forest; for scheduler(0), that the current process has neither parent nor children |
| Runs.InitialSound | src/nucleusinizializaiont.c:70-77 | the initial state satisfies the invariant, with nothing pooled left in the forest |
| Runs.RunSound | src/pcb.c:13-235 | every state of every run satisfies the invariant; in particular no process is on two lists |
| Runs.RunClean | src/syscall.c:22-29 | in a run that respects the guards no pooled process is left in the forest, so the next one allocPcb hands out has no family |
| Runs.CountConserved | src/syscall.c:22-61 | processCount plus the length of the free list is constant over every run of system calls, scheduler and list operations |
| Runs.FirstComeFirstServed | src/asl.c:10-76 | over every run without an outBlocked on its members, a semaphore wakes its processes in the order in which they were blocked, whatever is interleaved |
| Runs.QueueStep | src/asl.c:10-105 | one step on the queue of s: an arrival joins at the end, a wake-up leaves from the front, all else leaves it alone |
| Runs.BoundedWaiting | src/ProvaScheduler.c:29-57 | a process at index k of the ready queue becomes current at exactly the (k+1)-th dispatch, as long as the machine runs, in every run without terminateProcess |
| Runs.WaitingEnds | src/ProvaScheduler.c:29-57 | in every run whatever, as long as the machine runs, it becomes current by the (k+1)-th dispatch at the latest, unless a terminateProcess kills it or throws the ready queue away first |
| Laws.RunAfter | src/pcb.c:13-235 | the lists of steps performed in these laws are the runs that the linked structures carry out |
| Laws.LeavesAlone | src/pcb.c:13-235 | nothing changes softBlockCount, and each list, the forest, the count, the current process and the status are changed by the operations named only |
| Laws.PoolIsStack | src/pcb.c:13-48 | in any well-nested pattern of freePcb and allocPcb every allocPcb hands out the process of the freePcb it is paired with, and in the end nothing has changed |
| Laws.FreeThenAlloc | src/pcb.c:13-48 | allocPcb hands out the process freed last, and undoes freePcb |
| Laws.AllocThenFree | src/pcb.c:13-48 | freePcb undoes allocPcb, which answers NULL exactly when the pool is empty |
| Laws.InsertThenOutChild | src/pcb.c:185-235 | after insertChild the child is the first one of its parent, and both outChild and removeChild hand it back and restore the state |
| Laws.OutChildEffect | src/pcb.c:209-235 | outChild takes its parent from p and from nobody else, keeps the children of p, and keeps the order of all siblings; it answers NULL exactly for a process without parent |
| Laws.RemoveChildEffect | src/pcb.c:192-205 | removeChild is outChild on the first child, or nothing when there is none |
| Laws.CreateMany | src/syscall.c:14-37 | n times createProcess puts exactly the next n of the pool in front of the child list of the current process, newest first, and at the end of the ready queue, oldest first; each answers 0 and counts one more |
| Laws.CreateExhausted | src/syscall.c:22-27 | with an empty pool createProcess answers -1 any number of times and changes nothing |
| Laws.RoundRobin | src/ProvaScheduler.c:40-48 | n time slices take the first n of the running and the ready processes to the back and change nothing else; after a full round everything is as before |
| Laws.EndMany | src/ProvaScheduler.c:29-38 | ending n processes in a row returns the first n of the running and the ready to the pool, the last ended in front, runs the next one and lowers the count by n |
| Laws.SwitchMany | src/ProvaScheduler.c:55-57 | scheduler(9) repeated runs one ready process after the other and puts nobody anywhere |
| Laws.SchedulerSplits | src/ProvaScheduler.c:29-48 | with somebody ready, scheduler(1) is insertProcQ and scheduler(9), and scheduler(0) is freePcb and scheduler(9) with one less counted |
| Laws.StopExact | src/ProvaScheduler.c:17-22 | with nobody ready the scheduler halts, panics or waits according to the two counts, and changes nothing else |
| Laws.GoesOn | src/ProvaScheduler.c:28-59 | with somebody ready it goes on running unless it needs a current process and there is none |
| Laws.NobodyRunning | src/syscall.c:19-20 | without a current process the system calls and scheduler(0) and (1) fault and change nothing else |
| Laws.NegativeCount | src/ProvaScheduler.c:17-59 | with nobody ready and a negative count scheduler(1) comes back to the same process, and scheduler(0) and (9) load the state of no process |
| Laws.NeverWaiting | src/ProvaScheduler.c:21 | in every run from a state with softBlockCount zero WAIT is never reached |
| Laws.BlockThenWake | src/asl.c:10-105 | insertBlocked on an inactive semaphore is undone by removeBlocked, and by outBlocked if a descriptor is left |
| Laws.FullExact | src/asl.c:19-22 | insertBlocked answers TRUE exactly when it needs a descriptor and all are in use |
| Laws.NoAnswer | src/syscall.c:10-13 | an operation that stops the machine hands nothing back |
| Placement.LooseExact | src/pcb.c:13-123 | for each operation but a dispatch, exactly which processes come off every list and which go on one: those taken from and given to callers, and those lost |
| Placement.PlacedExact | src/pcb.c:13-161 | the exact condition under which a step loses nobody; it fails for scheduler(9) when nobody holds the current process, for outBlocked on the tail of a queue with members other than the current process, and for terminateProcess on the tail of a ready queue with survivors |
| Placement.RunPlaced | src/pcb.c:13-161 | in every run from an initial state whose steps respect that condition every process is on a list, current, or in the hands of the caller it was given to |
| Placement.CarelessLoses | src/pcb.c:125-161 | the first step of a run that does not respect it loses somebody |
| Placement.OnePlace | src/pcb.c:13-161 | when nobody is lost every process is in exactly one of pool, ready queue, one semaphore queue, the hands of a caller, or current, so p_next is never threaded through two lists |
| Processes.Manager.Initialize | src/nucleusinizializaiont.c:70-77 | pool, ready queue, current process and counters after start-up |
| Processes.AllocReset | src/pcb.c:30-48 | resetting the fields of a pooled process leaves the represented forest as it is if the process has no family; if it has one, the links represent no forest any more |
| Processes.Manager.CreateProcess | src/syscall.c:14-37 | the linked structures change as the specification says when the next pooled process has no family; the result register holds -1 exactly when the pool was empty, and otherwise the next process of the pool is the first child of its creator, before the former one, has its state, and is the tail of the ready queue |
| Processes.Manager.TerminateSingleProcess | src/syscall.c:47-63 | the linked structures change as the specification says, including the stops; returns the sibling the process had on entry |
| Processes.Manager.KillSiblings | src/syscall.c:80-85 | the loop kills the whole child list in order, following sibling links it is taking apart, or stops with the machine |
| Processes.Manager.TerminateProcess | src/syscall.c:67-91 | the recursion terminates and kills, in this order, the child lists below the process and then the process or its siblings |
| Processes.Manager.Scheduler | src/ProvaScheduler.c:15-61 | stops or dispatches as the specification says, for every control value, given for 0 and 1 that the current process is on no list; storing the state of no process at all (line 28) is taken to be harmless |
| Processes.Manager.OutReady | src/syscall.c:54 | outProcQ on the ready queue while the pool shares the same links |
| Nucleus.InitialStateSound | src/nucleusinizializaiont.c:70-77 | the state main sets up is an initial state of the specification |
| Nucleus.Kernel.Initialize | src/nucleusinizializaiont.c:70-77 | initPcbs and initASL in this order make the linked structures represent the initial state |
| Nucleus.Kernel.FreeHeadNull | src/asl.c:96-97 | semdFree_h is NULL if and only if every process is blocked, each alone on its semaphore, and then every process is the tail of the queue its address names |
| Nucleus.Kernel.FreeHeadLeft | src/asl.c:19-22 | while some process is not blocked, semdFree_h is not NULL |
| Nucleus.Kernel.InsertAny | src/asl.c:10-41 | insertBlocked never returns TRUE for a process that is not blocked already, be it ready, pooled or on no list |
| Nucleus.Kernel.InsertBlocked | src/asl.c:10-41 | for a process on no list all lists together follow the specification |
| Nucleus.Kernel.RemoveBlocked | src/asl.c:45-76 | removeBlocked among all the other lists: the right process, and nothing else changes |
| Nucleus.Kernel.OutBlocked | src/asl.c:80-105 | outBlocked among all the other lists: p or NULL, and nothing else changes; it faults if and only if semdFree_h is NULL |
| Nucleus.Kernel.Perform | src/pcb.c:13-235 | every operation of the system, on linked structures sharing one set of control blocks, refines one step of the specification and hands back what it names; after outChild the process has no parent and no sibling link, after freePcb it heads the free list |
| Nucleus.Kernel.Run | src/nucleusinizializaiont.c:70-77 | every finite run of the specification is carried out by the linked structures, state by state and reply by reply |
| Scenarios.FirstProcess | src/nucleusinizializaiont.c:91-120 | the scheduler(1) call of main queues a NULL current process; scheduler(9) would dispatch the first process if the STST through NULL before it is harmless, and its first time slice then ends in HALT because it was never counted |
| Scenarios.LoneProcessFaults | src/asl.c:91-98 | a run of three steps in which outBlocked goes through a NULL semdFree_h |
| Scenarios.GrandchildSurvives | src/syscall.c:80-85 | a tree of four in which the child of a later sibling outlives the termination |
| Scenarios.EndLeavesFamily | src/ProvaScheduler.c:29-33 | a run in which scheduler(0) pools a process that still has a child |
| Scenarios.DeadlockPanics | src/ProvaScheduler.c:20 | a run that ends in PANIC, a process being counted and nobody ready, with all lists as they were |
| Scenarios.SwitchForgets | src/ProvaScheduler.c:55-57 | a run in which scheduler(9) loses the current process |
| Scenarios.FamilyDies | src/syscall.c:67-91 | a run in which terminateProcess completes: parent and child are freed, and the count is one below zero |
| Scenarios.BystanderLost | src/syscall.c:54-56 | a run in which a completed terminateProcess loses a ready process outside its subtree |

## Left out

- Processes.Manager.TerminateProcess: models the function with the argument its recursive call passes, not the
  parameterless function as written, which does not return once the current process has a child.
- Processes.Manager.Scheduler: requires for controls 0 and 1 that the current process is on no list, without which the
  invariant is lost (`Operations.ScheduleSoundExact`) or a list in use is relinked. It also takes the STST of line 28 to
  be harmless when there is no current process, although it then stores through NULL; LDST from there, and queueing or
  freeing NULL, are faults.
- ActiveSemaphores.Asl.InsertBlocked: leaves out a process that is on a queue already and is inserted where a
  descriptor is found; its old queue would be cut, which no caller may ask for.
- Processes.Manager.CreateProcess: requires that the next pooled process has no family, because otherwise the links
  represent no forest after allocPcb (`Processes.AllocReset`); `Runs.RunClean` gives the runs in which this always holds.
  It also requires that the current process is not that pooled one (`Operations.CreateSound`).
- Runs.BoundedWaiting: leaves out runs with terminateProcess, for which `Runs.WaitingEnds` has the bound.
- Processor states: `p_s` is an opaque integer that createProcess copies; STST, LDST and the trap areas are foreign
  code. The write of -1 or 0 through the raw register offset of the parent is a result value.
- Semaphore addresses are naturals and pointer order is their order; the values of semaphores are not modelled.
- `scheduler(2)`, an empty branch, acts like every control value other than 0, 1 and 9: it reloads the current process.
- `main` transfers control (`src/nucleusinizializaiont.c:113`) before it reaches the ready queue;
  `Scenarios.FirstProcess` is about the lists after that call, had it returned.
- `verhogen`, `passeren` and `syscallHandler` (`src/syscall.c:93-`): a counter, a busy wait and a dispatch on trap areas
  that never touch the lists.
- `emptyProcQ`, `mkEmptyProcQ`, `emptyChild`: comparisons with NULL, written out where they are used.
- Interrupts: each operation is one step. Devices, BIOS, start-up code, linker scripts and bit masks.
