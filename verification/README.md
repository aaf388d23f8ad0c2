# Verified models of the operating-system exercises

This project models the five self-contained cores of the repository in Dafny and proves what
they promise, for any number of slots, threads, blocks and steps:

- **Physical memory with swapping** (`exercise-5`): `HoleSpec` (hole lists as sequences),
  `HoleTables` (the same lists threaded through a slot array), `SwapSpec` (the whole memory
  manager as a value), `Ownership`, `Conservation` and `MemoryRuns` (who owns which click, over
  whole runs), `SwapQueue` and `SwapResults` (who waits to be swapped in, and whom swapping leaves
  where), `MemoryHazards` (where it goes wrong),
  `MemoryManager` (the manager updated in place).
- **Kernel message passing, ready queues, signals, interrupts, scheduling** (`exercise-2`):
  `WaitFor` (chains of waiting processes), `Queues` and `KernelLinks` (queues threaded through a
  table), `KernelSpec` (each kernel entry as a function on the table), `KernelInvariant`,
  `KernelSteps`, `KernelCalls`, `KernelEvents`, `KernelProcesses`, `KernelRuns` (what every entry
  keeps), `KernelFrames` (what becomes of messages and interrupts), `KernelAnswers` and
  `KernelSignals` (what calls are answered with, and what becomes of signals), `KernelOrder` (who
  stands where in the queues), `KernelBilling`, `RoundRobin` and `KernelTurns` (how long turns last,
  and who gets one), `KernelHazards` (runs from boot that end badly),
  `KernelTables` (the table updated in place).
- **Bounded buffer with a monitor** (`exercise-4`) and **with semaphores** (`exercise-3`): `Ring`,
  `Rounds` and `Threads` (shared), `MonitorProtocol`, `MonitorWork` and `IntegerBufferMonitors`,
  `SemaphoreProtocol`, `SemaphoreWork` and `IntegerBuffers`. Threads interleave at single semaphore
  operations.
- **Virtual file system** (`exercise-6`): `VfsSpec`, `VfsChains`, `VfsFiles`, `VfsRuns`,
  `VfsHazards`, `VirtualFileSystems`.
- **Process tree** (`exercise-1`): `ProcessTree`.

`Options` and `Sets` hold what several parts share.

Code that changes state in place is modelled twice: as a function on values, about which the
properties are proved, and as a class whose methods are proved to compute exactly that function.
Table sizes, process counts and buffer sizes are symbolic.

Where the code does not do what it is for, the model follows the code, a lemma shows the failing
case, and another states exactly when the code is right:

- Worst fit starts at the head hole unconditionally. It dereferences a null pointer or hands out
  the swap area exactly when there is no hole, or the head hole lies in the swap area and is large
  enough (`MemoryRuns.WorstFitGoesWrong`, `MemoryHazards.WorstFitBitesSwapArea`). In `swap_in` this
  can happen in the middle of the queue (`MemoryHazards.SwapInBitesSwapArea`); it does not under
  first fit (`MemoryRuns.FirstFitLegal`), nor when those to come in leave a click of memory
  (`MemoryRuns.RoomyLegal`).
- `swap_off` restarts its loop at the head and then steps on; it follows a null pointer exactly
  when the swap hole was the only hole (`MemoryHazards.SwapOffFaults`, `MemoryRuns.SwapOffFault`).
  Before the call: not unless the processes exactly fill the memory, and with nothing swapped out
  exactly then (`MemoryRuns.SwapOffSafe`, `MemoryRuns.SwapOffExact`).
- `swap_inqueue` links a slot behind the last one even if it is still linked from before; whoever
  stood behind it is dropped from the queue for good (`SwapQueue.QueueCut`,
  `SwapQueue.EnqueueExact`).
- `mini_send` does not notice a process that sends to itself (`KernelCalls.SelfSendNotCaught`,
  `KernelCalls.SendExact`).
- `do_fork` copies the parent's caller queue and its place in another queue
  (`KernelHazards.ForkHarms`, `KernelProcesses.ForkExact`).
- `do_endsig` spoils the signal count when it is called for a signal MM was not told of
  (`KernelHazards.EndsigHarms`, `KernelEvents.EndsigExact`).
- `sched` compares counter and priority with `!=`; a priority set below the counter keeps the
  process at the head for good (`KernelHazards.SetpriHarms`, `RoundRobin.SetpriExact`,
  `KernelTurns.LoweredStarvesOthers`).
- The last block of a file links to block 0, so removing a file also clears what begins there
  (`VfsHazards.FirstFileLost`, `VfsRuns.RemoveExact`).
- An empty file names a block it does not own, so removing it can clear the block of another file
  (`VfsHazards.EmptyFileHarms`, `VfsHazards.EmptyRemoveExact`).
- An all-zero block counts as free (`VfsHazards.ZeroFileOverwritten`, `VfsHazards.TakenExact`).
- The space check counts blocks with their links (`VfsFiles.CopyOutcome`); names of 512 characters
  or more are cut and not found again (`VfsFiles.CopyToFrom`); the divisor for the number of index
  nodes is `4096 / 2` without parentheses and divides by 8192 (`VfsSpec.LayoutFits`).

## Model

| member | source | states |
|---|---|---|
| HoleSpec.ReleaseMeaning | exercise-5/minix_usr/src/mm/alloc.c:174-272 | freeing a disjoint block keeps the list strictly sorted, without empty, touching or overlapping holes, and adds exactly the clicks of the block to the free ones |
| HoleSpec.ReleaseSize | exercise-5/minix_usr/src/mm/alloc.c:186-191 | a free makes at most one hole more |
| HoleSpec.BiteMeaning | exercise-5/minix_usr/src/mm/alloc.c:108-117 | taking a block from the front of a hole keeps the list canonical and removes exactly the clicks of the block |
| HoleSpec.CanonicalUnique | exercise-5/minix_usr/src/mm/alloc.c:242-272 | two canonical lists with the same free clicks are the same list |
| HoleSpec.AllocThenFree | exercise-5/minix_usr/src/mm/alloc.c:104-118 | freeing the block just taken from any hole restores the identical list |
| HoleSpec.FreeingOrderIrrelevant | exercise-5/minix_usr/src/mm/alloc.c:174-215 | disjoint blocks freed in any two orders leave the identical list |
| HoleSpec.FirstFitMeaning | exercise-5/minix_usr/src/mm/alloc.c:102-121 | first fit finds the lowest regular hole that is large enough, and none exactly when there is none |
| HoleSpec.WorstFitMeaning | exercise-5/minix_usr/src/mm/alloc.c:70-95 | with a regular head hole worst fit finds the lowest of the largest regular holes |
| HoleSpec.PoliciesAgree | exercise-5/minix_usr/src/mm/alloc.c:67-124 | with a regular head hole both policies succeed on the same requests, exactly when some regular hole is large enough |
| HoleSpec.WorstFitIrregularHead | exercise-5/minix_usr/src/mm/alloc.c:71-86 | with the head hole in the swap area the worst-fit scan ends at once at that hole |
| HoleTables.HoleTable.constructor | exercise-5/minix_usr/src/mm/alloc.c:295-299 | all slots are on the list of free slots and there is no hole |
| HoleTables.HoleTable.SlotsPartitioned | exercise-5/minix_usr/src/mm/alloc.c:280-288 | every slot of the array is on exactly one of the two lists, once |
| HoleTables.HoleTable.DelSlot | exercise-5/minix_usr/src/mm/alloc.c:220-237 | unlinks one hole and puts its slot in front of the free ones |
| HoleTables.HoleTable.Merge | exercise-5/minix_usr/src/mm/alloc.c:242-272 | absorbs the successors that touch, at most twice, as the function on lists says |
| HoleTables.HoleTable.FreeMem | exercise-5/minix_usr/src/mm/alloc.c:174-215 | the list becomes that of the released block; panics exactly when no slot is free |
| HoleTables.HoleTable.TakeFirstFit | exercise-5/minix_usr/src/mm/alloc.c:103-121 | one first-fit pass, with the right predecessor for the deletion |
| HoleTables.HoleTable.TakeWorstFit | exercise-5/minix_usr/src/mm/alloc.c:70-95 | one worst-fit pass, with the right predecessor for the deletion |
| HoleTables.HoleTable.TakeSwapHole | exercise-5/minix_usr/src/mm/alloc.c:474-482 | takes a block from the first swap hole that is large enough |
| HoleTables.HoleTable.RemoveSwapHoles | exercise-5/minix_usr/src/mm/alloc.c:367-373 | on any list, sorted or not, the removal loop leaves the regular holes, or follows a null pointer, as the function on lists says |
| SwapSpec.SwapOutProgress | exercise-5/minix_usr/src/mm/alloc.c:448-500 | a swap_out that succeeds puts one more process on swap, which is why the retry loop ends |
| SwapSpec.SwapOutExact | exercise-5/minix_usr/src/mm/alloc.c:448-500 | swap_out succeeds exactly when some user process waits, is neither traced nor owed a reply, is in memory, and fits a hole of the swap area; then the first such process going round from behind the one swapped out last goes to the first hole large enough, and nobody else moves |
| SwapSpec.AllocMemStep | exercise-5/minix_usr/src/mm/alloc.c:102-123 | the retry loop is one pass, then swap_out, then the loop again |
| Ownership.SwapRangesApart | exercise-5/minix_usr/src/mm/alloc.c:484-486 | the swap-file ranges of two swapped-out processes do not overlap |
| Ownership.SwapOutKeeps | exercise-5/minix_usr/src/mm/alloc.c:459-496 | swapping a process out keeps the ownership of all clicks and every process image |
| Ownership.AllocOnceMeaning | exercise-5/minix_usr/src/mm/alloc.c:54-125 | one pass whose head hole does not lead worst fit astray takes a regular hole that is large enough, or there is none; the states left out are exactly those of WorstFitGoesWrong |
| Ownership.AllocOncePolicy | exercise-5/minix_usr/src/mm/alloc.c:66-121 | it is the first that is large enough under first fit, and the first of the largest regular ones under worst fit |
| Ownership.AllocMemMeaning | exercise-5/minix_usr/src/mm/alloc.c:54-125 | the whole allocation, swapping included, keeps ownership and images and ends with a pass that decides; it gives up only when nobody is left who could be swapped out |
| Ownership.HoleBound | exercise-5/minix_usr/src/mm/alloc.c:186-187 | holes never outnumber live blocks and initial chunks, the swap area counted as one, so the table does not fill up while that sum is below its size |
| Conservation.Conserved | exercise-5/minix_usr/src/mm/alloc.c:54-272 | free clicks and the clicks of all processes always add up to those of the chunks and the swap area |
| Conservation.ConservedBelow | exercise-5/minix_usr/src/mm/alloc.c:54-272 | below the swap area the free clicks and those of the processes in memory add up to the chunks |
| MemoryRuns.MemInitInv | exercise-5/minix_usr/src/mm/alloc.c:277-324 | after start-up exactly the clicks of the reported chunks are free, and the ownership invariant holds |
| SwapResults.SwapAreaStarts | exercise-5/minix_usr/src/mm/alloc.c:300-318 | the swap area starts exactly one click above the highest chunk |
| SwapResults.InitStops | exercise-5/minix_usr/src/mm/alloc.c:301-310 | chunks behind the first empty one do not count |
| MemoryRuns.AllocAndLoad | exercise-5/minix_usr/src/mm/alloc.c:424-438 | allocating for a swapped-out process and reading it in keeps ownership and every image |
| MemoryRuns.SwapInMeaning | exercise-5/minix_usr/src/mm/alloc.c:403-443 | swap_in, over the whole queue, keeps ownership and every image as long as no turn finds a head hole that leads worst fit astray |
| MemoryRuns.FirstFitLegal | exercise-5/minix_usr/src/mm/alloc.c:403-443 | under first fit no turn does, on every queue |
| MemoryRuns.RoomyLegal | exercise-5/minix_usr/src/mm/alloc.c:403-443 | under either policy no turn does if the processes in memory and the marked ones on the queue together leave a click of the chunks, which can be seen before the call |
| SwapResults.SwapInQueue | exercise-5/minix_usr/src/mm/alloc.c:403-443 | afterwards exactly those who are still marked are on the queue, in the order they had |
| SwapResults.SwapInLeaves | exercise-5/minix_usr/src/mm/alloc.c:403-443 | when nobody would be swapped out to make room, each of them is one for whom there are not enough free clicks in a row at the end: a process that does not fit keeps nobody behind it waiting |
| MemoryRuns.SwapAreaIsOneHole | exercise-5/minix_usr/src/mm/alloc.c:362-373 | with nothing swapped out the swap area is exactly one hole, the last one |
| MemoryRuns.SwapOnMeaning | exercise-5/minix_usr/src/mm/alloc.c:329-343 | turning swapping on adds the swap area and changes nothing else |
| SwapResults.SwapOnExact | exercise-5/minix_usr/src/mm/alloc.c:329-343 | refused exactly when swapping is on; the offset is the given one and the area has the most whole clicks that the file and the limit allow |
| SwapResults.StepFile | exercise-5/minix_usr/src/mm/alloc.c:411-496 | no legal call ever writes to the swap file outside the part given to swap_on |
| MemoryRuns.SwapOffMeaning | exercise-5/minix_usr/src/mm/alloc.c:348-377 | swap_off keeps ownership and images unless it follows the null pointer; it succeeds exactly when everything came back and it does not, and then the swap area is gone |
| MemoryRuns.SwapOffFault | exercise-5/minix_usr/src/mm/alloc.c:368-373 | swap_off follows a null pointer exactly when its swap_in leaves nothing on swap and no regular click free |
| MemoryRuns.SwapOffSafe | exercise-5/minix_usr/src/mm/alloc.c:348-377 | it does not unless the sizes of all processes add up to exactly the chunks |
| MemoryRuns.SwapOffExact | exercise-5/minix_usr/src/mm/alloc.c:368-373 | with nothing swapped out, it does exactly when they add up to the chunks and there is a swap area |
| MemoryRuns.SwapOffLegal | exercise-5/minix_usr/src/mm/alloc.c:348-377 | what can be seen before the call: if all processes leave a click of memory, or first fit is in use and they do not exactly fill it, nothing goes wrong in the swap_in or after it |
| SwapResults.SwapOffLeaves | exercise-5/minix_usr/src/mm/alloc.c:348-377 | when nobody would be swapped out to make room, swap_off succeeds and closes the file exactly when it leaves nobody on swap, and leaves there only those for whom there is no room |
| MemoryRuns.WorstFitGoesWrong | exercise-5/minix_usr/src/mm/alloc.c:67-99 | worst fit leaves regular memory or dies exactly when there is no hole, or the head hole lies in the swap area and is large enough |
| MemoryHazards.WorstFitBitesSwapArea | exercise-5/minix_usr/src/mm/alloc.c:70-95 | such a state exists: all memory in use, worst fit hands out the swap area |
| MemoryHazards.SwapInBitesSwapArea | exercise-5/minix_usr/src/mm/alloc.c:403-443 | a state with a regular head hole, two queued processes and worst fit in which swap_in places a process in the swap area |
| MemoryHazards.SwapOffFaults | exercise-5/minix_usr/src/mm/alloc.c:368-373 | a state under first fit in which swap_off follows the null pointer |
| MemoryRuns.Step | exercise-5/minix_usr/src/mm/alloc.c:54-500 | every call that meets a condition its caller can check keeps one owner for each managed click, the manager running, and the image of every process the call is not about |
| MemoryRuns.RunMeaning | exercise-5/minix_usr/src/mm/alloc.c:54-500 | the same over whole runs of forks, exits, swapping in and out, swapping on and off, and policy changes |
| SwapQueue.EnqueueExact | exercise-5/minix_usr/src/mm/alloc.c:382-398 | asking for a process leaves every marked process on the queue exactly when its slot is not still linked in front of a marked one |
| SwapResults.AskedIsLast | exercise-5/minix_usr/src/mm/alloc.c:382-398 | who is asked for is marked and last on the queue, behind those who were in front of its old place or behind all; who was marked already stays where it is |
| SwapQueue.StepKeepsComplete | exercise-5/minix_usr/src/mm/alloc.c:54-500 | every other legal call leaves every marked process on the queue, swap_off with no stale slots included |
| SwapQueue.RunKeepsComplete | exercise-5/minix_usr/src/mm/alloc.c:54-500 | after every legal run without such a call every marked process is on the queue exactly once |
| SwapQueue.QueueCut | exercise-5/minix_usr/src/mm/alloc.c:394-397 | such a call exists: a reused slot is asked for and the marked process behind it is dropped |
| MemoryManager.Manager.constructor | exercise-5/minix_usr/src/mm/alloc.c:277-324 | mem_init on the tables: the state is the one the function gives |
| MemoryManager.Manager.AllocMem | exercise-5/minix_usr/src/mm/alloc.c:54-125 | alloc_mem in place computes the function on the state and the base |
| MemoryManager.Manager.GiveBack | exercise-5/minix_usr/src/mm/alloc.c:174-215 | free_mem in place, panic included |
| MemoryManager.Manager.SwapOut | exercise-5/minix_usr/src/mm/alloc.c:448-500 | swap_out in place: the candidate, the order of the search, the copy, the bookkeeping |
| MemoryManager.Manager.SwapIn | exercise-5/minix_usr/src/mm/alloc.c:403-443 | swap_in in place: the walk along the links, the cleaning of the queue, the unlinking |
| MemoryManager.Manager.SwapInqueue | exercise-5/minix_usr/src/mm/alloc.c:382-398 | joining the queue in place behind its last slot, also for a slot that is still linked |
| MemoryManager.Manager.SwapOn | exercise-5/minix_usr/src/mm/alloc.c:329-343 | swap_on in place |
| MemoryManager.Manager.SwapOff | exercise-5/minix_usr/src/mm/alloc.c:348-377 | swap_off in place, the null pointer included |
| WaitFor.NewEdge | exercise-2/minix_usr/src/kernel/proc.c:198-208 | waiting for a process keeps an acyclic graph acyclic exactly when the walk from that process does not come back |
| WaitFor.FewerEdges | exercise-2/minix_usr/src/kernel/proc.c:270-271 | unblocking senders keeps the graph acyclic |
| KernelCalls.DeadlockExact | exercise-2/minix_usr/src/kernel/proc.c:198-236 | a send is refused with the deadlock error exactly when blocking the caller would close a cycle |
| KernelCalls.SelfSendNotCaught | exercise-2/minix_usr/src/kernel/proc.c:199-208 | a send to oneself is accepted and closes a cycle |
| KernelCalls.SendExact | exercise-2/minix_usr/src/kernel/proc.c:158-237 | an accepted send keeps the table in order exactly when it is not to oneself |
| KernelAnswers.SendReplies | exercise-2/minix_usr/src/kernel/proc.c:170-236 | each reply of a send, exactly: bad destination for users to other than MM and FS and for everybody to a free slot, bad address, deadlock, OK, in this order; a refused send changes nothing |
| KernelAnswers.CallReplies | exercise-2/minix_usr/src/kernel/proc.c:121-153 | each reply of a call, exactly: bad source, no permission, and those of the send; a refused call changes nothing |
| KernelAnswers.BlocksOnLiving | exercise-2/minix_usr/src/kernel/proc.c:175-234 | in every legal entry, whoever begins to wait to send waits for a process in use |
| KernelCalls.MessageArrives | exercise-2/minix_usr/src/kernel/proc.c:211-236 | a message delivered at once is the one that was sent, under the sender's name; one that is not waits last in the queue of its receiver and is what a receive takes |
| KernelCalls.SysCallKeeps | exercise-2/minix_usr/src/kernel/proc.c:121-153 | send, receive and both keep the whole invariant for every caller and argument, apart from sends to oneself and sends of tasks and servers to ANY |
| KernelCalls.CurrentRuns | exercise-2/minix_usr/src/kernel/proc.c:302-328 | the running process is alive, unblocked, and the head of the first queue that is not empty |
| KernelSteps.WantedIn | exercise-2/minix_usr/src/kernel/proc.c:260-274 | a receive takes the first waiting sender it accepts, and none exactly when there is none |
| KernelSteps.MmTakesAtOnce | exercise-2/minix_usr/src/kernel/proc.c:291-295 | MM, waiting for any message, is not blocked sending and takes one directly |
| KernelSteps.InformKeeps | exercise-2/minix_usr/src/kernel/system.c:1075-1100 | informing MM finds a process with signals, never panics, keeps the invariant, and leaves MM not waiting |
| KernelSteps.MiniRecKeeps | exercise-2/minix_usr/src/kernel/proc.c:242-297 | a receive by a task or server keeps the invariant, the pending-signal message included |
| KernelAnswers.ReceiveExact | exercise-2/minix_usr/src/kernel/proc.c:242-297 | a receive returns with the message of the first in the queue that it asks for, else with a stored interrupt, else, for MM asking for any, with all signals of the first process that has some; it waits exactly when there is none of these |
| KernelAnswers.StepWhole | exercise-2/minix_usr/src/kernel/proc.c:51-547 | what any legal entry leaves to a process it is not about: it waits for the same, or has got a message it asked for; its flags, signals and counts are as before, or MM has been told all of its signals |
| KernelEvents.InterruptKeeps | exercise-2/minix_usr/src/kernel/proc.c:51-116 | an interrupt, held up or not, keeps the invariant |
| KernelEvents.InterruptNotLost | exercise-2/minix_usr/src/kernel/proc.c:75-115 | an interrupt wakes its task with a message from the hardware, or is held up, or is remembered |
| KernelFrames.InterruptsKept | exercise-2/minix_usr/src/kernel/proc.c:51-116 | in every legal entry a stored or held-up interrupt stays so, unless a receive of its task returns with the message from the hardware |
| KernelFrames.InterruptComes | exercise-2/minix_usr/src/kernel/proc.c:51-116 | over every legal run that begins with an interrupt, a receive of its task returns with it, or it is still stored or held up at the end |
| KernelEvents.StoredInterruptTaken | exercise-2/minix_usr/src/kernel/proc.c:276-282 | a remembered interrupt is what the task receives next, unless a process is waiting with a message |
| KernelEvents.UnholdAllMeaning | exercise-2/minix_usr/src/kernel/proc.c:528-547 | flushing the held queue wakes or marks each of its tasks and touches nobody else |
| KernelEvents.CauseSigKeeps | exercise-2/minix_usr/src/kernel/system.c:1034-1069 | causing a signal keeps the invariant, the signal counts included |
| KernelAnswers.CauseExact | exercise-2/minix_usr/src/kernel/system.c:1034-1069 | a new signal is counted and joins those that wait, or MM is told of them at once, exactly if it waits for any message; one that is there already changes nothing |
| KernelSignals.SignalKept | exercise-2/minix_usr/src/kernel/system.c:1034-1100 | in every legal entry a signal stays with its process until a receive of MM returns with it, or the process exits |
| KernelSignals.SignalComes | exercise-2/minix_usr/src/kernel/system.c:1034-1100 | over every legal run that begins with a signal MM is told of it, or it still waits at the end, or the process has exited |
| KernelSignals.CountExact | exercise-2/minix_usr/src/kernel/system.c:647-665 | the count of a process goes up by one for each new signal and down by one for each that is ended, and does not change otherwise |
| KernelEvents.EndsigKeeps | exercise-2/minix_usr/src/kernel/system.c:647-665 | ending a signal MM was told of keeps the invariant |
| KernelEvents.EndsigExact | exercise-2/minix_usr/src/kernel/system.c:661-663 | the signal counts stay right exactly when the signal ended was told to MM or the process has none |
| KernelHazards.EndsigHarms | exercise-2/minix_usr/src/kernel/system.c:661-663 | one signal from boot leads to a state in which ending it spoils the counts |
| KernelAnswers.EndsigCounts | exercise-2/minix_usr/src/kernel/system.c:657-664 | ending a told signal counts it down and lets the process run when it was the last |
| KernelEvents.SignalledNeverReady | exercise-2/minix_usr/src/kernel/system.c:1046-1050 | a process with an unfinished signal is on no ready queue and does not run |
| KernelProcesses.XitKeeps | exercise-2/minix_usr/src/kernel/system.c:380-441 | an exit in any state keeps the invariant |
| KernelAnswers.ExitProcs | exercise-2/minix_usr/src/kernel/system.c:380-441 | the slot is free afterwards, without signals, and no other slot changes |
| KernelProcesses.ExitedIsGone | exercise-2/minix_usr/src/kernel/system.c:402-430 | after its exit a process is on no queue and does not run |
| KernelProcesses.ForkExact | exercise-2/minix_usr/src/kernel/system.c:201-255 | a fork keeps the invariant exactly when the parent waits to send to nobody and nobody waits to send to the parent or the child's slot |
| KernelHazards.ForkHarms | exercise-2/minix_usr/src/kernel/system.c:201-255 | five calls from boot lead to a fork the kernel carries out and after which the table is out of order |
| KernelAnswers.ForkChild | exercise-2/minix_usr/src/kernel/system.c:225-255 | the child is its parent with its own identifier, held back, without signals, its turn not begun, and with the one of the priorities 10 and 50 that was not given last; nothing else changes |
| KernelProcesses.NewmapKeeps | exercise-2/minix_usr/src/kernel/system.c:290-292 | a child is made ready exactly when its map was all it lacked |
| KernelAnswers.NewmapReadies | exercise-2/minix_usr/src/kernel/system.c:290-292 | a process that lacked nothing but its map is then on the user queue, once |
| KernelProcesses.SetpriGetpri | exercise-2/minix_usr/src/kernel/system.c:1245-1279 | a priority set is read back, 15 if it was out of range; other processes keep theirs; 0 stands for an unknown process |
| KernelProcesses.SchedKeeps | exercise-2/minix_usr/src/kernel/proc.c:434-455 | the scheduler keeps the invariant |
| KernelRuns.StepKeeps | exercise-2/minix_usr/src/kernel/proc.c:51-547 | every legal kernel entry keeps the invariant |
| KernelRuns.BootInv | exercise-2/minix_usr/src/kernel/proc.h:68-81 | a table with nobody blocked and every live process queued satisfies the invariant |
| KernelRuns.SmallestBoots | exercise-2/minix_usr/src/kernel/proc.h:83-93 | there is such a table |
| KernelTables.KernelTable.constructor | exercise-2/minix_usr/src/kernel/proc.c:476-501 | a table at boot, built by making every live slot ready through the links and picking one, is what the runs start from |
| KernelRuns.Run | exercise-2/minix_usr/src/kernel/proc.c:51-547 | every legal run keeps the invariant |
| KernelRuns.InvInOrder | exercise-2/minix_usr/src/kernel/proc.c:51-547 | in the kernel's words: caller and ready queue membership once and exactly by flags, an acyclic waiting graph, no panic, no untold signal while MM waits, held tasks once on the held queue |
| KernelRuns.RunInOrder | exercise-2/minix_usr/src/kernel/proc.c:51-547 | all of that after every legal run |
| KernelOrder.StepOrderly | exercise-2/minix_usr/src/kernel/proc.c:333-429 | in every legal entry but the clock's, those who stay on a ready queue keep their order; a task or server that joins stands behind all of them, a user process in front; MM joins anew when its own receive returns with signals |
| KernelOrder.StepCallers | exercise-2/minix_usr/src/kernel/proc.c:220-274 | in every legal entry those who stay on a caller queue keep their order, and who joins stands last |
| KernelOrder.StepHeld | exercise-2/minix_usr/src/kernel/proc.c:75-88 | the held queue gets a task at its end when its interrupt is held up for the first time, loses its head when that is repeated, and does not change otherwise |
| KernelBilling.StepBills | exercise-2/minix_usr/src/kernel/proc.c:302-328 | in every legal entry the bill stays or goes to the user process that is next; while a user process or the idle process runs, it is the one billed |
| KernelBilling.RunBilled | exercise-2/minix_usr/src/kernel/proc.c:302-328 | so it is after every legal run from a table in which it is |
| KernelBilling.BootBilled | exercise-2/minix_usr/src/kernel/proc.c:302-328 | at boot it is so, since MM is ready |
| KernelFrames.LettersKept | exercise-2/minix_usr/src/kernel/proc.c:220-234 | in every legal entry a blocked sender keeps what it has to say and to whom, unless it exits or its receiver's call returns with exactly that message |
| KernelFrames.MessageComes | exercise-2/minix_usr/src/kernel/proc.c:220-271 | over every legal run the message of a blocked sender is heard, or still waits unchanged at the end, or the sender has exited |
| KernelFrames.SentComes | exercise-2/minix_usr/src/kernel/proc.c:158-271 | the same from the send on: whatever is sent with a reply of OK is taken at once by a waiting receiver, or heard during the run, or still waits, unless the sender exits |
| RoundRobin.Round | exercise-2/minix_usr/src/kernel/proc.c:434-455 | after the sum of the turns of the first processes in the queue these have moved behind the others, with counters at zero, and the others are untouched |
| RoundRobin.TurnComes | exercise-2/minix_usr/src/kernel/proc.c:434-455 | the process at position k becomes head after exactly the sum over those before it of priority minus counter plus one, and stays for exactly its own |
| RoundRobin.NextTurn | exercise-2/minix_usr/src/kernel/proc.c:443-446 | the next process is on exactly one turn later |
| RoundRobin.RoundComplete | exercise-2/minix_usr/src/kernel/proc.c:448-454 | a whole round restores the queue, with all counters at zero |
| RoundRobin.TurnNeverEnds | exercise-2/minix_usr/src/kernel/proc.c:443-446 | with a counter above the priority the head never changes |
| RoundRobin.SecondComesExact | exercise-2/minix_usr/src/kernel/proc.c:443-454 | the second in line ever gets its turn exactly when the head's counter is not above its priority |
| RoundRobin.SetpriExact | exercise-2/minix_usr/src/kernel/system.c:1261-1279 | with no user process overrun, ready or not, a new priority leaves none overrun exactly when it is not below the counter of the live process it is for |
| KernelTurns.StepInTurn | exercise-2/minix_usr/src/kernel/proc.c:51-547 | of all legal entries exactly a request for such a priority makes a user process overrun its turn |
| KernelTurns.RunInTurn | exercise-2/minix_usr/src/kernel/proc.c:51-547 | after every legal run without such a request nobody has overrun |
| KernelTurns.EverybodysTurn | exercise-2/minix_usr/src/kernel/proc.c:434-455 | so after every such run the process at any place of the user queue is at its head after exactly the turns of those before it, for exactly its own |
| KernelTurns.LoweredStarvesOthers | exercise-2/minix_usr/src/kernel/proc.c:443-446 | after a priority below the counter, set for a process ready or not, whatever legal run follows without its exit or another such request: once that process is at the head, the clock never changes the queues again |
| KernelHazards.SetpriHarms | exercise-2/minix_usr/src/kernel/system.c:1261-1279 | a run from boot of one request and two ticks leads to a request that makes a process overrun |
| KernelTables.KernelTable.Ready | exercise-2/minix_usr/src/kernel/proc.c:333-371 | joining a ready queue by its links: tasks and servers at the tail, users in front |
| KernelTables.KernelTable.Unready | exercise-2/minix_usr/src/kernel/proc.c:376-429 | leaving a ready queue by its links, tail pointer and choice of the next process included |
| KernelTables.KernelTable.PickProc | exercise-2/minix_usr/src/kernel/proc.c:302-328 | the choice of the process to run and of the one to bill |
| KernelTables.KernelTable.Sched | exercise-2/minix_usr/src/kernel/proc.c:434-455 | the rotation by links, also of a queue of one |
| KernelTables.KernelTable.Locked | exercise-2/minix_usr/src/kernel/proc.c:198-208 | the walk along waiting senders ends and finds the caller exactly when the chain leads to it |
| KernelTables.KernelTable.MiniSend | exercise-2/minix_usr/src/kernel/proc.c:158-237 | sending in place, to oneself included: all checks, delivery, or blocking at the end of the caller queue |
| KernelTables.KernelTable.MiniRec | exercise-2/minix_usr/src/kernel/proc.c:242-297 | receiving in place: the search, the unlinking, the stored interrupt, blocking, the pending signals |
| KernelTables.KernelTable.SysCall | exercise-2/minix_usr/src/kernel/proc.c:121-153 | the entry in place, sends to oneself included, and that it keeps the invariant for all others |
| KernelTables.KernelTable.Interrupt | exercise-2/minix_usr/src/kernel/proc.c:51-116 | an interrupt in place: held up, remembered or delivered |
| KernelTables.KernelTable.Unhold | exercise-2/minix_usr/src/kernel/proc.c:528-547 | the loop over the held queue in place |
| KernelTables.KernelTable.CauseSig | exercise-2/minix_usr/src/kernel/system.c:1034-1069 | causing a signal in place |
| KernelTables.KernelTable.Inform | exercise-2/minix_usr/src/kernel/system.c:1075-1100 | telling MM in place |
| KernelTables.KernelTable.DoEndsig | exercise-2/minix_usr/src/kernel/system.c:647-665 | ending a signal in place |
| KernelTables.KernelTable.DoXit | exercise-2/minix_usr/src/kernel/system.c:380-441 | an exit in place, the search through all caller queues included |
| KernelTables.KernelTable.DoFork | exercise-2/minix_usr/src/kernel/system.c:201-255 | a fork in place: the whole slot is copied, links included, and the ready queues survive that |
| KernelTables.KernelTable.DoNewmap | exercise-2/minix_usr/src/kernel/system.c:290-292 | a process gets its map in place |
| KernelTables.KernelTable.DoGetpri | exercise-2/minix_usr/src/kernel/system.c:1245-1259 | reading a priority |
| KernelTables.KernelTable.DoSetpri | exercise-2/minix_usr/src/kernel/system.c:1261-1279 | setting a priority in place |
| Ring.Written | exercise-4/main.cpp:67-72 | writing at the in index, when a place is free, appends to the queue the ring stands for and spoils no unread item |
| Ring.Read | exercise-4/main.cpp:87-94 | reading at the out index, when an item is there, takes the oldest one |
| MonitorProtocol.MoveKeeps | exercise-4/monitor.h:110-131 | every semaphore operation and every piece of code in the monitor keeps the invariant of its buffer: one right to run, free, handed over or held; waiters counted; whoever may act has room |
| MonitorProtocol.StepKeeps | exercise-4/main.cpp:58-124 | every step of every thread keeps the invariant of all buffers |
| MonitorProtocol.StartInv | exercise-4/main.cpp:49-52 | the invariant holds when all threads are about to enter and the buffers are new |
| MonitorProtocol.RunInv | exercise-4/main.cpp:58-124 | over every schedule the invariant holds and what has been consumed is a prefix of what has been produced, with the counter as the difference |
| MonitorProtocol.ResumedNeedsNoTest | exercise-4/main.cpp:61-72 | a thread about to touch the ring, also after a wait, is alone in the monitor and finds a free place or an item |
| MonitorProtocol.FreeMutexWaiters | exercise-4/monitor.h:120-131 | while the mutex is free a producer waits only on a full ring and a consumer only on an empty one |
| MonitorProtocol.BufferProgress | exercise-4/main.cpp:58-99 | a buffer with a producing and a consuming thread always has a thread that can step |
| MonitorProtocol.NoDeadlock | exercise-4/main.cpp:102-124 | with a consumer for each buffer and one thread that produces, some thread can always step |
| MonitorWork.EntrepreneurAt | exercise-4/main.cpp:109-117 | over every schedule an entrepreneur that starts at buffer s and completes j calls is at buffer s + j modulo the number of buffers |
| MonitorWork.EntrepreneurFair | exercise-4/main.cpp:109-117 | over every schedule the numbers of items it has made for any two buffers differ by at most one |
| MonitorWork.OthersStay | exercise-4/main.cpp:102-124 | every other thread stays at its buffer |
| MonitorWork.ComesOut | exercise-4/main.cpp:58-99 | over every schedule from the start what has come out of a buffer is the beginning of the items the schedule has put in, as many as there were takes |
| MonitorWork.RunShows | exercise-4/main.cpp:49-99 | over every schedule the places of a ring without an item hold -1 |
| IntegerBufferMonitors.IntegerBufferMonitor.constructor | exercise-4/main.cpp:49-52 | a new buffer is empty, its mutex free, and nobody waits |
| IntegerBufferMonitors.IntegerBufferMonitor.Advance | exercise-4/main.cpp:58-99 | what a thread in produce or consume does between two stages is the step of the protocol |
| SemaphoreProtocol.MoveKeeps | exercise-3/main.cpp:100-133 | every operation keeps the invariant: empty, full and the processes between the semaphores add up to the size; one process in the critical section; the ring is a queue |
| SemaphoreProtocol.StepKeeps | exercise-3/main.cpp:100-178 | every step of every process keeps the invariant of all buffers |
| SemaphoreProtocol.StartInv | exercise-3/main.cpp:51-65 | the invariant holds at the start |
| SemaphoreProtocol.RunInv | exercise-3/main.cpp:100-178 | over every schedule the invariant holds and what has been consumed is a prefix of what has been produced |
| SemaphoreProtocol.Exclusion | exercise-3/main.cpp:104-110 | two processes are never in the critical section of one buffer |
| SemaphoreProtocol.BufferProgress | exercise-3/main.cpp:100-133 | a buffer with a producing and a consuming process is never stuck |
| SemaphoreProtocol.NoDeadlock | exercise-3/main.cpp:146-178 | with a consumer for each buffer and one process that produces, the system never deadlocks |
| SemaphoreWork.EntrepreneurAt | exercise-3/main.cpp:146-163 | over every schedule an entrepreneur that starts at buffer s and completes j calls is at buffer s + j modulo the number of buffers |
| SemaphoreWork.EntrepreneurFair | exercise-3/main.cpp:146-163 | over every schedule the numbers of items it has made for any two buffers differ by at most one |
| SemaphoreWork.OthersStay | exercise-3/main.cpp:135-178 | every other process stays at its buffer |
| SemaphoreWork.ComesOut | exercise-3/main.cpp:100-133 | over every schedule from the start what has come out of a buffer is the beginning of the items the schedule has put in, as many as there were takes |
| IntegerBuffers.IntegerBuffer.constructor | exercise-3/main.cpp:51-65 | a new buffer has its semaphores at 1, size and 0 and is empty |
| IntegerBuffers.IntegerBuffer.Advance | exercise-3/main.cpp:100-133 | what a process does between two stages, on three semaphore objects, is the step of the protocol |
| VfsSpec.LayoutFits | exercise-6/main.cpp:43-50 | the tables of every system that may be created fit its disk, with less than a block left over |
| VfsFiles.CreatedSystem | exercise-6/main.cpp:203-224 | a system is refused exactly below 1048576 bytes, and else has one index node for every 8192 bytes and as many blocks as then fit, all clear |
| VfsSpec.OffsetIndex | exercise-6/main.cpp:192-198 | the offset of a block leads back to the block |
| VfsSpec.DeleteFrom | exercise-6/main.cpp:243-253 | deleting along links ends on every disk, cyclic ones included, and keeps the sizes of all blocks |
| VfsChains.WriteMeaning | exercise-6/main.cpp:316-338 | writing succeeds exactly when enough blocks are free; then the first of them hold the file and no other block changes |
| VfsChains.ReadHeld | exercise-6/main.cpp:367-378 | reading a chain gives the file it holds |
| VfsChains.DeleteMeaning | exercise-6/main.cpp:240-253 | with all links at block boundaries, deleting clears exactly the blocks reachable from the first one |
| VfsFiles.CopyOutcome | exercise-6/main.cpp:287-329 | a copy is refused for space exactly when the file exceeds the free blocks with their links, runs out of blocks exactly when it passes that check and exceeds their data, and succeeds otherwise |
| VfsFiles.CopyReplies | exercise-6/main.cpp:264-311 | a copy is refused, changing nothing, exactly if the name is there, or else no index node is free, or else the file is too large; otherwise the first free index node is written, and no other |
| VfsFiles.CopyToFrom | exercise-6/main.cpp:264-384 | a file just copied to the system comes back byte for byte, whatever its content and on whatever disk, exactly when its name is shorter than 512 |
| VfsFiles.HeldReaches | exercise-6/main.cpp:327-329 | from the first block of a file one reaches its own blocks and what hangs on block 0 |
| VfsRuns.CopyKeeps | exercise-6/main.cpp:264-344 | a new file with a good name and no all-zero block takes blocks of no other file |
| VfsRuns.RemoveKeeps | exercise-6/main.cpp:226-262 | removing a file when block 0 is free or its own clears its blocks and keeps all other files in order |
| VfsFiles.DeleteReplies | exercise-6/main.cpp:226-258 | a removal is refused, changing nothing, exactly if the name is not there, and else clears the index node that has it first |
| VfsRuns.RemoveExact | exercise-6/main.cpp:240-258 | removing a file leaves all others intact exactly when block 0 is free or its own |
| VfsHazards.FirstFileLost | exercise-6/main.cpp:240-258 | on every new system: two small files are copied, the second is removed, and the first is lost |
| VfsRuns.FileReads | exercise-6/main.cpp:346-384 | every file in order is read back exactly |
| VfsFiles.ReadReplies | exercise-6/main.cpp:346-356 | a name is not found exactly when no index node has it |
| VfsRuns.StepAgrees | exercise-6/main.cpp:226-344 | a command does to the disk what it does to a catalogue of names and contents, with the right outcome |
| VfsRuns.Run | exercise-6/main.cpp:226-344 | over every legal run the disk agrees with the catalogue |
| VfsRuns.FreshAgrees | exercise-6/main.cpp:203-224 | a new system is an empty catalogue |
| VfsRuns.RunReads | exercise-6/main.cpp:203-384 | from a new system on, after every legal run, every name reads as what was last copied under it and not removed, or is not found |
| VfsHazards.TakenExact | exercise-6/main.cpp:140-142 | the blocks of a file count as taken exactly when none of its chunks is all zero |
| VfsHazards.ZeroFileOverwritten | exercise-6/main.cpp:140-161 | any file of zeros is overwritten by the next file |
| VfsHazards.EmptyFileHarms | exercise-6/main.cpp:309-314 | removing an empty file destroys the file that was given its block |
| VfsHazards.EmptyRemoveExact | exercise-6/main.cpp:240-258 | removing an empty file leaves all files intact exactly when the block it names counts as free at that moment, and then the disk is the one without it |
| VfsHazards.EmptyWithoutBlock | exercise-6/main.cpp:309-314 | an empty file made on a full system names a place in front of the blocks; removing it leaves the table |
| VirtualFileSystems.VirtualFileSystem.constructor | exercise-6/main.cpp:203-224 | a new system in place |
| VirtualFileSystems.VirtualFileSystem.IsDataBlockFree | exercise-6/main.cpp:140-142 | the scan of a block for a byte other than zero |
| VirtualFileSystems.VirtualFileSystem.GetNextFreeDataBlockIndex | exercise-6/main.cpp:153-170 | the scan for the next free block |
| VirtualFileSystems.VirtualFileSystem.GetAmountOfFreeDataBlocks | exercise-6/main.cpp:172-180 | the count of free blocks |
| VirtualFileSystems.VirtualFileSystem.GetFirstFreeINodeIndex | exercise-6/main.cpp:144-151 | the scan for a free index node |
| VirtualFileSystems.VirtualFileSystem.GetINodeIndex | exercise-6/main.cpp:182-190 | the scan for a name |
| VirtualFileSystems.VirtualFileSystem.DeleteFile | exercise-6/main.cpp:226-262 | removing a file in place, also along cyclic links |
| VirtualFileSystems.VirtualFileSystem.CopyFileToSystem | exercise-6/main.cpp:264-344 | copying to the system in place, all refusals included |
| VirtualFileSystems.VirtualFileSystem.CopyFileFromSystem | exercise-6/main.cpp:346-384 | copying from the system: the bytes and the outcome |
| ProcessTree.CountChildren | exercise-1/minix_usr/src/mm/main.c:182-193 | the count is the number of other slots in use with this parent |
| ProcessTree.CountDescendants | exercise-1/minix_usr/src/mm/main.c:226-255 | on every table, cyclic or not, the count is the number of other slots in use from which parent links through slots in use lead to the argument; the search ends and its stack stays inside the table |
| ProcessTree.DescendantsNest | exercise-1/minix_usr/src/mm/main.c:226-255 | descendants of a descendant, and children, are descendants |
| ProcessTree.CycleCountsOthers | exercise-1/minix_usr/src/mm/main.c:232-250 | processes on a cycle of parents count each other but not themselves, and have equal counts |
| ProcessTree.RootHasMost | exercise-1/minix_usr/src/mm/main.c:226-274 | a root above all slots in use counts all others, and more than any process not above it |
| ProcessTree.MostChildren | exercise-1/minix_usr/src/mm/main.c:195-213 | the first of those with the most children, among processes with an identifier other than 0, or -1 and -1 |
| ProcessTree.MostDescendants | exercise-1/minix_usr/src/mm/main.c:257-274 | the first of those with the most descendants, the excluded process left aside, or -1 and -1 |

## Left out

- Integer widths: addresses, counters, sizes and priorities are unbounded integers; `swap_maxsize` bounds the swap area instead of address wrap-around, and a block index is not cut to 32 bits. Accesses through offset 0 or past the end are an outcome of their own.
- `rw_seg` is an exact copy between memory and file; `sys_newmap`, `check_pending`, `tell_fs` and `sys_copy` do nothing to the modelled state. Images that alias segments, and text segments other than as blocks of slots above the process slots, are not modelled.
- `NO_MEM` is not part of this repository; a request that fails is a missing value.
- MemoryRuns.RunMeaning: under worst fit a run may use swap_in and swap_off only with a click of memory left over, which is enough but not always needed; what is needed exactly is the condition of `MemoryRuns.SwapInMeaning`, turn by turn.
- SwapResults.SwapInLeaves: asks that no process would be swapped out to make room, because then room may come up again behind a process that had none at its turn; SwapResults.SwapOffLeaves asks the same.
- `mem_init` reports the sum of the chunks and the total memory to its caller; these two numbers are not modelled.
- SwapQueue.StepKeepsComplete: asks that swap_off finds no stale slot on the queue, which is enough but not always needed.
- `do_hole_map` and `do_worst_fit`: a copy to user space and a switch; the policy may change at any step of a run.
- `do_exec`, tracing, alarms, accounting times, memory maps and message addresses of the kernel: whether a message lies in the caller's memory is a parameter. Stack guards and their panic are not modelled.
- The boot code of the kernel is not part of this repository; a table with nobody blocked, made ready slot by slot, stands for its result.
- KernelTables.KernelTable.SysCall: asks that tasks and servers do not send to `ANY`, for which the source reads outside its table.
- KernelCalls.SysCallKeeps: asks for the same, and that no process sends to itself; the failing case is `KernelCalls.SelfSendNotCaught`.
- KernelTables.KernelTable.DoFork: asks for a table in order, where the function it is tied to is defined on every table.
- KernelTables.KernelTable.Unhold: interrupts that arrive between two iterations are not interleaved in this method; in the runs each iteration is a step of its own, between which other interrupts may be held up.
- The tests of `k_reenter` and `switching` are one parameter of the interrupt, which may be true at any time.
- KernelProcesses.XitKeeps: senders that wait for the exiting process stay blocked on its slot, as in the source; a fork into that slot is then excluded.
- Processes and threads, shared memory, sleeping, random products and output of the two buffers: a product is an arbitrary value, and the semaphores are those of the POSIX branch.
- Fairness: no thread or process is shown to get its turn, apart from the round robin of user processes; deadlock freedom says that someone can step.
- Command lines, host files, listings and removal of a whole file system; the disk is its records, not its bytes, and each command is load, work, write back as one step.
- VfsSpec.DeleteFrom: a link inside a block counts as one to its beginning, where the source clears the block in memory and writes at the raw offset; no system made by the program has such a link, and VfsChains.DeleteMeaning asks for none. On a link that leaves the table the outcome says so, and what the program does from there on is not modelled.
- The message loops of MM and FS, the clock driver, system call tables, and the branches for other processors and for Windows.
