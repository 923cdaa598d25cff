# Verified model of the Rhino kernel and its key-value store

This project models the data structures and protocols of the AliOS Things kernel "Rhino" and of its
flash key-value store, and proves what they promise. `dafny verify dfyconfig.toml` checks everything.

| component | files | source |
|---|---|---|
| heap allocator | Bits, HeapTiles, HeapIndex, HeapSums, HeapFacts, Heap | k_mm.c |
| slab pool; heap and pool together | Slab, HeapPool | k_mm_blk.c, k_mm.c |
| tasks, mutexes with priority inheritance, semaphores, events, ticks | Lists, Flags, ReadyQueue, KernelState, PriorityChain, KernelLists, KernelInv, KernelSteps, KernelProofs, MutexProofs, CallProofs, TaskProofs, KernelStale, KernelKeeps, KernelRun, KernelEffects, KernelCalls, KernelEvents, KernelPri, KernelNesting, KernelLocked, KernelTwice, KernelTimes, KernelTicks, KernelWaits, KernelImpl | k_mutex.c, k_task.c, k_pend.c, k_tick.c, k_sched.c, k_sem.c, k_event.c |
| run queue and tick list in the source's representation | RunQueue, TickList | k_sched.c, k_tick.c |
| key-value store on NOR flash | KvFlash, KvLog, KvCrc, KvSeek, KvMap, KvStore | kv.c |
| ring buffer and message queue | RingBuf, BufQueue | k_ringbuf.c, k_buf_queue.c |
| red-black tree | RbModel, RbRotate, RbErase, RbRemove, RbTree | k_rbtree.c, k_cfs.c |
| multi-core spin lock, work queue | SpinLock, WorkQueue | k_spin_lock.c, k_workqueue.c |

What the source changes in place is a class here: `Heap`, `Slab`, `Mm` (both together), `Rhino` (the
kernel), `RunQueue`, `TickList`, `Flash`, `Kv`, `RingBuf`, `BufQueue`, `RbTree`. Its methods follow the
source routine by routine, loops included, and are proved against specification functions and predicates about values;
the lemmas are about those. The two protocols that run in parallel, `SpinLock` and `WorkQueue`, are
state machines whose lemmas hold for every interleaving.

The kernel is modelled twice. `KernelSteps` gives each call as a function from state to state, and
`KernelRun.StepInv` proves that each keeps the invariant: a task is on the ready list iff it is ready,
on the wait list of its object iff it is pending, on the tick list only while sleeping or pending;
every live task runs at the least of its base priority and the priorities of the first waiters on the
mutexes it holds; nobody waits for a token or a flag that is there; the running task is the preferred
one. What each call answers, does and leaves alone is told without the functions' own terms: by
`KernelEffects` and `KernelCalls`, bit by bit for events (`Flags`, `KernelEvents`), along chains of blocked owners
for priorities (`KernelPri`), over repeated calls for everything that nests (`KernelNesting`,
`KernelLocked`). `KernelTicks` and `KernelWaits` prove that timed waits end with the right tick, and for
the right reason, over any run. `KernelImpl.Rhino` changes tables and lists step by step as the source
does, and each method is proved to reach the state the function gives.

Some promises hold under a condition only, and the condition is proved to be exact:

- a kernel call keeps the invariant iff it is safe (`KernelRun.StepIff`). The call that is not is
  `krhino_task_del` on a task that is dead already: it frees the mutexes that the task's old list still
  leads to, whoever has them now, before it returns an error (`KernelStale.TaskDelIff`,
  `KernelTwice.ExampleTwice`); and the idle task may neither block nor take a mutex;
- a mutex that a dead task leaves to its first waiter is given up with the heir's first unlock iff the
  dead task had locked it once: `task_mutex_free` does not reset the depth, as the unlock does
  (`KernelNesting.HeirUnlocks`, `KernelNesting.ExampleHeir`);
- what is stored in the key-value store is found again iff its key is not empty
  (`KvSeek.StoredFoundIff`); an item with an empty key, whose value looks like no header, hides the one
  behind it unless it takes a whole number of header lengths (`KvSeek.BehindEmptyIff`, `KvSeek.LostKey`);
- rounding a request (`HeapFacts.RoundedIff`), copying out of a pool block (`HeapPool.CopyFitsIff`), the
  room test of the ring buffer (`RingBuf.TooBigIff`), delays of the tick list
  (`TickList.NeverEarlyIff`), and the packed count of the spin lock (`SpinLock.BumpIff`).

Configuration: one core for the kernel, no CFS tasks, mutex inheritance on, 62 priorities, 64-bit
ticks, 32-bit addresses; heap blocks between 2^5 and 2^28 bytes by default, with both search orders;
two blocks of 4096 bytes for the key-value store. The level formula in the comment of k_mm.h is off by
one from the code; the model follows the code.

## Model

| member | source | states |
|---|---|---|
| HeapFacts.RoundedIff | haas100/kernel/rhino/k_mm.c:428-429 | in 32-bit arithmetic the rounded size covers the request iff the request is not one of the last seven sizes, whose rounding wraps |
| HeapFacts.RoundedLeast | haas100/kernel/rhino/k_mm.c:428-429 | the rounded size is the least aligned size that covers the request and is no smaller than the smallest block; a request whose rounding wraps gets the smallest block |
| HeapFacts.ServedIff | haas100/kernel/rhino/k_mm.c:428-470 | rounding and levels turn away no request that a free block could serve: some free block has the rounded size and a level iff some free block has the bytes asked for |
| HeapFacts.FreeHasLevel | haas100/kernel/rhino/k_mm.c:116-129 | every free block of a region within the size limit has a valid level |
| HeapIndex.LevelIff | haas100/kernel/rhino/k_mm.c:116-129 | a size has level `l` iff it lies between the two powers of two that bound the level; level 0 has all smaller sizes as well, and no level goes beyond the largest size |
| HeapIndex.LevelMono | haas100/kernel/rhino/k_mm.c:116-129 | a larger size never has a smaller level |
| HeapIndex.HigherFits | haas100/kernel/rhino/k_mm.c:382-394 | a block of a higher level is large enough without looking at its size |
| HeapIndex.SearchComplete | haas100/kernel/rhino/k_mm.c:454-470 | when the own level has nothing large enough and the higher lists are empty, no free block anywhere is large enough |
| HeapIndex.InsertIndexed | haas100/kernel/rhino/k_mm.c:331-351 | inserting keeps the lists equal to the free blocks at their levels, and a bit set iff its list is not empty |
| HeapIndex.DeleteIndexed | haas100/kernel/rhino/k_mm.c:353-380 | so does deleting, which clears the bit exactly when the list becomes empty |
| HeapTiles.RegionTiled | haas100/kernel/rhino/k_mm.c:66-113 | stepping right from any block meets exactly the blocks of its region and ends at the zero-size sentinel |
| HeapTiles.TakeTiling | haas100/kernel/rhino/k_mm.c:473-497 | marking a free block used keeps the tiling: previous-free flags, back links, no two adjacent free blocks |
| HeapTiles.ReleaseTiling | haas100/kernel/rhino/k_mm.c:561-602 | marking a used block between used neighbours free keeps the tiling |
| HeapTiles.JoinTiling | haas100/kernel/rhino/k_mm.c:584-595 | joining two adjacent blocks keeps the tiling |
| HeapTiles.CutTiling | haas100/kernel/rhino/k_mm.c:477-493 | cutting a used block in two keeps the tiling |
| HeapTiles.FreshTiling | haas100/kernel/rhino/k_mm.c:66-113 | a new region that overlaps no other keeps the tiling |
| HeapFacts.ShrinkSplits | haas100/kernel/rhino/k_mm.c:654-685 | when reallocation shrinks a block and has unlinked its free right neighbour, the split test always succeeds |
| HeapFacts.PayloadsApart | haas100/kernel/rhino/k_mm.c:396-515 | the payloads of live blocks share no byte |
| HeapFacts.RegionLenIff | haas100/kernel/rhino/k_mm.c:286-294 | the used part of a region lies inside the given one iff at least as many bytes are given as alignment skips, and then less than eight bytes are left out at either end |
| Bits.Ctz32 | haas100/kernel/rhino/include/k_bitmap.h:76-109 | the halving search finds the lowest set bit of any 32-bit word |
| Bits.Clz32 | haas100/kernel/rhino/include/k_bitmap.h:33-66 | the halving search counts the leading zeros of any 32-bit word |
| Heap.Heap.FreelistInsert | haas100/kernel/rhino/k_mm.c:331-351 | the block is free and listed, and the index agrees with the tiling again |
| Heap.Heap.FreelistDelete | haas100/kernel/rhino/k_mm.c:353-380 | the block is listed no more, and the index agrees with the rest |
| Heap.Heap.FindUpLevel | haas100/kernel/rhino/k_mm.c:382-394 | a block of a higher level if there is one, else none |
| Heap.Heap.FindInLevel | haas100/kernel/rhino/k_mm.c:454-461 | the first block of the level that is large enough, none iff there is none |
| Heap.Heap.Find | haas100/kernel/rhino/k_mm.c:435-471 | in either search order a large enough free block, none exactly when no free block is large enough |
| Heap.Heap.Absorb | haas100/kernel/rhino/k_mm.c:584-587 | a free right neighbour is unlinked and joined |
| Heap.Heap.Split | haas100/kernel/rhino/k_mm.c:477-493 | the rest of a block becomes a free block of its own; live bytes stay |
| Heap.Heap.Alloc | haas100/kernel/rhino/k_mm.c:396-515 | fails iff the request is empty or every free block is smaller than what was asked for, and then changes nothing; else hands out a block that was not live, at least as large and smaller than max(smallest block, size + 8) plus a header and a smallest block; all invariants and all live bytes stay |
| Heap.Heap.Free | haas100/kernel/rhino/k_mm.c:517-605 | exactly this block stops being live, and a free block at least as large is there afterwards; merging on both sides keeps all invariants and all live bytes |
| Heap.Heap.MergeLeft | haas100/kernel/rhino/k_mm.c:589-602 | the second half of freeing: a free left neighbour is merged and re-indexed |
| Heap.Heap.Resize | haas100/kernel/rhino/k_mm.c:654-725 | reallocation in place: the block grows into its free neighbour or shrinks and splits |
| Heap.Heap.Move | haas100/kernel/rhino/k_mm.c:741-752 | reallocation by a new block, a copy and a free |
| Heap.Heap.InPlace | haas100/kernel/rhino/k_mm.c:654-725 | reallocation in place succeeds iff the block, or the block with its free right neighbour, is large enough; else nothing happens |
| Heap.Heap.ReallocBlock | haas100/kernel/rhino/k_mm.c:646-752 | fails iff neither the block, nor the block with its free right neighbour, nor any free block has the bytes asked for, and then loses nothing; else the first min(old, new) bytes are kept, the block is no larger than the request needs, and no other live block is touched |
| Heap.Heap.Realloc | haas100/kernel/rhino/k_mm.c:607-753 | the same with the null pointer and the zero size, which allocate and free |
| Heap.Heap.AddRegion | haas100/kernel/rhino/k_mm.c:273-328 | refused iff too small; else one free block and two guard blocks more, live blocks and the used size unchanged |
| Heap.Heap.constructor | haas100/kernel/rhino/k_mm.c:174-260 | a heap without regions satisfies the invariant |
| HeapSums.SpanPut | haas100/kernel/rhino/k_mm.c:131-163 | the sum over live blocks grows by the block handed out: the used size is a fixed base plus that sum |
| HeapSums.SpanTake | haas100/kernel/rhino/k_mm.c:131-163 | ... and shrinks by the block given back |
| HeapPool.BlocksApart | haas100/kernel/rhino/k_mm.c:396-515 | blocks that are handed out share no byte, whether they come from the heap or from the pool that lies inside one of its blocks |
| HeapPool.HeapKeeps | haas100/kernel/rhino/k_mm.c:396-605 | whatever the heap does with other blocks leaves the bytes of every pool block alone |
| HeapPool.Source | haas100/kernel/rhino/include/k_mm_blk.h:110-113 | the address test tells whether a block came from the pool |
| HeapPool.Mm.Alloc | haas100/kernel/rhino/k_mm.c:396-515 | with the pool in front: fails iff the request is empty or neither the pool, for small requests, nor the heap can serve it; else exactly one block more, large enough, and the bytes of all others stay |
| HeapPool.Mm.FromPool | haas100/kernel/rhino/k_mm.c:415-424 | a small request is served by the pool iff a block of its size type or a larger one can be had |
| HeapPool.Mm.Free | haas100/kernel/rhino/k_mm.c:517-605 | the block goes back to where it came from: exactly one block less, and the bytes of all others stay |
| HeapPool.Mm.ToPool | haas100/kernel/rhino/k_mm.c:529-535 | a block of the pool goes back to its free list; the link overwrites no byte of another block |
| HeapPool.Mm.BlockSize | haas100/kernel/rhino/include/k_mm_blk.h:121-132 | the slice tells the size of a block |
| HeapPool.Mm.ReallocSmall | haas100/kernel/rhino/k_mm.c:632-645 | reallocation of a pool block: fails iff neither can serve the new size, and then changes nothing; else the first min(old, new) bytes are in the new block and those of all others stay |
| HeapPool.Mm.ReallocLarge | haas100/kernel/rhino/k_mm.c:646-752 | reallocation of a heap block: fails iff it does not fit in place and neither pool nor heap can serve it |
| HeapPool.Mm.ServesRounded | haas100/kernel/rhino/k_mm.c:646-752 | asking the heap for the rounded size is asking it for the bytes wanted |
| HeapPool.CopyFitsIff | haas100/kernel/rhino/k_mm.c:632-645 | the bytes copied out of a pool block fit into what a heap block of the rounded size holds iff the rounding does not wrap or the block is no larger than the least heap block |
| HeapPool.Mm.Realloc | haas100/kernel/rhino/k_mm.c:607-753 | the whole call, with the null pointer and the zero size |
| Slab.TypeFits | haas100/kernel/rhino/include/k_mm_blk.h:23-24 | the size type of a request is the least whose blocks hold the request and a pointer |
| Slab.LiveApart | haas100/kernel/rhino/k_mm_blk.c:51-101 | blocks handed out at the same time share no byte |
| Slab.InSlice | haas100/kernel/rhino/k_mm_blk.c:51-101 | a block lies in its slice and so in the pool |
| Slab.PoppedOk | haas100/kernel/rhino/k_mm_blk.c:68-73 | taking from a free list keeps: every block ever cut is handed out or free, counted as such, and the counts add up to the cut bytes |
| Slab.SlicedOk | haas100/kernel/rhino/k_mm_blk.c:75-88 | so does setting a slice aside |
| Slab.CarvedOk | haas100/kernel/rhino/k_mm_blk.c:90-93 | so does cutting the next block, which was never cut before |
| Slab.PushedOk | haas100/kernel/rhino/k_mm_blk.c:122-127 | so does giving a block back; the slice tells its type |
| Slab.ExhaustedIff | haas100/kernel/rhino/k_mm_blk.c:66-88 | a size cannot be had exactly when every byte of its slices is handed out and no slice is left |
| Slab.Slab.constructor | haas100/kernel/rhino/k_mm_blk.c:7-49 | an empty pool |
| Slab.Slab.Alloc | haas100/kernel/rhino/k_mm_blk.c:51-101 | a block that was not handed out, of the least size that can be had, at least as large as asked for; none exactly when no block of this or a larger size can be had |
| Slab.Slab.Free | haas100/kernel/rhino/k_mm_blk.c:103-130 | the block goes to the head of the free list of its own size; an address beyond the pool is refused |
| Lists.InsertPlace | haas100/kernel/rhino/k_pend.c:7-20 | in an ordered list the new element gets its place behind all keys that are not greater and before all that are; the others stay in order |
| Lists.WithoutAt | haas100/kernel/rhino/include/k_list.h:101-105 | removing a node closes the gap and leaves the others in order |
| Lists.InsertSorted | haas100/kernel/rhino/k_pend.c:7-20 | inserting in front of the first greater key keeps a list sorted |
| PriorityChain.PriLimit | haas100/kernel/rhino/k_mutex.c:191-220 | the least of the given priority and the first waiters of the held mutexes |
| PriorityChain.PriLookIsLeast | haas100/kernel/rhino/k_mutex.c:222-263 | the priority looked up is the right-hand side of the inheritance equation |
| PriorityChain.PriChange | haas100/kernel/rhino/k_task.c:560-650 | the propagation loop terminates on every owner/waiter graph, deadlock cycles included |
| PriorityChain.SetPrioAgree | haas100/kernel/rhino/k_task.c:567-612 | giving a task a priority re-sorts exactly its list and keeps all lists in agreement |
| PriorityChain.PriChangeAgree | haas100/kernel/rhino/k_task.c:560-650 | the loop keeps all lists in agreement and changes nothing but priorities and list order |
| PriorityChain.Pass | haas100/kernel/rhino/k_task.c:567-647 | one pass moves the one violation of the equation along the chain, or ends it |
| PriorityChain.PriChangeInherits | haas100/kernel/rhino/k_task.c:560-650 | the loop restores the inheritance equation for every live task |
| KernelInv.RaiseOneWay | haas100/kernel/rhino/k_task.c:613-625 | raising reaches only less urgent tasks and gives them exactly the new priority |
| KernelLists.MoveAgree | haas100/kernel/rhino/k_pend.c:22-99 | a change of task state keeps: ready list iff ready, wait list iff pending, tick list only while sleeping or pending |
| KernelLists.BlockAgree | haas100/kernel/rhino/k_pend.c:50-71 | blocking keeps all lists in agreement |
| KernelLists.FallAsleepAgree | haas100/kernel/rhino/k_task.c:357-359 | so does falling asleep |
| KernelSteps.PassOnAgree | haas100/kernel/rhino/k_task.c:760-789 | handing a mutex over keeps lists and ownership in agreement |
| KernelSteps.PassOnShape | haas100/kernel/rhino/k_task.c:774-787 | what handing over changes: owner, wait list and the two mutex lists, nothing else |
| KernelProofs.LeaveInherits | haas100/kernel/rhino/k_mutex.c:265-281 | when a waiter leaves, resetting the owner only if the priorities are equal is enough to restore the equation |
| KernelProofs.ReleaseInherits | haas100/kernel/rhino/k_mutex.c:47-60 | releasing restores the equation for the releasing task |
| KernelProofs.ReschedInv | haas100/kernel/rhino/k_sched.c:167-231 | rescheduling makes the running task the preferred one |
| KernelRun.LockInv | haas100/kernel/rhino/k_mutex.c:283-378 | locking keeps the kernel invariant, for the idle task wherever it neither gets the mutex nor blocks |
| MutexProofs.MutexUnlockInv | haas100/kernel/rhino/k_mutex.c:380-451 | unlocking keeps the kernel invariant |
| MutexProofs.UnlockOrder | haas100/kernel/rhino/k_mutex.c:417-446 | releasing first and handing over afterwards ends in the same state as the reverse order |
| MutexProofs.FreeHasNoWaiters | haas100/kernel/rhino/k_mutex.c:324-339 | an unowned mutex has no waiters |
| KernelRun.TakeInv | haas100/kernel/rhino/k_sem.c:237-290 | taking keeps the invariant, for the idle task wherever it does not block; a positive count means nobody waits |
| CallProofs.SemGiveInv | haas100/kernel/rhino/k_sem.c:160-221 | giving keeps the invariant |
| CallProofs.SemCountSetInv | haas100/kernel/rhino/k_sem.c:292-330 | setting the count keeps the invariant |
| KernelRun.GetInv | haas100/kernel/rhino/k_event.c:160-247 | waiting for flags keeps the invariant, for the idle task wherever it does not block: no waiter's condition holds; what the call answers is told by GetAnswer and Took |
| CallProofs.EventWakeKeeps | haas100/kernel/rhino/k_event.c:281-318 | the loop wakes every waiter whose condition the snapshot meets, and clearing on the way leaves the others unsatisfied |
| CallProofs.EventSetInv | haas100/kernel/rhino/k_event.c:249-323 | setting flags keeps the invariant |
| KernelRun.SleepInv | haas100/kernel/rhino/k_task.c:335-373 | sleeping keeps the invariant, for the idle task wherever the call is refused |
| TaskProofs.TaskYieldInv | haas100/kernel/rhino/k_task.c:375-385 | yielding keeps the invariant |
| TaskProofs.TaskSuspendInv | haas100/kernel/rhino/k_task.c:399-471 | suspending keeps the invariant |
| TaskProofs.TaskResumeInv | haas100/kernel/rhino/k_task.c:473-521 | resuming keeps the invariant |
| TaskProofs.TaskPriChangeInv | haas100/kernel/rhino/k_task.c:652-700 | a new base priority keeps the invariant |
| TaskProofs.WaitAbortInv | haas100/kernel/rhino/k_task.c:702-757 | aborting a wait keeps the invariant |
| TaskProofs.TickUpdateInv | haas100/kernel/rhino/k_tick.c:47-113 | expiry keeps the invariant |
| KernelStale.FreeStaleIff | haas100/kernel/rhino/k_task.c:760-789 | walking the mutex list of a dead task keeps the invariant iff the walk reaches no mutex that has an owner |
| KernelStale.TaskDelIff | haas100/kernel/rhino/k_task.c:791-900 | deleting a task, live or dead, keeps the invariant iff the task is alive or the idle task, or its old mutex list reaches no mutex that has an owner |
| KernelStale.OwnerRobbed | haas100/kernel/rhino/k_task.c:760-789 | ... and if it does reach one, the live owner still lists the mutex and owns it no more |
| KernelStale.StaleWalkEnds | haas100/kernel/rhino/k_task.c:767-770 | the loop that follows old links ends, whichever task it starts from |
| KernelStale.PassOnLinked | haas100/kernel/rhino/k_task.c:767-787 | passing a mutex on keeps the order of old links that makes it end |
| KernelTwice.SecondDeletion | haas100/kernel/rhino/k_task.c:791-900 | a dead task whose old list starts with a mutex of another task: deleting it again returns an error, and frees the mutex under its owner |
| KernelTwice.TwiceShared | haas100/kernel/rhino/k_task.c:760-900 | delete the owner of a mutex that one task waits for, twice: that task then lists a mutex without owner |
| KernelTwice.ExampleTwice | haas100/kernel/rhino/k_task.c:760-900 | a concrete state of three tasks in which this happens |
| TaskProofs.TaskCreateInv | haas100/kernel/rhino/k_task.c:47-183 | creating a task keeps the invariant |
| TaskProofs.ObjCreateInv | haas100/kernel/rhino/k_mutex.c:7-40 | creating an object keeps the invariant |
| TaskProofs.ObjDelInv | haas100/kernel/rhino/k_mutex.c:62-109 | deleting an object keeps the invariant |
| KernelRun.StepInv | haas100/kernel/rhino/k_task.c:335-900 | every safe kernel call keeps the kernel invariant: list agreement, signals, the inheritance equation and the choice of the running task |
| KernelRun.StepIff | haas100/kernel/rhino/k_task.c:335-900 | a call with valid handles keeps the invariant iff it is safe: the idle task neither blocks nor takes a mutex, and a task is not deleted once more while its old mutex list reaches a mutex that has an owner |
| KernelRun.BootInv | haas100/kernel/rhino/k_sys.c:24-90 | the system with the idle task alone satisfies the invariant |
| KernelRun.SchedInv | haas100/kernel/rhino/k_sched.c:33-85 | locking and unlocking the scheduler keeps the invariant |
| KernelRun.Run | haas100/kernel/rhino/k_task.c:335-900 | the invariant holds after any sequence of safe calls |
| KernelRun.DeletionEnds | haas100/kernel/rhino/k_task.c:760-789 | in every reachable state the loop of a deletion ends, even for a task that is dead |
| KernelRun.NoInversion | haas100/kernel/rhino/k_mutex.c:353-361 | an owner runs at least as urgently as each task that waits for it |
| KernelRun.NoInversionChain | haas100/kernel/rhino/k_task.c:613-628 | ... and as each task that waits for it through any chain of blocked owners |
| KernelRun.BoostHasCause | haas100/kernel/rhino/k_task.c:622-632 | without deadlock every priority is the base priority of a task blocked, through owners, on this one |
| KernelRun.CycleLevel | haas100/kernel/rhino/k_task.c:613-634 | all tasks of a deadlock cycle run at the same priority |
| KernelRun.RunsMostUrgent | haas100/kernel/rhino/k_sched.c:481-486 | in every reachable state with the scheduler unlocked no ready task is more urgent than the running one |
| KernelEffects.LockEffect | haas100/kernel/rhino/k_mutex.c:303-350 | what a lock call returns, by what it did; a call that neither takes the mutex nor blocks changes nothing |
| KernelEffects.LockBlocksEffect | haas100/kernel/rhino/k_mutex.c:352-368 | a blocked caller waits in line, the owner runs at least as urgently, and whoever is raised gets exactly the caller's priority |
| KernelEffects.BlocksBehind | haas100/kernel/rhino/k_pend.c:7-20 | a task that blocks gets in line behind every waiter that is at least as urgent, and in front of all others |
| KernelEffects.UnlockEffect | haas100/kernel/rhino/k_mutex.c:417-448 | the mutex passes to the first in line, which is as urgent as any waiter, at depth one; it is woken, without alarm, and the last of its ready list; the others go on waiting, and nothing else happens but that the caller may lose an inherited priority |
| KernelEffects.LockUnlock | haas100/kernel/rhino/k_mutex.c:283-451 | taking a free mutex and giving it back leaves no trace but the old link of the mutex |
| KernelEffects.WakeAllEffect | haas100/kernel/rhino/k_sem.c:199-207 | waking all wakes exactly the waiters, who keep nothing of the wait but its outcome, and their alarms go |
| KernelEffects.SemGiveEffect | haas100/kernel/rhino/k_sem.c:176-215 | a token goes to the first waiter, or to every one, or to the count |
| KernelEffects.GiveTake | haas100/kernel/rhino/k_sem.c:160-290 | a token given where nobody waits can be taken, and then everything is as before |
| KernelEffects.EventWakeEffect | haas100/kernel/rhino/k_event.c:281-318 | the loop wakes exactly the waiters whose condition holds, tells them the snapshot, and clears exactly what they asked for |
| KernelEffects.EventSetEffect | haas100/kernel/rhino/k_event.c:249-323 | the same for the call |
| KernelEffects.ExpireDueEffect | haas100/kernel/rhino/k_tick.c:63-110 | expiry ends exactly a prefix of the tick list, each of it due, and stops at the first that is not |
| KernelEffects.FreeMutexesEffect | haas100/kernel/rhino/k_task.c:760-789 | every mutex of a dying task passes to its first waiter, who is woken, as deep as it was; no other mutex changes |
| KernelEffects.TaskDelEffect | haas100/kernel/rhino/k_task.c:791-900 | a deleted task waits for nothing and owns nothing; its mutexes have their heirs |
| KernelEffects.TaskDelHeir | haas100/kernel/rhino/k_task.c:760-789 | each heir is woken without alarm and owns the mutex as deep as the dead task did |
| KernelEffects.TaskDelOthers | haas100/kernel/rhino/k_task.c:791-900 | who is first in line for none of its mutexes notices nothing but an inherited priority that is gone |
| KernelEffects.WaitAbortEffect | haas100/kernel/rhino/k_task.c:702-757 | an aborted wait of any kind is over and says so |
| KernelEffects.SuspendResume | haas100/kernel/rhino/k_task.c:399-521 | resuming undoes suspending, but for the place among equals on the ready list |
| KernelNesting.UnlockAnswer | haas100/kernel/rhino/k_mutex.c:380-451 | an unlock by another task, or of another object, is refused; at depth one the mutex passes on; at any greater depth it stays with its owner, one less deep, and nothing else changes |
| KernelNesting.LocksUnlocks | haas100/kernel/rhino/k_mutex.c:283-451 | after n locks of a free mutex the first n - 1 unlocks leave it with its owner, and the n-th frees it: all is as before but the old link |
| KernelNesting.UnlocksDepth | haas100/kernel/rhino/k_mutex.c:410-415 | fewer unlocks than the mutex is deep leave it with its owner |
| KernelNesting.LastUnlock | haas100/kernel/rhino/k_mutex.c:410-448 | as many unlocks as it is deep pass it on to the first in line, or free it |
| KernelNesting.HeirUnlocks | haas100/kernel/rhino/k_task.c:760-789 | who inherits a mutex from a dead task inherits its depth: the first unlock gives it up iff the dead task had locked it once |
| KernelNesting.ExampleHeir | haas100/kernel/rhino/k_task.c:760-789 | a concrete state in which a task that has never locked the mutex has to unlock it twice |
| KernelNesting.CountAnswer | haas100/kernel/rhino/k_sem.c:292-330 | the count is set to n unless somebody waits, and nothing else changes |
| KernelNesting.CountTakes | haas100/kernel/rhino/k_sem.c:237-330 | a count of n serves exactly n takes |
| KernelNesting.TakesCount | haas100/kernel/rhino/k_sem.c:258-262 | as many takes succeed as the semaphore counts, one token each, and no more |
| KernelNesting.SuspendsCount | haas100/kernel/rhino/k_task.c:399-471 | n suspensions in a row suspend the task once and are counted |
| KernelNesting.SuspendsResumes | haas100/kernel/rhino/k_task.c:399-521 | after n suspensions the first n - 1 resumes leave the task suspended, and the n-th brings it back; a ready task is the last of its list |
| KernelNesting.DisablesEnables | haas100/kernel/rhino/k_sched.c:33-85 | after n calls that lock the scheduler it takes n that unlock it until another task may run |
| KernelLocked.LockedRuns | haas100/kernel/rhino/k_sched.c:33-60 | while the scheduler is locked, no kernel call but the one that unlocks it makes another task run |
| KernelCalls.WakeAllLanes | haas100/kernel/rhino/k_pend.c:22-99 | tasks that are woken line up behind the ready tasks of their priority, in the order in which they waited |
| KernelCalls.EventLanes | haas100/kernel/rhino/k_event.c:281-318 | so do the waiters of an event that are satisfied |
| KernelCalls.GiveAnswer | haas100/kernel/rhino/k_sem.c:160-221 | so does the one waiter, or do all, that get a token; giving to another object is refused |
| KernelCalls.DelAnswer | haas100/kernel/rhino/k_mutex.c:62-109 | deleting an object of another kind is refused; else the object is gone, its old owner does not list it any more, everyone who waited for it is woken and told that it was deleted, and nobody else notices but in priority, if it was a mutex with an owner |
| KernelCalls.YieldAnswer | haas100/kernel/rhino/k_task.c:375-385 | the first of the caller's ready list becomes the last and the next one runs; nothing else changes |
| KernelCalls.RoundRobin | haas100/kernel/rhino/k_task.c:375-385 | tasks of one priority that do nothing but yield run in turn: after n calls the one at place n modulo the length of the list |
| KernelCalls.SuspendAnswer | haas100/kernel/rhino/k_task.c:399-471 | whom suspending refuses; else exactly this task's state and count change, and it leaves the ready list if it was ready |
| KernelCalls.ResumeAnswer | haas100/kernel/rhino/k_task.c:473-521 | whom resuming refuses; else the count goes down by one, and with the last one the task is ready, sleeping or pending again, behind its equals if ready |
| KernelCalls.NewTaskAnswer | haas100/kernel/rhino/k_task.c:47-183 | a new task has the priority given, no object, no alarm, and state and suspension count by the autorun flag; it is the last of its list, and runs at once iff it is more urgent than the caller |
| KernelCalls.NewObjAnswer | haas100/kernel/rhino/k_mutex.c:7-40 | a new object has the count and flags given, no owner and no waiters; nothing else changes |
| KernelCalls.DeleteAnswer | haas100/kernel/rhino/k_task.c:791-850 | whom deleting refuses: the idle task, the caller while the scheduler is locked, and who is dead |
| KernelCalls.AbortAnswer | haas100/kernel/rhino/k_task.c:702-757 | the task is ready, waits for nothing, has no alarm and knows that it was aborted if it was waiting; nobody else notices but in priority |
| KernelPri.PriAnswer | haas100/kernel/rhino/k_task.c:652-700 | whom a priority change refuses; else the base priority is the one given, and the task runs at the least of it and the first waiters on its mutexes - at the one given when nobody waits for them; tasks on no chain of blocked owners from it keep their priority, all keep their base priority; a ready task that runs becomes the first of its new list, any other the last |
| KernelPri.OffChain | haas100/kernel/rhino/k_task.c:560-650 | the propagation loop gives new priorities along the chain of blocked owners only |
| KernelPri.ReordersBehind | haas100/kernel/rhino/k_task.c:604-610 | a waiter with a new priority gets in line behind every other that is at least as urgent, and in front of all others |
| Flags.MatchesIff | haas100/kernel/rhino/k_event.c:184-198 | bit by bit: AND waits for every flag it asks for, OR for some flag it asks for |
| KernelEvents.GetEffect | haas100/kernel/rhino/k_event.c:200-212 | a get that finds what it asks for is told the old flags; with clear exactly the flags it asked for are gone, without clear none; nothing else changes |
| KernelEvents.GetTwice | haas100/kernel/rhino/k_event.c:160-247 | what has been taken with clear cannot be taken once more; what has been left can |
| KernelEvents.SetBits | haas100/kernel/rhino/k_event.c:249-323 | bit by bit: OR adds flags, wakes exactly those who are satisfied and then clears exactly what these asked to be cleared; AND keeps exactly the flags it names and wakes nobody |
| KernelWaits.BlockTimed | haas100/kernel/rhino/k_pend.c:50-71 | who blocks is on the tick list with exactly the delay given, or not at all if it waits for ever; no other task and nothing of the object but its wait list changes |
| KernelWaits.LockAnswer | haas100/kernel/rhino/k_mutex.c:283-378 | every answer of a lock call; blocked, the caller waits for the mutex with its delay and another task runs |
| KernelWaits.TakeAnswer | haas100/kernel/rhino/k_sem.c:237-290 | every answer of a take; blocked, the caller waits for the semaphore with its delay and another task runs |
| KernelWaits.GetAnswer | haas100/kernel/rhino/k_event.c:160-247 | every answer of a get; blocked, the caller waits for exactly the flags, the mode and the clearing it asked for |
| KernelWaits.WaitTimesOut | haas100/kernel/rhino/k_pend.c:50-71 | a call that blocks with a delay: as long as the task stays listed it waits for the same object, and the tick that makes up the delay, no earlier and no later one, ends the wait with a timeout |
| KernelWaits.NoAlarm | haas100/kernel/rhino/k_tick.c:47-113 | no tick ends a wait for ever |
| KernelWaits.SleepAnswer | haas100/kernel/rhino/k_task.c:335-373 | every answer of a sleep; the caller sleeps with exactly its delay and another task runs |
| KernelWaits.SleepEnds | haas100/kernel/rhino/k_task.c:335-373 | the tick that makes up the delay, no earlier and no later one, wakes the sleeper |
| KernelImpl.Rhino.constructor | haas100/kernel/rhino/k_sys.c:24-90 | the state at system start |
| KernelImpl.Rhino.PendListAdd | haas100/kernel/rhino/k_pend.c:7-20 | the loop inserts in front of the first less urgent task |
| KernelImpl.Rhino.TickListInsert | haas100/kernel/rhino/k_tick.c:35-40 | the loop inserts in front of the first task with more ticks left |
| KernelImpl.Rhino.PendTaskWakeup | haas100/kernel/rhino/k_pend.c:22-99 | does the wake-up step; the fatal case cannot arise |
| KernelImpl.Rhino.PendToBlkObj | haas100/kernel/rhino/k_pend.c:50-71 | does the blocking step: wait list, ready list and alarm as in KernelWaits.BlockTimed |
| KernelImpl.Rhino.PendListReorder | haas100/kernel/rhino/k_pend.c:101-108 | the task gets its new place in its wait list |
| KernelImpl.Rhino.CoreSched | haas100/kernel/rhino/k_sched.c:167-231 | picks the preferred task when the scheduler is unlocked |
| KernelImpl.Rhino.MutexPriLimit | haas100/kernel/rhino/k_mutex.c:191-220 | the loop computes the specified limit |
| KernelImpl.Rhino.MutexPriLook | haas100/kernel/rhino/k_mutex.c:222-263 | the loop computes the specified priority and takes the mutex off the list |
| KernelImpl.Rhino.MutexRelease | haas100/kernel/rhino/k_mutex.c:47-60 | does the release step |
| KernelImpl.Rhino.MutexTaskPriReset | haas100/kernel/rhino/k_mutex.c:265-281 | does the reset step |
| KernelImpl.Rhino.TaskPriChange | haas100/kernel/rhino/k_task.c:560-650 | the do-while loop computes the specified propagation |
| KernelImpl.Rhino.GivePrio | haas100/kernel/rhino/k_task.c:567-612 | one pass of its switch |
| KernelImpl.Rhino.NextOwner | haas100/kernel/rhino/k_task.c:613-639 | where it goes next |
| KernelImpl.Rhino.Lock | haas100/kernel/rhino/k_mutex.c:283-378 | does the lock step, and keeps the invariant if that is safe |
| KernelImpl.Rhino.AwaitMutex | haas100/kernel/rhino/k_mutex.c:352-368 | raises the owner and blocks the caller |
| KernelImpl.Rhino.Unlock | haas100/kernel/rhino/k_mutex.c:380-451 | does the unlock step, at any depth as in KernelNesting.UnlockAnswer, and keeps the invariant |
| KernelImpl.Rhino.HandOver | haas100/kernel/rhino/k_mutex.c:417-448 | the same at depth one |
| KernelImpl.Rhino.WakeWaiters | haas100/kernel/rhino/k_sem.c:199-207 | the loop wakes all waiters |
| KernelImpl.Rhino.GiveSem | haas100/kernel/rhino/k_sem.c:160-221 | does the give step |
| KernelImpl.Rhino.SetFlags | haas100/kernel/rhino/k_event.c:249-323 | the loop does the event-set step |
| KernelImpl.Rhino.TellAndWake | haas100/kernel/rhino/k_event.c:303-315 | wakes one waiter and clears its flags |
| KernelImpl.Rhino.DeleteObj | haas100/kernel/rhino/k_mutex.c:62-109 | does the deletion step |
| KernelImpl.Rhino.SuspendTask | haas100/kernel/rhino/k_task.c:399-471 | does the suspend step |
| KernelImpl.Rhino.ResumeTask | haas100/kernel/rhino/k_task.c:473-521 | does the resume step |
| KernelImpl.Rhino.ResumeLast | haas100/kernel/rhino/k_task.c:488-508 | of a task that is suspended once |
| KernelImpl.Rhino.ChangePri | haas100/kernel/rhino/k_task.c:652-700 | does the priority-change step, as in KernelPri.PriAnswer |
| KernelImpl.Rhino.StopWaiting | haas100/kernel/rhino/k_task.c:729-742 | a task stops sleeping or waiting |
| KernelImpl.Rhino.AbortWait | haas100/kernel/rhino/k_task.c:702-757 | does the abort step |
| KernelImpl.Rhino.TaskMutexFree | haas100/kernel/rhino/k_task.c:760-789 | the loop passes every mutex on |
| KernelImpl.Rhino.PassMutexOn | haas100/kernel/rhino/k_task.c:769-787 | one turn of it |
| KernelImpl.Rhino.StaleMutexFree | haas100/kernel/rhino/k_task.c:760-789 | the same loop for a task that is dead |
| KernelImpl.Rhino.StaleWalk | haas100/kernel/rhino/k_task.c:767-770 | the links followed one by one lead through the specified list |
| KernelImpl.Rhino.GiveStale | haas100/kernel/rhino/k_task.c:772-786 | one turn of that loop |
| KernelImpl.Rhino.DeleteLive | haas100/kernel/rhino/k_task.c:851-872 | the mutexes go first, then the task leaves its lists |
| KernelImpl.Rhino.DeleteTask | haas100/kernel/rhino/k_task.c:791-900 | does the delete step for live and dead tasks, and keeps the invariant if that is safe |
| KernelImpl.Rhino.TickListUpdate | haas100/kernel/rhino/k_tick.c:47-113 | the loop does the expiry step; the fatal case cannot arise |
| KernelImpl.Rhino.CreateTask | haas100/kernel/rhino/k_task.c:47-183 | does the creation step |
| KernelTimes.InsertOrdered | haas100/kernel/rhino/k_tick.c:12-40 | inserting a delay of at most half the tick range keeps the tick list in the order of the time that is left |
| KernelTicks.TickExact | haas100/kernel/rhino/k_tick.c:47-113 | a tick update ends exactly the waits whose time is up, wherever they are in the list, and takes the ticks from the time the others have left; of objects only wait lists change |
| KernelTicks.StepOnTime | haas100/kernel/rhino/k_tick.c:12-113 | every kernel call with delays in that range keeps the tick list in order, and the time that listed tasks have left |
| KernelTicks.RunOrdered | haas100/kernel/rhino/k_tick.c:12-113 | so the tick list is in order after any run of such calls |
| KernelTicks.BootOrdered | haas100/kernel/rhino/k_sys.c:24-90 | ... from system start on |
| KernelTicks.TimeRuns | haas100/kernel/rhino/k_tick.c:12-113 | over any run the time a waiting task has left shrinks by exactly the ticks that pass, and it waits for the same object |
| KernelTicks.WokenOnTime | haas100/kernel/rhino/k_tick.c:47-113 | after any run during which a task stays listed, the next ticks end its wait iff the ticks since make up its delay: never early, never late |
| KernelTicks.SleepLeft | haas100/kernel/rhino/k_task.c:357-359 | a task that goes to sleep has its whole delay left |
| RunQueue.TopBit | haas100/kernel/rhino/include/k_bitmap.h:33-66 | the bit length finds the most significant set bit |
| RunQueue.MarkIs | haas100/kernel/rhino/include/k_bitmap.h:119-135 | setting and clearing change exactly the bit of that priority |
| RunQueue.FirstInWord | haas100/kernel/rhino/include/k_bitmap.h:144-156 | the leading zeros of the first non-zero word give the least priority in use |
| RunQueue.RunQueue.constructor | haas100/kernel/rhino/k_sched.c:234-243 | empty lists, no bit set |
| RunQueue.RunQueue.ListInit | haas100/kernel/rhino/k_sched.c:245-254 | the first task of a priority sets its bit and perhaps the highest priority |
| RunQueue.RunQueue.AddTail | haas100/kernel/rhino/k_sched.c:261-269 | the list grows at its end; bitmap and highest priority stay right |
| RunQueue.RunQueue.AddHead | haas100/kernel/rhino/k_sched.c:271-280 | ... at its head |
| RunQueue.RunQueue.Remove | haas100/kernel/rhino/k_sched.c:385-431 | the task leaves; the bit is cleared iff the list is empty and the highest priority is found again |
| RunQueue.RunQueue.HeadToTail | haas100/kernel/rhino/k_sched.c:433-436 | the list rotates |
| RunQueue.RunQueue.PreferredTask | haas100/kernel/rhino/k_sched.c:481-486 | the first task of the least priority in use |
| RunQueue.RunQueue.BitmapFirst | haas100/kernel/rhino/include/k_bitmap.h:144-156 | the loop finds the least priority whose list is not empty |
| TickList.LateIff | haas100/kernel/rhino/k_tick.c:67-71 | the signed test is right for deadlines at most half the range ahead or behind |
| TickList.NeverEarlyIff | haas100/kernel/rhino/k_tick.c:35-71 | a delay is never cut short iff it is at most one more than half the tick range |
| TickList.TickList.Insert | haas100/kernel/rhino/k_tick.c:12-40 | the list stays in the order of the deadlines under wrap-around |
| TickList.TickList.Place | haas100/kernel/rhino/k_tick.c:25-30 | the loop finds the place by remaining time |
| TickList.TickList.Remove | haas100/kernel/rhino/k_tick.c:42-45 | the task leaves the list |
| TickList.TickList.Update | haas100/kernel/rhino/k_tick.c:47-113 | exactly the tasks whose deadline has passed are removed, the earliest first |
| TickList.TickList.NextSleepTicks | haas100/kernel/rhino/k_sys.c:259-281 | the least remaining time, or forever |
| KvFlash.AndErased | haas100/components/kv/internal/kv_types.h:92-118 | an erased cell takes any byte |
| KvLog.StatesOnlyClear | haas100/components/kv/internal/kv_types.h:92-118 | the state codes are reached by clearing bits only, and there is no way back |
| KvFlash.Flash.Program | haas100/components/kv/internal/kv_adapt.h:23-32 | a program operation may only clear bits; then the cells hold the bytes |
| KvFlash.Flash.Erase | haas100/components/kv/internal/kv_adapt.h:34-42 | erasing sets all bits of the range |
| KvLog.CalcCrc8 | haas100/components/kv/src/kv.c:31-48 | the loops compute the specified CRC |
| KvLog.ItemRead | haas100/components/kv/src/kv.c:756-790 | reading an item back gives its fields |
| KvLog.LogSplit | haas100/components/kv/src/kv.c:734-803 | a log is its parts, one behind the other |
| KvLog.LogKill | haas100/components/kv/src/kv.c:115-118 | clearing the state byte deletes exactly that item |
| KvLog.BlockTakes | haas100/components/kv/src/kv.c:507-513 | the erased flash behind a log takes the bytes of any item |
| KvLog.BlockStore | haas100/components/kv/src/kv.c:507-513 | programming an item behind the log only clears bits and appends it |
| KvLog.BlockKill | haas100/components/kv/src/kv.c:278-280 | deleting only clears bits and keeps the rest of the block |
| KvLog.BlockStated | haas100/components/kv/src/kv.c:91-105 | so does a new block state |
| KvLog.BlockFormatted | haas100/components/kv/src/kv.c:127-151 | a formatted block is clean and blank |
| KvLog.ContentsIff | haas100/components/kv/src/kv.c:445-461 | a key is in the map iff it has a live item |
| KvLog.UpdateContents | haas100/components/kv/src/kv.c:536-555 | storing the new item and deleting the old one changes the map at that key only, and leaves one live item for each key |
| KvLog.KillContents | haas100/components/kv/src/kv.c:278-288 | deleting an item removes its key from the map |
| KvLog.LiveOnlyKeeps | haas100/components/kv/src/kv.c:370-403 | compaction keeps the map and needs no more room |
| KvLog.PrunedContents | haas100/components/kv/src/kv.c:413-436 | deletion by prefix keeps exactly the other keys |
| KvCrc.OneByteTold | haas100/components/kv/src/kv.c:31-48 | whatever happens to a single byte of key or value, the check byte tells |
| KvCrc.CheckIsZero | haas100/components/kv/src/kv.c:31-48 | a message with its check byte behind it checks to zero |
| KvCrc.Generator | haas100/components/kv/src/kv.c:31-48 | the generator polynomial is the one of the source |
| KvMap.LastCallDecides | haas100/components/kv/src/kv.c:871-984 | after any run a key holds the value of the last successful set, unless a later deletion touched it |
| KvSeek.SeekBlock | haas100/components/kv/src/kv.c:336-360 | in a block with a log the search, defined for any flash contents, finds the first live item of the key, and nothing iff there is none |
| KvSeek.EmptyNever | haas100/components/kv/src/kv.c:769-780 | whatever the flash holds, an empty key is never found |
| KvSeek.StoredFoundIff | haas100/components/kv/src/kv.c:473-513 | what has been stored behind a log is found again iff its key is not empty |
| KvSeek.BehindEmptyIff | haas100/components/kv/src/kv.c:769-780 | behind an item with an empty key, whose value looks like no header, the next item is found iff that item takes a whole number of header lengths |
| KvSeek.LostKey | haas100/components/kv/src/kv.c:769-780 | a concrete loss: after an empty key with a value of four bytes, the item stored next is not found |
| KvStore.Kv.SetBlockState | haas100/components/kv/src/kv.c:91-105 | programs the state and records it |
| KvStore.Kv.Format | haas100/components/kv/src/kv.c:127-151 | erases the block and writes its header |
| KvStore.Kv.Init | haas100/components/kv/src/kv.c:562-647 | a new device becomes an empty store with one used and one clean block |
| KvStore.Kv.Kill | haas100/components/kv/src/kv.c:228-288 | deletes one item; a used block becomes dirty |
| KvStore.Kv.Peek | haas100/components/kv/src/kv.c:747-780 | nothing malformed is ever met: an item of the log, or the blank behind it |
| KvStore.Kv.Find | haas100/components/kv/src/kv.c:336-360 | finds the live item of the key, or that there is none, as the search defined for any flash does |
| KvStore.Kv.Search | haas100/components/kv/src/kv.c:445-461 | the same over all blocks |
| KvStore.Kv.CalcPosition | haas100/components/kv/src/kv.c:160-218 | the write position iff the room is more than the length; when compaction is triggered |
| KvStore.Kv.Append | haas100/components/kv/src/kv.c:509-513 | the item is behind the log, and write position and room agree |
| KvStore.Kv.Pack | haas100/components/kv/src/kv.c:482-505 | the bytes of the item |
| KvStore.Kv.Store | haas100/components/kv/src/kv.c:473-524 | stores iff the room is more than the size; else nothing changes |
| KvStore.Kv.Update | haas100/components/kv/src/kv.c:536-555 | the same value needs no write; a failed update changes nothing |
| KvStore.Kv.Set | haas100/components/kv/src/kv.c:871-906 | a successful set changes the map at the key and nothing else, a failed one changes nothing; it fails exactly for want of room behind the log; an empty key is let through, and its item is written like any other |
| KvStore.Kv.Get | haas100/components/kv/src/kv.c:908-944 | the value of the map, or its length if the buffer is too short |
| KvStore.Kv.Delete | haas100/components/kv/src/kv.c:946-967 | the key is gone; not found iff it was not there |
| KvStore.Kv.DeletePrefixIn | haas100/components/kv/src/kv.c:734-812 | the traversal deletes exactly the live items with the prefix |
| KvStore.Kv.DeleteByPrefix | haas100/components/kv/src/kv.c:969-984 | exactly the keys with the prefix are gone |
| KvStore.Kv.GcCb | haas100/components/kv/src/kv.c:370-403 | a live item is copied behind the others of the clean block |
| KvStore.Kv.CopyLive | haas100/components/kv/src/kv.c:734-812 | the traversal copies exactly the live items |
| KvStore.Kv.Move | haas100/components/kv/src/kv.c:691-703 | the copy takes over and the old block is clean again |
| KvStore.Kv.Gc | haas100/components/kv/src/kv.c:657-723 | the map stays, and the room is all that the live items do not need |
| RingBuf.DecodeEncode | haas100/kernel/rhino/k_ringbuf.c:54-148 | the length prefix reads back as the length |
| RingBuf.TooBigIff | haas100/kernel/rhino/k_ringbuf.c:49-52 | the test for room is right for every state iff length plus prefix does not wrap in 32 bits |
| RingBuf.PutCyclic | haas100/kernel/rhino/k_ringbuf.c:60-97 | copying in at the tail appends to the stored bytes, going round |
| RingBuf.GetCyclic | haas100/kernel/rhino/k_ringbuf.c:132-165 | copying out at the head removes from their front |
| RingBuf.RingBuf.PushPrefix | haas100/kernel/rhino/k_ringbuf.c:56-76 | the prefix is stored, split at the end or not |
| RingBuf.RingBuf.PushData | haas100/kernel/rhino/k_ringbuf.c:79-97 | so is the payload |
| RingBuf.RingBuf.Push | haas100/kernel/rhino/k_ringbuf.c:23-101 | a message more at the end of the queue and its bytes accounted for, or nothing changed |
| RingBuf.RingBuf.PopPrefix | haas100/kernel/rhino/k_ringbuf.c:127-145 | the prefix is removed, split or not |
| RingBuf.RingBuf.PopData | haas100/kernel/rhino/k_ringbuf.c:150-165 | so is the payload |
| RingBuf.RingBuf.Pop | haas100/kernel/rhino/k_ringbuf.c:103-169 | the first message, intact |
| RingBuf.RingBuf.IsFull | haas100/kernel/rhino/k_ringbuf.c:171-183 | full iff no message fits |
| RingBuf.RingBuf.IsEmpty | haas100/kernel/rhino/k_ringbuf.c:185-192 | empty iff no message is stored |
| RingBuf.RingBuf.Reset | haas100/kernel/rhino/k_ringbuf.c:194-202 | no message is left |
| BufQueue.BufQueue.constructor | haas100/kernel/rhino/k_buf_queue.c:9-57 | an empty queue |
| BufQueue.BufQueue.Send | haas100/kernel/rhino/k_buf_queue.c:209-281 | a blocked receiver gets the message, or it is stored; blocked receivers imply an empty buffer; sent is taken followed by stored |
| BufQueue.BufQueue.Recv | haas100/kernel/rhino/k_buf_queue.c:291-361 | the oldest stored message, or blocking behind all receivers that are no less urgent |
| BufQueue.BufQueue.Flush | haas100/kernel/rhino/k_buf_queue.c:363-386 | the stored messages are gone |
| BufQueue.BufQueue.GiveUp | haas100/kernel/rhino/k_task.c:729-742 | a receiver whose wait ends otherwise leaves the line, and no message is lost |
| BufQueue.BufQueue.PendListAdd | haas100/kernel/rhino/k_pend.c:7-20 | the receiver waits behind all that are no less urgent, in front of all others |
| BufQueue.BufQueue.SetPrio | haas100/kernel/rhino/k_pend.c:101-108 | a receiver whose priority changes gets the place of its new priority |
| RbModel.PlugRules | haas100/kernel/rhino/k_rbtree.c:20-103 | a balanced context around a balanced subtree is a red-black tree |
| RbRotate.RotateRep | haas100/kernel/rhino/k_rbtree.c:11-18 | one rotation of linked nodes is the rotation of the tree, with right parent links |
| RbRotate.RotateOrder | haas100/kernel/rhino/k_rbtree.c:11-18 | a rotation keeps the order |
| RbRotate.RecolourRules | haas100/kernel/rhino/k_rbtree.c:36-44 | a red uncle: recolouring moves the red node two levels up |
| RbRotate.OuterRules | haas100/kernel/rhino/k_rbtree.c:60-67 | a black uncle, outer case: one rotation restores the rules |
| RbRotate.InnerRules | haas100/kernel/rhino/k_rbtree.c:46-67 | ... inner case: two rotations do |
| RbErase.RedRules | haas100/kernel/rhino/k_rbtree.c:113-121 | a red sibling: after the rotation the place is still one black node short, below a red parent |
| RbErase.RecolourRules2 | haas100/kernel/rhino/k_rbtree.c:122-139 | a black sibling with black children: recolouring ends, or moves the deficit up |
| RbErase.FarRules | haas100/kernel/rhino/k_rbtree.c:151-160 | a red far child: one rotation makes up for the missing black node |
| RbErase.NearRules | haas100/kernel/rhino/k_rbtree.c:140-160 | a red near child: two rotations do |
| RbRemove.UnlinkRules | haas100/kernel/rhino/include/k_rbtree.h:97-112 | unlinking a node with at most one child leaves the rules intact or one place a black node short |
| RbRemove.TwoResult | haas100/kernel/rhino/include/k_rbtree.h:113-149 | so does putting the successor in the place of a node with two children, and the order loses that node only |
| RbTree.RbTree.RotateSetParents | haas100/kernel/rhino/k_rbtree.c:11-18 | the new parent takes place and colour, and the link from above follows |
| RbTree.RbTree.Straighten | haas100/kernel/rhino/k_rbtree.c:46-67 | the rotations of the black-uncle cases |
| RbTree.RbTree.InsertFix | haas100/kernel/rhino/k_rbtree.c:20-103 | from a red node with a possibly red parent the loop restores the rules and keeps the order |
| RbTree.RbTree.Search | haas100/kernel/rhino/k_cfs.c:13-30 | the descent finds the link of the key |
| RbTree.RbTree.Link | haas100/kernel/rhino/include/k_rbtree.h:170-176 | the red node hangs from the link |
| RbTree.RbTree.Insert | haas100/kernel/rhino/k_cfs.c:13-32 | the node takes its place in the order of keys, and the tree is a red-black tree |
| RbTree.RbTree.First | haas100/kernel/rhino/k_rbtree.c:243-255 | the node of least key |
| RbTree.RbTree.Last | haas100/kernel/rhino/k_rbtree.c:257-269 | the last in order |
| RbTree.RbTree.MinKey | haas100/kernel/rhino/k_cfs.c:44-56 | the least key, or 0 |
| RbTree.RbTree.Next | haas100/kernel/rhino/k_rbtree.c:271-292 | the next in order |
| RbTree.RbTree.Prev | haas100/kernel/rhino/k_rbtree.c:294-315 | the one before |
| RbTree.RbTree.EraseTurn | haas100/kernel/rhino/k_rbtree.c:151-160 | the last rotation of the erase fix-up |
| RbTree.RbTree.EraseRed | haas100/kernel/rhino/k_rbtree.c:113-121 | its red-sibling case |
| RbTree.RbTree.EraseBlack | haas100/kernel/rhino/k_rbtree.c:126-138 | its recolouring case |
| RbTree.RbTree.EraseNear | haas100/kernel/rhino/k_rbtree.c:140-160 | its near-child case |
| RbTree.RbTree.EraseFar | haas100/kernel/rhino/k_rbtree.c:151-160 | its far-child case |
| RbTree.RbTree.EraseFix | haas100/kernel/rhino/k_rbtree.c:105-213 | from a place one black node short the loop restores the rules and keeps the order |
| RbTree.RbTree.UnlinkOne | haas100/kernel/rhino/include/k_rbtree.h:97-112 | a node with at most one child leaves |
| RbTree.RbTree.Successor | haas100/kernel/rhino/include/k_rbtree.h:114-127 | the leftmost node of the right subtree |
| RbTree.RbTree.UnlinkTwo | haas100/kernel/rhino/include/k_rbtree.h:113-149 | the successor takes place and colour of a node with two children |
| RbTree.RbTree.Erase | haas100/kernel/rhino/k_rbtree.c:234-241 | the tree stays a red-black tree, and the order loses exactly this node |
| SpinLock.PackBits | haas100/kernel/rhino/k_spin_lock.c:14-21 | the arithmetic form of packing core and count is the bitwise expression of the source |
| SpinLock.Unpack | haas100/kernel/rhino/k_spin_lock.c:14-21 | core and count read back from the packed word |
| SpinLock.StepInv | haas100/kernel/rhino/k_spin_lock.c:26-124 | every step of every core keeps the invariant |
| SpinLock.MutualExclusion | haas100/kernel/rhino/k_spin_lock.c:26-124 | over every run at most one core holds the lock, and the count is its depth minus one |
| SpinLock.OutermostFrees | haas100/kernel/rhino/k_spin_lock.c:82-124 | only the outermost unlock frees the lock |
| SpinLock.BumpIff | haas100/kernel/rhino/k_spin_lock.c:43-56 | the count after one more lock is right iff the depth was below 256 |
| WorkQueue.NeverEmpty | haas100/kernel/rhino/k_workqueue.c:37-45 | the worker never dequeues from an empty list |
| WorkQueue.StepInv | haas100/kernel/rhino/k_workqueue.c:28-310 | every step keeps: queued iff marked, exactly once, and each queued work is backed by a token |
| WorkQueue.ListShort | haas100/kernel/rhino/k_workqueue.c:157-271 | a queue lists no work twice, and so no more works than there are |
| WorkQueue.GiveRoom | haas100/kernel/rhino/k_workqueue.c:157-271 | with at most 2^32-1 works no semaphore give overflows |
| WorkQueue.NoMissedWakeup | haas100/kernel/rhino/k_workqueue.c:28-271 | at no time of any run does a worker find its list empty; with at most 2^32-1 works every queued work has a token, a taken token or a promised give of its own |
| WorkQueue.RunAnswer | haas100/kernel/rhino/k_workqueue.c:235-256 | a work is taken iff it is neither queued anywhere nor being run by this queue's worker, and is put behind all others; else nothing changes |
| WorkQueue.FirstInFirstOut | haas100/kernel/rhino/k_workqueue.c:28-256 | at any time of any run, what a queue has taken is what its worker has begun to run, in the same order, and behind that what is still listed: no work is lost, run twice or overtaken |

## Left out

- Interrupt masking, context switching, tracing, statistics other than the used size and the slab counts, debug dye fields, time slices, CFS tasks and multi-core scheduling.
- Timers (k_timer.c), whose list is not kept sorted in general, and the queue and VFS layers above the kernel.
- Null-pointer checks, and the calls that are refused from interrupts (locking, taking, waiting, sleeping, deleting). Calls that act from interrupts - giving a semaphore, setting flags, sending a message - do there what they do from a task, without the switch at the end.
- Linked lists are sequences: free lists, wait lists, rings of the run queue. Link fields inside free heap blocks are memory that may change at will.
- Heap.Heap.AddRegion: the region must lie in memory, overlap no other region, and not exceed the largest block size, which the source does not check; the window between initialising and freeing the new block is one step.
- Heap.Heap.constructor: the layout of the heap's own head is a parameter of overhead bytes.
- Heap.Heap.Free: freeing a pointer that was not handed out is not modelled.
- HeapPool.Mm.Realloc: a pool block larger than the least heap block is not reallocated to one of the last seven sizes below 2^32, for which the copy would not fit (HeapPool.CopyFitsIff). A heap whose pool could not be set up is `Heap` alone.
- KernelRun.StepInv: calls are made with valid handles; a task's or an object's memory is not reused for another one.
- KernelTicks.StepOnTime: delays, and ticks counted at once, of more than half the tick range are excluded.
- Slab.Slab.Free: freeing a block of the pool that is not handed out is not modelled, since the source does not detect it.
- RingBuf.RingBuf.Push: lengths of 2^32-4 to 2^32-2 bytes that the room test lets through because it wraps are excluded; RingBuf.TooBigIff gives the exact condition. The fixed-size ring type is not modelled.
- Task cancellation flags and the first-in first-out wait policy, which no object of the kernel uses here.
- TickList.TickList.Insert: delays of more than half the tick range are excluded; TickList.NeverEarlyIff gives the exact condition.
- Semaphore and event creation options, dynamic creation and deletion.
- KvStore.Kv.Set: keys contain no NUL; calls after the item of an empty key has been stored are not modelled beyond what the search then finds (KvSeek). Waiting for a running compaction before a set is not modelled: compaction may run before or after any call.
- KvStore.Kv.Init: only a new device; recovery of a store that is already there, power loss, failing flash or memory, more than two blocks and the encrypted variant are not modelled.
- RbTree.RbTree.Insert: the node is not in the tree yet. Post-order walks and node replacement are not modelled.
- WorkQueue.StepInv: the delay of a delayed work is any number of other steps; each worker and each producer step is one critical section of the source.
- SpinLock.StepInv: core ids are below 255 and nesting at most 256; interrupt state is not modelled.
