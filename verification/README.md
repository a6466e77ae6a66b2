# VibeRTOS: a verified model of its allocators, scheduler and protocols

VibeRTOS is a small real-time kernel in C for Cortex-M.  This project models its most intricate
parts in Dafny and proves what they are for: that live allocations never overlap, that the
scheduler always runs the right thread, that bytes and messages come out as they went in, that a
context switch loses nothing.  `dafny verify dfyconfig.toml` checks everything.

Most components come in two layers.  A *model* states an operation as a function on values, and the
theorems, usually about every run from the initial state, are proved of it.  A *class* follows the C
code statement by statement on its own data (words of memory, linked lists, bit masks, byte arrays)
and every method is proved to do exactly what the model says.

| modules | component |
|---|---|
| `Bits32`, `Wrap32`, `Seqs`, `Windows`, `HeapSizes` | machine words, 32-bit indices, lists without duplicates, ring windows, 32-bit request sizes |
| `TlsfMapping`, `TlsfModel`, `TlsfMemory`, `TlsfHeap`, `TlsfRuns`, `TlsfContents`, `TlsfMisuse` | the default heap: size classes, block chain and free lists, their words in memory, the code, whole runs, what callers store, second frees and huge requests |
| `ChainModel`, `ChainHeap`, `ChainRuns` | the first-fit and best-fit heaps |
| `IntrusiveList`, `ThreadLists` | the doubly linked list used by the kernel; all threads on the run queues, the sleep list and the wait lists, in one heap |
| `SchedModel`, `SchedRuns`, `SchedDecisions`, `SchedEffects`, `SchedFairness`, `SchedMisuse`, `Scheduler` | the scheduler: state and primitives, operations and runs, who runs after each, effects on each thread, round-robin, calls that should not be made, the code |
| `Mutex` | the priority-inheritance mutex, and when it leaves the scheduler in order |
| `ContextSwitch`, `PendSV` | the context switch: state machine, the handler's instructions |
| `RingProtocol`, `RingBuffer` | the lock-free ring: interleavings, the code |
| `WorkQueue` | semaphore and work queue |
| `Crc32`, `Coredump` | the checksum and the crash record |
| `JobModel`, `JobScheduler` | the cooperative job scheduler |
| `TimerModel`, `TimerList` | software timers |
| `KernelRings`, `MsgQueue`, `Pipe` | message queue and pipe: the buffers, the protocols of waiting calls |
| `Rtt` | debug channels |

## What is assumed

- Sections with interrupts locked are atomic, and memory accesses take effect in program order.
- A 32-bit target: TLSF headers take 8 bytes with a minimum payload of 8, the other heaps' headers 16.
- Heap addresses are offsets from the start of the pool; NULL is 0 for TLSF, where offset 0 is the
  control block, and -1 for the other heaps.  The pool size is a multiple of 8 and holds at least one block.
- TLSF requests are at most 15/16 of 2^23 bytes, or within 7 bytes of 2^32, where aligning wraps; for the
  others the first-level index leaves the table or the rounding wraps (`TlsfMisuse.RequestExact` says
  which).  Callers free and resize only pointers they hold, or NULL; `TlsfMisuse` is about second frees.
- The first-fit and best-fit heaps are built with `CONFIG_HEAP_CORRUPTION_CHECK`.
- The scheduler has 32 priorities and ticks do not wrap.  Its runs are made of the calls that
  `SchedRuns.Allowed` admits; `SchedMisuse` proves call by call that this condition is exact: a call
  on one thread that is not admitted leaves lists, counters or control blocks inconsistent
  (`CreateExact` to `SetPriorityExact`), and each such case occurs (`MisuseDamages`).  The idle thread
  never blocks.  A thread is a positive number, 0 is NULL.  Wait lists are numbered; the mode WAITING
  says in which one a thread is, which the code keeps in no field.
- Threads keep off each other's stacks, leave 64 bytes of room on their own, and interrupt handlers
  run on the main stack; the hardware stacks and unstacks its eight words without alignment padding.
- The debug host moves its read offset only over bytes that are there.
- Timer expiry functions leave the timer list alone.

## Where the code differs from its comments

- `block_split` says that the remainder is set free, but does not set IS_FREE (lib/heap/heap_tlsf.c:307),
  and a backward merge keeps the predecessor's flags.  So IS_FREE means "on a free list" in one
  direction only.  Forward coalescing misses unflagged blocks (`TlsfRuns.CoalescingExact`,
  `SplitNotRejoined`), the walk counts them as allocated (`AllocationCountExact`), and the double-free
  guard lets a second free through exactly when the flag is missing (`TlsfMisuse.DoubleFreeExact`; a
  whole run in `SecondFreeGoesThrough`).
- Rounding up makes TLSF refuse a free block of exactly the size asked for (`TlsfRuns.ExactFitRefused`;
  `TlsfModel.LocateIsSearch` says exactly when it finds none).
- The timer list is described as sorted (kernel/timer.c:5-6 and 20); timers are in fact inserted at
  the head and all of them are scanned at each tick (`TimerModel.SortedExactly`, `StartedInOrder`).
- Changing the priority of the running thread leaves it in the queue of its old priority
  (kernel/thread.c:353-363); deleting or suspending a thread that sleeps or waits leaves it in the sleep
  list or in its wait list, and so does restarting one that waits (kernel/thread.c:162-336); a thread
  that has suspended itself under lock and then yields, sleeps or blocks cuts off a whole run queue.
  `SchedMisuse.SetPriorityExact`, `DeleteExact`, `SuspendExact`, `RestartExact`, `YieldExact`,
  `SleepExact` and `BlockExact` say exactly when; by `GiveAfterMisuse` the next give then links a
  restarted waiter into a run queue twice, and brings a deleted one back to life.
- Creating or restarting a thread that outranks the current one makes no scheduling decision
  (kernel/thread.c:145-155 and 326-335), so that a thread of higher priority is left waiting until the next
  one; those are the only calls that do so (`SchedDecisions.TopStays`).
- A lone yield leaves the current thread READY while it runs, since rescheduling returns early when
  the choice is the current thread (`SchedFairness.YieldMode`).  Its slice then no longer counts down,
  and threads of its priority that come later starve (`LoneYielderKeepsProcessor`, `NewcomerStarves`,
  `TurnPassesExactlyWhenRunning`).
- There is one slice for all threads, and a switch does not renew it: whoever takes over in mid-slice gets
  what is left (`SchedDecisions.SliceGoesOn`; kernel/sched.c:185).
- The timeout of a semaphore wait is stored and never looked at: a waiter with i others in front of it
  waits through i gives, however many ticks pass, and runs with the next (`SchedEffects.TimedWaitNeverEnds`,
  `TurnComes`).
- A message queue call that may wait for ever can report a timeout, exactly when the queue is full, or
  empty, again on its second try (`MsgQueue.SecondTry`, `PutOvertaken`, `GetOvertaken`); and a second
  try that succeeds wakes nobody, the one way to leave a waiter without anyone coming for it
  (`RoomLeftExactly`, `MessageLeftExactly`, `PutStranded`).
- A pipe wakes one reader per write and one writer per read; a call that finishes and leaves data, or
  room, behind wakes nobody of its own kind, the one way to leave a waiter next to what it waits for
  (`Pipe.DataLeftExactly`, `RoomLeftExactly`, `ReadStranded`).
- `HEAP_ALIGN_UP` and `round_up_size` are 32-bit arithmetic.  A request within 7 bytes of 2^32 is aligned to
  0: TLSF serves it as one of 8 bytes, the other heaps as one of 0, and `realloc` reports success and
  keeps the block (`TlsfMisuse.WrappedRequest`, `ChainRuns.WrappedRequest`, `WrappedResize`).  In TLSF a
  request above 15/16 of 2^32 is rounded up to 0 and finds any free block at all (`TlsfMisuse.RequestExact`).
- Priority inheritance changes the owner's priority before taking it out of its run queue
  (kernel/mutex.c:61-68 and 130-135).  The boost damages the queues exactly when the owner is READY,
  and the unlock exactly when there was a boost to take back; a caller that outranks the first waiter
  is inserted after a node that is not there (`Mutex.LockExact`, `UnlockExact`, `BoostDamages`,
  `UnlockDamages`, `SecondWaiterFaults`).  A boosted owner that waits for a second mutex itself stays where it
  is in that one's list (`OtherMutexExact`, `BoostUnsortsOther`).
- A job that cancels itself is taken off the statistics twice, or comes back to life uncounted
  (`JobModel.ExecBalanced`, `SelfCancelMiscounts`).
- The save area of a context holds R8-R11 below R4-R7, not R4-R11 in one row as the comment in
  arch/arm/cortex_m/core/irq.c:364-365 has it; only zeros are stored there at creation, so nothing depends on it.

## Model

| member | source | states |
|---|---|---|
| `Bits32.HighestBitIsHighest` | kernel/sched.c:71-72 | `31 - clz` of a non-zero word is its highest set bit |
| `Bits32.CtzIsLowest` | lib/heap/heap_tlsf.c:255-264 | `ctz` of a non-zero word is its lowest set bit |
| `TlsfMapping.MappingIsClass` | lib/heap/heap_tlsf.c:173-187 | the shift-and-mask `mapping` is the size class defined by repeated halving |
| `TlsfMapping.RoundUpIsBucket` | lib/heap/heap_tlsf.c:190-198 | `round_up_size`, in 32-bit arithmetic, is the next class boundary, defined by repeated halving, up to 15/16 of 2^32, and 0 beyond |
| `TlsfMapping.BucketInTable` | lib/heap/heap_tlsf.c:190-198 | that boundary is below 2^23 if and only if the size is at most 15/16 of 2^23 |
| `TlsfMapping.ClassMonotone` | lib/heap/heap_tlsf.c:173-187 | larger sizes never get an earlier class |
| `TlsfMapping.ClassInTable` | lib/heap/heap_tlsf.c:173-187 | a size has a class in the 20 by 8 table if and only if it is below 2^23 |
| `TlsfMapping.BucketBounds` | lib/heap/heap_tlsf.c:190-198 | rounding up never loses, and wastes less than an eighth for sizes of 64 and more |
| `TlsfMapping.BucketIsClassMinimum` | lib/heap/heap_tlsf.c:190-198 | any block in the boundary's class or a later one is as large as the boundary |
| `HeapSizes.AlignUp` | lib/heap/heap_tlsf.c:57 | aligning up modulo 2^32 reaches the request if and only if that is at most 2^32 - 8, and gives 0 beyond |
| `TlsfModel.LocateIsSearch` | lib/heap/heap_tlsf.c:244-268 | the search returns a block at least as large as the rounded request, of the lowest class that has one, and NULL exactly when every free block is smaller: it refines a linear search |
| `TlsfModel.AllocateCorrect` | lib/heap/heap_tlsf.c:374-411 | allocation keeps the invariant, hands out a formerly free block, as large as asked for exactly if aligning did not wrap, keeps every other live block, and fails, changing nothing, exactly when no free block reaches the rounded request |
| `TlsfModel.TakesGoodFit` | lib/heap/heap_tlsf.c:244-268 | the block handed out was in the lowest class with a block of the rounded request or more, and the one of its class that was listed last |
| `TlsfModel.ReleaseCorrect` | lib/heap/heap_tlsf.c:413-436 | freeing keeps the invariant and takes back that block only |
| `TlsfModel.MergePrevTransit` | lib/heap/heap_tlsf.c:274-285 | the backward merge keeps chain, lists and flags while a block is in transit |
| `TlsfModel.MergeNextTransit` | lib/heap/heap_tlsf.c:287-296 | so does the forward merge |
| `TlsfModel.CarveTransit` | lib/heap/heap_tlsf.c:395-401 | so does splitting off and listing the remainder |
| `TlsfModel.InitialInv` | lib/heap/heap_tlsf.c:322-368 | the invariant holds of the initial heap: one listed block from the control block to the sentinel |
| `TlsfModel.GrowHolds` | lib/heap/heap_tlsf.c:438-463 | a growing realloc holds old and new block at once, or changes nothing |
| `TlsfModel.ReallocateCorrect` | lib/heap/heap_tlsf.c:438-463 | realloc keeps a block that is large enough; otherwise it is NULL, with nothing changed, if and only if every free block is smaller than the rounded request; otherwise a formerly free block that is large enough is held in exchange for the old one, and everybody else holds what they held; for 0 bytes the block is released, and NULL is resized by an allocation |
| `TlsfModel.StatsExact` | lib/heap/heap_tlsf.c:481-523 | `used` and `free` are the sums over unflagged and flagged blocks, `largest` is the maximum over flagged ones |
| `TlsfMemory.BitmapSearch` | lib/heap/heap_tlsf.c:250-267 | two bit scans find the first non-empty list from a class on, or that there is none |
| `TlsfMemory.BitmapsSet` | lib/heap/heap_tlsf.c:216-218 | inserting keeps every bit equal to "list (or row) not empty" |
| `TlsfMemory.BitmapsClear` | lib/heap/heap_tlsf.c:229-236 | so does removing |
| `TlsfHeap.Tlsf.constructor` | lib/heap/heap_tlsf.c:322-368 | a heap not yet initialised stands for the initial one |
| `TlsfHeap.Tlsf.Initialise` | lib/heap/heap_tlsf.c:322-368 | the words written represent the initial heap |
| `TlsfHeap.Tlsf.FreeListInsert` | lib/heap/heap_tlsf.c:204-219 | links, heads and bitmaps represent the list with the block in front; no live payload is written |
| `TlsfHeap.Tlsf.FreeListRemove` | lib/heap/heap_tlsf.c:221-238 | links, heads and bitmaps represent the list without the block; no live payload is written |
| `TlsfHeap.Tlsf.LocateFree` | lib/heap/heap_tlsf.c:244-268 | the bitmap code returns what the model's search returns |
| `TlsfHeap.Tlsf.MergeWithPrev` | lib/heap/heap_tlsf.c:274-285 | the memory represents the merged heap; no other payload is written |
| `TlsfHeap.Tlsf.MergeWithNext` | lib/heap/heap_tlsf.c:287-296 | the memory represents the merged heap; no other payload is written |
| `TlsfHeap.Tlsf.BlockSplit` | lib/heap/heap_tlsf.c:302-316 | the memory represents the split block and its unflagged remainder |
| `TlsfHeap.Tlsf.CarveBlock` | lib/heap/heap_tlsf.c:395-401 | splits when header and minimum payload are to spare, and lists the remainder |
| `TlsfHeap.Tlsf.CommitBlock` | lib/heap/heap_tlsf.c:403-406 | the block is marked used, and its successor's PREV_FREE cleared |
| `TlsfHeap.Tlsf.Alloc` | lib/heap/heap_tlsf.c:374-411 | the code is the model's allocation, and writes inside no live payload |
| `TlsfHeap.Tlsf.Free` | lib/heap/heap_tlsf.c:413-436 | the code is the model's release; NULL and flagged blocks are ignored; no other live payload is written |
| `TlsfHeap.Tlsf.Copy` | lib/heap/heap_tlsf.c:460 | the copy puts the old words into the new block and into no other |
| `TlsfHeap.Tlsf.Realloc` | lib/heap/heap_tlsf.c:438-463 | the code is the model's realloc; on success the result starts with the old contents; on failure no payload has changed; others are never written |
| `TlsfHeap.Tlsf.StoreWord` | lib/heap/heap_tlsf.c:153-156 | a caller writing inside its payload does not disturb the heap |
| `TlsfHeap.Tlsf.GetStats` | lib/heap/heap_tlsf.c:481-523 | the walk over the words computes the model's statistics; before initialisation all bytes are reported free |
| `TlsfRuns.ByteHasOwner` | lib/heap/heap_tlsf.c:302-316 | every byte up to the sentinel's end belongs to a block |
| `TlsfRuns.ByteOwnerUnique` | lib/heap/heap_tlsf.c:302-316 | and to one only |
| `TlsfRuns.BytesConserved` | lib/heap/heap_tlsf.c:500-519 | payload bytes plus headers add up to the managed area |
| `TlsfRuns.AllocationCountExact` | lib/heap/heap_tlsf.c:500-519 | the reported number of allocations is never too low, and right exactly when every free block carries its flag |
| `TlsfRuns.StepGood` | lib/heap/heap_tlsf.c:374-463 | every admitted call keeps heap and caller's book consistent |
| `TlsfRuns.RunGood` | lib/heap/heap_tlsf.c:374-463 | so does every run of calls |
| `TlsfRuns.HeldMemoryIsolated` | lib/heap/heap_tlsf.c:374-463 | over every run from every pool: the heap is well formed, and held memory is 8-aligned, inside the pool and pairwise disjoint, and large enough exactly if the request did not wrap |
| `TlsfRuns.CoalescingExact` | lib/heap/heap_tlsf.c:274-296 | exactly when a free neighbour remains behind and in front of freed memory |
| `TlsfRuns.FreedIsTakenFirst` | lib/heap/heap_tlsf.c:204-268 | freed memory, with what it merged with, is what the next request of its class gets |
| `TlsfRuns.SplitNotRejoined` | lib/heap/heap_tlsf.c:302-316 | an allocation that was split off and is freed at once leaves two adjacent free blocks |
| `TlsfRuns.SplitUnflagged` | lib/heap/heap_tlsf.c:302-316 | the remainder of a split is listed without IS_FREE |
| `TlsfRuns.ExactFitRefused` | lib/heap/heap_tlsf.c:244-268 | a pool whose only free block has exactly the size asked for, and is refused |
| `TlsfMisuse.FreeCallOfLive` | lib/heap/heap_tlsf.c:413-436 | freeing, written for any block of the chain, is the model's release for a live one |
| `TlsfMisuse.DoubleFreeExact` | lib/heap/heap_tlsf.c:413-436 | freeing a free block changes nothing if and only if it carries IS_FREE; otherwise it is listed again and the heap's invariant is broken |
| `TlsfMisuse.SecondFreeGoesThrough` | lib/heap/heap_tlsf.c:413-436 | a run of two allocations, two frees and an allocation after which a second free of the same pointer passes the guard |
| `TlsfMisuse.RequestExact` | lib/heap/heap_tlsf.c:244-268 | over all 32-bit requests: where the search starts, in the table, outside it or, after a wrap, at class 0 with only blocks that are too small |
| `TlsfMisuse.WrappedRequest` | lib/heap/heap_tlsf.c:374-463 | a request within 7 bytes of 2^32 is served exactly as one of 8 bytes, and a resize to it changes nothing |
| `TlsfContents.Perform` | lib/heap/heap_tlsf.c:374-463 | a call, or a store by a holder, keeps every noted word of held memory, a resize moving it with its block |
| `TlsfContents.Execute` | lib/heap/heap_tlsf.c:374-463 | over every run of calls and stores each word of held memory is what its holder last stored there |
| `ChainModel.InitialInv` | lib/heap/heap_priv.h:77-86 | the initial chain is well formed |
| `ChainModel.BestFitCorrect` | lib/heap/heap_best_fit.c:56-75 | best-fit picks the leftmost smallest fitting block, and fails exactly when first-fit fails, which is when nothing fits |
| `ChainModel.ExactFitStays` | lib/heap/heap_best_fit.c:59-64 | stopping at an exact fit loses nothing |
| `ChainModel.TakeInv` | lib/heap/heap_priv.h:93-109 | allocation keeps the chain tiled, aligned and without free pairs, and hands out less than a block too much |
| `ChainModel.GiveInv` | lib/heap/heap_priv.h:115-137 | freeing leaves no two adjacent free blocks |
| `ChainModel.GiveUndoesTake` | lib/heap/heap_priv.h:93-137 | freeing what was just allocated restores the chain exactly |
| `ChainModel.TakeCounters` | lib/heap/heap_first_fit.c:59-63 | allocation raises used bytes and count by what is handed out |
| `ChainModel.GiveCounters` | lib/heap/heap_first_fit.c:95-98 | freeing lowers them by the same |
| `ChainModel.AllFreeIsInitial` | lib/heap/heap_priv.h:115-137 | a chain without allocations is the single initial block |
| `ChainRuns.AllocateCorrect` | lib/heap/heap_best_fit.c:43-79 | for either policy: NULL, with nothing changed, if and only if 0 bytes are asked for or no free block fits; otherwise the preferred block, the first that fits or the first of the smallest, with less than a block too much, while everybody else holds what they held |
| `ChainRuns.ReleaseCorrect` | lib/heap/heap_first_fit.c:76-101 | the block freed is nobody's, everybody else holds what they held |
| `ChainRuns.StepGood` | lib/heap/heap_first_fit.c:43-101 | every call keeps chain and caller's book consistent, for either policy |
| `ChainRuns.RunGood` | lib/heap/heap_best_fit.c:43-109 | so does every run |
| `ChainRuns.HeldMemoryIsolated` | lib/heap/heap_best_fit.c:43-140 | over every run of alloc, free and realloc the chain tiles the pool without free pairs, and held memory is aligned, inside and pairwise disjoint, and large enough exactly if the request did not wrap |
| `ChainRuns.MoveGood` | lib/heap/heap_first_fit.c:126-132 | a resize that moves keeps chain and book consistent |
| `ChainRuns.ReallocateCorrect` | lib/heap/heap_first_fit.c:107-133 | realloc keeps a block that is large enough; otherwise it is NULL, with nothing changed, if and only if no free block fits; otherwise a formerly free block that is large enough is held in exchange for the old one, and everybody else holds what they held |
| `ChainRuns.WrappedRequest` | lib/heap/heap_first_fit.c:43-70 | a request within 7 bytes of 2^32 succeeds whenever anything is free, with a block that is too small |
| `ChainRuns.WrappedResize` | lib/heap/heap_first_fit.c:117-124 | a resize to such a size reports success and changes nothing |
| `ChainRuns.PayloadsStayRoomy` | lib/heap/heap_priv.h:93-109 | over every run without such a request all payloads have the minimum size |
| `ChainRuns.AllFreedRestores` | lib/heap/heap_first_fit.c:76-101 | once everything is freed, in any order, the heap is the initial block again |
| `ChainRuns.AllocFreeRoundTrip` | lib/heap/heap_best_fit.c:43-109 | from any reachable chain, allocating and freeing at once leaves no trace |
| `ChainHeap.HeapState.Initialise` | lib/heap/heap_priv.h:77-86 | the header written represents the initial chain |
| `ChainHeap.HeapState.SplitBlock` | lib/heap/heap_priv.h:93-109 | the linked headers represent the split chain |
| `ChainHeap.HeapState.CoalesceBlock` | lib/heap/heap_priv.h:115-137 | the linked headers represent the coalesced chain |
| `ChainHeap.HeapState.Claim` | lib/heap/heap_first_fit.c:59-63 | split, mark and counters: the new chain, with `used_bytes` and `alloc_count` matching it |
| `ChainHeap.HeapState.AllocFirstFit` | lib/heap/heap_first_fit.c:43-70 | the search loop takes the leftmost fitting block |
| `ChainHeap.HeapState.FindBest` | lib/heap/heap_best_fit.c:56-67 | the scan with early exit finds the best fit of the whole chain |
| `ChainHeap.HeapState.AllocBestFit` | lib/heap/heap_best_fit.c:43-79 | the code is the model's best-fit allocation |
| `ChainHeap.HeapState.Free` | lib/heap/heap_first_fit.c:76-101 | the code is the model's free, counters included; a block that is free already is refused |
| `IntrusiveList.List.constructor` | include/vibe/sys/list.h:61-66 | a new list is the empty sequence |
| `IntrusiveList.List.IsEmpty` | include/vibe/sys/list.h:82-85 | no head means no nodes |
| `IntrusiveList.List.Append` | include/vibe/sys/list.h:112-124 | links, ends and count represent the sequence with the node at its end |
| `IntrusiveList.List.Prepend` | include/vibe/sys/list.h:129-141 | the same with the node in front |
| `IntrusiveList.List.InsertAfter` | include/vibe/sys/list.h:146-160 | the same with the node behind a given one |
| `IntrusiveList.List.Remove` | include/vibe/sys/list.h:169-186 | the same without the node, which is left unlinked |
| `IntrusiveList.List.GetHead` | include/vibe/sys/list.h:191-198 | takes the first node off, or nothing |
| `IntrusiveList.List.RemoveStray` | include/vibe/sys/list.h:169-186 | removing a node that is in no list cuts off the whole list and counts down |
| `IntrusiveList.List.AppendAgain` | include/vibe/sys/list.h:112-124 | appending a node that is in the list leaves links that describe no sequence at all |
| `ThreadLists.Store.constructor` | kernel/sched.c:32-50 | 33 empty lists and any number of empty wait lists |
| `ThreadLists.Store.Append` | include/vibe/sys/list.h:112-124 | by its own links, a thread joins one list at the tail; every other list, count and control block stays as it is |
| `ThreadLists.Store.Remove` | include/vibe/sys/list.h:169-186 | by its own links, a thread leaves one list; everything else stays as it is |
| `ThreadLists.Store.FindLater` | kernel/sched.c:219-222 | the walk along the links stops at the first sleeper that expires later |
| `ThreadLists.Store.PlaceSleeper` | kernel/sched.c:223-234 | prepend, insert-after or append puts the sleeper before that one |
| `ThreadLists.Store.Renew` | kernel/thread.c:122-142 | making a control block anew, its three nodes included, disturbs no list, provided it is in none |
| `SchedModel.NextIsTop` | kernel/sched.c:112-126 | the next thread heads the highest non-empty queue: no runnable thread outranks it |
| `SchedModel.RescheduleInv` | kernel/sched.c:132-176 | rescheduling keeps the invariant and every thread's place in its queue, and afterwards the choice is current, unless locked |
| `SchedModel.WakesExactly` | kernel/sched.c:240-252 | the early-exit scan wakes exactly the sleepers whose time has come |
| `SchedModel.AttachSleeper` | kernel/sched.c:211-238 | the sleep list stays sorted by expiry |
| `SchedModel.HeadIsEarliest` | kernel/sched.c:254-262 | the head of the sleep list is due first |
| `SchedRuns.StepInv` | kernel/thread.c:93-369 | every admitted operation keeps all queues, lists and control blocks consistent |
| `SchedRuns.BootInv` | kernel/sched.c:327-336 | they are consistent after boot, with the idle thread READY at priority 0 and nothing else there |
| `SchedRuns.RunInv` | kernel/thread.c:93-369 | and over every run |
| `SchedRuns.QueuedExactlyWhenRunnable` | kernel/sched.c:79-106 | a thread is in a run queue exactly when it is READY or RUNNING, and then in that of its priority; in the sleep list exactly when SLEEPING; in a wait list exactly when it waits there |
| `SchedRuns.DecisionPicksTop` | kernel/sched.c:132-176 | after every scheduling decision with the lock free, the current thread heads the highest non-empty queue |
| `SchedRuns.LockFreezesCurrent` | kernel/sched.c:268-287 | while the scheduler is locked the current thread does not change |
| `SchedRuns.TickWakesOnTime` | kernel/init.c:178-191 | a sleeper becomes runnable on the first tick that reaches its expiry, and not before |
| `SchedRuns.SleepersAreFifo` | kernel/sched.c:211-238 | a new sleeper goes behind all who expire no later, before all others |
| `SchedDecisions.LockCounts` | kernel/sched.c:268-287 | lock adds one to the count and changes nothing else, unlock takes one off unless there is none, no other operation changes the count |
| `SchedDecisions.LockedRun` | kernel/sched.c:268-287 | however lock and unlock nest, the current thread is the same through any run that stays inside the outermost lock |
| `SchedDecisions.LockedSection` | kernel/sched.c:268-287 | from an outermost lock to the unlock that matches it the current thread is the same; then the top thread runs |
| `SchedDecisions.UnlockPicksTop` | kernel/sched.c:275-287 | after the last unlock the top thread runs, whoever was current |
| `SchedDecisions.OperationPicksTop` | kernel/thread.c:162-369 | with the lock free, the top thread runs after a resume of a thread that outranks the current one, a give to a waiter, set_priority, sleep, yield, block, tick, and the end or suspension of the current thread; a newcomer is RUNNING |
| `SchedDecisions.StartRunsTop` | kernel/sched.c:327-363 | after the start the top thread is current and RUNNING |
| `SchedDecisions.TopStays` | kernel/thread.c:93-369 | with the lock free and the top thread running, it runs after any operation too, if and only if that is no create or restart that leaves a thread of higher priority waiting |
| `SchedDecisions.SliceGoesOn` | kernel/sched.c:182-205 | only ticks move the clock and the slice, the slice while the current thread is RUNNING; a switch leaves it as it is |
| `SchedDecisions.WokenInOrder` | kernel/sched.c:240-252 | sleepers woken together join their run queues in the order of the sleep list, behind who is there |
| `SchedEffects.ThreadGetsWhatWasAsked` | kernel/thread.c:93-369 | after each operation its thread has the mode, priority and expiry asked for, or nothing changed where the call is refused; a yield leaves it READY at the tail of its queue and no other queue changed |
| `SchedEffects.OthersUndisturbed` | kernel/thread.c:93-369 | every other thread keeps its priority, its expiry and whether it can run |
| `SchedEffects.NewcomersAtTail` | kernel/sched.c:79-106 | in every operation but a tick, each run queue stays as it is but for the thread that the operation is about, which leaves it or comes to its tail |
| `SchedEffects.SleepsUntilExpiry` | kernel/sched.c:240-252 | under ticks a sleeper is asleep exactly as long as they have not reached its expiry |
| `SchedEffects.SleepLastsAsAsked` | kernel/thread.c:252-279 | a sleep of d ticks ends on the d-th tick (on the next, for d = 0) |
| `SchedEffects.TimedWaitNeverEnds` | kernel/sem.c:48-66 | over every run the waiter with i others in front waits through i gives, moving up by one with each, whatever its timeout |
| `SchedEffects.TurnComes` | kernel/sem.c:76-84 | the next give makes it runnable |
| `SchedEffects.WaitsStep` | kernel/sem.c:48-84 | blocking appends to its wait list, a give takes the head off, and no other operation changes a wait list |
| `SchedFairness.OneTick` | kernel/sched.c:182-205 | a tick counts the slice down, or starts a new one and moves the head to the back; with a READY head it does neither |
| `SchedFairness.RoundRobin` | kernel/sched.c:182-205 | after n quiet ticks the current thread is the one whose slice it is, by position in the queue; a READY head stays |
| `SchedFairness.FirstKeepsItsSlice` | kernel/sched.c:182-205 | the head keeps the processor for the rest of its slice |
| `SchedFairness.EachGetsItsSlice` | kernel/sched.c:182-205 | the thread at position i has the processor for exactly the i-th slice, if and only if the head was RUNNING |
| `SchedFairness.RoundAfterRound` | kernel/sched.c:182-205 | while nobody joins, turn i belongs to the thread at position i modulo the length of the queue, for ever |
| `SchedFairness.YieldMode` | kernel/thread.c:285-299 | after a yield its caller is READY at the tail, and still current if and only if it is alone in its queue with nothing above |
| `SchedFairness.LoneYielderKeepsProcessor` | kernel/sched.c:182-188 | a READY current thread keeps processor and slice through any number of ticks |
| `SchedFairness.NewcomerStarves` | kernel/sched.c:132-188 | a thread of the same priority created after a lone yield gets no turn however many ticks pass |
| `SchedFairness.TurnPassesExactlyWhenRunning` | kernel/sched.c:182-205 | with someone behind it, the head loses the processor at the end of its slice if and only if it is RUNNING |
| `SchedMisuse.CreateExact` | kernel/thread.c:93-156 | create keeps lists, counters and control blocks consistent if and only if it is refused, or the control block is new or that of a SUSPENDED or DEAD thread, and is then the model's step |
| `SchedMisuse.ResumeExact` | kernel/thread.c:223-246 | resume always does |
| `SchedMisuse.DeleteExact` | kernel/thread.c:162-190 | delete does if and only if the thread neither sleeps nor waits |
| `SchedMisuse.SuspendExact` | kernel/thread.c:196-221 | the same for suspend |
| `SchedMisuse.YieldExact` | kernel/thread.c:285-299 | yield does if and only if the current thread is in its queue, or there is none |
| `SchedMisuse.SleepExact` | kernel/thread.c:252-279 | the same for sleep |
| `SchedMisuse.BlockExact` | kernel/sem.c:48-57 | the same for waiting on a semaphore |
| `SchedMisuse.GiveExact` | kernel/sem.c:68-84 | a give, which takes the head of the wait list, always does |
| `SchedMisuse.GiveAfterMisuse` | kernel/sem.c:74-84 | after a restart, or suspend and resume, of the first waiter the give that follows tangles a run queue; after its deletion it makes the dead thread runnable |
| `SchedMisuse.RestartExact` | kernel/thread.c:305-336 | restart does if and only if the thread neither is RUNNING nor waits |
| `SchedMisuse.SetPriorityExact` | kernel/thread.c:342-369 | set_priority does if and only if the thread is not RUNNING, or the priority is refused or the old one |
| `SchedMisuse.MisuseDamages` | kernel/thread.c:93-369 | for each excluded case, a state and a call that fail |
| `Mutex.LockExact` | kernel/mutex.c:27-101 | lock keeps the scheduler consistent and does not fault if and only if it need not wait, or outranks neither a READY owner nor the first waiter; the waiters stay sorted |
| `Mutex.LockEffect` | kernel/mutex.c:37-57 | the owner's next lock counts up; a free mutex is taken once, with the caller's priority kept; a lock that may not wait changes nothing |
| `Mutex.LockInherits` | kernel/mutex.c:59-94 | a lock that waits without damage puts the caller behind the waiters it does not outrank and in front of the others, raises an owner of lower priority to the caller's priority and changes nobody else's, and lets the top thread run |
| `Mutex.UnlockExact` | kernel/mutex.c:109-155 | unlock keeps it consistent if and only if it is refused, not the last, or has no boost to take back; after the last one the first waiter, whom nobody outranks, is owner and can run, and the top thread runs |
| `Mutex.UnlockEffect` | kernel/mutex.c:109-150 | refused for a caller that is not the owner; one of several locks counts down; the last gives the mutex to the first waiter, locked once and with its base priority kept, or to nobody |
| `Mutex.UnlockRestores` | kernel/mutex.c:129-150 | the last unlock gives the caller back the priority kept as it took the mutex, and takes the first waiter off the list |
| `Mutex.OtherMutexExact` | kernel/mutex.c:59-68 | through a lock that waits, another mutex's list stays sorted if and only if the owner does not wait there behind somebody whom the caller outranks |
| `Mutex.BoostDamages` | kernel/mutex.c:61-68 | a preempted owner and a caller of higher priority: the queues are damaged |
| `Mutex.UnlockDamages` | kernel/mutex.c:130-135 | the unlock of a boosted owner: the queues are damaged |
| `Mutex.SecondWaiterFaults` | kernel/mutex.c:77-86 | a waiter of higher priority than the first: insertion behind NULL |
| `Mutex.BoostUnsortsOther` | kernel/mutex.c:59-68 | two mutexes and a boost that leaves the second one's list unsorted |
| `Scheduler.MaskFindsHighest` | kernel/sched.c:64-73 | the highest bit of an exact mask names the highest non-empty queue |
| `Scheduler.Kernel.constructor` | kernel/sched.c:32-50 | queues, mask and lists after boot |
| `Scheduler.Kernel.EnqueueThread` | kernel/sched.c:79-92 | through the links: the thread is READY at the tail of its queue; all lists stay well formed, the mask exact |
| `Scheduler.Kernel.DequeueThread` | kernel/sched.c:94-106 | through the links: the thread is out of its queue; all lists stay well formed, the mask exact |
| `Scheduler.Kernel.HighestReadyPriority` | kernel/sched.c:64-73 | the bit scan finds the highest non-empty queue, -1 if all are empty |
| `Scheduler.Kernel.NextThread` | kernel/sched.c:112-126 | the code returns the model's next thread |
| `Scheduler.Kernel.Resched` | kernel/sched.c:132-176 | the code makes the model's decision |
| `Scheduler.Kernel.SliceTick` | kernel/sched.c:182-205 | the code is the model's slice step |
| `Scheduler.Kernel.SleepInsert` | kernel/sched.c:211-238 | the walk and the three kinds of link surgery put the sleeper before the first later expiry |
| `Scheduler.Kernel.WakeScan` | kernel/sched.c:240-252 | the safe iteration over the links is the model's waking |
| `Scheduler.Kernel.NextWakeup` | kernel/sched.c:254-262 | the minimum expiry over all sleepers, or "never" |
| `Scheduler.Kernel.LockScheduler` | kernel/sched.c:268-273 | the code is the model's step, which adds one to the count (`SchedDecisions.LockCounts`), and the mask stays exact |
| `Scheduler.Kernel.UnlockScheduler` | kernel/sched.c:275-287 | the code is the model's step: after the last unlock the top thread runs (`SchedDecisions.UnlockPicksTop`) |
| `Scheduler.Kernel.StartScheduler` | kernel/sched.c:327-363 | the first thread is the top one, RUNNING |
| `Scheduler.Kernel.CreateThread` | kernel/thread.c:93-156 | the code is the model's step, on a new or a reused control block; refused exactly for a priority above 31 |
| `Scheduler.Kernel.DeleteThread` | kernel/thread.c:162-190 | the code is the model's step, and the mask stays exact |
| `Scheduler.Kernel.SuspendThread` | kernel/thread.c:196-221 | the code is the model's step; refused exactly for a dead thread |
| `Scheduler.Kernel.ResumeThread` | kernel/thread.c:223-246 | the code is the model's step; refused exactly unless suspended |
| `Scheduler.Kernel.SleepThread` | kernel/thread.c:252-279 | the code is the model's step |
| `Scheduler.Kernel.YieldThread` | kernel/thread.c:285-299 | the code is the model's step |
| `Scheduler.Kernel.RestartThread` | kernel/thread.c:305-336 | the code is the model's step |
| `Scheduler.Kernel.SetThreadPriority` | kernel/thread.c:342-369 | the code is the model's step; refused exactly for a priority above 31 |
| `Scheduler.Kernel.BlockCurrent` | kernel/sem.c:48-57 | through the links: the current thread leaves its run queue for the tail of the wait list; the code is the model's step |
| `Scheduler.Kernel.GiveTo` | kernel/sem.c:68-84 | through the links: the head of the wait list, if any, goes to its run queue; the code is the model's step |
| `Scheduler.Kernel.SysTick` | kernel/init.c:178-191 | tick, wake, slice, reschedule: the code is the model's step |
| `Scheduler.Kernel.TickHandler` | kernel/init.c:178-191 | with the software timers: each part is its model's step, and neither disturbs the other |
| `Scheduler.Kernel.Perform` | kernel/thread.c:93-369 | every admitted call is the model's step, with 33 well-formed lists, right counts and an exact mask |
| `Scheduler.Kernel.Execute` | kernel/thread.c:93-369 | so is every run of calls: the state reached is that of the model's run |
| `ContextSwitch.LowRoundTrip` | arch/arm/cortex_m/core/context_switch.S:87-123 | restoring R4-R11 is the inverse of saving them |
| `ContextSwitch.PreparedSaved` | arch/arm/cortex_m/core/irq.c:350-394 | a new stack holds a complete first context, ready to be restored; which word is which register is `FrameLaid` |
| `ContextSwitch.FrameLaid` | arch/arm/cortex_m/core/irq.c:350-394 | word by word below the top: xPSR with the Thumb bit, entry as PC, exit as LR, R12, R3 to R1, arg as R0, and eight zeros; no other word changes |
| `ContextSwitch.SavedApart` | arch/arm/cortex_m/core/context_switch.S:83-102 | the words of R4-R7 lie above those of R8-R11 |
| `ContextSwitch.FirstRunCallsEntry` | arch/arm/cortex_m/core/irq.c:350-394 | through any run between its set-up and its first turn, a new thread starts with R0 = arg, PC = entry, LR = exit, the Thumb bit, R4-R11 = 0 and the 8-aligned top as stack pointer |
| `ContextSwitch.ChosenAtOnce` | arch/arm/cortex_m/core/irq.c:278-394 | set-up, request, exception, handler and return, one after the other, put exactly that on the CPU |
| `ContextSwitch.AllSaved` | arch/arm/cortex_m/core/context_switch.S:80-103 | after the save half of the handler every thread's context lies intact on its stack |
| `ContextSwitch.SwapInv` | arch/arm/cortex_m/core/context_switch.S:76-140 | the handler keeps every saved context and puts the chosen one on the CPU |
| `ContextSwitch.ReturnRestores` | arch/arm/cortex_m/core/context_switch.S:112-140 | the return resumes the latest choice with exactly its registers and stack pointer |
| `ContextSwitch.StepInv` | arch/arm/cortex_m/core/irq.c:262-292 | thread work, interrupts, requests, entry, handler, tail-chaining and return all keep this |
| `ContextSwitch.RunInv` | arch/arm/cortex_m/core/irq.c:262-292 | so does every run |
| `ContextSwitch.EveryResumeIsExact` | arch/arm/cortex_m/core/context_switch.S:76-140 | over every run from reset, however requests coalesce: exact resumption, of the thread that the last request was for; with nothing pending that thread is running |
| `ContextSwitch.OnePassServes` | arch/arm/cortex_m/core/irq.c:262-292 | unless another request comes in, one pass of the handler ends the exception with the chosen thread on the CPU, on entry and when tail-chained |
| `PendSV.Processor.SaveRegisters` | arch/arm/cortex_m/core/context_switch.S:83-102 | the store instructions put R4-R7 above R8-R11 below the frame, and the pointer into the control block |
| `PendSV.Processor.RestoreRegisters` | arch/arm/cortex_m/core/context_switch.S:112-128 | the load instructions bring them back in their places |
| `PendSV.Processor.Handle` | arch/arm/cortex_m/core/context_switch.S:76-140 | the instruction sequence is the machine's handler step |
| `PendSV.Processor.SwitchThread` | arch/arm/cortex_m/core/irq.c:278-292 | only the latest choice is remembered, and PendSV is pended |
| `PendSV.Processor.InitStack` | arch/arm/cortex_m/core/irq.c:350-394 | the frame writes and the clearing loop put each word of the first frame in its place, with entry as PC and exit as LR, eight zeros below, and the pointer into the control block; they are the machine's stack preparation |
| `Wrap32.PowerOfTwoTest` | lib/ring_buffer/ring_buffer.c:17 | the bit trick accepts exactly the powers of two |
| `Wrap32.MaskIsMod` | lib/ring_buffer/ring_buffer.c:33-36 | masking with a power of two minus one is the remainder |
| `Wrap32.WrapKeepsSlot` | lib/ring_buffer/ring_buffer.c:33-36 | wrapping an index at 2^32 keeps its buffer position, because the size divides 2^32 |
| `RingProtocol.CountsExact` | lib/ring_buffer/ring_buffer.c:38-47 | under the invariant used, full and empty are exact, although both indices wrap |
| `RingProtocol.ChunkSlotIsMod` | lib/ring_buffer/ring_buffer.c:92-101 | masked and split in two chunks, each byte still goes to its own slot |
| `RingProtocol.TransfersAllThatFits` | lib/ring_buffer/ring_buffer.c:49-137 | by the bytes published and delivered so far, a put takes on as much of its data as there is room for, none exactly when full, a get as much of what is there as was asked for, none exactly when empty |
| `RingProtocol.StoreHitsNoUnread` | lib/ring_buffer/ring_buffer.c:83-104 | no store hits a byte that is still to be read |
| `RingProtocol.StepInv` | lib/ring_buffer/ring_buffer.c:49-137 | every access of either side keeps the stream intact |
| `RingProtocol.RunInv` | lib/ring_buffer/ring_buffer.c:49-137 | so does every interleaving |
| `RingProtocol.StreamIntact` | lib/ring_buffer/ring_buffer.c:49-137 | over every interleaving the bytes delivered are a prefix of those accepted, and the ring holds the rest |
| `RingProtocol.RunsExtend` | lib/ring_buffer/ring_buffer.c:49-137 | no access that is due ever leaves the buffer |
| `RingBuffer.Init` | lib/ring_buffer/ring_buffer.c:14-30 | accepts exactly the powers of two; the ring is empty |
| `RingBuffer.Ring.Used` | lib/ring_buffer/ring_buffer.c:38-42 | the number of bytes held |
| `RingBuffer.Ring.PutByte` | lib/ring_buffer/ring_buffer.c:49-68 | appends the byte, or refuses exactly when full |
| `RingBuffer.Ring.GetByte` | lib/ring_buffer/ring_buffer.c:70-81 | takes the oldest byte, or refuses exactly when empty |
| `RingBuffer.Ring.PutBuf` | lib/ring_buffer/ring_buffer.c:83-111 | the same as putting byte after byte; returns how many fitted |
| `RingBuffer.Ring.GetBuf` | lib/ring_buffer/ring_buffer.c:113-137 | the same as getting byte after byte |
| `RingBuffer.PutEachAppends` | lib/ring_buffer/ring_buffer.c:83-111 | putting byte after byte appends the longest prefix that fits |
| `RingBuffer.GetEachSplits` | lib/ring_buffer/ring_buffer.c:113-137 | getting byte after byte splits the contents |
| `WorkQueue.SemKept` | kernel/sem.c:29-110 | nobody waits while there are tokens, the maximum is kept, and when each call succeeds, waits, hands over or is refused; a reset takes the tokens and nothing else |
| `WorkQueue.TokensConserved` | kernel/sem.c:29-95 | over every run: initial count + gives = grants + final count |
| `WorkQueue.HandedInOrder` | kernel/sem.c:48-84 | over every run tokens go to those who wait in the order in which they came: waiting ++ come = handed ++ waiting still |
| `WorkQueue.StepInv` | kernel/workq.c:23-126 | queue length = semaphore count + gives in flight + token held; pending exactly the queued items |
| `WorkQueue.PopFindsWork` | kernel/workq.c:31-41 | a worker with a token always finds an item, and clears its flag |
| `WorkQueue.ExactlyOnceInOrder` | kernel/workq.c:23-126 | over every run accepted items are executed once each, in order, except those still queued |
| `WorkQueue.QuietMeansDone` | kernel/workq.c:23-126 | when nobody can move, everything accepted has been executed |
| `WorkQueue.Drains` | kernel/workq.c:23-126 | once submissions stop, that is so after a bounded number of steps |
| `WorkQueue.Sem.TakeToken` | kernel/sem.c:29-60 | on the linked wait list: the code is the protocol's take |
| `WorkQueue.Sem.GiveToken` | kernel/sem.c:68-95 | on the linked wait list: the code is the protocol's give |
| `WorkQueue.Queue.Append` | kernel/workq.c:104-121 | on links and flags: the protocol's submit step, with its invariant; refused exactly when pending |
| `WorkQueue.Queue.GiveSignal` | kernel/workq.c:123-125 | the protocol's signal step |
| `WorkQueue.Queue.AwaitWork` | kernel/workq.c:27-28 | the protocol's take step |
| `WorkQueue.Queue.PopHead` | kernel/workq.c:31-41 | on links and flags: the protocol's pop step; the first item is always there, and no longer pending |
| `Crc32.Update` | subsys/coredump/coredump.c:31-41 | the nested loops compute the checksum function |
| `Crc32.CheckValue` | subsys/coredump/coredump.c:31-41 | the check value of this CRC: the digits 1 to 9 give 0xCBF43926 |
| `Crc32.CrcInPieces` | subsys/coredump/coredump.c:31-41 | crc(crc(c, a), b) = crc(c, a ++ b) |
| `Crc32.AbsorbInjective` | subsys/coredump/coredump.c:35-38 | the byte step is injective in the state |
| `Crc32.AbsorbWord` | subsys/coredump/coredump.c:35-38 | absorbing up to four bytes is 8n bit steps on the state combined with their word |
| `Crc32.BurstChangesCrc` | subsys/coredump/coredump.c:31-41 | for every record length, any change confined to four consecutive bytes changes the checksum |
| `Crc32.BitBurstChangesCrc` | subsys/coredump/coredump.c:31-41 | so does any change confined to 32 consecutive bits, also across five bytes |
| `Crc32.FiveBytesCanCollide` | subsys/coredump/coredump.c:31-41 | in every place some change of five bytes does not |
| `Coredump.SealedIsValid` | subsys/coredump/coredump.c:366-368 | a sealed record is valid, and begins with the bytes DE C0 AD DE 01 00 00 00 |
| `Coredump.CorruptionRejected` | subsys/coredump/coredump.c:54-63 | a valid record patched in up to four consecutive bytes is valid exactly if nothing changed |
| `Coredump.ChecksumCorruptionRejected` | subsys/coredump/coredump.c:54-63 | the same for its checksum field |
| `Coredump.BurstRejected` | subsys/coredump/coredump.c:54-63 | a valid record with a burst of up to 32 bits in its body, across five bytes, is valid exactly if nothing changed |
| `Coredump.StraddlingBurstRejected` | subsys/coredump/coredump.c:54-63 | the same for a burst that runs from the end of the body into the checksum field |
| `Coredump.Store.IsValid` | subsys/coredump/coredump.c:54-63 | the code decides validity |
| `Coredump.Store.Clear` | subsys/coredump/coredump.c:88-92 | no valid record is left; everything but magic and checksum stays |
| `Coredump.Store.Capture` | subsys/coredump/coredump.c:287-368 | the result is sealed and valid; of all states after a store from the clearing of the magic number on, none is valid unless it has the complete new contents |
| `JobModel.RoundEnds` | lib/job_scheduler/job_scheduler.c:95-144 | a round ends whatever the jobs do, with each slot at most once per phase |
| `JobModel.ReadyPhaseSorts` | lib/job_scheduler/job_scheduler.c:112-129 | with quiet jobs the first phase invokes exactly the ready slots, in the stable order of falling priority |
| `JobModel.BlockedPhaseComplete` | lib/job_scheduler/job_scheduler.c:131-142 | the second phase invokes exactly the slots blocked by then |
| `JobModel.RoundByAnswers` | lib/job_scheduler/job_scheduler.c:18-144 | by what quiet jobs answer: the first phase invokes the ready slots, the second exactly those blocked before the round or by their answer in the first; afterwards a slot is idle, blocked or ready by its last answer (done, blocked, running), and as before if it had no turn |
| `JobModel.ExecSettles` | lib/job_scheduler/job_scheduler.c:18-47 | whatever the job submits and cancels, its own slot ends up as its answer says, and only a job that is done is counted as completed |
| `JobModel.ExecBalanced` | lib/job_scheduler/job_scheduler.c:18-47 | an invocation keeps the statistics right exactly when the job's slot is still occupied as it returns |
| `JobModel.BooksBalance` | lib/job_scheduler/job_scheduler.c:59-144 | over every sequence of calls without self-cancelling: submitted = completed + cancelled + active, and active counts the occupied slots |
| `JobModel.SubmitTakesSlot` | lib/job_scheduler/job_scheduler.c:59-80 | the first idle slot, if any, holds a READY job of the priority asked for, no other slot changes; nothing changes if none is idle |
| `JobModel.CancelEmptiesSlot` | lib/job_scheduler/job_scheduler.c:82-93 | the slot is idle, no other changes |
| `JobModel.SelfCancelMiscounts` | lib/job_scheduler/job_scheduler.c:18-93 | a self-cancelling job drives the active count to -1 |
| `JobScheduler.Scheduler.SubmitJob` | lib/job_scheduler/job_scheduler.c:59-80 | takes and returns the first idle slot; fails exactly when none is idle |
| `JobScheduler.Scheduler.CancelJob` | lib/job_scheduler/job_scheduler.c:82-93 | frees the slot, unless idle |
| `JobScheduler.Scheduler.Invoke` | lib/job_scheduler/job_scheduler.c:18-47 | the code is the model's invocation, callbacks included: done leaves the slot idle, blocked leaves it BLOCKED, running leaves it READY (`JobModel.ExecSettles`) |
| `JobScheduler.Scheduler.FindBest` | lib/job_scheduler/job_scheduler.c:113-123 | the scan finds the highest priority not yet done, leftmost among equals |
| `JobScheduler.Scheduler.RunReady` | lib/job_scheduler/job_scheduler.c:112-129 | the loop with its bit mask is the model's first phase |
| `JobScheduler.Scheduler.Run` | lib/job_scheduler/job_scheduler.c:95-144 | the code is the model's round; returns the number of invocations |
| `JobScheduler.Scheduler.CountActive` | lib/job_scheduler/job_scheduler.c:157-167 | counts the occupied slots, which the statistics agree with when balanced |
| `TimerModel.StepInv` | kernel/timer.c:52-200 | the list holds exactly the active timers, once each, with at least one tick to go |
| `TimerModel.RunInv` | kernel/timer.c:52-200 | so over every run |
| `TimerModel.OneShotFiresOnce` | kernel/timer.c:159-200 | a one-shot with r ticks to go fires on the r-th tick, on no other, and then leaves the list |
| `TimerModel.PeriodicFiresOnSchedule` | kernel/timer.c:159-200 | a periodic timer fires when its period ends and every period after |
| `TimerModel.StartedFiresOnTime` | kernel/timer.c:52-88 | from its start: on tick d only, or exactly on the multiples of d |
| `TimerModel.StopIsFinal` | kernel/timer.c:94-123 | a timer stopped in whatever period is inactive and out of the list, and fires on no tick of any run that leaves it alone; every other timer keeps its clock and its place |
| `TimerModel.StartGoesFirst` | kernel/timer.c:52-88 | a started timer stands in front of the others, which keep their clocks and their order |
| `TimerModel.InListOrder` | kernel/timer.c:159-200 | who stays and who fires is found stretch by stretch of the list, both in its order |
| `TimerModel.SortedExactly` | kernel/timer.c:72-74 | starting a timer keeps a sorted list sorted if and only if it expires no later than the first |
| `TimerModel.StartedInOrder` | kernel/timer.c:72-74 | two timers started in the order of their expiry stand in the other order |
| `TimerList.Timers.Start` | kernel/timer.c:52-88 | on the links: the model's start step, with its invariant; refused exactly for a duration of zero |
| `TimerList.Timers.Stop` | kernel/timer.c:94-123 | on the links: the model's stop step, after which the timer never fires (`TimerModel.StopIsFinal`); refused exactly when not active |
| `TimerList.Timers.Tick` | kernel/timer.c:159-200 | the loop with its two cursors is the model's tick step; those due fire, in list order |
| `KernelRings.MsgBuffer.Put` | kernel/msgq.c:42-46 | `msg_size` bytes at the tail: the ring of messages with one more, no other message touched |
| `KernelRings.MsgBuffer.Get` | kernel/msgq.c:97-101 | the oldest message, byte for byte, and the ring without it |
| `KernelRings.MsgBuffer.Peek` | kernel/msgq.c:143-156 | the oldest message |
| `KernelRings.MsgBuffer.Purge` | kernel/msgq.c:158-166 | the ring is empty |
| `KernelRings.PipeBuffer.WriteSome` | kernel/pipe.c:46-55 | stores as much of the remaining data as fits, byte after byte |
| `KernelRings.PipeBuffer.ReadSome` | kernel/pipe.c:107-115 | takes as much as is there and wanted, byte after byte |
| `KernelRings.StoredAllHeld` | kernel/pipe.c:46-55 | storing appends to what the ring holds, with tail = (head + used) mod size |
| `KernelRings.TakenAllHeld` | kernel/pipe.c:107-115 | taking splits what the ring holds |
| `MsgQueue.StepInv` | kernel/msgq.c:34-176 | every section of every call, purge included, keeps ring, wait lists, logs and call records in step |
| `MsgQueue.RunInv` | kernel/msgq.c:34-176 | so does every interleaving |
| `MsgQueue.QueueIsExact` | kernel/msgq.c:34-176 | over every interleaving from an empty queue: tail = (head + used) mod capacity; accepted = departed in that order ++ held; each call put its message in, or got the one it returned, exactly once if it returned success and never otherwise |
| `MsgQueue.FirstTry` | kernel/msgq.c:34-128 | success, refusal or waiting, exactly by room and messages at that moment |
| `MsgQueue.SecondTry` | kernel/msgq.c:76-140 | after waking, a timeout is reported if and only if the queue is full, or empty, again |
| `MsgQueue.FirstWaitingFirstWoken` | kernel/msgq.c:34-176 | who has to wait goes to the end of its list; a put that succeeds at once wakes the get that has waited longest, such a get the put that has; a purge empties the queue and wakes every put; nothing else changes the lists |
| `MsgQueue.OthersAsTheyWere` | kernel/msgq.c:34-176 | who leaves a wait list is woken, no other call's record changes |
| `MsgQueue.PutOvertaken` | kernel/msgq.c:34-87 | a put that may wait for ever reports a timeout: the interleaving |
| `MsgQueue.GetOvertaken` | kernel/msgq.c:89-141 | so does a get |
| `MsgQueue.RoomLeftExactly` | kernel/msgq.c:89-141 | a step leaves room without a woken put for it, while a put waits, if and only if it is a get that succeeds on its second try with none to spare |
| `MsgQueue.MessageLeftExactly` | kernel/msgq.c:34-87 | the same for messages and puts |
| `MsgQueue.PutStranded` | kernel/msgq.c:34-141 | an interleaving that ends with a put waiting at an empty queue and nobody to wake it |
| `Pipe.StepInv` | kernel/pipe.c:29-145 | every section of every call keeps ring, wait lists, logs and call records in step |
| `Pipe.RunInv` | kernel/pipe.c:29-145 | so does every interleaving |
| `Pipe.PipeIsExact` | kernel/pipe.c:29-145 | over every interleaving: accepted = delivered ++ held; what a write got in is exactly data[..written], in order and once, what a read took out exactly its result, and the count returned is that |
| `Pipe.SectionEnds` | kernel/pipe.c:29-145 | when a turn of the loop is the last, and when it makes the call wait |
| `Pipe.SectionMovesAll` | kernel/pipe.c:29-145 | a turn of the loop moves all that is left to do, or leaves the ring full or empty |
| `Pipe.FirstWaitingFirstWoken` | kernel/pipe.c:29-145 | who has to wait goes to the end of its list; a turn that puts bytes in wakes the read that has waited longest, one that takes bytes out the write that has |
| `Pipe.OthersAsTheyWere` | kernel/pipe.c:29-145 | who leaves a wait list is woken, no other call's record changes |
| `Pipe.DataLeftExactly` | kernel/pipe.c:89-145 | a step leaves data without a taker, while a read waits, if and only if it is a read that finishes, with no other on its way, and leaves some |
| `Pipe.RoomLeftExactly` | kernel/pipe.c:29-87 | the same for room and writes |
| `Pipe.ReadStranded` | kernel/pipe.c:29-145 | an interleaving that ends with a read waiting next to a byte and nobody to wake it |
| `Rtt.Channel.Used` | subsys/rtt/rtt.c:183-195 | the number of unread bytes |
| `Rtt.Channel.WriteRun` | subsys/rtt/rtt.c:110-137 | one contiguous run, the host reading on between any two bytes of the copy; none exactly when only the spare slot is left as the offsets are loaded |
| `Rtt.Channel.Write` | subsys/rtt/rtt.c:93-142 | while the host reads on, between the load of the offsets and their store too: it gets every byte in order before its slot is reused, and at least what fitted at first is stored |
| `Rtt.Channel.Read` | subsys/rtt/rtt.c:148-177 | takes the bytes the host has written, in order, up to the length asked for |

## Left out

- `calloc` in all heaps, and the statistics walk and the copying of `realloc` in the first-fit and best-fit heaps: TLSF's are modelled; these would only add easier members.
- `ChainHeap.HeapState.Free`: not for pointers that are no block's, whose header is whatever lies there.
- `TlsfHeap.Tlsf.Free`: not for a second free of a block without IS_FREE; `TlsfMisuse.DoubleFreeExact` proves of the model what it does, but its words in memory, which then represent no heap, are not followed.
- `TlsfHeap.Tlsf.LocateFree`: not for requests above 15/16 of 2^23, which index outside the table of lists or, above 15/16 of 2^32, find a block that is too small and split off more than it has (`TlsfMisuse.RequestExact`).
- `TlsfModel.AllocateCorrect`: the same requests.
- `TlsfHeap.Tlsf.Alloc`: the same requests.
- `TlsfHeap.Tlsf.Realloc`: the same requests.
- `Scheduler.Kernel.DeleteThread`: not for the calls that `SchedRuns.Allowed` excludes, after which there are no well-formed lists to speak of; `SchedMisuse` is about those.
- `Scheduler.Kernel.SuspendThread`: the same.
- `Scheduler.Kernel.CreateThread`: the same.
- `Scheduler.Kernel.SleepThread`: the same.
- `Scheduler.Kernel.YieldThread`: the same.
- `Scheduler.Kernel.RestartThread`: the same.
- `Scheduler.Kernel.SetThreadPriority`: the same.
- `Scheduler.Kernel.BlockCurrent`: the same; nor for the count of the semaphore, which is in `WorkQueue.Sem`.
- kernel/event.c: its wait context lies behind a thread's `tls` pointer, which the application sets.
- `Mutex.LockExact`: what the caller finds when it is scheduled again (`VIBE_OK` or `VIBE_ETIMEOUT`) is not part of the call here.
- `SchedRuns.StepInv`: thread names, stacks, heap-allocated stacks, tracing and run-time statistics are not part of the thread operations here.
- Tickless idle, scheduler modes, SMP, drivers, boards, MPU, shell, logging and tracing: I/O, registers or stubs.
- The FPU registers, the main stack's contents and the exception's alignment padding in the context switch.
- Statistics of the ring buffer (peak, put, get and drop counts).
- Wrap-around of 32-bit counters other than the ring's indices: ticks, semaphore counts and statistics.
- Weak memory ordering: the fences in the ring buffer have no counterpart here.
- The contents of the crash record other than magic, version and checksum, and its report.
- lib/heap/heap.c, kernel/mem_pool.c, the printf core and the host-side scripts.
