# Dioptase-OS in Dafny

A model of the hard parts of Dioptase-OS, a small multi-core operating system with its own C compiler and
assembler, and proofs of what those parts promise.  `dafny verify dfyconfig.toml` checks all of it.

| part | files |
|---|---|
| C compiler: from parsed syntax trees to three-address code | `CSource` `TypeConversion` `Tac` `Lowering` `LoweringExpr` `LabelResolution` `LoweringLabels` `LoweringStmt` `TacList` `ListLowering` |
| frame allocator, per-core frame caches, kernel heap | `Dyadic` `BuddyBlocks` `FreeLists` `Physmem` `CoreCaches` `SlabObjects` `SlabHeap` |
| queue lock, barrier, reader-writer lock | `ClhLock` `Barrier` `RwLock` |
| ext2: bitmaps, block map, reclaiming, bytes of a file, directories, block cache | `Ext2Bits` `Ext2Volume` `Ext2Tree` `Ext2Inode` `Ext2File` `Ext2Reclaim` `Ext2Bytes` `Directory` `Ext2Dir` `BlockCache` `CacheRuns` |
| virtual memory: list of ranges, page cache, pages shared between address spaces, bytes of pages and files | `VmeList` `PageCache` `SharedPages` `FilePages` `PageViews` |
| assembler and executable file | `Assembler` `AssemblerText` `ElfImage` |
| scheduler | `Scheduler` |
| words, bytes, sequences | `Words` `ByteWords` `Sequences` |

**Compiler.** `CSource` gives a C subset its ISO C11 meaning: 32-bit `int` and `unsigned`, all integer operators,
`&&`, `||`, `?:`, assignments, `if`, the three loops, `switch` with case labels anywhere in its body, `break`,
`continue`, `return`. `Tac` gives three-address code the meaning of the repository's own interpreter, with words of 32
bits, as on the machine, where the interpreter computes in 64. The main results are `CompilerForward` and
`CompilerBackward`: for every function that label resolution accepts, source and code have the same outcomes; it accepts
exactly those in which every `break`, `continue` and `case` has its place (`BodyAccepted`). `TypeConversion` has the casts
that type checking writes in; with them an expression means what ISO C11 gives it without (`ConvertedMeaning`). Operands
are handed on by name, so the law needs them to be *stable*: nothing evaluated later in the same expression assigns a
variable that an operand names. Every expression without unsequenced side effects is stable (`RaceFreeIsStable`), and
`UnsequencedOperand` shows that the condition cannot be dropped. The compiler itself links lists in place;
`ListLowering` is that code, and its lists spell the code that the theorems are about.

**Memory.**  A state of the allocator is two maps, free and allocated blocks with their orders; together they tile
the frames, and no two free buddies exist.  From that follow when an allocation fails, and that the free blocks are
a function of the free frames, so that they return to those of start-up once everything is given back.  The class
`Allocator` has the linked lists and the bitmap.  The caches per core and the heap are built on it, so that the final
statement about the heap, `BlocksApart`, is about byte ranges and holds across all layers.

**Synchronisation.**  Step machines with one shared access, or one critical section under a lock already proved, to
a step; the theorems are about every state that any interleaving can reach, for any number of threads.  The barrier
needs no fairness: `AllComeOut` bounds the steps, of whatever threads, in which all threads come out of it.  That a
machine refuses no step it should take is stated too: `ClhLock.NextStep`, `RwLock.NextStep`, `Barrier.OnlyQueuedWait`,
`SharedPages.FaultServed` and `PageServed`.

**ext2.**  A volume is its disk blocks, bitmaps and counters.  An inode's block map is a forest of pointer trees stored
in those blocks.  A file is the byte sequence `Bytes`, which reads return and writes overwrite; a directory is such a
file, and a map from names to inode numbers over the bytes of its records.

**Shared files.**  `SharedPages` has the page tables, frames and reference counts of any number of address spaces;
`FilePages` adds the bytes.  A page's life begins with the acquire that reads it from the file, collects the stores
made through its mappings, and ends when the last of them goes.  `PageViews.EveryPage` says what each mapped page
shows, shared or private, from the history of the run alone.

**Assembler.**  `AssemblerText` reads a program off its statements: the section and file of each, the bytes in front of
it, and the layout of the sections.  The two passes accept exactly the programs that are right by that reading, and put
every label, literal and instruction where it says.

**Scheduler.**  `Passes` gives a whole scheduling pass exactly, step by step through the queues: what is woken and in
which order, what rebalancing and a boost move, which shared thread is brought in, and which thread is picked.

**Where the code falls short of what one might expect**, each with a proof:
`SharedPages.FramesLost` and `LostFrame`: a fork copies the pages of a direct mapping and loses the copies, one frame for
each such page and never another.
`FilePages.StoredIsWritten`, `LostByte` and `LostToCopy`: a byte stored through a shared mapping reaches the file exactly
if its offset in the page is below the byte count of whoever brought the page in, so that it can be lost.
`CoreCaches.TakeAll` and `StopsWithFramesFree`: a core whose cache is empty takes 32 frames, and the kernel stops if fewer
are free; on the machine itself that is in a call that begins with 24 of the 32440 frames free.
`Scheduler.SevenPasses` and `UnevenPasses`: the weights 4, 2, 1 hold over every seven passes except where the counter wraps.
`Scheduler.SevenRemovals` and `LowPriorityFirst`: the shared admission counter is signed, and once it is negative six of
seven threads taken from the shared buckets are of low priority.
`CacheRuns.CoherentIffClean` and `LateFill`: a cache miss lets go of the lock while it reads; a write of the block in
between leaves an old image in the cache.  `node_init` reads pointer blocks without the lock of the inode
(kernel/ext.c:1812-1820), so that this is not ruled out by other locks.
A comment in `kernel/scheduler.h` says that wake-ups from interrupts enter the ready queues at once; in the code they
wait in a queue of their own for the next pass, and the model follows the code.

## Model

| member | source | states |
|---|---|---|
| `CSource.RaceFreeIsStable` | root/bcc/TAC.c:1998-2250 | an expression in which no assignment is unsequenced with another use of its variable has stable operands, so the lowering law applies to it |
| `LoweringExpr.AluCorrect` | root/bcc/TAC.c:362-391 | for every operator, type and pair of values the chosen ALU operation yields the representation of the C result, and faults exactly when the C operation is undefined |
| `LoweringExpr.CondCorrect` | root/bcc/TAC.c:337-356 | the chosen condition on two representations holds if and only if the C relation holds of the values, signed and unsigned |
| `LoweringExpr.UnaryCorrect` | root/bcc/TAC.c:2916-2988 | complement, negation and plus of a representation represent the C result |
| `LoweringExpr.ExprSim` | root/bcc/TAC.c:2658-3143 | from any store, the code of a stable expression goes from its first to past its last instruction, leaves the C value in the result operand and the C store in the variables, and otherwise changes only temporaries of its own |
| `LoweringExpr.UnsequencedOperand` | root/bcc/TAC.c:1998-2073 | the law fails without stability: `x + (x = 5)` from 1 gives 10, where left-to-right evaluation gives 6 |
| `Words.QuotientAndRest` | root/bcc/TAC_interpreter.c:886-909 | quotient and remainder of the machine and of C: the remainder is smaller than the divisor and has the sign of the dividend |
| `Words.Bitwise` | root/bcc/TAC_interpreter.c:910-918 | and, or and exclusive or of words, bit for bit |
| `CSource.CompoundIsAssign` | root/bcc/TAC.c:1835-1900 | a compound assignment means the assignment of the operation, which is done in the type of the left operand for shifts and else in `unsigned` if either operand is |
| `CSource.TruthValues` | root/bcc/typechecking.c:1486-1590 | comparisons and logical operations have type `int` and value 0 or 1 |
| `TypeConversion.ConvertedTyped` | root/bcc/typechecking.c:1437-1822 | after type checking the operands of every operator have one type, and the expression has the type that ISO C11 gives it |
| `TypeConversion.ConvertedFixed` | root/bcc/typechecking.c:2165-2175 | an expression is left as it is if and only if it needs no conversion |
| `TypeConversion.ConvertedRaces` | root/bcc/typechecking.c:1437-1822 | conversion adds and removes no unsequenced conflict |
| `TypeConversion.ConvertedMeaning` | root/bcc/typechecking.c:1437-1822 | for every expression and store the converted expression has the value, the variables afterwards and the undefined cases of the one with the conversions of ISO C11 made on values |
| `TypeConversion.CheckedAccepts` | root/bcc/typechecking.c:690-890 | a statement is accepted if and only if its returns have a value exactly where the function has one |
| `TypeConversion.CheckedOk` | root/bcc/typechecking.c:690-890 | a checked statement whose expressions have no unsequenced conflict is one that the lowering law applies to |
| `TypeConversion.CheckedResolve` | root/bcc/main.c:691-706 | type checking after label resolution gives the same as before it |
| `TypeConversion.FrontEndAccepts` | root/bcc/main.c:691-709 | a function gets through label resolution and type checking if and only if every jump in it has its target in it and every return fits its type |
| `TypeConversion.FrontEndCompiled` | root/bcc/main.c:691-709 | what comes out is the compiled form of the converted body, of which `CompilerForward` and `CompilerBackward` speak |
| `LabelResolution.ResolveAccepts` | root/bcc/label_resolution.c:346-605 | a statement is accepted if and only if every break in it has a loop or switch around it, every continue a loop, every case a switch, in it or around it, and no switch has two equal cases |
| `LabelResolution.BodyAccepted` | root/bcc/label_resolution.c:346-605 | the same for function bodies, around which there is nothing |
| `LabelResolution.ResolveLabels` | root/bcc/label_resolution.c:346-605 | every break and continue is tied to its innermost target, and loop and switch numbers are fresh |
| `LabelResolution.ResolveKeys` | root/bcc/label_resolution.c:983-1119 | resolution keeps the cases of a switch |
| `LabelResolution.ResolveMeaning` | root/bcc/label_resolution.c:346-605 | filling in labels does not change what a statement means, wherever it is entered |
| `LoweringLabels.ExprLabels` | root/bcc/TAC.c:229-260 | the labels in the code of an expression are distinct and numbered in its own range |
| `LoweringLabels.StmtLabels` | root/bcc/TAC.c:1089-1251 | the labels in the code of a statement are distinct, and each belongs to one of its loops, switches or cases or to its range of numbers |
| `LoweringLabels.FunctionLabels` | root/bcc/TAC_interpreter.c:949-977 | the interpreter never finds a label twice in a lowered function |
| `LoweringStmt.CasesSim` | root/bcc/TAC.c:1257-1304 | the chain of tests goes to the first case with the switch value, or falls through |
| `LoweringStmt.DispatchSim` | root/bcc/TAC.c:1089-1251 | a switch goes to the case or default that C selects, else to its break label, with the store unchanged |
| `LoweringStmt.StmtSim` | root/bcc/TAC.c:1089-1251 | every source execution of a statement, started at its head or at a case label in it, is followed by the code to its end, to the right break or continue label, to a return of the same word, or for as long as it goes on |
| `LoweringStmt.FunctionSim` | root/bcc/TAC.c:681-726 | the same for function bodies, with the return that is appended |
| `LoweringStmt.CompilerForward` | root/bcc/TAC.c:681-726 | a function that returns in the source returns the same word, with the same variables, from its code |
| `LoweringStmt.CompilerBackward` | root/bcc/TAC_interpreter.c:1048-1321 | if the code stops, the source function stops in the same way or has undefined behaviour |
| `TacList.FindLast` | root/bcc/TAC.c:142-151 | the walk ends at the last node of the list |
| `TacList.Concat` | root/bcc/TAC.c:3149-3169 | appending gives the concatenation of the two lists, in place, and keeps the cached end right; a list appended to itself remains a chain that can be appended to |
| `TacList.AppendAfterSelfAppend` | root/bcc/TAC.c:2996-3069 | the self-append in the lowering of a cast is undone by the append after it: the outcome is the operand's code and then the new instruction |
| `ListLowering.CasesToTac` | root/bcc/TAC.c:1257-1304 | the list made for a switch spells its tests in order and the jump to the default or past the body |
| `ListLowering.Lowerer.ToTac` | root/bcc/TAC.c:2658-3143 | the list that is linked in place for an expression is a fresh one that spells the code of `LowerExpr`, with its operand and its counters |
| `ListLowering.Lowerer.StmtToTac` | root/bcc/TAC.c:1089-1251 | the list for a statement, whatever its nesting, is a fresh one that spells the code of `LowerStmt`, with its counters |
| `ListLowering.Lowerer.ForToTac` | root/bcc/TAC.c:1467-1548 | the four lists of a `for` loop, made in one order and linked in another, spell the code of `LowerStmt` |
| `ListLowering.Lowerer.FunctionToTac` | root/bcc/TAC.c:681-726 | the list for a function spells the code that the compiler theorems are about |
| `Dyadic.BuddyHalves` | kernel/physmem.c:261-289 | a block and its buddy are the two halves of the block of the next order |
| `Dyadic.BuddyIsXor` | kernel/physmem.c:264 | exclusive or with the block size gives the buddy |
| `BuddyBlocks.TakeValid` | kernel/physmem.c:198-236 | taking a free block keeps the tiling of the frames and the absence of free buddy pairs |
| `BuddyBlocks.SplitValid` | kernel/physmem.c:216-226 | so does freeing the upper half of a block in hand |
| `BuddyBlocks.MergeValid` | kernel/physmem.c:263-289 | so does joining a block in hand with its free buddy |
| `BuddyBlocks.GiveValid` | kernel/physmem.c:291-293 | so does freeing a block that cannot be joined |
| `BuddyBlocks.InsideFree` | kernel/physmem.c:261-293 | every aligned run of free frames lies inside one free block |
| `BuddyBlocks.AllocationFails` | kernel/physmem.c:205-214 | there is no free block of order k or more if and only if no aligned run of 2^k frames is wholly free |
| `BuddyBlocks.FreeUnique` | kernel/physmem.c:245-296 | the free blocks are determined by which frames are free |
| `BuddyBlocks.ResetUnique` | kernel/physmem.c:126-157 | when nothing is allocated the free blocks are the same whatever has happened before |
| `FreeLists.ChainPush` | kernel/physmem.c:56-74 | the pointer writes of a push put the block in front of the doubly linked list |
| `FreeLists.ChainUnlink` | kernel/physmem.c:100-123 | the pointer writes of a removal, from any place, leave the list without that block |
| `FreeLists.PushInv` | kernel/physmem.c:56-74 | lists, bitmap and recorded orders stay exactly the free blocks |
| `FreeLists.RemoveInv` | kernel/physmem.c:100-123 | lists, bitmap and recorded orders stay exactly the free blocks |
| `FreeLists.ScribbleInv` | kernel/physmem.h:28-33 | words of a frame that does not head a free block may be overwritten without harm to the lists |
| `Physmem.Allocator.constructor` | kernel/physmem.c:126-166 | start-up divides any number of frames into blocks, each the largest that fits where it is, and all of them are free |
| `Physmem.Allocator.FreeListPush` | kernel/physmem.c:56-74 | one more free block |
| `Physmem.Allocator.FreeListPop` | kernel/physmem.c:77-97 | a free block of that order if there is one, and no longer free |
| `Physmem.Allocator.FreeListRemove` | kernel/physmem.c:100-123 | one free block less |
| `Physmem.Allocator.AllocOrder` | kernel/physmem.c:198-236 | fails if and only if no aligned run of 2^k frames is wholly free; else hands out such a run, and the tiling is kept |
| `Physmem.Allocator.FreeBuddy` | kernel/physmem.c:264-278 | finds the buddy if and only if it is free and of the same order |
| `Physmem.Allocator.FreeOrder` | kernel/physmem.c:245-296 | gives the block back; the tiling is kept and no two free buddies remain apart |
| `Physmem.Allocator.OwnerWrites` | kernel/physmem.h:28-33 | the owner of an allocated frame may write where free blocks keep their links |
| `Physmem.BackToStart` | kernel/physmem.c:126-157 | whenever nothing is allocated, the free blocks are those of start-up |
| `CoreCaches.HandedOutApart` | kernel/physmem.c:299-363 | blocks of callers are disjoint, and none of their frames is free, cached or out of range |
| `CoreCaches.FrameCaches.Alloc` | kernel/physmem.c:299-326 | a frame that no caller has; the frames a core can have are those in its cache and those that the allocator has in whole refills of 32, each call takes one of them, and it fails if and only if there is none; a core without frames takes 32 from the allocator first |
| `CoreCaches.FrameCaches.Free` | kernel/physmem.c:334-363 | the caller's frame is given back and nothing else changes for callers; it is kept by the core, which gives 33 frames back first if it has 64 |
| `CoreCaches.FrameCaches.AllocBlock` | kernel/physmem.c:198-236 | the guarantee of the allocator, with frames in caches counted as taken |
| `CoreCaches.FrameCaches.FreeBlock` | kernel/physmem.c:245-296 | a caller's block is given back and nothing else changes for callers |
| `CoreCaches.Boot` | kernel/physmem.h:8-20 | all of it holds at 32440 frames and order 14; all frames are free, of which each core can have 32416 |
| `CoreCaches.TakeAll` | kernel/physmem.c:299-326 | a core that takes frames until the kernel stops gets all that are available to it; when the call begins in which it stops, as many are free as 32 leaves over, and none of those is handed out |
| `CoreCaches.StopsWithFramesFree` | kernel/physmem.c:299-326 | on the machine one core takes 32416 frames, and the kernel stops in the next call, which begins with 24 free |
| `SlabObjects.Layout` | kernel/heap.c:113-128 | for each of the nine sizes the header fits in front of the objects, the objects fill the frame, and there are at least three |
| `SlabObjects.ObjectFrame` | kernel/heap.c:146-164 | an object lies in its slab behind the header, rounding its address down gives the slab, and it is never frame-aligned |
| `SlabObjects.AllFree` | kernel/heap.c:455-469 | a free list as long as the slab has objects has every object of the slab |
| `SlabObjects.DropSlab` | kernel/heap.c:466-468 | when a slab goes back to the frame allocator nobody has an object of it |
| `SlabHeap.Carve` | kernel/heap.c:146-196 | a new slab's free list has all its objects, each once, in order |
| `SlabHeap.TakenPartial` | kernel/heap.c:247-273 | after an allocation from a partial slab every slab is on the one list that its count of free objects calls for |
| `SlabHeap.TakenEmpty` | kernel/heap.c:274-299 | the same for an allocation from an empty slab |
| `SlabHeap.Returned` | kernel/heap.c:450-501 | the same for a free, and at most two empty slabs are kept |
| `SlabHeap.OrderFor` | kernel/heap.c:48-60 | the least order with room for the request, or none if and only if the largest is too small |
| `SlabHeap.ClassFor` | kernel/heap.c:322-333 | the least object size with room for the request, or none if and only if it is over 1024 bytes |
| `SlabHeap.Routed` | kernel/heap.c:82-107 | a caller's block is frame-aligned if and only if it is in the table of large blocks, so `free` takes it to the right allocator |
| `SlabHeap.Heap.SlabAlloc` | kernel/heap.c:232-320 | an object that nobody has; the objects to be had are the free ones of the class's slabs and those of the frames the core can have, each call takes one of them, and it fails if and only if there is none |
| `SlabHeap.Heap.RefillLocal` | kernel/heap.c:340-365 | a core's list is refilled if and only if, with what it has, more than 32 objects of the class are to be had |
| `SlabHeap.Heap.SlabFree` | kernel/heap.c:431-504 | the object and nothing else is given back, and the lists of slabs, the free lists and the frames of others stay right |
| `SlabHeap.Heap.Malloc` | kernel/heap.c:322-394 | a block that no caller has, of the least size that serves the request, and nothing else changes for callers or for other owners of frames; large requests fail if and only if no aligned run of frames of the least order is free, small ones if and only if the core's list is empty and no more than 32 objects of the class are to be had; the core keeps 32 after a refill and else one less |
| `SlabHeap.Heap.Free` | kernel/heap.c:521-605 | the caller's block and nothing else is given back, whichever kind it is; a small one is kept by the core, which gives up what it has above 32 if it has 64 |
| `SlabHeap.BlocksApart` | kernel/heap.c:322-394 | no two blocks of callers share a byte, small or large |
| `SlabHeap.BlockFrames` | kernel/heap.c:74-80 | no frame of a caller's block is free or belongs to another owner of frames |
| `ClhLock.StepInv` | kernel/atomic.c:127-176 | every step of every thread keeps each node in exactly one role, in a thread or at one place of one lock's queue |
| `ClhLock.RunBooks` | kernel/atomic.c:119-176 | the queue of each lock is, at all times, the exchanges less the releases of the run so far |
| `ClhLock.MutualExclusion` | kernel/atomic.c:127-176 | at most one thread holds a lock |
| `ClhLock.FirstComeFirstServed` | kernel/atomic.c:127-176 | grants are a prefix of exchanges and releases a prefix of grants, at most one apart |
| `ClhLock.NextInLine` | kernel/atomic.c:141-158 | a thread can be granted the lock if and only if nobody holds it and the thread is the first in the queue |
| `ClhLock.MaskRestored` | kernel/atomic.c:162-176 | release restores the interrupt mask that the same thread's acquire has found |
| `ClhLock.NodesApart` | kernel/atomic.c:127-176 | no two threads own one node, no two locks have one tail, and no node is waited on by two |
| `ClhLock.AssertionsHold` | kernel/atomic.c:127-176 | the assertions in acquire and release never fail |
| `ClhLock.NextStep` | kernel/atomic.c:127-176 | in every reachable state every thread has its next step, which moves no other thread; a release ends with the mask of the same acquire |
| `ClhLock.InterruptsOff` | kernel/atomic.c:127-176 | interrupts are off from the beginning of an acquire to the end of the release |
| `Barrier.StepInv` | kernel/barrier.c:23-57 | every step of barrier and semaphores keeps the invariant that ties counts, queues and phase to where each thread is |
| `Barrier.RunInv` | kernel/barrier.c:10-57 | the invariant holds in every reachable state, for any number of threads |
| `Barrier.CloseReady` | kernel/barrier.c:26-52 | when the last thread has arrived, or departed, the other gate is open, and nobody is in its turnstile |
| `Barrier.NoneLeavesEarly` | kernel/barrier.c:23-57 | no thread passes the first gate of a generation before all have entered it, and none is ever more than one generation ahead |
| `Barrier.NoneArrivesEarly` | kernel/barrier.c:40-57 | a thread that is a generation ahead waits before the first gate, and the others have all departed |
| `Barrier.GatesCloseAtOnce` | kernel/barrier.c:29-52 | the two `sem_down` calls under the lock never block |
| `Barrier.NoDeadlock` | kernel/semaphore.c:19-83 | in every reachable state some thread can step |
| `Barrier.StepTotal` | kernel/semaphore.c:19-83 | every step of every thread, blocking included, is progress |
| `Barrier.AllComeOut` | kernel/barrier.c:23-57 | in any run of 42 n (k + 1) steps, however interleaved, each of the n threads has come out of the barrier at least k times |
| `Barrier.EveryoneLeaves` | kernel/barrier.c:23-57 | from every reachable state some continuation brings every thread out any number of times |
| `Barrier.OnlyQueuedWait` | kernel/semaphore.c:19-83 | a thread is without a step if and only if it is in the queue of a semaphore whose count is zero |
| `Barrier.FirstIsWoken` | kernel/semaphore.c:52-83 | the thread that an up operation wakes has been in that queue longest |
| `RwLock.StepInv` | kernel/rw_lock.c:21-146 | every critical section, fast path or callback, keeps the invariant |
| `RwLock.RunInv` | kernel/rw_lock.c:12-146 | the invariant holds in every reachable state |
| `RwLock.Exclusion` | kernel/rw_lock.c:38-146 | a writer is alone |
| `RwLock.NobodyLeftWaiting` | kernel/rw_lock.c:58-146 | queued writers mean the lock is held, queued readers that a writer has it or is queued; the queues are exactly the waiting threads |
| `RwLock.NoReaderOvertakes` | kernel/rw_lock.c:21-56 | no thread starts to read while a writer is queued or active |
| `RwLock.NextStep` | kernel/rw_lock.c:21-146 | every thread that is not queued has its next step; an acquire, and the callback of one that has failed, gives the lock if and only if it is free for that thread, and a callback that does not give it queues the thread; queued threads mean that the lock is held |
| `RwLock.ReleaseHands` | kernel/rw_lock.c:58-146 | the last one to release hands the lock to the writer that has been queued longest, or if there is none to all queued readers; any other release moves nobody |
| `Ext2Bits.MarkBit` | kernel/ext.c:754-756 | setting a bit changes that bit of the bitmap and no other |
| `Ext2Bits.ClearOneBit` | kernel/ext.c:798-803 | clearing a bit changes that bit of the bitmap and no other |
| `Ext2Volume.FindClear` | kernel/ext.c:744-763 | the first clear bit, skipping full bytes, or none if and only if all are set |
| `Ext2Volume.MarkCounted` | kernel/ext.c:735-757 | group and volume counts equal the clear bits after a block is taken |
| `Ext2Volume.ClearCounted` | kernel/ext.c:797-805 | group and volume counts equal the clear bits after a block is given back |
| `Ext2Volume.NothingFree` | kernel/ext.c:735-739 | if all group counts are zero then any block is in use |
| `Ext2Volume.Volume.AllocBlock` | kernel/ext.c:728-792 | a block that was not in use, cleared, and no other changed; fails if and only if the volume is full, and if and only if the count of free blocks is zero; counts stay exact |
| `Ext2Volume.Volume.DeallocBlock` | kernel/ext.c:794-816 | that block and no other becomes free; counts stay exact |
| `Ext2Tree.LeafAt` | kernel/ext.c:2154-2185 | in a packed tree leaf i is in child i / span, at i % span |
| `Ext2Tree.LookupLeaf` | kernel/ext.c:2187-2232 | following pointers on disk finds the leaf of the tree, at any depth |
| `Ext2Tree.StoredFrame` | kernel/ext.c:904-1079 | a tree on disk is unaffected by writes to blocks that are not its pointer blocks |
| `Ext2Inode.Append` | kernel/ext.c:927-1079 | the tree on disk gets the block as its next leaf, allocating exactly the pointer blocks that its number calls for and changing no block but its own pointer blocks; fails if and only if fewer are free |
| `Ext2File.Inode.AddBlock` | kernel/ext.c:904-1079 | the block becomes the last of the file, through any of the four tiers; `i_blocks` stays sectors per block times the blocks of the inode; too large if and only if the inode has as many blocks as it can, and full if and only if fewer blocks are free than the pointer blocks it needs |
| `Ext2File.PointerStep` | kernel/ext.c:904-1079 | the pointer blocks that each data block brings add up to the closed form for a file of that many blocks |
| `Ext2File.ReadsAppended` | kernel/ext.c:2126-2252 | reading logical block i through the direct, single, double or triple path finds the i-th block appended, for every i |
| `Ext2File.TripleIsLookup` | kernel/ext.c:2187-2232 | the index arithmetic of the triple path is the level-by-level descent |
| `Ext2File.Limits` | kernel/ext.c:2235-2252 | the limits of the tiers are where the trees of the block map begin |
| `Ext2File.Inode.SectorCount` | kernel/ext.c:111-114 | `i_blocks` times 512 is the block size times the number of blocks of the inode, where 512 divides the block size |
| `Ext2Reclaim.CountEntries` | kernel/ext.c:143-151 | the number of pointers before the first zero |
| `Ext2Reclaim.ScanInode` | kernel/ext.c:164-260 | the rescan counts exactly the blocks appended |
| `Ext2Reclaim.FreeTree` | kernel/ext.c:821-843 | every block of the tree, data and pointer, is given back exactly once, and nothing else |
| `Ext2Reclaim.Reclaim` | kernel/ext.c:848-876 | every block of the inode is given back exactly once, and nothing else, and the inode is empty |
| `Ext2Bytes.ReadBlock` | kernel/ext.c:2235-2252 | the bytes of the i-th block of the file |
| `Ext2Bytes.ReadAll` | kernel/ext.c:2375-2409 | the asked-for part of the file's bytes, cut off at the end of the file |
| `Ext2Bytes.Grow` | kernel/ext.c:2436-2442 | the file gets blocks of zeros up to the one asked for; fails if and only if the inode cannot address it or fewer blocks are free than the data and pointer blocks still needed |
| `Ext2Bytes.WriteChunks` | kernel/ext.c:2451-2457 | the bytes land at their place across block boundaries, and all others stay |
| `Ext2Bytes.WriteAll` | kernel/ext.c:2421-2461 | the file's bytes become the old ones overwritten at the offset, a gap reading as zeros; no block of anyone else changes; fails if and only if the inode cannot address the last block or fewer blocks are free than the data and pointer blocks still needed |
| `Ext2Bytes.OtherFileKept` | kernel/ext.c:2421-2461 | a write to one file leaves the bytes and the block map of every other file as they are |
| `BlockCache.UsedAged` | kernel/ext.c:1682-1690 | ageing the younger lines of a hit keeps the ages a permutation and moves that line to the front |
| `BlockCache.HitRecent` | kernel/ext.c:1682-1698 | the tags in order of age are the blocks in order of last use, after a hit |
| `BlockCache.MissRecent` | kernel/ext.c:1709-1719 | the same after a miss, which drops the least recently used block |
| `BlockCache.Cache.constructor` | kernel/ext.c:1658-1667 | an empty cache of 32 lines is coherent, and its ages are a permutation |
| `BlockCache.FilledExact` | kernel/ext.c:1709-1721 | filling a line keeps the cache coherent and its tags distinct if and only if the image is still that of the disk and no other line has the block |
| `BlockCache.Cache.LookUp` | kernel/ext.c:1671-1699 | the first critical section of a read: the last line with the tag is used and its image returned, and nothing else changes |
| `BlockCache.Cache.Fill` | kernel/ext.c:1709-1721 | the second: the image that was read takes the oldest line, whatever has happened in between |
| `BlockCache.Cache.Get` | kernel/ext.c:1671-1722 | the two without anything in between: the block as a plain disk would give it; the cache stays coherent, tags distinct, ages a permutation, and recency is updated |
| `BlockCache.Cache.Set` | kernel/ext.c:1726-1804 | whole or part of the block is written as to a plain disk, with the same invariants |
| `CacheRuns.CoherentIffClean` | kernel/ext.c:1671-1804 | along every interleaving of lookups, reads, fills and writes of any number of threads, the cache stays coherent if and only if every fill finds the image still that of the disk and the block in no other line |
| `CacheRuns.QuietRuns` | kernel/ext.c:1671-1804 | so it does if no thread fills a line after another has installed or written the block since its lookup, and then every hit finds what the disk has |
| `CacheRuns.LateFill` | kernel/ext.c:1701-1721 | whenever an uncached block is written, to another value, between the read and the fill of a miss, an old image of it stays in a line and the block is in two lines |
| `Directory.InsertInBlock` | kernel/ext.c:1085-1136 | keeps the block a tiling of aligned records each with room for its name; succeeds if and only if some record has room, and adds exactly that entry |
| `Directory.RoomMeans` | kernel/ext.c:1085-1136 | a block has room for a record of a size if and only if some record in it has that many bytes left behind its header and name, rounded up to four, or is free and that long |
| `Directory.EntryFormat` | kernel/ext.c:96-109 | a record on the disk is the inode number, the record length and the name length, low byte first, and the name from byte 8 |
| `Directory.RemoveFromBlock` | kernel/ext.c:1188-1244 | keeps the tiling; finds the name if and only if it is there, and removes exactly its first entry |
| `Directory.FlatEntries` | kernel/ext.c:1258-1286 | walking the file from record to record sees the entries of every block |
| `Ext2Dir.FileBytes` | kernel/ext.c:2375-2409 | the bytes of a directory are its blocks one after the other, to the last byte |
| `Ext2Dir.Window` | kernel/ext.c:1258-1286 | 264 bytes, or fewer at the end of the file, decide whether a record has the name |
| `Ext2Dir.Dir.Find` | kernel/ext.c:1258-1286 | reading record by record through the file gives the inode number of the name in the directory's map, or none if and only if it is not there |
| `Ext2Dir.Dir.Append` | kernel/ext.c:1159-1172 | the inode gets one more block with these bytes; fails if and only if it cannot address it or there are no blocks for it and the pointers to it |
| `Ext2Dir.Dir.Add` | kernel/ext.c:1141-1175 | the map gets the name, and no block of anyone else changes; a block is added if and only if no record has room; fails if and only if none has and no block can be added |
| `Ext2Dir.Dir.Remove` | kernel/ext.c:1188-1244 | the map loses the name, and nothing else; found if and only if it was there; the blocks are those without that entry, and no block of anyone else changes |
| `Ext2Dir.Dir.Rename` | kernel/ext.c:1951-1998 | the map gets the new name for the old one's inode; refused, with nothing changed, if and only if a name is empty, a dot name or has a slash, or the old name is missing or the new one taken; otherwise fails, with the old entry gone, if and only if the new name is too long, or no record has room for it in the blocks without the old entry and no block can be added |
| `VmeList.Space.Mmap` | kernel/vmem.c:319-375 | the list stays sorted and disjoint; the range is put at the lowest place that fits, and refused if and only if there is none |
| `VmeList.Space.MmapStack` | kernel/vmem.c:380-456 | the same with the highest place |
| `VmeList.Space.MmapAt` | kernel/vmem.c:459-502 | the range is put at the address if and only if it fits there |
| `VmeList.Space.Munmap` | kernel/vmem.c:563-597 | exactly the range that starts at the address goes, if there is one |
| `VmeList.FitsMeans` | kernel/vmem.c:319-375 | a place for a range is page-aligned, in the user or kernel half of the address space, and has no byte in common with another range |
| `VmeList.RoundedIs` | kernel/vmem.c:319-330 | sizes are rounded up to whole pages, and to nothing where that does not fit in 32 bits |
| `PageCache.Cache.Find` | kernel/page_cache.c:26-38 | the hash chains have every entry of the table once, in its own chain |
| `PageCache.Cache.Acquire` | kernel/page_cache.c:60-84 | one more reference to the page, or a new page with one, whose frame is filled by a read of the file on its volume and with zeros after its end |
| `PageCache.Cache.MarkDirty` | kernel/page_cache.c:86-102 | marks the page, if and only if there is one |
| `PageCache.Cache.WriteBack` | kernel/page_cache.c:124-127 | a page is written through to its file on the volume, up to its byte count, and every other open file stays as it is; fails if and only if there are no blocks for it |
| `PageCache.Cache.Release` | kernel/page_cache.c:106-138 | one reference less; the page is taken out and returned exactly at the last, and is written back exactly then and if it is marked; the kernel stops if and only if that needs blocks that the volume does not have |
| `SharedPages.StepInv` | kernel/vmem.c:147-295 | every fault, copy, fork, map and unmap step keeps each frame in one role and each count exact, and loses a frame exactly when it copies a page of a direct mapping |
| `SharedPages.RunInv` | kernel/vmem.c:626-775 | so does every interleaving of such steps in any number of address spaces, and the lost frames are counted |
| `SharedPages.CountsAreExact` | kernel/page_cache.c:60-138 | a cached page's count is the number of page table entries that map it, in all address spaces, and of copies under way; it is in the cache as long as there is one and no longer |
| `SharedPages.SharedIsShared` | kernel/vmem.c:711-771 | shared mappings of one part of a file are one page, and one that can be written through is marked to be written back |
| `SharedPages.ForkSource` | kernel/vmem.c:239-295 | the assertion in fork holds in every run: where fork copies a page of a shared mapping, the acquire finds it in the cache and returns the frame that the parent has mapped |
| `SharedPages.FramesApart` | kernel/vmem.c:711-771 | frames of the page cache and of private pages are all different |
| `SharedPages.FramesLost` | kernel/vmem.c:239-295 | the frames in use that nobody holds are as many as there were pages of direct mappings copied by forks |
| `SharedPages.LostFrame` | kernel/vmem.c:239-295 | a run of six events after which all is unmapped and one frame is still in use |
| `SharedPages.FaultServed` | kernel/vmem.c:711-760 | a fault on an unmapped page of a range is served, from the cache, with zeros, with the page of the window or by beginning a copy, as the range says |
| `SharedPages.CopyEnds` | kernel/vmem.c:727-741 | in every reachable state a copy that has been begun can be ended |
| `SharedPages.PageServed` | kernel/vmem.c:147-295 | in every reachable state every mapped page can be unmapped, and copied to a child that has the same range |
| `FilePages.RunPages` | kernel/vmem.c:626-775 | along every interleaving of faults, copies, forks, maps, unmaps and stores, each cached page has the bytes read at its acquire, overlaid with the stores through its mappings since |
| `FilePages.SharedSeesStores` | kernel/vmem.c:711-771 | every shared mapping of a part of a file shows the last byte stored through any of them, in any address space, and else what the file had |
| `FilePages.StoreIsPrivate` | kernel/vmem.c:727-741 | a store is seen in no other page, private or of another part of a file, and no file changes |
| `FilePages.StoredIsWritten` | kernel/page_cache.c:106-138 | when the last mapping goes, a stored byte is in the file if and only if its offset is below the byte count of the acquire that made the entry, or the file had it; the file ends where it did or where that part of the page does, with zeros in a gap before it, and nothing else in any file changes |
| `FilePages.LostByte` | kernel/vmem.c:711-725 | a shared mapping of 100 bytes brings the page in, and a byte written at 200 through a longer one is lost |
| `FilePages.LostToCopy` | kernel/vmem.c:727-741 | a private fault past the end of a file brings the page in with no bytes, and all that is written meanwhile is lost |
| `FilePages.BytesAsked` | kernel/vmem.c:222-236 | which bytes of a page a fault asks for: in a shared mapping those in the range, or all if none is, and in a private one those that are in the file as well |
| `PageViews.EveryPage` | kernel/vmem.c:711-771 | along every run every mapped page, but for windows on device memory, shows the last byte stored at each place; where nothing was stored, a page of a shared range shows what the cache was filled with for the place of the page in the file of the range, and a page of its own what it was mapped with: zeros, a copy of that cached page, or the parent's page at the fork |
| `PageViews.FaultShowsFile` | kernel/vmem.c:711-725 | a shared fault on a page that is not cached shows the bytes of the file at the offset of the range plus the place in it, and zeros behind the end |
| `Assembler.StepAgree` | root/basm/assembler.c:2419-2750 | on every statement both passes move section, offset and file number alike |
| `Assembler.Keeps1` | root/basm/assembler.c:2086-2413 | a label keeps its value for the rest of the first pass |
| `Assembler.LabelIsHere` | root/basm/assembler.c:258-318 | if both passes succeed, every label has, in its file, the address at which the second pass emits its next byte |
| `Assembler.GlobalIsHere` | root/basm/assembler.c:2137-2190 | a name is in the table of exported labels if and only if some file that exports it defines it; only one does, and the table has the address of that definition, whichever of definition and export comes first |
| `Assembler.Resolves` | root/basm/assembler.c:886-905 | a reference has a value if and only if its own file defines the name or else some file exports it, and the value is the address of that one definition |
| `Assembler.EntryPoint` | root/basm/assembler.c:2835-2850 | the entry point of a user program is the address of its one exported `_start` |
| `Assembler.SameSizes` | root/basm/assembler.c:2766-2833 | the second pass emits as many bytes in every section as the first has counted |
| `Assembler.FillsAddress` | root/basm/assembler.c:2419-2750 | a word filled with a label holds, in the output, the address of the definition that the label means, in that file or another |
| `Assembler.EncodesAddress` | root/basm/assembler.c:913-933 | an instruction that names a label is encoded, at its place in the output, with the address of the definition that the label means and its own |
| `AssemblerText.FirstPassReads` | root/basm/assembler.c:2086-2413 | the first pass knows the section, the file, the sizes, the labels and exports of every file and the load addresses as the statements give them |
| `AssemblerText.FirstPassAccepts` | root/basm/assembler.c:2086-2413 | the first pass accepts a program if and only if every statement is right where it is, by its section, file, alignment and the statements before it |
| `AssemblerText.ProgramAccepted` | root/basm/assembler.c:2766-2850 | a program assembles if and only if in addition every operand is defined, every value is in range and every exported name has its definition, and a user program has its entry point |
| `AssemblerText.PlaceOf` | root/basm/assembler.c:2419-2750 | every statement is emitted at as many bytes into its section as the statements before it take |
| `AssemblerText.Layout` | root/basm/assembler.c:258-301 | in the kernel the implicit section is at 0 and the others each begin at the next multiple of 512 behind the one in front; in a user program text is at 0x80000000, rodata and data on the next page and bss on the next word; load addresses take precedence |
| `AssemblerText.SectionsApart` | root/basm/assembler.c:258-301 | no two sections have an address in common, where no load addresses are given |
| `AssemblerText.StatementBytes` | root/basm/assembler.c:2522-2720 | a literal in `.fill`, `.fild` or `.filb` is in the output at its place, low byte first, and space, alignment and origin are zeros there |
| `AssemblerText.FilledWord` | root/basm/assembler.c:2522-2547 | a word filled with a label is the address of the definition it means |
| `AssemblerText.EncodedWord` | root/basm/assembler.c:913-933 | an instruction with any operand is encoded with what the operand stands for and its own address |
| `ElfImage.PackByte` | root/basm/instruction_array.c:152-171 | byte patching extends the packing of the byte sequence |
| `ElfImage.InstructionArray.AppendWord` | root/basm/instruction_array.c:138-146 | the array holds one more word's bytes, across growth of its storage |
| `ElfImage.InstructionArray.AppendByte` | root/basm/instruction_array.c:164-171 | the array holds one more byte, across growth of its storage |
| `ElfImage.SegmentsMatch` | root/basm/elf.c:104-135 | segment addresses and sizes are the assembler's section bases and sizes, segments do not overlap, and the uninitialised section follows the data; the file has them one after the other behind its headers, with their permissions |
| `Scheduler.System.SleepAdd` | kernel/queue.c:162-196 | the sleep queue stays in order of wake-up, first come first among equals |
| `Scheduler.System.RemoveDue` | kernel/queue.c:208-227 | the first sleeper if it is due, and if none is returned then none is due |
| `Scheduler.System.Wake` | kernel/scheduler.c:268-277 | a woken thread goes to the end of the ready bucket of its priority and level, of this core if it is pinned here or shared if it is pinned nowhere, or is handed to the core it is pinned to |
| `Scheduler.System.WakeDeferred` | kernel/scheduler.c:442-452 | the threads left by interrupts are woken in order, each to the end of its queue, and nothing else changes |
| `Scheduler.System.WakeSleepers` | kernel/scheduler.c:454-459 | the sleepers that are due, which are the first ones of the queue, are woken, each to where its affinity, priority and level say; the others stay asleep, in order, whatever their affinity, and no other thread moves |
| `Scheduler.System.TakePinned` | kernel/scheduler.c:461-467 | the threads handed over by other cores become ready here, in order, each at the end of its bucket, and nothing else changes |
| `Scheduler.System.Boost` | kernel/scheduler.c:341-369 | each class's level 0 becomes the levels one after the other, the others are empty, and the shared buckets change only on core 0; exactly the threads that are lifted get level 0 and quantum 2 |
| `Scheduler.System.MoveOut` | kernel/scheduler.c:373-395 | the first unpinned threads, up to the number asked for, go to the shared bucket in order; pinned ones stay |
| `Scheduler.System.MoveIn` | kernel/scheduler.c:399-412 | the first shared threads, up to the number asked for, become local in order |
| `Scheduler.System.RebalanceBucket` | kernel/scheduler.c:417-435 | a bucket above 130 per cent of the fair share shrinks to it or to its pinned threads, one below 70 per cent grows to it as far as there are shared threads; which threads move, and in which order both buckets are then, is exact |
| `Scheduler.System.GlobalRemove` | kernel/scheduler.c:134-166 | the first thread of the first non-empty shared bucket, in the order of the slot; none if and only if no thread is shared, and one of the class whose turn it is if that has any |
| `Scheduler.System.Admit` | kernel/scheduler.c:229-248 | a core with nothing ready, and any core every second time, takes the first shared thread in the order of the shared counter, if there is one, to the end of its bucket |
| `Scheduler.System.Pick` | kernel/scheduler.c:315-329 | the first thread of the first non-empty local bucket, in the order of the slot |
| `Scheduler.System.ScheduleNext` | kernel/scheduler.c:440-484 | a pass loses and duplicates no thread, runs one whose affinity allows the core, stays idle if and only if no thread can be run here, and serves the class whose turn it is if that was ready, whether or not the pass boosts or rebalances; the queues, levels, quanta and counters after it are exactly those of its steps: waking, rebalancing and boosting if pending, admission, and a choice in which normal comes before low in the turn of high, high before low in that of normal, and normal before high in that of low |
| `Scheduler.System.Prepare` | kernel/scheduler.c:440-474 | waking, boosting, rebalancing and admitting leave every class ready that was, and leave nothing ready only if no shared thread could be taken; each of these steps is exact, and levels and quanta change only by a boost |
| `Scheduler.BoostedPass` | kernel/scheduler.c:440-484 | after a pass with a boost pending no thread is above level 0 on the core but one that was just brought in from the shared buckets; core 0 has none, and leaves none there |
| `Scheduler.FairIdeal` | kernel/scheduler.c:424 | the fair share is the least number of threads with which the cores have them all |
| `Scheduler.SevenPasses` | kernel/scheduler.c:440-484 | seven passes in a row of one core, with whatever others do in between as long as each class stays ready, serve 4 high, 2 normal and 1 low if and only if the counter does not wrap in between |
| `Scheduler.UnevenPasses` | kernel/scheduler.c:440-484 | seven passes from the greatest counter, each class ready, that do not have these weights |
| `Scheduler.SevenRemovals` | kernel/scheduler.c:134-166 | seven removals in a row from the shared buckets, by whatever cores, with whatever happens in between as long as each class has shared threads, return 4 high, 2 normal and 1 low if and only if the signed counter stays non-negative or begins at -1, and 1 high and 6 low while it is negative |
| `Scheduler.LowPriorityFirst` | kernel/scheduler.c:134-166 | seven removals from when the counter has become negative, of which six are of low priority |

## Left out

- Pointers, structures, strings, calls, statement expressions, `goto`, cleanup handlers, types narrower or wider than 32 bits in the compiler; its lexer, parser and code generator, and what its type checker does with declarations.
- The strings of labels and temporaries: they are numbers, and two labels are equal when kind and number are.
- LoweringStmt.CompilerBackward: code runs on 32-bit words, as on the machine; the interpreter cited keeps 64 bits, so that it differs where a 32-bit operation overflows.
- Signed overflow: it wraps, as on the machine, where ISO C11 leaves it undefined.
- FreeLists: the bitmap has a boolean for each frame, not eight to a byte.
- CoreCaches: cores use their caches one call at a time, as the locks enforce; interleavings inside a call are not modelled.
- SlabHeap: free lists and lists of slabs are sequences, not links in memory; debug bitmaps, poison values and leak counters are not modelled; a call of `malloc` or `free` is not interleaved with others.
- ClhLock: a fixed set of threads; creation and destruction of locks are not modelled.
- Barrier: a fixed set of threads, each with its lock nodes abstracted to one atomic critical section for each semaphore call.
- Ext2Volume: inode bitmaps and the superblock's and group table's own disk blocks.
- Ext2File: sparse files, fast symbolic links and `node_shrink`; block sizes for which the triple limit does not fit in 32 bits.
- Ext2Inode.Append: one recursive method for the three tiers that the code spells out one by one.
- Ext2Bytes: 32-bit wrap-around of offset plus size.
- BlockCache: the volume is on plain disk blocks, which is what the cache gives as long as it is coherent; a read or write of a block on the disk is one step.
- Ext2Dir: path walking, the inode cache, link counts and unlinked directories.
- Ext2Dir.Dir.Find: the inode object that the code returns in place of the number.
- VmeList: page tables and permissions; `vme_change_perms`.
- SharedPages: memory for page tables, and `vme_change_perms`, which could make a shared mapping writable without marking its page.
- FilePages: runs in which the kernel stops because the volume is full; other writes to a file whose pages are cached, and the bytes behind direct mappings, which are device memory.
- Assembler: tokens, encodings and operand ranges, which are a parameter; wrap-around of addresses.
- ElfImage: the bytes of the headers, and the congruence of file offset and address.
- Scheduler: queues are sequences, not links; other cores and interrupts act between passes and between removals, not within one; sizes are not bounded by 32 bits.
- Scheduler.System.WakeSleepers: the time is fixed during a pass.
- Device registers, interrupt entry, context switches and other assembly; system calls, `exec`, signals and the shell.
- `hashmap.c`, `string.c`, `print.c`, `promise.c`, `gate.c`, the ring buffers and `scheduler_charge_yield`: nothing here depends on them.
