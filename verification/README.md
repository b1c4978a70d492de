# The Boehm-Demers-Weiser collector, modelled and proved in Dafny

This project models the collector of `gc-8.2.12` — marking, allocation of heap blocks, sweeping,
finalization, stopping of threads and the bookkeeping of roots — and proves what these parts
promise. `dafny verify dfyconfig.toml` checks all of it.

Imperative parts of the collector are classes and methods with loops, which change lists, headers
and counters in place. Each is tied to values (maps, sequences, sets) about which the theorems
are stated. The two protocols, parallel marking and stopping the world, are state machines whose
steps are accesses to shared memory, signals, and sections under a lock.

| files | what they model |
|---|---|
| `ObjectGraph`, `MarkPhase`, `CollectionDriver` | the six-state marker with its bounded mark stack, and the drivers that start, abandon and finish collections while the client runs |
| `RangeScan` | how `GC_mark_from` splits ranges and reads them from both ends |
| `ParallelMark`, `ParallelTermination` | the work-stealing marker, its detection of termination, and why it ends |
| `StopWorld` | the handshake of signals and a semaphore that stops and restarts threads |
| `FreeLists`, `HeapTiling`, `HeapBlocks`, `HeapPlacement`, `HeapAccounts`, `MergeUnmapped` | the heap-block allocator: free lists, coalescing, placement, conservation, unmapping |
| `BlackList` | the black lists and their word-skipping search |
| `HeaderIndex`, `IndexedHeap` | the two-level index from addresses to headers, its walks, and how the allocator keeps it right |
| `Reciprocal` | division by object sizes as multiplication |
| `SizeClasses` | the map from requests to sizes of small objects |
| `SweepLists`, `SweepState`, `LazySweep`, `BuildFreeList` | lazy sweeping, small-object free lists, explicit freeing, free lists of threads |
| `HashTables`, `Finalize` | finalization and disappearing links, and their hash tables |
| `Roots`, `StaticRanges` | static roots, exclusions, and mappings without the collector's memory |
| `Powers`, `Arithmetic`, `Sets` | powers of two and exclusive or; quotients; cardinalities |

Addresses count heap blocks of 4096 bytes in the allocator and the index, units of pointer alignment
in `RangeScan`, and bytes elsewhere; words have 64 bits unless said otherwise. The mark invariant of
`MarkPhase` is the one that `include/private/gc_pmark.h` states for every mark state. Answers of
clocks, heuristics, the operating system and the client are parameters or nondeterministic.

## Where the code does not do what it promises

For each of these the code is modelled as it is, an input shows what happens, and a condition says
exactly when the promise is kept.

* **Stopping with resent signals.** `GC_suspend_all` does not count a thread whose stop count is
  already that of this stop (`pthread_stop_world.c:953-955`). If a resent signal of the stop before
  is still pending, the thread may acknowledge the new stop before `GC_suspend_all` comes to it;
  its post is then taken for that of another thread, which goes on running.
  `StopWorld.AThreadRunsInAStoppedWorld` is such a run. A stop is sound if and only if no suspend
  signal is still on its way when it begins (`StopWorld.StopIsSoundExactlyWithoutStaleSignals`);
  without retries that is always so.
* **Finalization with a mark-stack overflow.** `GC_MARK_FO` marks the object itself when the mark
  stack overflows on the way, so it is taken for reachable and not enqueued.
  `Finalize.AFinalizerCanBeLost` is a whole finalization of an object with 4097 pointers that enqueues
  nothing. Finalization enqueues exactly the right objects if and only if what was marked because of
  overflows is reachable from the pointers of unreachable registered objects anyway
  (`Finalize.EnqueuesExactly`, and in the contract of `Finalize.Finalizer.Finalize`). There is no overflow,
  and so no such mark, if at the start the mark stack can hold the entries that all unmarked objects
  with pointers can take, beside those of any one object: an object takes one entry, and with parallel
  marking one more for each time that its range is halved until it has no more than 256 words
  (`Finalize.StackSuffices`). There is an overflow if the only unmarked registered object has more
  pointers to be pushed by its mark procedure than the stack has entries.
* **Finalization without looking at pointers.** What an enqueued object points to is meant to be there
  when its finalizer runs. Objects registered with `GC_register_finalizer_no_order` are enqueued and
  marked alone when Java finalization is off (`finalize.c:1020-1023`), so that what they point to may
  be reclaimed: `Finalize.AQueuedObjectCanLoseItsParts` is such a finalization. All that the queue
  leads to is marked if and only if what these objects point to is marked anyway
  (`Finalize.WholeQueueIsKeptAlive`, and for a single object `Finalize.QueueIsKeptAlive`).
* **Kinds without reclaim lists.** `GC_start_reclaim` skips such kinds, free lists included, but
  empty blocks of the kind are given back. If objects of the kind were only ever allocated by
  `GC_generic_malloc_many`, a free list can outlive its block
  (`LazySweep.AListOutlivesItsBlock`). Free lists stay sound if and only if
  blocks of such lists survive and their kind is not uncollectable (`LazySweep.Sweeper.Collect`).
* **A comment.** `mark.c:785-790` says that the count of active helpers stays zero for the cycle
  once it has come back to zero. A helper that has not joined yet can do so late and raise it
  (`ParallelMark.ActiveCountMayRiseAgain`). It stays zero exactly in those runs in which nobody joins
  after that (`ParallelMark.CountStaysZeroExactlyWithoutLateJoins`), and can rise exactly while help is
  wanted and some helper has not joined in this cycle yet (`ParallelMark.CountCanRiseExactlyIfHelpCanCome`). This is
  harmless: `ParallelMark.NothingIsLeftAtReturn` does not depend on it.

## Where a promise has a bound

* **Adjacent free blocks.** Blocks are merged only if the sum of their sizes stays below half the
  address space. So no two free blocks are adjacent in a heap smaller than that
  (`HeapBlocks.BlockHeap.NoTwoAdjacentFree`), and in a heap of just that size there can be two
  (`HeapBlocks.AdjacentFreeBlocks`).
* **Root segments.** Pushing static roots aborts exactly if they do not fit on the mark stack
  (`MarkPhase.Collector.PushRoots`). They always do if there are at most 2048, half the initial size of
  the stack: that is the size of the root table, unless the collector is built with `LARGE_CONFIG`,
  but exclusions may divide roots further.

## Model

| member | source | states |
|---|---|---|
| MarkPhase.Collector.constructor | gc-8.2.12/mark.c:68-76 | The collector starts in a valid state: empty heap, mark invariant established. |
| MarkPhase.Collector.PushObj | gc-8.2.12/include/private/gc_pmark.h:121-136 | A full stack loses its top `MARK_STACK_DISCARDS` entries, takes the new one, and the state becomes invalid and a larger stack is wished for; otherwise exactly the object is pushed; nothing happens for pointer-free blocks; the stack stays justified. |
| MarkPhase.Collector.MarkAndPush | gc-8.2.12/include/private/gc_pmark.h:264-365 | Exactly one object is newly marked; the state changes (to invalid) only if it was unmarked before; without overflow the sets of objects and roots that violate the invariant do not grow. |
| MarkPhase.Collector.ScanRange | gc-8.2.12/mark.c:703-776 | The marks become the old ones plus what the range points to; without overflow no object or root comes to violate the invariant; no progress in marks means the stack is unchanged. |
| MarkPhase.Collector.MarkFrom | gc-8.2.12/mark.c:515-778 | Marks only grow; a call on a nonempty stack marks something or leaves less on the stack, counted in words to be cut into parts and then in entries; overflow happens only after a new mark, and never if the stack has room for the entries that all unmarked objects with pointers can take; without overflow objects that were taken care of stay so; nothing unjustified is marked. |
| MarkPhase.Collector.TakeRange | gc-8.2.12/mark.c:535-602 | Whatever is cut off from a long range, by halving or for a first part, is on the stack or about to be scanned: the stack leads where it led before, it has less on it, and if there was room for all that can come there still is. |
| MarkPhase.Collector.ShareRange | gc-8.2.12/mark.c:553-576 | Halving ends; either nothing was cut or there is less left to be cut; if the stack had room for all entries that its ranges can take, it still has. |
| MarkPhase.Collector.PushMarked | gc-8.2.12/mark.c:1740-1793 | All marked objects of a block, and nothing else, go on the stack, so that none of them violates the invariant any more; one block never overflows the stack; whether there are marks in the heap is noted just if the block has some. |
| MarkPhase.Collector.PushNextMarked | gc-8.2.12/mark.c:1862-1877 | Objects of one block are pushed; after the call no object in blocks passed over violates the invariant; 0 is returned only if there is no further block. |
| MarkPhase.Collector.PushNextMarkedDirty | gc-8.2.12/mark.c:1881-1918 | The same for grungy blocks: clean ones are passed over. |
| MarkPhase.Collector.PushNextMarkedUncollectable | gc-8.2.12/mark.c:1923-1952 | The same for uncollectable blocks with pointers: others are passed over. |
| MarkPhase.Collector.PushRoots | gc-8.2.12/mark_rts.c:890-963 | Afterwards what stacks and registers point to is marked, and no static root that had to be pushed violates the invariant; it aborts exactly if the segments to be pushed do not fit on the mark stack. |
| MarkPhase.Collector.AllocMarkStack | gc-8.2.12/mark.c:1140-1181 | The stack is empty afterwards, and no larger one is wished for any more; it has the new size if there is memory, and the old one otherwise. |
| MarkPhase.Collector.PushRescuersStep | gc-8.2.12/mark.c:274-297 | One step in this state keeps the mark invariant, makes progress and marks nothing unjustified; with the stack nearly full a larger one is wished for and the scan waits, otherwise it goes on. |
| MarkPhase.Collector.PushUncollectableStep | gc-8.2.12/mark.c:299-319 | The same for the second state, in which the scan waits as long as more than a quarter of the stack is in use. |
| MarkPhase.Collector.RootsStep | gc-8.2.12/mark.c:310-318 | Pushing the roots at the end of a heap scan establishes the invariant of `MS_ROOTS_PUSHED`, unless the stack overflowed on a new mark. |
| MarkPhase.Collector.InvalidStep | gc-8.2.12/mark.c:354-380 | The same for the two states in which the invariant may not hold, with the growth of the stack. |
| MarkPhase.Collector.HeapScanStep | gc-8.2.12/mark.c:364-380 | The rescan of the heap after an overflow keeps the invariant and makes progress; as it begins, the stack is enlarged if that has been wished for, memory permitting, and the wish is dropped; the stack does not change otherwise. |
| MarkPhase.Collector.MarkSome | gc-8.2.12/mark.c:265-386 | Every call keeps the mark invariant and lowers (unmarked objects, phase, rest of the heap scan, stack entries) lexicographically, so overflow recovery ends; it returns true exactly in `MS_NONE`, and then no wish for a larger stack is left; the stack is enlarged only if wished for; with at most 2048 root segments it never aborts; it marks only what is reachable. |
| MarkPhase.Collector.MarkInvAtEnd | gc-8.2.12/include/private/gc_pmark.h:455-484 | In `MS_NONE`, with the world stopped, the marks are closed under pointers and contain all roots. |
| MarkPhase.Collector.CompleteMeansReachableIsMarked | gc-8.2.12/mark.c:259-264 | Then every object reachable from the roots is marked. |
| MarkPhase.Collector.CompleteMeansExact | gc-8.2.12/mark.c:259-264 | A phase that began with the marks `s` ends with exactly what is reachable from `s` and the roots. |
| MarkPhase.Collector.ClearMarks | gc-8.2.12/mark.c:199-205 | Only marks of uncollectable objects are left, and the invariant of the invalid state holds. |
| MarkPhase.Collector.InitiateGc | gc-8.2.12/mark.c:209-229 | The abort is reached exactly in states other than none and invalid; from these two a valid phase begins, a partial or a full one, at the bottom of the heap; the dirty bits become the grungy ones just for a partial one. |
| CollectionDriver.MarkUntilDone | gc-8.2.12/alloc.c:874-890 | The loop ends: it is done, or the stop function has spoken, which is asked after every step. |
| CollectionDriver.StoppedMark | gc-8.2.12/alloc.c:815-979 | Returns true only with complete marks, so everything reachable is marked, and with these marks on record; false only if told to stop, with nothing recorded; it takes no more steps than the stop function allows; the invariant holds for the client to go on. |
| CollectionDriver.Reclaim | gc-8.2.12/alloc.c:1122-1268 | Exactly the blocks without marks are given back and exactly the unmarked objects elsewhere are emptied; everything that the roots lead to is untouched, and the marks stay complete. |
| CollectionDriver.FinishCollection | gc-8.2.12/alloc.c:1122-1268 | The same, and the next collection starts with no attempts counted, as a partial one. |
| CollectionDriver.KeepsTwice | gc-8.2.12/alloc.c:568-662 | What survives two collections in a row untouched is all that the roots led to before the first. |
| CollectionDriver.WriteObject | gc-8.2.12/include/private/gc_pmark.h:448-459 | A client write, with its page becoming dirty, keeps the invariant at every point of an incremental phase. |
| CollectionDriver.WriteSegment | gc-8.2.12/include/private/gc_pmark.h:448-459 | The same for static roots. |
| CollectionDriver.AllocBlock | gc-8.2.12/new_hblk.c:171-192 | A new block keeps the invariant at every point of an incremental phase: its objects are cleared, and marked at once if uncollectable. |
| CollectionDriver.MarkALittle | gc-8.2.12/alloc.c:717-733 | A bounded share of marking, less the deficit: just so many steps unless the marker is done before, which it reports exactly in `MS_NONE`; they make progress if there are any. |
| CollectionDriver.FinishIncrementally | gc-8.2.12/alloc.c:735-757 | The stopped mark phase at the end of incremental marking finishes the collection if an attempt has been made before or there is no time limit; otherwise it keeps to the time limit, and fails only if that has been reached, and then one more attempt is counted and nothing is reclaimed. |
| CollectionDriver.AdvanceCollection | gc-8.2.12/alloc.c:717-763 | One call for a collection in progress: once the marker has run dry the collection is finished, unless collections are off or `FinishIncrementally` fails; garbage is reclaimed just if it is finished; the deficit goes down by the share of marking, from what the failed attempt has set it to. |
| CollectionDriver.CollectALittle | gc-8.2.12/alloc.c:711-766 | Keeps validity and everything reachable. With a collection in progress it does what `AdvanceCollection` says, otherwise what `MaybeGc` says, or nothing if collections are off; if the collection in progress is not finished, attempts, work left or deficit have gone down. |
| CollectionDriver.MaybeGc | gc-8.2.12/alloc.c:492-542 | Nothing whatever changes unless a collection is due. If one is, and it is not incremental or there is no time limit, it is finished: the marks are exactly what is reachable from roots and uncollectable objects, or from roots and old marks if it is partial, and exactly the garbage by these marks is reclaimed. It stays unfinished only if the time limit has been reached; then nothing is reclaimed and an attempt is counted unless the collection is a full one. |
| CollectionDriver.TryToCollect | gc-8.2.12/alloc.c:568-662 | Succeeds unless the client may stop it or collections are off, in which case nothing changes; then marks are complete and, from scratch, exactly what was reachable from the roots and uncollectable objects, and exactly the rest is reclaimed; a collection in progress is finished first, and both are counted; whatever happens, nothing reachable is touched. |
| CollectionDriver.FullCollection | gc-8.2.12/alloc.c:620-636 | Marks from scratch are exactly the reachable objects, exactly the rest is reclaimed, and nothing reachable is touched; if it is stopped, nothing is reclaimed, and the mark state is invalid unless marking can go on incrementally. |
| CollectionDriver.Perform | gc-8.2.12/alloc.c:492-766 | One event has exactly its effect: a write, a new block, a step of `GC_collect_a_little`, or a collection; it has none if the client is in no position to cause it. |
| CollectionDriver.Run | gc-8.2.12/alloc.c:492-766 | Over any sequence of client writes, allocations, marking steps and collections that reclaim what is unmarked, each of which has exactly its effect: the state stays valid, no abort is reached, and for every step of `GC_gc_no` there is a record of heap, roots and marks in which all that was reachable was marked. |
| ObjectGraph.ClosedContainsReachable | gc-8.2.12/mark.c:259-264 | A closed set with the starting points contains everything reachable. |
| RangeScan.Scanner.Share | gc-8.2.12/mark.c:548-576 | Halving with an overlap of a word leaves exactly the same slots to be examined, and goes on until the range is short enough or the stack is full. |
| RangeScan.Scanner.TakeRange | gc-8.2.12/mark.c:577-602 | A split of 127 words and the words reaching into the rest leave out no slot and add none. |
| RangeScan.Scanner.FindDeferred | gc-8.2.12/mark.c:700-735 | The slots after the deferred one hold no pointers into the heap; the deferred one is read, and still accounted for. |
| RangeScan.Scanner.ScanRange | gc-8.2.12/mark.c:703-776 | All slots of the range have been dealt with, the deferred one included: what they point to is marked. |
| RangeScan.Scanner.MarkFrom | gc-8.2.12/mark.c:515-778 | A call on a nonempty stack leaves less to do (unmarked objects, length to split, ranges), and slots examined plus slots on the stack are those given and those of objects found; unless it empties the stack it scans a heap block, and never more than one and a range. |
| RangeScan.Scanner.Drain | gc-8.2.12/mark.c:504-513 | Repeated calls end with an empty stack; the slots examined are exactly those of plain scans of the given ranges and of the objects found, misaligned pointers across a split included; the objects found are exactly the reachable ones. |
| ParallelMark.InitialInv | gc-8.2.12/mark.c:1078-1106 | The invariants of coordination and of marks hold when the lock is first released. |
| ParallelMark.StepKeepsInv | gc-8.2.12/mark.c:847-1134 | Every shared-memory access or locked section of any helper keeps the invariant of coordination. |
| ParallelMark.MarksStep | gc-8.2.12/mark.c:883-967 | It also keeps what is known of the marks: what is marked has been put on some stack, and an entry counts as processed only when all it leads to is marked, races for mark bits and overflows of private stacks included. |
| ParallelMark.RunKeepsInv | gc-8.2.12/mark.c:847-1134 | So it holds after any interleaving of any number of helpers. |
| ParallelMark.FirstIndexIsHonest | gc-8.2.12/mark.c:994-1011 | Entries below `GC_first_nonempty` have all been taken; that the index is raised is in `ParallelTermination`. |
| ParallelMark.NothingIsLeftAtReturn | gc-8.2.12/mark.c:1078-1106 | At return no helper runs, all local stacks are empty, both counts are zero, and every entry was processed or the mark state is invalid. |
| ParallelMark.ParallelMarkingIsMarking | gc-8.2.12/mark.c:1078-1106 | At return, unless the mark state is invalid, no object and no root segment violates the mark invariant that did not do so before, and nothing is marked that was not to be: the contract of the serial marker. |
| ParallelMark.ParallelMarkingIsExact | gc-8.2.12/mark.c:1078-1106 | If nothing violated it at the start, and every starting object was marked or an entry led to it, the marks at return are exactly what is reachable from the starting objects. |
| ParallelMark.OnlyWaitingEntriesAreRead | gc-8.2.12/mark.c:847-879 | A helper goes to take an entry just if nobody has taken it before, and the helper has neither got enough nor reached the top. |
| ParallelMark.FewAreTaken | gc-8.2.12/mark.c:847-879 | Every step keeps private stacks within bounds, and a helper takes no more than `ENTRIES_TO_GET` entries and one more before it marks from them. |
| ParallelMark.PushesLocally | gc-8.2.12/include/private/gc_pmark.h:121-136 | An object just marked goes on the private stack, unless it holds no pointers; a full stack loses its top `MARK_STACK_DISCARDS` entries before, and the mark state becomes invalid. |
| ParallelMark.IndicesMeet | gc-8.2.12/mark.c:994-1018 | A helper starts no lower than the shared index, raises that if it is ahead and nobody else has done so, and takes the lock only if it sees no entry. |
| ParallelMark.WaitingItemStep | gc-8.2.12/mark.c:847-879 | An entry on the shared stack stays there or gets into some helper's hands. |
| ParallelMark.HeldItemStep | gc-8.2.12/mark.c:883-967 | An entry in a helper's hands is processed, kept, or handed back, unless the state becomes invalid. |
| ParallelMark.NobodyIsStuck | gc-8.2.12/mark.c:1013-1057 | No notification is missed: until the initiator has returned, somebody can go on without being woken. |
| ParallelMark.ActiveCountMayRiseAgain | gc-8.2.12/mark.c:785-790 | A run in which the initiator sleeps, a helper takes the active count to zero and leaves, and another helper joins before the initiator has the lock, against what the comment says. |
| ParallelMark.OnlyJoiningRaisesTheCount | gc-8.2.12/mark.c:1019-1047 | In every reachable state with an active count of zero, a step raises the count if and only if it is that of a helper joining. |
| ParallelMark.CountCanRiseExactlyIfHelpCanCome | gc-8.2.12/mark.c:1112-1131 | There is such a step if and only if help is still wanted and some helper has not joined in this cycle; helpers that have left do not come back. |
| ParallelMark.CountStaysZeroExactlyWithoutLateJoins | gc-8.2.12/mark.c:785-790 | The count stays zero for the rest of a run if and only if no helper joins in it any more. |
| ParallelTermination.EveryStepLeavesLess | gc-8.2.12/mark.c:847-1134 | Every step of any helper, joins included, spurious wake-ups and races for a mark bit excepted, lowers one measure of the work left: helpers still out, unmarked objects, room on the shared stack, slots not yet looked at, the lag of `GC_first_nonempty`, entries in hand, distance from sleep, and pointers to scan. |
| ParallelTermination.ParallelMarkingReturns | gc-8.2.12/mark.c:1078-1106 | So `GC_do_parallel_mark` returns in every run, whatever the order of steps, in which all but finitely many are neither spurious wake-ups nor races. |
| ParallelTermination.EveryRunEnds | gc-8.2.12/mark.c:994-1057 | The same from any state that meets the invariants. |
| ParallelTermination.MarkingCanEnd | gc-8.2.12/mark.c:994-1057 | From every reachable state the helpers that have joined can bring marking to its end without anybody joining, spurious wake-ups or races. |
| FreeLists.FlIndexMonotone | gc-8.2.12/allchblk.c:85-92 | Larger blocks are never on earlier lists, each of the first 32 lists is for one size, sizes on any other list but the last are within 8 heap blocks, and the last is for the huge ones just. |
| FreeLists.RemoveKeepsLinked | gc-8.2.12/allchblk.c:301-321 | Unlinking keeps all 61 doubly linked lists consistent, each block on one of them once. |
| FreeLists.AddKeepsLinked | gc-8.2.12/allchblk.c:371-400 | Linking at the front does, too. |
| FreeLists.ReplaceKeepsLinked | gc-8.2.12/allchblk.c:632-661 | Putting a block in another one's place does, too. |
| HeapTiling.MergeTiled | gc-8.2.12/allchblk.c:965-987 | Merging adjacent free blocks keeps the heap tiled and moves no address. |
| HeapTiling.SplitTiled | gc-8.2.12/allchblk.c:591-661 | Dividing a block keeps the heap tiled. |
| HeapBlocks.BlockHeap.constructor | gc-8.2.12/allchblk.c:49-66 | The allocator starts valid, with no heap and empty lists. |
| HeapBlocks.BlockHeap.RemoveFromFlAt | gc-8.2.12/allchblk.c:301-321 | The block is gone from its list and all else is as it was; list byte counts stay the list sums. |
| HeapBlocks.BlockHeap.AddToFl | gc-8.2.12/allchblk.c:371-400 | The block is first on the list for its size. |
| HeapBlocks.BlockHeap.BlockEndingAt | gc-8.2.12/allchblk.c:331-352 | The block that ends at an address, if there is one. |
| HeapBlocks.BlockHeap.FreeBlockEndingAt | gc-8.2.12/allchblk.c:355-367 | The free block that ends at an address, if there is one. |
| HeapBlocks.BlockHeap.CoalesceNext | gc-8.2.12/allchblk.c:965-972 | Exactly the merge with the successor takes place if it can; the freed block is not mergeable with it any more, and no other opportunity to merge arises. |
| HeapBlocks.BlockHeap.CoalescePrev | gc-8.2.12/allchblk.c:973-987 | Exactly the merge with the predecessor takes place if it can; then no two blocks are mergeable. |
| HeapBlocks.BlockHeap.FreeBlk | gc-8.2.12/allchblk.c:935-994 | The block becomes free and is merged with its free neighbours exactly where the sizes allow; all other blocks stay. Everything stays valid: tiling, each free block on exactly its list, counts equal to sums, no mergeable neighbours. It aborts exactly for a free block and for sizes from half the address space on. |
| HeapBlocks.BlockHeap.NoTwoAdjacentFree | gc-8.2.12/allchblk.c:965-994 | In a heap of less than half the address space no two free blocks are adjacent. |
| HeapBlocks.AdjacentFreeBlocks | gc-8.2.12/allchblk.c:965-994 | In a heap of just that size, built by two additions, two free blocks are adjacent. |
| HeapBlocks.BlockHeap.Usable | gc-8.2.12/alloc.c:1398-1410 | What is usable of new memory: not its parts in the first two or the last heap block of the address space. |
| HeapBlocks.BlockHeap.AddToHeap | gc-8.2.12/alloc.c:1353-1483 | The usable part becomes a free block, merged with its free neighbours exactly where the sizes allow; heap size and free bytes grow by it; validity is kept. |
| HeapPlacement.SplitBlock | gc-8.2.12/allchblk.c:632-661 | The second part takes the place of the block on its list, even if it is the wrong one for its size, and the first goes to its own; no free byte is lost. |
| HeapPlacement.GetFirstPart | gc-8.2.12/allchblk.c:591-616 | The block is off its list with exactly the bytes wanted, and the rest is on the list for its size. |
| HeapPlacement.SetupHeader | gc-8.2.12/allchblk.c:227-298 | The block is in use, exactly its bytes are no longer free, and nothing is mergeable. |
| HeapPlacement.Take | gc-8.2.12/allchblk.c:882-925 | From the place chosen a block of exactly the wanted size comes into use; what is left of the free block before and behind it is two free blocks, all others stay, and validity is kept. |
| HeapPlacement.DropBlock | gc-8.2.12/allchblk.c:848-871 | A black-listed block is given up in pieces of one heap block: they count as in use and as dropped. |
| HeapPlacement.FindPlace | gc-8.2.12/allchblk.c:791-795 | Every start that is skipped is black-listed, and the one found is not. |
| HeapPlacement.Consider | gc-8.2.12/allchblk.c:761-849 | A place is chosen exactly as the code does: for an exempt request the start of the block, otherwise the first place that is not black-listed, and the start if all are and both the request and what remains are large. The block is passed over only if it does not suit (too small, not to be split, or without such a place) or the next one on the list fits more closely and is not black-listed; a block to be dropped perhaps is black-listed throughout, and wanted for one heap block. |
| HeapPlacement.NextSuits | gc-8.2.12/allchblk.c:773-785 | The next block, for which one is passed over, suits the request itself. |
| HeapPlacement.TryHere | gc-8.2.12/allchblk.c:761-880 | What becomes of one block: taken at the place chosen, dropped (just if leaks are not looked for and the counter is at a multiple of four), or passed over; none of the blocks seen so far suits, or the one that comes next does. |
| HeapPlacement.AllocNth | gc-8.2.12/allchblk.c:742-926 | Ends, with drops and retries. It fails exactly if no free block on the list suits: none is large enough (and of the size wanted, if it may not be split) and has a place that is not black-listed, or is to be split regardless of black lists, or needs no regard to them. Otherwise the new block is taken out of a block of the list, in the place `Consider` says. Nothing else changes but for dropped blocks, which are black-listed throughout, and dropped only for requests of one heap block that are not exempt. |
| HeapPlacement.EnoughLargeBytesLeft | gc-8.2.12/allchblk.c:71-82 | The largest list index from which on enough is free. |
| HeapPlacement.AllocFrom | gc-8.2.12/allchblk.c:677-732 | The same over a range of lists whose blocks may be split: it fails exactly if nothing suits on any of them, and no block is taken if one on an earlier list suits. |
| HeapPlacement.AllocBlk | gc-8.2.12/allchblk.c:677-732 | It fails only if no free block fits exactly and suits, and none on lists up to the limit suits; the limit is the last list, 0, or the largest index from which on enough large blocks are left, as the caller has it. A block is split only if it is within the limit, nothing fits exactly, and nothing on an earlier list suits. With splitting allowed everywhere it fails only if no free block of the heap suits. |
| HeapPlacement.NoBlockFits | gc-8.2.12/allchblk.c:677-732 | If nothing suits on the lists that are searched, nothing fits exactly anywhere, and nothing suits on any list up to the last of them. |
| HeapAccounts.LargeFreeIsSumOfLists | gc-8.2.12/allchblk.c:62-82 | `GC_large_free_bytes` is the sum of `GC_free_bytes` over all lists. |
| HeapAccounts.NoLostBlocks | gc-8.2.12/checksums.c:124-138 | Sizes of blocks in use and free bytes add up to the heap size. |
| MergeUnmapped.MakeConsistent | gc-8.2.12/allchblk.c:539-564 | Before a merge the smaller block is remapped or unmapped to be as the larger one is, and no other memory is touched; the flags tell the truth. |
| MergeUnmapped.MergePair | gc-8.2.12/allchblk.c:566-570 | Exactly the two blocks are merged; everything else keeps its size and flag. |
| MergeUnmapped.MergeHere | gc-8.2.12/allchblk.c:530-570 | The two blocks become one, mapped just if the larger was; the number of blocks goes down. |
| MergeUnmapped.MergeList | gc-8.2.12/allchblk.c:519-576 | Restarting the list after each merge ends, because every merge lowers the number of blocks; no block on this or an earlier list is mergeable then. |
| MergeUnmapped.MergeAll | gc-8.2.12/allchblk.c:514-578 | At the end no free block is mergeable with its successor; free and used space are as before; every free block is wholly mapped or wholly unmapped as its flag says. |
| BlackList.ScanFindsFirst | gc-8.2.12/blacklst.c:240-269 | The block-by-block scan returns the address after the first bad block, or 0. |
| BlackList.IsBlackListed | gc-8.2.12/blacklst.c:240-269 | The word-skipping scan answers like the block-by-block scan; 0 means exactly that the range is good; otherwise every start below the result is black-listed. |
| HeaderIndex.Index.constructor | gc-8.2.12/headers.c:191-205 | The empty index stands for the empty heap. |
| HeaderIndex.Index.GetBi | gc-8.2.12/include/private/gc_hdrs.h:174-183 | The hash chain finds the bottom index for a key exactly if there is one. |
| HeaderIndex.Index.GetIndex | gc-8.2.12/headers.c:209-259 | A new bottom index keeps the list sorted and doubly linked and the hash chains right; no entry changes. |
| HeaderIndex.Index.InstallHeader | gc-8.2.12/headers.c:264-277 | Exactly one entry changes, to a header. |
| HeaderIndex.Index.RemoveHeader | gc-8.2.12/headers.c:301-307 | Exactly one entry changes, to nil. |
| HeaderIndex.Index.InstallCounts | gc-8.2.12/headers.c:280-298 | Exactly the entries inside the block become forwarding counts, cut off at `MAX_JUMP`. |
| HeaderIndex.Index.RemoveCounts | gc-8.2.12/headers.c:310-326 | Exactly the entries inside the block become nil. |
| HeaderIndex.UseRefines | gc-8.2.12/allchblk.c:900-908 | With its counts installed, the index stands for the heap in which the block is in use. |
| HeaderIndex.FreeRefines | gc-8.2.12/allchblk.c:948-961 | With its counts removed, for the heap in which it is free. |
| HeaderIndex.DivideRefines | gc-8.2.12/allchblk.c:591-661 | With a header for the second part, for the heap in which a free block is divided. |
| HeaderIndex.MergeRefines | gc-8.2.12/allchblk.c:965-987 | With the second header removed, for the heap in which two free blocks are one. |
| HeaderIndex.NewRefines | gc-8.2.12/alloc.c:1411-1417 | With one header for new memory, for the larger heap. |
| HeaderIndex.JumpStaysInBlock | gc-8.2.12/include/private/gc_hdrs.h:207-211 | A jump by a forwarding count stays in the block and passes over no start of a block. |
| HeaderIndex.FollowCounts | gc-8.2.12/misc.c:436-442 | Following counts from any address in a block in use ends at its start. |
| HeaderIndex.NextBlock | gc-8.2.12/headers.c:357-391 | The nearest wanted block at or above an address; null exactly if there is none. |
| HeaderIndex.PrevBlock | gc-8.2.12/headers.c:393-423 | The nearest block at or below an address; null exactly if there is none. |
| HeaderIndex.BlockEndingAt | gc-8.2.12/allchblk.c:331-352 | On the index, the block that ends at an address. |
| HeaderIndex.ApplyToAllBlocks | gc-8.2.12/headers.c:331-355 | Every block in use is visited exactly once, and no other. |
| HeaderIndex.ObjectIsUnique | gc-8.2.12/misc.c:423-460 | There is at most one object at an address. |
| HeaderIndex.Base | gc-8.2.12/misc.c:423-460 | The base of the object that an address is in; null exactly if it is in none. |
| IndexedHeap.FreeIndexed | gc-8.2.12/allchblk.c:935-994 | Freeing a block has just the effect of `FreeBlk`, and with the counts and headers it removes from the index leaves an index that stands for the new heap; an abort changes nothing. |
| IndexedHeap.AddIndexed | gc-8.2.12/alloc.c:1411-1457 | Growing the heap has just the effect of `AddToHeap`, and leaves an index that stands for the new heap. |
| IndexedHeap.AllocRefines | gc-8.2.12/allchblk.c:742-926 | An allocation leaves the index right if it has headers for the pieces of dropped blocks, for the new block and for what is left behind it, and counts inside the new block. |
| IndexedHeap.GiveUpRefines | gc-8.2.12/allchblk.c:848-871 | And if nothing was found, if it has headers for the pieces. |
| IndexedHeap.IndexAllocation | gc-8.2.12/allchblk.c:855-908 | Putting headers for the blocks that are new, and the counts of the block taken, into the index does just that. |
| IndexedHeap.AllocIndexed | gc-8.2.12/allchblk.c:677-732 | So an allocation, which succeeds or fails as `AllocBlk` does, with what it puts into the index, leaves an index that stands for the new heap. |
| Reciprocal.Inverse64 | gc-8.2.12/allchblk.c:259-261 | The 64-bit form gives the least number whose product with the size is at least 2 to the 32nd. |
| Reciprocal.Inverse32 | gc-8.2.12/allchblk.c:262-267 | So does the 32-bit loop, whose products wrap around. |
| Reciprocal.MultiplyThenShift | gc-8.2.12/include/private/gc_pmark.h:283-330 | For every offset in a heap block, multiplying and shifting by 32 is dividing by the object size. |
| Reciprocal.OffsetFromLowProduct | gc-8.2.12/include/private/gc_pmark.h:316-330 | The upper half of the low word is zero exactly for starts of objects, and otherwise gives the exact offset in the object. |
| Reciprocal.LargeIsNoInverse | gc-8.2.12/include/private/gc_pmark.h:283-300 | The value that stands for large blocks is no small object's reciprocal. |
| SweepLists.Extend | gc-8.2.12/reclaim.c:196-209 | Linking slots that are on no list in front of one keeps all lists acyclic and disjoint. |
| SweepLists.Pop | gc-8.2.12/malloc.c:199-200 | So does taking the first slot off, whatever its link becomes. |
| SweepLists.Join | gc-8.2.12/thread_local_alloc.c:39-55 | So does putting a whole list in front of another. |
| SweepLists.Cut | gc-8.2.12/mallocx.c:427-444 | So does moving the front part of a list to an empty one. |
| LazySweep.Sweeper.constructor | gc-8.2.12/reclaim.c:638-692 | The sweeper starts in a valid state. |
| LazySweep.Sweeper.ReclaimClear | gc-8.2.12/reclaim.c:180-210 | Exactly the unmarked slots of the block are in front of the list, cleared, and no other link changes. |
| LazySweep.Sweeper.ReclaimUninit | gc-8.2.12/reclaim.c:213-239 | The same without clearing. |
| LazySweep.Sweeper.Sweep | gc-8.2.12/reclaim.c:311-357 | A queued block is swept at most once; exactly its unmarked slots go to a list of its class, cleared just if the kind asks for it; everything stays valid. |
| LazySweep.Sweeper.ContinueReclaim | gc-8.2.12/reclaim.c:699-717 | The list is nonempty afterwards, or no block of the class waits; if it was and is empty, no slot of the class had been waiting, and the other way round; the blocks that left the queue are exactly those swept, of which only one had unmarked slots; no other list changes; no slot is lost. |
| LazySweep.Sweeper.ReclaimAll | gc-8.2.12/reclaim.c:728-777 | It finishes unless the client may stop it, and then nothing waits any more; of the blocks that left the queue, exactly those were swept that were swept in the cycle before, or all without `ignore_old`, in which case no slot is lost. |
| LazySweep.Sweeper.NewBlock | gc-8.2.12/new_hblk.c:171-192 | All slots of the new block are in front of the list, last one first. |
| LazySweep.Sweeper.Malloc | gc-8.2.12/malloc.c:160-211 | It takes the first slot of the list if there is one. It fails just if nothing of the class is on the list or waits to be swept and no block can be added, or nothing is on the list and there is no memory for reclaim lists. The slot handed out was held by nobody, was not marked at the last collection unless it was freed since, has the kind and size asked for, and is clear if it should be. |
| LazySweep.Sweeper.MallocLarge | gc-8.2.12/malloc.c:202-207 | A new block for one object, held by nobody before, cleared just if the kind asks for it. |
| LazySweep.Sweeper.Free | gc-8.2.12/malloc.c:596-664 | A small object goes in front of the list of its class with its mark bit unchanged; a large one gives back its block; everything stays valid. |
| LazySweep.Sweeper.LocalMalloc | gc-8.2.12/include/gc_inline.h:115-140 | Allocation without the lock from a list of the thread: as for `Malloc`. |
| LazySweep.Sweeper.MallocMany | gc-8.2.12/mallocx.c:303-484 | The list of the thread is filled just if a block can be had, or if anything of the class is free or waits to be swept; nothing that the client holds and no other slot is lost, and other lists do not change. |
| LazySweep.Sweeper.TakePrefix | gc-8.2.12/mallocx.c:427-444 | The front part of the allocator's list, in order, is the thread's list now: as many objects as are needed to fill a block, or all. |
| LazySweep.Sweeper.ReturnList | gc-8.2.12/thread_local_alloc.c:39-78 | All slots of the thread's list are in front of the allocator's, and the thread's is empty. |
| LazySweep.Sweeper.SetMark | gc-8.2.12/mark.c:151-161 | Marking an object at any time keeps everything valid; a slot about to be swept is dropped instead. |
| LazySweep.Sweeper.ClearMarks | gc-8.2.12/alloc.c:605-621 | Clearing all marks keeps everything valid if no block waits to be swept. |
| LazySweep.Sweeper.ClearFreeMarks | gc-8.2.12/alloc.c:1190-1208 | Exactly the marks of objects on the allocator's free lists are cleared. |
| LazySweep.Sweeper.DropLists | gc-8.2.12/reclaim.c:648-671 | Exactly the lists of kinds with reclaim lists are given up, and nothing waits. |
| LazySweep.Sweeper.ReclaimBlock | gc-8.2.12/reclaim.c:388-484 | Empty blocks are given back, others keep all but their place in the queue; the block waits to be swept exactly if its objects are small, at most seven eighths of them are marked, and its kind has reclaim lists. |
| LazySweep.Sweeper.StartReclaim | gc-8.2.12/reclaim.c:638-692 | Exactly the blocks with marks are left; exactly those wait that are worth it as in `ReclaimBlock`; whatever is neither held nor on a list is out of use, except for the unmarked slots of these; the state is valid afterwards if and only if every list that is not given up has its objects in surviving blocks, and none is uncollectable. |
| LazySweep.Sweeper.Collect | gc-8.2.12/alloc.c:1122-1268 | After any marking that finds what the client uses: the client holds the same objects; exactly the blocks that are worth it wait, by the marks found less those of free objects; the state is valid if and only if free lists of kinds without reclaim lists are in surviving blocks, in particular if every kind in use has its reclaim list. |
| LazySweep.Sweeper.CollectAndMalloc | gc-8.2.12/reclaim.c:638-717 | An allocation after a collection is served without a new block if some block of the class is worth sweeping. |
| SweepState.WorthwhileHasRoom | gc-8.2.12/reclaim.c:464-472 | Such a block has an unmarked slot. |
| LazySweep.Sweeper.SlotsConserved | gc-8.2.12/reclaim.c:388-484 | Slots on lists, held, waiting and dropped are disjoint and add up to all slots. |
| LazySweep.Sweeper.UncollectablesSurvive | gc-8.2.12/mark.c:139-148 | Uncollectable objects that are held are found by every marker. |
| LazySweep.Sweeper.Run | gc-8.2.12/reclaim.c:638-717 | Over any steps of client, threads, sweeper and marker, each with exactly its effect on what the client holds: valid throughout, and what was marked at the collection is on a free list only if it was freed. |
| LazySweep.AListOutlivesItsBlock | gc-8.2.12/reclaim.c:649-653 | A run in which a free list outlives its block, as the kind has no reclaim list. |
| BuildFreeList.Block.BuildFl | gc-8.2.12/new_hblk.c:109-165 | The general loop and the four special ones all link every object to the one before, the first to the old list, and clear or keep all other words. |
| BuildFreeList.Block.BuildFlGeneral | gc-8.2.12/new_hblk.c:143-164 | The general loop, for any size. |
| BuildFreeList.Block.BuildFlClear2 | gc-8.2.12/new_hblk.c:30-47 | Two words, cleared. |
| BuildFreeList.Block.BuildFl2 | gc-8.2.12/new_hblk.c:70-83 | Two words, not cleared. |
| BuildFreeList.Block.BuildFlClear4 | gc-8.2.12/new_hblk.c:50-67 | Four words, cleared. |
| BuildFreeList.Block.BuildFl4 | gc-8.2.12/new_hblk.c:86-100 | Four words, not cleared. |
| BuildFreeList.FollowLinked | gc-8.2.12/new_hblk.c:102-108 | Following the links so built leads through all objects, last to first, and on to the old list. |
| SizeClasses.SizeMap.constructor | gc-8.2.12/misc.c:247-262 | Requests for tiny objects are all filled in, and sound. |
| SizeClasses.SizeMap.Extend | gc-8.2.12/malloc.c:107-155 | The requested entry is filled, writes stay in bounds, every filled entry holds its request and is at most about twice as large, enlarging a class does not reduce how many objects fit in a block, and filled sections ending at n have length n/4 or more. Filling begins at the first gap above three quarters of the request if an eighth below is empty, and aims at the request; otherwise at the first gap above seven eighths, and aims at nine eighths of it. |
| SizeClasses.Enlarged | gc-8.2.12/malloc.c:142-145 | The size chosen is the largest even one of which as many fit in a block. |
| SizeClasses.NewSizeHolds | gc-8.2.12/malloc.c:146-154 | Every request mapped to the new size fits, and none gets far more than it needs. |
| SizeClasses.FillKeepsRunsLong | gc-8.2.12/malloc.c:105-106 | A filled-in section ending at n always has the length of at least n/4. |
| SizeClasses.SizeMap.Serve | gc-8.2.12/malloc.c:160-196 | Whatever is requested, in whatever order, gets objects large enough. |
| HashTables.Table.Insert | gc-8.2.12/finalize.c:218-224 | The table stands for the map with the new entry. |
| HashTables.Table.Unregister | gc-8.2.12/finalize.c:245-273 | Deletes the key from the map, and returns what it had. |
| HashTables.Table.Move | gc-8.2.12/finalize.c:511-562 | Renames a key, or reports that it is absent or the new one taken. |
| HashTables.Table.Rehash | gc-8.2.12/finalize.c:121-148 | Doubling the table keeps the map; every key is in its own bucket. |
| HashTables.Table.GrowTable | gc-8.2.12/finalize.c:94-149 | The map stays, but for what the collection that it starts deletes, and what one that getting memory for the new table starts deletes; it grows exactly if the first has not deleted enough and there is memory. |
| HashTables.Table.Register | gc-8.2.12/finalize.c:161-227 | Updates the map that is current when the entry is inserted: less what collections have deleted while the table grew and memory for the entry was got, and with all that other threads have done if the lock was released in between; reports duplicates, lack of memory and the abort exactly. |
| HashTables.Table.RegisterFinalizer | gc-8.2.12/finalize.c:667-801 | Registers, replaces or removes in the map that is current then, and returns the previous entry; reports lack of memory and the abort exactly. |
| HashTables.EntriesAreCells | gc-8.2.12/finalize.c:213-227 | The number of cells in all chains is the number of keys. |
| HashTables.RepUnique | gc-8.2.12/finalize.c:28-31 | A table stands for one map only. |
| Finalize.EnqueuesExactly | gc-8.2.12/finalize.c:972-1060 | Exactly the victims unreachable from victims' pointers are enqueued if and only if what was marked because of an overflow is reachable from them anyway. |
| Finalize.CyclesAreNeverEnqueued | gc-8.2.12/finalize.c:598-611 | Objects on cycles are never enqueued. |
| Finalize.QueueIsKeptAlive | gc-8.2.12/finalize.c:995-1059 | What an enqueued object leads to is marked, but for the object itself, if and only if its mark procedure looks at its pointers or they lead to nothing unmarked. |
| Finalize.WholeQueueIsKeptAlive | gc-8.2.12/finalize.c:995-1059 | After finalization all that the queue leads to is marked if and only if that is so of the pointers of objects with the null procedure. |
| Finalize.RunMarkProc | gc-8.2.12/finalize.c:607-656 | The mark procedures: unless the mark stack overflows, what an object's pointers lead to, by its procedure, is marked or will be, and nothing else is; there is no overflow, now or later, if the stack can hold the entries of all unmarked objects with pointers beside those of any one object. |
| Finalize.RecoverFromOverflow | gc-8.2.12/include/private/gc_pmark.h:441-446 | After an overflow marking is completed: the object itself and what it leads to are marked besides. |
| Finalize.MarkFo | gc-8.2.12/include/private/gc_pmark.h:437-447 | Marks exactly what the mark procedure's pointers lead to, and the object itself just if there was an overflow: never if the mark stack can hold the entries of all unmarked objects with pointers beside those of any one object, always if the procedure alone pushes more than it holds. |
| Finalize.MakeLinksDisappear | gc-8.2.12/finalize.c:919-967 | Exactly the links with a dead target are cleared and forgotten, and links in dead objects forgotten. |
| Finalize.Finalizer.FirstPass | gc-8.2.12/finalize.c:995-1011 | The marks are what is reachable from marks on entry, victims' pointers and overflows, whatever the order of the buckets; with a mark stack that can hold the entries of all unmarked objects with pointers beside those of any one object there are no overflows. |
| Finalize.Finalizer.SecondPass | gc-8.2.12/finalize.c:1012-1059 | Table and queue partition the old entries by what is marked. |
| Finalize.Finalizer.Finalize | gc-8.2.12/finalize.c:972-1138 | Both together, with short links judged by the marks on entry and long links by the marks at the end. Exactly the right objects go to the queue if and only if marks made because of overflows are harmless, in particular if the mark stack can hold the entries of all unmarked objects with pointers beside those of any one object; all that the queue leads to is marked if and only if the pointers of objects with the null procedure are. |
| Finalize.AFinalizerCanBeLost | gc-8.2.12/include/private/gc_pmark.h:437-447 | Nothing is marked, and one object is registered, unreachable and on no cycle, with more pointers than the mark stack has entries: after `GC_finalize` it is marked and still in the table, and the queue is empty. |
| Finalize.AQueuedObjectCanLoseItsParts | gc-8.2.12/finalize.c:1015-1059 | A finalization of an object with the null procedure: it is enqueued, and the object it points to is not marked. |
| StopWorld.AckKeepsInv | gc-8.2.12/pthread_stop_world.c:368-393 | A thread posts at most once for a stop. |
| StopWorld.AckAgainKeepsInv | gc-8.2.12/pthread_stop_world.c:426-443 | And at most once for a restart. |
| StopWorld.ResentKeepsInv | gc-8.2.12/pthread_stop_world.c:468-509 | Resending never finds fewer threads than are missing. |
| StopWorld.StepKeepsInv | gc-8.2.12/pthread_stop_world.c:327-541 | Every step of collector and threads keeps the invariant, if no stale suspend signal is about when a stop begins. |
| StopWorld.StoppedMeansStopped | gc-8.2.12/pthread_stop_world.c:1056-1112 | When the world is reported stopped, every live thread has stored its stack pointer for this stop and runs no client code, and the semaphore is zero. |
| StopWorld.RunKeepsInv | gc-8.2.12/pthread_stop_world.c:933-1382 | So it is in every run without stale signals at starts of stops. |
| StopWorld.WithoutRetries | gc-8.2.12/pthread_stop_world.c:933-1382 | And in every run if signals are not resent. |
| StopWorld.WaitsForSomeone | gc-8.2.12/pthread_stop_world.c:447-464 | A blocked wait for posts has a live thread on its way to post. |
| StopWorld.DriveToSleep | gc-8.2.12/pthread_stop_world.c:327-417 | That thread, left alone, posts and goes to sleep. |
| StopWorld.StopCanEnd | gc-8.2.12/pthread_stop_world.c:447-541 | From anywhere in a stop, signals lost on the way included, a run leads to its end, with all live threads asleep. |
| StopWorld.DriveToRun | gc-8.2.12/pthread_stop_world.c:395-443 | Whenever the world is not stopped, every thread gets back to the client's code by its own steps alone, and the others stay as they are; it posts once if signals are retried and it has not yet done so, and never otherwise. |
| StopWorld.CollectorEnds | gc-8.2.12/pthread_stop_world.c:447-541 | Once all threads have done their part, the collector gets to the end of the stop or restart by its own steps: every post is waited for just once. |
| StopWorld.RestartCanEnd | gc-8.2.12/pthread_stop_world.c:1275-1382 | From anywhere in a restart a run leads to its end, with all threads in the client's code and the semaphore at zero. |
| StopWorld.StopIsSoundExactlyWithoutStaleSignals | gc-8.2.12/pthread_stop_world.c:947-960 | A stop is sound in all continuations if and only if no suspend signal of an earlier stop is still on its way. |
| StopWorld.StaleSignalLeavesAPost | gc-8.2.12/pthread_stop_world.c:947-960 | From any state with a stale signal some run ends with a surplus post. |
| StopWorld.AThreadRunsInAStoppedWorld | gc-8.2.12/pthread_stop_world.c:947-960 | A run from the start in which, after one resent signal, a thread runs while the world is reported stopped. |
| Roots.RootTable.RootsPresent | gc-8.2.12/mark_rts.c:126-136 | Finds a root by its start exactly if there is one. |
| Roots.RootTable.RemoveAtPos | gc-8.2.12/mark_rts.c:293-306 | The last root takes the place of the one removed, and the size stays right. |
| Roots.RootTable.RebuildIndex | gc-8.2.12/mark_rts.c:309-315 | The index is consistent again. |
| Roots.RootTable.AddRoots | gc-8.2.12/mark_rts.c:167-270 | The union grows by exactly the aligned part of the range; a temporary range leaves the permanent union as it is, a permanent one adds itself and the root that starts where it does; the root that starts there is extended, unless it is permanent and the range is not; permanent stays permanent; full only at `MAX_ROOT_SETS`, and if a new entry is needed. |
| Roots.RemoveSubregion | gc-8.2.12/mark_rts.c:401-474 | The permanent union becomes the old one minus the region, also if roots overlap; temporary roots are untouched and last; disjoint roots stay disjoint; sizes and index are right. |
| Roots.CutMiddle | gc-8.2.12/mark_rts.c:429-449 | The case of a root that contains the region, also if another one starts where the region ends. |
| Roots.DropRoot | gc-8.2.12/mark_rts.c:454-467 | The case of a root in the region. |
| StaticRanges.ExclusionTable.NextExclusion | gc-8.2.12/mark_rts.c:545-564 | Binary search finds the first range that ends behind the address. |
| StaticRanges.ExclusionTable.Exclude | gc-8.2.12/mark_rts.c:568-606 | Keeps the table sorted and disjoint; overlap is reported exactly; otherwise the union grows by exactly the range, by extending the one that begins where it ends or by one entry more, if there is room for that. |
| StaticRanges.ExclusionTable.PushWithExclusions | gc-8.2.12/mark_rts.c:637-653 | Exactly the range minus the exclusions is pushed, in order. |
| StaticRanges.SortHeapSects | gc-8.2.12/dyn_load.c:282-305 | A sorted permutation. |
| StaticRanges.SortedAreApart | gc-8.2.12/dyn_load.c:282-305 | Sorted disjoint sections lie one behind the other. |
| StaticRanges.CarveMapping | gc-8.2.12/dyn_load.c:359-388 | Exactly the mapping minus the collector's sections is submitted as roots. |

## Left out

- Platform code (`darwin_stop_world.c`, `mach_dep.c`, most of `os_dep.c` and `dyn_load.c`), initialisation, logging, debugging (`dbg_mlc.c`, `backgraph.c`, `ptr_chck.c`, tracing, leak reporting), C++ wrappers, `specific.c` and the gnulib files in `lib/`.
- Disclaim callbacks, gcj descriptors, bitmap and procedure descriptors, toggle references and Java finalization.
- Failure to allocate headers or bottom indices, and the paths that it leads to.
- The Windows branch of `GC_add_roots_inner`, `GC_ENABLE_SUSPEND_THREAD`, threads that vanish (`ESRCH`), lost restart signals, and the abort "Signals delivery fails constantly".
- MarkPhase.Collector.MarkSome: the serial marker; the branch that starts the parallel marker is modelled by ParallelMark, which is proved to meet the same contract, but is not called.
- MarkPhase.Collector.PushRoots: nothing is said of a collector that has aborted.
- MarkPhase.Collector.MarkFrom: how many ranges one call processes is nondeterministic; the words of a range are those its block allows for, and it may be cut between any two pointers; the addresses are in RangeScan.
- MarkPhase.Collector.PushMarked: the variants for one, two and four granules, which push the same objects, are not modelled.
- CollectionDriver.Run: reclaiming is done at once when a collection finishes, since its steps are in LazySweep, so nothing is freed while a mark phase is in progress; incremental collection is on from the start or never; clients with manual write barriers are not modelled.
- RangeScan.Scanner.MarkFrom: the mark stack is unbounded there; its overflow is in MarkPhase.
- ParallelMark.StepKeepsInv: memory is sequentially consistent, pointers do not change while the helpers work, and entries are scanned whole.
- ParallelTermination.ParallelMarkingReturns: endlessly many spurious wake-ups or races for mark bits are excluded, as nothing in the code bounds them.
- StopWorld.RestartCanEnd: that threads get to run, and that a restart signal arrives, is up to the operating system; it says that nothing else is needed.
- StopWorld.StopCanEnd: the same; the abort "Signals delivery fails constantly" is not modelled, so signals may be resent any number of times.
- StopWorld.StepKeepsInv: restart signals are modelled as wake-ups that may come at any time, as the code does not rely on them; clocks are nondeterministic.
- HeapBlocks.BlockHeap.FreeBlk: without unmapping of free blocks; a heap block is also the page of the operating system where unmapping is modelled, so there are no gaps between unmapped neighbours.
- IndexedHeap.AllocIndexed: the index is written after the blocks have changed; the order of these writes is not modelled.
- HeapPlacement.AllocBlk: waiting for and triggering collections when nothing is found belongs to its callers and is not modelled.
- HeaderIndex.Index.GetIndex: the index stores only that there is a header; headers themselves are in the block map that it is proved to stand for.
- LazySweep.Sweeper.AllocObj: ends where the code would start a collection or expand the heap; what follows is another call.
- LazySweep.Sweeper.ReclaimBlock: counts of marks are exact, as without parallel marking; the approximate counts of parallel marking are not modelled.
- LazySweep.Sweeper.MallocMany: sweeping and list building outside the allocator lock are atomic.
- LazySweep.Sweeper.BuildFl: the block is a sequence of slots, of which the first is linked first; the words and the order of writes are in BuildFreeList.
- LazySweep.Sweeper.LocalMalloc: the counters that an empty list holds to delay its first filling are empty lists; byte counters are not modelled.
- Finalize.Finalizer.Finalize: atomic with respect to the client, which holds as hidden pointers are revealed under the lock; the mark bits of the table's own entries and the byte counts are not modelled, and cells that hold links lie outside the object graph.
- HashTables.Table.Register: keys are addresses and values are abstract; the write barriers for the chains are not modelled.
- Roots.RemoveSubregion: no temporary root starts where the region ends, as temporary roots have been removed beforehand and mappings are gone through in ascending order.
- SizeClasses.SizeMap.Extend: granules of 16 bytes and heap blocks of 4096 bytes.
