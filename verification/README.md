# The slab allocator and the trace replay

This project models two parts of a benchmark suite for memory allocators, and proves what they
promise.

**The slab allocator (`slab_malloc/mm.c`).** A complete `malloc` and `free` over a heap of
4096-byte slabs, in three layers.

* *Slabs.* The heap is a row of regions with boundary tags. `SlabBins.dfy` holds the 128 circular
  bins (the last one sorted) and their lazily cleaned skiplist (`Skiplist.dfy`), `SlabHeap.dfy`
  allocates (best fit, splitting, growth) and frees (coalescing both ways, or forward only).
* *Packed slabs.* Blocks of at most 496 bytes, in a one-level bitmap or a two-level one
  (`PackedSlab.dfy`), with NULL-terminated bins of the slabs that have a free block
  (`FreeLists.dfy`).
* *Medium and large blocks.* Up to eight offsets in one 64-bit word and eight alloc bits
  (`HeaderWord.dfy`, `HeaderEdits.dfy`), decoded to a sequence of blocks of which the last may hang
  over the edge of the first slab (`MediumBlocks.dfy`, `LargeSlab.dfy`), with 224 bins and a
  skiplist (`MediumBins.dfy`).

`AllocatorState.dfy` and `AllocatorSteps.dfy` state the invariant of the three layers together and
prove it for every step on values; it covers what `mm_checkheap` looks at, and ties it to the set of
live pointers. `Allocator.dfy` is the allocator as a class. `AllocatorSafety.dfy` says what the
invariant means for a program: the contract of ISO/IEC 9899:2011, section 7.22.3.
`AllocatorWrites.dfy` says what malloc and free write (with `Writes.dfy`): metadata, and so no byte of
a block that stays live. `AllocatorRuns.dfy` puts this together for every run of malloc, free and
stores of the program; `AllocatorTails.dfy` is one run with an odd end.

**The trace replay (`src/`).** A trace of allocator calls is rewritten to single assignment form
(`Trace.dfy`, `TraceRewrite.dfy`), and repeated (`Programs.dfy`). Worker threads claim ranges of it,
park operations whose input is missing, and wake them when it arrives. A batch of operations has its
ids renamed to slots of a small array (`Batches.dfy`, `ConcurrentIdMap.dfy`, `BatchRuns.dfy`). The
protocol is a step system over any number of workers (`Replay.dfy`), with an invariant
(`ReplayInvariant.dfy`) that every step keeps (`ReplaySteps.dfy`); `ReplayTheorems.dfy` and
`ReplayTermination.dfy` draw the conclusions: nothing is looked up wrongly, no wakeup is lost, nobody
is stuck, nothing is executed twice, every run ends. `ReplayParking.dfy` says exactly when an operation
is parked.

`ReplayBatches.dfy` joins the two: in every run, the operations executed are those of the trace, and
each is passed the pointer that the operation which produced its input returned.

**Companions.** The conversion of a log to a trace (`LogParser.dfy`, `LogReader.dfy`), which is told by
the log alone (`LogTraces.dfy`), whose colouring with ids is optimal (`LogTheorems.dfy`), and which can
be replayed under an exact condition when several processes wrote the log (`LogProcesses.dfy`); and the
lock-free maximum (`RunningMax.dfy`).

## Where the code is not what one would expect

* *A dead tail.* Freeing a large block that hangs into further slabs should give those back. It does
  not when the block is the eighth of its slab and starts inside it, because the sentinel bit 0x200
  of `medium_bin_free` reads as an allocated ninth block. `AllocatorTails.DeadTailRun` is a run of
  malloc and free that ends so; `LargeSlabs.TailReleased` has the exact condition. The slab then
  keeps its tail until the block that is last in it is freed (`LargeSlabs.DeadTailReleased`), or at
  the latest until its last allocated block is, with which it goes back whole. Everything else stays
  as promised.
* *Requests of no bytes.* `DoMalloc` and `DoCalloc` do not write the slot of a result of no bytes,
  although the batch records it. `Batches.ZeroSizeGoesWrong` is an example; `Batches.FaithfulIff` says
  that renaming is right, whatever the allocator returns, exactly when no result of the batch is of
  no bytes.
* *Logs of several processes.* The lines of other processes change the id map but are not kept, so
  that the trace may be refused; `LogProcesses.TwoProcesses` is an example.
  `LogProcesses.LogAccepted` has the exact condition, which can be read off the log.
* *Size groups.* The comment on `adj_tiny_size` says that sizes which fit equally often in a slab are
  grouped. `PackedSlabs.GroupedByCapacity` has the exact exceptions: 256 is rounded up to 272 although
  that costs a block, and 272 and 288 stay apart although both fit 14 times.
* *Skiplist bits.* A set bit does not mean that its bin has an entry, only the converse holds; the
  invariants say no more.

## Model

| member | source | states |
|---|---|---|
| Skiplists.Skiplist.Find | slab_malloc/mm.c:1625-1723 | the first non-empty bin from a given one on, or none exactly when all are empty; no bin passed on the way stays marked, neither in the words that are written back nor in the one held in a register, and none that has an entry loses its mark |
| Skiplists.Skiplist.Mark | slab_malloc/mm.c:747-755 | marking a bin keeps every occupied bin marked, and adds this one |
| SlabBinLists.SlabBins.constructor | slab_malloc/mm.c:1547-1569 | every bin is a ring of its own, and no region is in a bin |
| SlabBinLists.SlabBins.LinkTail | slab_malloc/mm.c:714-724 | the region joins its bin behind the others; the invariant keeps every ring linked both ways, each free region in exactly the bin of its size, the last bin sorted, the skiplist sound |
| SlabBinLists.SlabBins.SortedSpot | slab_malloc/mm.c:726-741 | the scan back from the tail ends between the regions that are no larger and those that are |
| SlabBinLists.SlabBins.LinkSorted | slab_malloc/mm.c:726-741 | the region joins the last bin just behind those that are no larger |
| SlabBinLists.SlabBins.Link | slab_malloc/mm.c:761-776 | the region joins the bin of its size, at the place that is due to it there |
| SlabBinLists.SlabBins.Unlink | slab_malloc/mm.c:781-786 | exactly this region leaves the bins, and the others keep their order |
| SlabBinLists.SlabBins.BestFit | slab_malloc/mm.c:1623-1796 | a smallest free region of at least n slabs, the first such of its bin, or none exactly when every free region is smaller; the scan ends |
| SlabHeaps.SlabHeap.constructor | slab_malloc/mm.c:1547-1569 | the heap of no slabs satisfies the invariant |
| SlabHeaps.SlabHeap.TakeWhole | slab_malloc/mm.c:1670-1695 | an exact fit becomes an allocated region; PREV_ALLOC of the next region, or LAST_SLAB_ALLOC, follows |
| SlabHeaps.SlabHeap.TakePart | slab_malloc/mm.c:1696-1717 | a larger region is split; the rest is free, tagged, and in the bin of its size |
| SlabHeaps.SlabHeap.GrowLast | slab_malloc/mm.c:1799-1815 | if the last region is free it is smaller than n, and the heap grows by just what it lacks |
| SlabHeaps.SlabHeap.GrowNew | slab_malloc/mm.c:1816-1826 | if the last region is allocated, the heap grows by n slabs |
| SlabHeaps.SlabHeap.AllocSlab | slab_malloc/mm.c:1617-1827 | best fit: a smallest free region of n slabs or more if there is one, and then the heap does not grow; else, if a free region ends where the heap does, that one, and the heap grows by just what it lacks; else the n slabs that the heap grows by; no other allocated region changes; regions tile the heap, no two free ones are adjacent, all tags are right |
| SlabHeaps.SlabHeap.DetachNext | slab_malloc/mm.c:2026-2044 | the region after a freed one leaves its bin if it is free, and is told by PREV_ALLOC if not |
| SlabHeaps.SlabHeap.FreeSlab | slab_malloc/mm.c:2054-2096 | exactly this region stops being allocated; it merges with its free neighbours, found by footer and PREV_ALLOC; the heap keeps its size and the invariant |
| SlabHeaps.SlabHeap.FreeTail | slab_malloc/mm.c:2022-2052 | an allocated region keeps its first slabs only; the rest merges with a free region after it, whatever its flags byte held |
| SlabHeaps.RegionsDetermined | slab_malloc/mm.c:2054-2096 | the allocated regions determine the free ones: freeing undoes allocating, up to growth |
| HeaderWords.PushWordByte | slab_malloc/mm.c:1247-1265 | byte by byte, what inserting an offset does to the word |
| HeaderWords.RemoveWordByte | slab_malloc/mm.c:1308-1317 | byte by byte, what removing an offset does |
| HeaderWords.FreeWordByte | slab_malloc/mm.c:1334-1453 | byte by byte, what the masks and shifts of a free do, in all cases of free neighbours and absorption |
| HeaderWords.FreeBitsBit | slab_malloc/mm.c:1336-1454 | bit by bit, the same for the alloc bits |
| HeaderEdits.SplitThenRemove | slab_malloc/mm.c:1289-1325 | splitting and then removing restores offsets and alloc bits if and only if byte 7 and bit 7 were clear |
| HeaderEdits.RemoveThenSplit | slab_malloc/mm.c:1289-1325 | removing and then splitting restores both if and only if the removed block was free |
| HeaderEdits.SplitInserts | slab_malloc/mm.c:1289-1301 | on the decoded blocks, splitting inserts a free block |
| HeaderEdits.RemoveDeletes | slab_malloc/mm.c:1308-1325 | on the decoded blocks, removing deletes one |
| MediumBlocks.BlockCount | slab_malloc/mm.c:1191-1217 | at most eight blocks start in the first slab, and an eighth can only be a hanging one |
| MediumBlocks.SplitCount | slab_malloc/mm.c:2195-2217 | a block that is split is not the eighth, nor are there eight already: no live offset or alloc bit is shifted out |
| MediumBlocks.AbsorbedCase | slab_malloc/mm.c:1431-1451 | a free block becomes too small only behind an allocated one, where a hanging block was: the asserted idx > 0 holds, and the branch that unlinks the block before is dead |
| MediumBlocks.FreedShape | slab_malloc/mm.c:1330-1471 | freeing keeps the shape: blocks in order, big enough, no two free ones adjacent |
| MediumBlocks.FreedLive | slab_malloc/mm.c:1330-1471 | freeing leaves every other allocated block in place and at least as long, and adds none |
| MediumBlocks.FreedFrees | slab_malloc/mm.c:1399-1465 | the free blocks after: those that did not merge, and the merged one unless it was absorbed |
| MediumBlocks.AllFree | slab_malloc/mm.c:1456-1459 | a slab without allocated blocks is one free block: all of its blocks have left the bins when it is given back |
| MediumBlocks.SplitLive | slab_malloc/mm.c:2195-2217 | splitting a free block adds one allocated block to those there were |
| MediumBlocks.SplitFrees | slab_malloc/mm.c:2195-2217 | ... and leaves the rest of it free |
| MediumBlocks.LastFreed | slab_malloc/mm.c:1456-1459 | a free leaves no allocated block exactly when there was no other, and then the slab goes back whole |
| MediumBlocks.DeadTail | slab_malloc/mm.c:1345-1384 | eight allocated blocks, as taking blocks of 512 bytes before a hanging one leaves them, of which the eighth is freed without its tail |
| LargeSlabs.LargeFreedIs | slab_malloc/mm.c:1369-1371 | the test on shifted offsets and alloc bits holds for the last block unless it is the eighth with an offset |
| LargeSlabs.TailReleased | slab_malloc/mm.c:1345-1378 | the tail of a hanging block goes if and only if the block is not the eighth or its offset byte is 0 |
| LargeSlabs.DeadTailReleased | slab_malloc/mm.c:1364-1384 | a tail that stayed behind goes if and only if the block that is freed is the last of its slab |
| LargeSlabs.NextIsFreeIs | slab_malloc/mm.c:1356-1385 | the tests on bits and bytes find out whether there is a next block that is free |
| LargeSlabs.PrevFreeIs | slab_malloc/mm.c:1343-1349 | ... and whether there is a free block before |
| LargeSlabs.FreedRep | slab_malloc/mm.c:1330-1471 | refinement: the new word and alloc bits stand for the blocks with this one freed, coalesced or absorbed |
| LargeSlabs.SplitRep | slab_malloc/mm.c:2206-2216 | refinement: pushing an offset and the alloc bits stands for splitting |
| LargeSlabs.TakenRep | slab_malloc/mm.c:2218-2222 | refinement: setting one alloc bit stands for taking the whole block |
| LargeSlabs.NewRep | slab_malloc/mm.c:1938-2009 | the header written for a new slab stands for its one or two blocks |
| LargeSlabs.FindBlockPos | slab_malloc/mm.c:1223-1238 | finds the index of the block; the assertion that some offset matches holds |
| LargeSlabs.BitsZeroIs | slab_malloc/mm.c:1456-1456 | the alloc bits are 0 exactly when no block is allocated |
| FreeLists.Bins.Link | slab_malloc/mm.c:1068-1080 | the element joins its list at the head, and no other list changes |
| FreeLists.Bins.Unlink | slab_malloc/mm.c:1094-1101 | exactly this element leaves its list, and the others keep their order |
| MediumBinLists.MediumBins.Link | slab_malloc/mm.c:1482-1498 | the block joins the bin of its size, whose skiplist bit is set |
| MediumBinLists.MediumBins.Unlink | slab_malloc/mm.c:1500-1507 | exactly this block leaves the bins |
| MediumBinLists.RemainderBin | slab_malloc/mm.c:2199-2204 | a remainder goes to an earlier skiplist word than the one held in a register |
| MediumBinLists.TakenCovers | slab_malloc/mm.c:2225-2226 | so the word that is written back covers its bins as well after the block has been taken |
| MediumBinLists.MediumBins.TakeBlock | slab_malloc/mm.c:2136-2236 | a smallest free block that is large enough, the head of its bin, or none exactly when there is none; its remainder is in a bin |
| PackedSlabs.AdjTinyIsClass | slab_malloc/mm.c:802-806 | the adjusted size is a size class and no smaller |
| PackedSlabs.AdjKeepsCapacity | slab_malloc/mm.c:798-806 | adjusting a size costs no block of the slab, if and only if the size is not 256 |
| PackedSlabs.GroupedByCapacity | slab_malloc/mm.c:798-806 | two sizes are grouped together exactly when equally many blocks fit in a slab, but for 256 and 272, which are, and 272 and 288, which are not |
| PackedSlabs.BinsOfClasses | slab_malloc/mm.c:827-831 | a bin has slabs of one block size only |
| PackedSlabs.LeastIs | slab_malloc/mm.c:881-885 | counting trailing zeros twice gives the least free block |
| PackedSlabs.FullIs | slab_malloc/mm.c:848-865 | the top word is zero exactly when no block is free |
| PackedSlabs.AllocFree | slab_malloc/mm.c:880-924 | allocation takes exactly the least free block, in the two-level bitmap and in the flat one |
| PackedSlabs.AllocOk | slab_malloc/mm.c:880-924 | ... and keeps each first-level bit in step with its word, and the count with the bits |
| PackedSlabs.FreeFree | slab_malloc/mm.c:930-982 | freeing gives back exactly this block |
| PackedSlabs.FreeOk | slab_malloc/mm.c:930-982 | ... keeps bitmap and count right, and the count is 0 exactly when every block is free |
| PackedSlabs.NewPackedOk | slab_malloc/mm.c:1834-1922 | a new slab has every block free but the first |
| AllocatorSteps.TinyGone | slab_malloc/mm.c:930-982 | a packed slab is given back with its last allocated block, and no bin keeps it |
| AllocatorSteps.LargeGone | slab_malloc/mm.c:1456-1459 | a large slab without allocated blocks is given back, and no bin keeps a block of it |
| AllocatorSteps.LargeFreedOk | slab_malloc/mm.c:1330-1471 | the whole invariant survives freeing one block of several |
| AllocatorSteps.MediumTaken | slab_malloc/mm.c:2185-2228 | ... and taking a block from a bin, whose address was not live |
| AllocatorSteps.HangingNew | slab_malloc/mm.c:1972-2009 | ... and a new slab with a hanging block |
| Allocators.Heap.constructor | slab_malloc/mm.c:1547-1569 | the empty heap satisfies the invariant |
| Allocators.Heap.FindTiny | slab_malloc/mm.c:2100-2133 | if and only if some packed slab of the block size has a free block, the least free block of the slab at the head of its bin, and nothing else becomes allocated; the address was not live |
| Allocators.Heap.NewTiny | slab_malloc/mm.c:2261-2275 | the first block of a new packed slab, whose others are free, where the slab heap puts it |
| Allocators.Heap.FindMedium | slab_malloc/mm.c:2136-2236 | if and only if some free medium block is large enough, a best fit, the head of its bin, up to what remains of it |
| Allocators.Heap.InitMedium | slab_malloc/mm.c:1948-1971 | a medium block at the start of a new slab; the rest of the slab is a free block if it is large enough for one, and else belongs to the block |
| Allocators.Heap.InitLarge | slab_malloc/mm.c:1972-2005 | a large block at the end of its slabs; what is before it in the first slab is a free block if it is large enough for one |
| Allocators.Heap.IntMalloc | slab_malloc/mm.c:2239-2281 | one more live block, at an address that was not live; which one, for each kind of size, in terms of the free blocks of packed slabs, the free medium blocks, the free regions and the end of the heap |
| Allocators.Heap.Malloc | slab_malloc/mm.c:2283-2312 | NULL exactly for size 0; else exactly one more live block, of the size asked for: a tiny one is the least free block of a packed slab of its block size if one is not full, and then no slab is taken, else the first of a new slab; a medium one is a best fit of the free medium blocks if one is large enough, else the first of a new slab; a large one lies at the end of new slabs; new slabs are a best fit of the free regions, or the last region and what it lacks, or new ones; it writes nothing inside regions allocated before but their headers, and list nodes only in free blocks and packed headers |
| Allocators.Heap.FreeTiny | slab_malloc/mm.c:2315-2336 | exactly this block stops being live and becomes free in its slab, which goes back if it was the last |
| Allocators.Heap.Coalesce | slab_malloc/mm.c:1395-1427 | the free neighbours leave their bins; where the merged block starts and ends |
| Allocators.Heap.ReleaseTail | slab_malloc/mm.c:1371-1379 | the slabs after the first are given back |
| Allocators.Heap.MediumBinFree | slab_malloc/mm.c:1330-1471 | exactly this block stops being live, in all cases, and the blocks of its slab change as a free changes them; the invariant of all layers holds again |
| Allocators.Heap.IntFree | slab_malloc/mm.c:2345-2357 | the PACKED bit leads to the right kind of free |
| Allocators.Heap.Free | slab_malloc/mm.c:2360-2384 | exactly the freed pointer stops being live, and the heap keeps its size; its slab changes as freeing a packed or a medium block changes it, or goes back with its last block; it writes nothing inside regions that stay allocated but their headers, and list nodes only in free blocks and packed headers |
| Allocators.TinyIndex | slab_malloc/mm.c:1042-1053 | a live pointer into a packed slab is that of an allocated block, whose index is computed right |
| Allocators.LargeIndex | slab_malloc/mm.c:2339-2342 | a live pointer into a large slab is that of an allocated block |
| Allocators.SlabOfLive | slab_malloc/mm.c:2345-2351 | the asserted alloc bit is set, and the PACKED bit tells the kind of slab |
| AllocatorSafety.LiveApart | slab_malloc/mm.c:2239-2281 | live blocks are 16-byte aligned, inside the heap, and disjoint |
| AllocatorSafety.NoMetadata | slab_malloc/mm.c:2754-3026 | no byte of a live block is in a header, a free region or a free block |
| AllocatorSafety.Store | slab_malloc/mm.c:2283-2312 | a store into a live block, whatever it writes over flags or footers that might have been there, leaves the invariant |
| AllocatorWrites.WritesAreMetadata | slab_malloc/mm.c:2239-2384 | every byte that malloc or free writes (tags, list nodes, headers) is metadata before or metadata after |
| AllocatorWrites.LiveUnwritten | slab_malloc/mm.c:2239-2384 | so no byte of a block that is live before and after is written |
| AllocatorRuns.Run | slab_malloc/mm.c:2283-2384 | every run of malloc, free and stores: results are not live before; live blocks are those the calls imply, aligned, inside the heap, disjoint, and free of metadata; what the program stored last in a live block, where tags would be, is still there |
| AllocatorTails.DeadTailRun | slab_malloc/mm.c:1345-1384 | malloc of 4592 bytes, seven of 512, and free of the first leave a slab that keeps its tail |
| TraceRewrites.Tracefile.RewriteIdsToUnique | src/tracefile_executor.h:310-401 | succeeds exactly on well-formed traces (every input defined before, every result consumed before it is defined again, no line without operation); then only ids change, to the count of definitions before; else the error is the one that the first line at fault, or the end, deserves |
| TraceRewrites.RewrittenFeeds | src/tracefile_executor.h:310-401 | the rewritten trace has exactly the definition-use pairs of the original |
| TraceRewrites.RewrittenIsSingleAssignment | src/tracefile_executor.h:310-401 | each id is defined once and consumed once, later |
| TraceRewrites.RewrittenIds | src/tracefile_executor.h:310-401 | the ids are 0 up to one less than the number of results, at most the number of lines |
| Programs.UniqueIdInjective | src/concurrent_id_map.cc:17-20 | ids of different lines or iterations differ |
| Programs.ReplayedIsSsa | src/local_id_map.cc:245-247 | a rewritten trace, repeated any number of times, is a single assignment program |
| Batches.TemporalIds.NextUnusedId | src/local_id_map.cc:23-25 | a number that was never handed out before, and is in use now |
| Batches.TemporalIds.NextId | src/local_id_map.cc:27-36 | the lowest number that is not in use, which is in use now |
| Batches.TemporalIds.FreeId | src/local_id_map.cc:38-40 | exactly this number is not in use any more; only numbers handed out before become available |
| Batches.OpPrepares | src/local_id_map.cc:56-104 | an operation can be prepared exactly when its input is in the batch or in the global map and its result is not in use |
| Batches.OpAssigned | src/local_id_map.cc:61-101 | each operation takes at most one new slot, since a realloc of an imported pointer reuses its slot; slots in use stay distinct |
| Batches.PreparedOk | src/local_id_map.cc:50-107 | after i operations at most i slots are in use: every slot is below the batch size |
| Batches.PreparedShapes | src/local_id_map.cc:50-107 | only ids are renamed: each prepared line is of the kind and the sizes of its operation, with an input and a result where that has them |
| Batches.RenamingPreservesMeaning | src/local_id_map.cc:50-107 | executing on slots passes every realloc and free the pointer that executing by id would, and leaves the pointers of exactly the ids that the batch produced and did not consume |
| Batches.FaithfulIff | src/tracefile_executor.h:147-211 | it does so for every allocator if and only if no result of the batch is of no bytes |
| Batches.ZeroSizeGoesWrong | src/tracefile_executor.h:156-158 | a batch that does not |
| ConcurrentIdMaps.ConcurrentIdMap.AddAllocation | src/concurrent_id_map.cc:22-47 | the pointer is stored, and an operation parked there moves to the queue |
| ConcurrentIdMaps.ConcurrentIdMap.MaybeSuspendAllocation | src/concurrent_id_map.cc:66-70 | the operation is parked exactly when there is no entry |
| ConcurrentIdMaps.ConcurrentIdMap.TakeFromQueue | src/concurrent_id_map.cc:72-83 | the oldest operations, in order, as many as there are and fit |
| BatchRuns.BatchContext.Execute | src/tracefile_executor.h:293-300 | the calls are those of the lines in order, with their sizes; the pointers passed, and the slots after, are those of executing line by line on the array |
| BatchRuns.BatchContext.AllocationsToRecord | src/local_id_map.h:54-62 | the ids that remain, with the pointers in their slots |
| BatchRuns.MakeFromOps | src/local_id_map.cc:49-107 | succeeds exactly when every operation can be prepared, and computes the renamed lines, the imports and the remaining ids; the lines are of the kinds and sizes of the operations |
| BatchRuns.RunBatch | src/tracefile_executor.h:274-304 | prepare, execute, record: it succeeds exactly when the batch can be prepared; then the calls are those of the operations, with their sizes, each with the pointer of its id, and recording leaves the map that executing by id leaves |
| ReplayInvariants.InitOk | src/tracefile_executor.h:223-226 | the initial state satisfies the invariant |
| ReplaySteps.TakeOk | src/local_id_map.cc:120-121 | taking from the queue keeps it |
| ReplaySteps.ClaimOk | src/local_id_map.cc:228-243 | claiming keeps it: the claimed range was claimed by nobody |
| ReplaySteps.ClampOk | src/local_id_map.cc:232-236 | so does storing the end in the counter, even after others have added to it |
| ReplaySteps.CheckOk | src/local_id_map.cc:245-287 | so does accepting or parking the next operation; `ReplayParking.ParkedExactly` says which of the two it is |
| ReplaySteps.MakeOk | src/local_id_map.cc:56-101 | so does preparing the next operation, its lookup included |
| ReplaySteps.EraseOk | src/local_id_map.cc:77-82 | so does erasing an entry that was looked up, which is still there |
| ReplaySteps.FlushOk | src/concurrent_id_map.cc:22-31 | so does inserting a pointer, or finding a parked operation instead |
| ReplaySteps.AssignOk | src/concurrent_id_map.cc:32-37 | so does replacing a parked operation by the pointer |
| ReplaySteps.PushOk | src/concurrent_id_map.cc:39-43 | so does pushing it to the queue |
| ReplaySteps.FlushEndOk | src/local_id_map.cc:129-135 | so does the end of recording |
| ReplayTheorems.StepOk | src/tracefile_executor.h:267-308 | every step of every worker keeps the invariant |
| ReplayTheorems.NothingGoesWrong | src/local_id_map.cc:72-98 | no lookup fails or reads a parked operation as a pointer, no result is a duplicate, no pointer is read as a parked operation, no erasure or assignment fails |
| ReplayTheorems.LookupFinds | src/concurrent_id_map.cc:58-64 | what is looked up is the pointer that the producer of the id returned, and the producer is done |
| ReplayTheorems.LocalComesFrom | src/local_id_map.cc:64-68 | what is not looked up was produced earlier in the same batch |
| ReplayTheorems.OnePlace | src/local_id_map.cc:221-287 | each operation is in one place: unclaimed exactly at and above the counter, in one claimed range, parked, being woken, queued, in one batch, or done |
| ReplayTheorems.AllDone | src/tracefile_executor.h:275-306 | when all workers have left, every operation is done, and map and queue are empty |
| ReplayTheorems.NoDeadlock | src/tracefile_executor.h:287-303 | while a worker is left, some step is possible |
| ReplayTheorems.PrepareSucceeds | src/local_id_map.cc:56-104 | in the replay, preparing one operation of a batch succeeds, and the ids in use change as in the step system |
| ReplayTheorems.TraceReplays | src/tracefile_executor.h:213-265 | for every trace that the rewrite accepts, any number of repetitions and workers and any interleaving: nothing goes wrong, and at the end everything is done |
| ReplayBatches.BatchPasses | src/local_id_map.cc:50-107 | a batch whose inputs are in the map or produced earlier can be prepared; its operations keep their kinds and sizes, and each is passed the pointer that the producer of its input returned |
| ReplayBatches.BatchGetsItsPointers | src/tracefile_executor.h:274-304 | every batch that a worker of a replay is about to prepare is such a batch, with the map as it is then; no input of it has a parked operation |
| ReplayBatches.EveryOperationGetsItsPointer | src/tracefile_executor.h:213-308 | in every run of a rewritten trace, any interleaving and any allocator, the operations executed are those of the original trace, with their sizes, and every realloc and free is passed the pointer that the operation which produced its input returned |
| ReplayTermination.StepProgress | src/tracefile_executor.h:274-304 | every step moves an operation on, or its worker towards the end of the round |
| ReplayTermination.ExecutedOnce | src/tracefile_executor.h:293-302 | no operation is executed twice |
| ReplayTermination.RunsEnd | src/tracefile_executor.h:267-308 | a bound on the length of every run, whatever the interleaving |
| ReplayTermination.LongestRunsFinish | src/tracefile_executor.h:267-308 | a run that cannot go on has executed everything |
| ReplayParking.ParkedExactly | src/local_id_map.cc:245-287 | in every run, a claimed operation is parked if and only if it has an input, no pointer is recorded for that in the id map, and nothing that the worker has accepted from the trace into this batch produces it; else it is the next of the batch, and the map is left alone |
| ReplayParking.ParkedBeforeProducer | src/local_id_map.cc:260-287 | which is to say, if and only if its producer is neither done nor accepted from the trace into the same batch |
| ReplayParking.BatchesAreFull | src/local_id_map.cc:225-260 | in every run, a worker goes on with fewer operations than a batch holds only when all are claimed |
| ReplayParking.RoomClaimed | src/local_id_map.cc:227-243 | a worker claims the next unclaimed operations, as many as its batch has room for or as there are |
| ReplayParking.OldestTaken | src/concurrent_id_map.cc:72-83 | a worker takes the oldest woken operations, as many as there are or as may be taken |
| LogReaders.Reader.FindAndEraseId | src/tracefile_parser.cc:118-131 | the id of a pointer in use becomes available |
| LogReaders.Reader.GetNextId | src/tracefile_parser.cc:100-117 | the lowest available id, or a new one; an error for a pointer in use |
| LogReaders.Reader.ReadEntry | src/tracefile_parser.cc:140-248 | refused exactly if the line releases a pointer that is not in use or obtains one that is; else the pointers in use change, with the lowest free id for a new one, and the line that is added, if the process is followed, has the operation and the sizes of the log, with the ids of these pointers |
| LogReaders.Reader.Open | src/tracefile_parser.cc:133-261 | an error exactly if some line before the limit is reached releases or obtains a pointer wrongly; else one line for each operation of the first process up to the limit, in order, with its sizes and the ids of its pointers, then a free of each pointer in use, and the largest number of pointers in use after a kept line |
| LogTraces.EntryRefines | src/tracefile_parser.cc:100-248 | refinement: the available ids and the next new one give each pointer the lowest id that no pointer in use has, and each entry its line |
| LogTraces.TraceUses | src/tracefile_parser.cc:133-248 | a line of the trace consumes what another defines if and only if its log line releases the pointer that the other's obtained, and no line in between releases or obtains that; for logs of several processes where no other process releases it meanwhile |
| LogTraces.LogUsesTrace | src/tracefile_parser.cc:133-248 | ... and in one direction for any log |
| LogTraces.OneProcess | src/tracefile_parser.cc:239-244 | in the log of one process no other does |
| LogTheorems.LogBecomesTrace | src/tracefile_parser.cc:133-261 | for the log of one process, the trace is accepted by the rewrite, and its ids are the numbers below the reported maximum, which is the largest number of allocations in use |
| LogTheorems.NoFewerIds | src/tracefile_parser.cc:247-248 | no well-formed trace of the same operations has fewer ids than that number |
| LogTheorems.ColouringIsOptimal | src/tracefile_parser.cc:100-131 | so taking the lowest available id is optimal |
| LogProcesses.LogAccepted | src/tracefile_parser.cc:133-261 | for a log of any processes, the trace is accepted by the rewrite if and only if each kept line releases an id that the kept lines so far have in use and takes one that they have not, and in the end these are the ids in use |
| LogProcesses.OwnPointersSuffice | src/tracefile_parser.cc:239-258 | it is accepted if every process releases only pointers it obtained, and the others have released all of theirs in the end |
| LogProcesses.HandOver | src/tracefile_parser.cc:239-244 | which is not necessary: a log where one process releases the pointer of another, and whose trace is accepted |
| LogProcesses.TwoProcesses | src/tracefile_parser.cc:239-244 | a log of two processes whose trace is refused |
| RunningMaxima.QuiescentIsMaximum | src/utiltest.cc:151-161 | under any interleaving, once all calls have returned the stored value is the largest ever offered |
| RunningMaxima.ExchangesEnd | src/utiltest.cc:153-161 | the calls under way take a bounded number of exchanges, however they are scheduled |

## Left out

* `realloc` and `calloc` of the allocator (slab_malloc/mm.c:2387-2740); the helpers of realloc on the
  header word are in `HeaderEdits`.
* Sizes near 2^64 and the failure of `mem_sbrk`: sizes are unbounded, and the heap always grows where
  it ends.
* Inline assembly and vector instructions are modelled by their results.
* Memory is not one array of bytes: header fields, links, tags and bitmaps are fields and maps by
  slab or block, and `AllocatorWrites.Wrote` says in which bytes they lie. Of what programs store in
  blocks, `AllocatorRuns.Run` keeps what lies where flags or footers would be; the other bytes are
  written by nobody else. The flags byte of the header word of a large slab is kept with the slab and
  only known not to be zero in the word; 16-bit bitmaps and 32-bit skiplist words are the low bits of
  64-bit words.
* Slabs of a packed or large header are values in a map of the allocator class, not objects.
* Alignment and size hints of operations, which no step here depends on.
* Allocators as such in the replay: what an allocator returns is a parameter of a batch, and an
  operation that stands for its pointer in the step system.
* The error paths of workers and the flag `done`: `ReplayTheorems.NothingGoesWrong` is why the model
  needs none.
* Overflow of the shared counter, and weaker memory orders: each operation on the counter, the map
  and the queue is one step, and the barriers order the phases.
* The two barriers before execution are one step, and execution is local to a worker and not a step
  of its own: `ReplayBatches` adds what is executed, with the id map as it is when a worker begins to
  prepare its batch.
* Requests of no bytes in `ReplayBatches.EveryOperationGetsItsPointer`, for which it fails (see above).
* LogReaders.Reader.Open: starts from lines that are already split into their fields; regular
  expressions, files and protocol buffers are not modelled.
* Heap size in `RecomputeMax`: the second loop is the first with another value.
* Mapped heaps, the heap factory, drivers, timing and debug output.
