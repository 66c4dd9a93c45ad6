# Fioxa: memory, scheduling, message passing and file reads

A Dafny model of the parts of the Fioxa kernel whose correctness is hardest to see, with proofs.
`dafny verify dfyconfig.toml` checks all of it.

## What is modelled

**Frames.** `FrameLists`, `MemoryMap`, `FrameAllocator` and `AllocatorRuns` model the page frame allocator. The class
`PageFrameAllocator` has the list heads and the nodes stored in the free pages; ghost sequences give the lists they
spell out. Frames are numbered by address / 0x1000.

**Page tables.** `Addresses`, `PageTables`, `TableOps` and `TableRuns` model the four-level tables with leaves of three
sizes. `TableStore` holds tables by frame; `Map` and `Unmap` are the recursive methods that create and free inner
tables through the allocator. `Walk` is the hardware walk of 4-level paging (Intel SDM, volume 3A, chapter on paging).
The flat map it defines is what every statement about tables is about.

**Page sizes.** `Chunks` cuts a physical range into aligned pages; `OffsetMap` maps all memory at an offset, and
`OffsetReach` says how far that can work.

**Address spaces.** `RangeList`, `SpaceModel` and `PageMapper` model the list of ranges of an address space and the page
table that caches it. `SharedSpaces` puts any number of address spaces on one machine and follows every run of calls,
with mappings made, shared and dropped.

**Heap.** `HeapPages`, `SlabBlocks` and `Slab` model the kernel heap down to the list nodes and page tables.

**Scheduling.** `RunQueue` is the queue linked through the threads. `Scheduler` is the protocol of cores, wakers and
creators as a state machine in which each section under a lock is one step; the lock of a thread, which is held across
the context switch, is part of the state. `SchedulerOrder` compares its states with the history of a run.

**Waiting.** `Signals` and `KernelOps` model ports, object signals and sleeping threads, as functions and as methods that
change state in place. `SignalRuns` and `ServiceRuns` follow every interleaving, the first counting registrations with
`Registrations`, the second with the service loop of user programs on top. `WaitOrder` says in
which order threads and registrations wait and are served; `WakeUps` joins the sleeping threads of `SignalRuns` with
those of `Scheduler`. `Channel` is the two endpoints of a channel.

**Files.** `FatChain` and `FatFiles` model reading a file from a FAT volume. `FatLayout` describes the volume by the
regions of the disk and the bytes of the FAT.

## Assumptions

- Sizes of mappings are positive multiples of a page, and ranges are canonical and do not start at zero.
- Page tables are changed only through the page mapper.
- The firmware map is sorted and disjoint, page 0 is not usable, and 32 frames can be counted for the reserve.
- The heap does not grow past the 512 GiB that its table serves.
- `dealloc` is called with a block in use and the layout it was made for.
- A thread enters the scheduler holding its own `sched` lock.
- Only the service waits on its port, registers with it and pushes to it, and only the service reads its accepting channel.
- Disk reads succeed, the cluster chain of a file is long enough, sector numbers do not overflow 32 bits,
  and the size of the root directory does not overflow the 16 bits it is computed in.

A panic for want of frames is a result of its own (`None`, `OutOfFrames`, `Exhausted`, `NoFrame`); its contract bounds
the frames left.

## What turned out false

Each of these has a lemma or method at a real input, and the exact condition.

- `PageFrameAllocator::new` does not always reserve 32 frames: 0x8000 is counted and then skipped, so that it reserves 31
  unless no region holds 0x8000 other than as its last frame (`MemoryMap.ReserveFallsShort`, `MemoryMap.ReservedSize`).
- It also loses the last frame of the region holding 0x8000 when the whole region is needed for the reserve
  (`MemoryMap.FrameIsLost`; the frames lost are `MemoryMap.Lost`).
- `insert_mapping_at` also refuses a range that overlaps nothing, exactly when a listed range begins where it ends
  (`RangeList.RefusesTouching`, `RangeList.RefusedExactly`).
- The assertion of `create_offset_map` multiplies by decimal 1000 and admits memory that no table can show at its offset
  (`OffsetReach.LetThroughPastLimit`, `OffsetReach.ReachIsExact`).
- A heap block for an alignment above a page need not be aligned (`Slab.AlignmentFails`). It lies at the end of the heap,
  so that it is aligned exactly when that end is (`Slab.SlabAllocator.Alloc`).
- A thread that yields with interrupts held is marked as a zombie, and the scheduler loop then panics on it
  (`Scheduler.HeldInterruptsPanic`, `Scheduler.NoPanicNoDoubleRun`).
- `close` leaves READABLE up on the endpoint it empties, exactly when something was queued
  (`Channel.ReadableThoughEmpty`, `Channel.KChannelHandle.CloseHere`).
- `read_file_sector` returns 0 bytes for the last sector of a file whose length is a multiple of 512, and a whole sector
  for every position past the end but the first (`FatFiles.CountOfFullSector`, `FatFiles.CountRightExactly`).

## Model

| member | source | states |
|---|---|---|
| `FrameLists.PushAdds` | kernel/src/paging/page_allocator.rs:156-172 | listing a block adds exactly its frames, keeps blocks apart and adds its size to the count |
| `FrameLists.InsertRangeAdds` | kernel/src/paging/page_allocator.rs:141-154 | a range cut into blocks by the highest bits of address and length adds exactly its frames, as disjoint blocks, for every start and count |
| `FrameLists.RangeOrderIsLargest` | kernel/src/paging/page_allocator.rs:143-147 | each block cut off a range is the largest that is no longer than what is left, than the address it begins at, and than 1 GiB |
| `FrameLists.RangeInDigits` | kernel/src/paging/page_allocator.rs:141-154 | a range no longer than its address is listed as one block for each binary digit of its length, largest first |
| `FrameLists.UpperHalfStaysWhole` | kernel/src/paging/page_allocator.rs:190-199 | the upper half of a split block always goes back as one block, although the cutting looks at address bits and not at alignment |
| `FrameLists.FitOrderIsSmallest` | kernel/src/paging/page_allocator.rs:175-203 | the order a request is served from is the smallest one, from the order asked for up, whose list is not empty; there is none exactly when all those lists are empty |
| `FrameLists.SplitRemoves` | kernel/src/paging/page_allocator.rs:180-200 | splitting down from order j to order k leaves exactly one more block on each order k to j-1 and every other list below k or above j as it was, keeps the blocks apart and removes exactly 2^k frames |
| `FrameLists.RequestSplits` | kernel/src/paging/page_allocator.rs:190-199 | asking one order up and returning the upper half is the same as one split from the smallest fitting order |
| `FrameLists.RequestTakes` | kernel/src/paging/page_allocator.rs:175-203 | a request that succeeds takes exactly 2^k frames, all of which were free |
| `FrameLists.RequestServes` | kernel/src/paging/page_allocator.rs:175-203 | refused exactly when all lists from the order up are empty; otherwise every list after the request is given, block by block |
| `FrameLists.NoneWhenEmpty` | kernel/src/paging/page_allocator.rs:224-230 | a single page is refused exactly when no frame is free |
| `FrameLists.AllocateTakes` | kernel/src/paging/page_allocator.rs:241-270 | an allocation of any count takes exactly that many free frames; the tail of the block goes back |
| `FrameLists.AskedOrderIsSmallest` | kernel/src/paging/page_allocator.rs:243-250 | the order asked for is the smallest whose blocks hold the count |
| `FrameLists.AllocateServes` | kernel/src/paging/page_allocator.rs:241-262 | which counts are refused, which block serves the others, and every list afterwards |
| `FrameLists.CountIsFreeFrames` | kernel/src/paging/page_allocator.rs:113-132 | the sum of the block sizes on the lists is the number of free frames |
| `FrameLists.ChainsAcyclic` | kernel/src/paging/page_allocator.rs:156-189 | the lists threaded through the free pages end after their last block and no two steps, in one list or in two, reach the same page |
| `MemoryMap.ReservePartition` | kernel/src/paging/page_allocator.rs:88-132 | after both loops of `new` every usable frame is free, reserved, lost or 0x8000, and only one of these |
| `MemoryMap.ReservedSize` | kernel/src/paging/page_allocator.rs:88-124 | 32 frames are reserved exactly when no region holds 0x8000 other than as its last frame; otherwise 31 |
| `MemoryMap.ReserveFallsShort` | kernel/src/paging/page_allocator.rs:103-111 | a map of one region for which 31 frames are reserved |
| `MemoryMap.FrameIsLost` | kernel/src/paging/page_allocator.rs:96-111 | a map for which frame 20 is neither listed nor reserved |
| `FrameAllocator.PageFrameAllocator.constructor` | kernel/src/paging/page_allocator.rs:76-134 | 0x8000 is on no list, `total_free` is the number of free frames, free, reserved and lost frames together are the usable ones without 0x8000, and 32 frames are reserved exactly when no region holds 0x8000 other than as its last frame |
| `FrameAllocator.PageFrameAllocator.CaptureReserved` | kernel/src/paging/page_allocator.rs:88-124 | the lowest 32 frames that are counted are set aside, without 0x8000, which makes 31 when it is among them; the capture flag says whether 0x8000 was seen |
| `FrameAllocator.PageFrameAllocator.ListRest` | kernel/src/paging/page_allocator.rs:113-132 | every frame above the reserve is listed, and only those |
| `FrameAllocator.PageFrameAllocator.InsertFreeOfOrder` | kernel/src/paging/page_allocator.rs:156-172 | the linked lists stay those of the model, memory is written only inside the block, and its last page carries the order too |
| `FrameAllocator.PageFrameAllocator.InsertFreeOfRange` | kernel/src/paging/page_allocator.rs:141-154 | the loop lists exactly the range and writes only inside it |
| `FrameAllocator.PageFrameAllocator.RequestPageOfOrder` | kernel/src/paging/page_allocator.rs:175-203 | refused exactly when all lists from the order up are empty; otherwise the first block of the smallest such order is split and each list is as a split leaves it. Takes 2^order free frames, changes nothing on failure and writes only free pages; the call is a step of `AllocatorRuns` |
| `FrameAllocator.PageFrameAllocator.AllocatePage` | kernel/src/paging/page_allocator.rs:224-230 | a zeroed frame that was free and is not zero; none exactly when nothing is free; the call is a step of `AllocatorRuns` |
| `FrameAllocator.PageFrameAllocator.AllocatePages` | kernel/src/paging/page_allocator.rs:241-270 | refused exactly when every list of blocks that hold `count` frames is empty; otherwise served from the first block of the smallest such order, which is split down to the least order that holds them, and the tail is listed as the binary digits of its length. The frames are consecutive, zeroed and were free; the call is a step of `AllocatorRuns` |
| `FrameAllocator.PageFrameAllocator.FreePage` | kernel/src/paging/page_allocator.rs:220-222 | the frame is free again and nothing else is written; the call is a step of `AllocatorRuns` |
| `FrameAllocator.PageFrameAllocator.FreePageOfOrder` | kernel/src/paging/page_allocator.rs:216-218 | the whole block is free again and nothing else is written; the call is a step of `AllocatorRuns` |
| `FrameAllocator.PageFrameAllocator.FreePages` | kernel/src/paging/page_allocator.rs:286-291 | all frames of the range are free again and nothing else is written; the lists are those of single frees from the first frame on |
| `AllocatorRuns.StepConserves` | kernel/src/paging/page_allocator.rs:175-270 | each request, allocation and release keeps blocks disjoint and free plus handed-out frames the same set |
| `AllocatorRuns.RunConserves` | kernel/src/paging/page_allocator.rs:175-292 | the same over every run, in frames and in their number: no frame is handed out twice, lost or invented |
| `AllocatorRuns.ReleasedIsRun` | kernel/src/paging/page_allocator.rs:286-291 | releasing a range of frames held is a run of single releases, and hands back exactly the range |
| `AllocatorRuns.FromNewOn` | kernel/src/paging/page_allocator.rs:76-292 | over every run from the state that `new` leaves, 0x8000 and the reserved frames are never listed or handed out |
| `Addresses.SamePageIsSameNumber` | kernel/src/paging/page_table.rs:48-60 | two addresses a table can tell apart take the same entries down to a level exactly when they lie in the same page of that size |
| `PageTables.MapLeaf` | kernel/src/paging/page_table.rs:228-254 | writing a free leaf entry translates its page and changes the walk of no other address |
| `PageTables.MapThrough` | kernel/src/paging/page_table.rs:307-322 | a mapping made one level down is a mapping of the whole tree that changes one page only |
| `PageTables.MapFresh` | kernel/src/paging/page_table.rs:310-322 | the same through a table that has just been taken and linked; the tables taken are new members of the tree |
| `PageTables.UnmapLeaf` | kernel/src/paging/page_table.rs:256-275 | clearing a leaf entry removes its page and changes the walk of no other address |
| `PageTables.UnmapThrough` | kernel/src/paging/page_table.rs:325-353 | an unmapping one level down is an unmapping of the whole tree |
| `PageTables.UnmapPrune` | kernel/src/paging/page_table.rs:344-351 | unlinking a table without present entries changes no walk, and the table leaves the tree |
| `TableOps.AddressOfIsWalk` | kernel/src/paging/page_table.rs:277-288 | `address_of` finds a frame exactly when the hardware walk hits a leaf of the page size, and asserts exactly under a larger page |
| `TableOps.NothingLeft` | kernel/src/paging/page_table.rs:344-351 | a tree that translates nothing is its root alone: unmapping the last page has freed every other table |
| `TableOps.TableStore.NewTable` | kernel/src/paging/page_table.rs:204-209 | a table is an empty one in a frame that was free; none exactly when no frame is free |
| `TableOps.TableStore.MapInner` | kernel/src/paging/page_table.rs:228-254 | a leaf is entered, or the page was translated and nothing changes |
| `TableOps.TableStore.LinkTable` | kernel/src/paging/page_table.rs:310-320 | a free frame becomes the empty table of an absent entry, because the allocator has zeroed it |
| `TableOps.TableStore.Map` | kernel/src/paging/page_table.rs:295-323 | succeeds exactly when no byte of the page is translated and frames suffice; then only that page changes and exactly the missing tables are taken. It asserts exactly under a larger page, and an error changes nothing. Each call is a step of `TableRuns` |
| `TableOps.TableStore.Unmap` | kernel/src/paging/page_table.rs:325-353 | succeeds exactly when the walk finds a leaf of the page size; then only that page changes and exactly the emptied tables are freed. An error changes nothing. Each call is a step of `TableRuns` |
| `TableRuns.RunRefinesFlatMap` | kernel/src/paging/page_table.rs:228-353 | over every run of calls the tables stay a tree apart from the free frames, tables plus free frames are conserved, and the tree translates as the flat map of the calls does |
| `Chunks.CutsCorrect` | kernel/src/paging/page.rs:85-134 | the four cut points bound whole aligned pages of each size, and hold every whole aligned 2 MiB and 1 GiB block |
| `Chunks.GetChunkedPageRange` | kernel/src/paging/page.rs:72-143 | the five ranges lie end to end from start to end, every page is aligned to its size, and no whole aligned block of a larger size is cut up |
| `OffsetMap.UntranslatedPage` | kernel/src/paging/offset_map.rs:44-82 | a page none of whose bytes is mapped can be mapped whatever page sizes lie around it |
| `OffsetMap.MapPage` | kernel/src/paging/offset_map.rs:46-54 | one page adds exactly its bytes to the map; the call fails only for want of frames |
| `OffsetMap.MapRegion` | kernel/src/paging/offset_map.rs:30-83 | a region adds exactly its bytes above the zero page |
| `OffsetMap.CreateOffsetMap` | kernel/src/paging/offset_map.rs:22-84 | for any sorted disjoint map below 512 GiB the hardware walk of the offset of a byte gives that byte when it is memory outside the zero page, and nothing otherwise; no call fails except for want of frames |
| `OffsetReach.RepeatsOften` | kernel/src/paging/offset_map.rs:46-54 | the offset of a byte any multiple of 512 GiB further on shows the same memory |
| `OffsetReach.NonePastLimit` | kernel/src/paging/offset_map.rs:30-83 | a table that shows all memory at its offset, and nothing else within its window, shows none past 512 GiB |
| `OffsetReach.CanMap` | kernel/src/paging/page_table.rs:295-323 | a page that is not translated can always be mapped, given frames not in use |
| `OffsetReach.ReachIsExact` | kernel/src/paging/offset_map.rs:30-83 | of the memory maps that the assertion lets through, those for which some table does what the offset map is for are exactly those wholly below 512 GiB |
| `OffsetReach.LetThroughPastLimit` | kernel/src/paging/offset_map.rs:33-36 | the assertion lets a region at 512 GiB through |
| `OffsetReach.NoneForAllOffsets` | kernel/src/paging/offset_map.rs:30-83 | the window belongs to the statement: no table shows some memory at its offset and nothing at every other offset |
| `RangeList.BinarySearchBy` | kernel/src/paging/page_mapper.rs:139-142 | for any comparison that goes up along the list, finds an equal element or the one place where it would go |
| `RangeList.CompareElementsIs` | kernel/src/paging/page_mapper.rs:354-357 | comparing two ranges element by element is comparing their bounds, with empty ranges below all others |
| `RangeList.ComparisonsGoUp` | kernel/src/paging/page_mapper.rs:308-316 | the comparisons by start, by containment and element by element all go up along a sorted list |
| `RangeList.InOneRange` | kernel/src/paging/page_mapper.rs:308-317 | an address lies in at most one listed range |
| `RangeList.Place` | kernel/src/paging/page_mapper.rs:133-144 | refuses exactly when some range overlaps or begins right at the end of the new one; otherwise the place found keeps the list sorted and disjoint |
| `RangeList.RefusedExactly` | kernel/src/paging/page_mapper.rs:133-137 | a range that overlaps a listed one is refused; one that overlaps none is refused exactly when a listed range begins where it ends |
| `RangeList.RefusesTouching` | kernel/src/paging/page_mapper.rs:133-137 | a page right below a listed page is refused |
| `RangeList.FindGap` | kernel/src/paging/page_mapper.rs:219-230 | finds the first window with a page of padding, and fails exactly when there is none |
| `RangeList.LowestGap` | kernel/src/paging/page_mapper.rs:219-236 | no lower address leaves a page of padding and fits between the listed ranges |
| `RangeList.RemoveAtMembers` | kernel/src/paging/page_mapper.rs:359-359 | removing takes out that range and no other |
| `SpaceModel.CacheAfterInsert` | kernel/src/paging/page_mapper.rs:123-212 | listing a range, with all of its pages entered or none, keeps the page table a correct cache of the list |
| `SpaceModel.CacheAfterRemove` | kernel/src/paging/page_mapper.rs:353-374 | dropping a range with its translations keeps the cache correct |
| `SpaceModel.CacheAfterFault` | kernel/src/paging/page_mapper.rs:319-350 | filling one empty slot and entering one page keeps the cache correct, also for other ranges on the same mapping |
| `SpaceModel.TranslatesBytes` | kernel/src/paging/page_mapper.rs:320-338 | in a correct address space an address is translated only inside a listed range, and then to the byte of its mapping: as far from the base of device memory as the address is from the start of the range, or the same place in the frame of its slot |
| `SpaceModel.EnteredShowsBytes` | kernel/src/paging/page_mapper.rs:171-205 | entering all pages of a range shows every byte of it that has memory |
| `PageMapper.PageMapperManager.constructor` | kernel/src/paging/page_mapper.rs:112-117 | an empty table is a correct cache of an empty list |
| `PageMapper.PageMapperManager.InsertMappingAt` | kernel/src/paging/page_mapper.rs:123-146 | refused exactly on a clash, then nothing changes; otherwise the range is listed and no translation changes |
| `PageMapper.PageMapperManager.EnterRange` | kernel/src/paging/page_mapper.rs:171-205 | every page that has a frame is entered as the mapping prescribes, every other page is left alone; the `unwrap` fails only for want of frames |
| `PageMapper.PageMapperManager.InsertMappingAtSet` | kernel/src/paging/page_mapper.rs:148-212 | as above with the pages entered: every byte of the range that has memory is translated to it; the cache stays correct and tables plus free frames are conserved |
| `PageMapper.PageMapperManager.InsertMapping` | kernel/src/paging/page_mapper.rs:214-237 | lists the mapping a page above the first gap that fits; panics exactly when none does |
| `PageMapper.PageMapperManager.InsertMappingSet` | kernel/src/paging/page_mapper.rs:239-300 | the same with the pages entered, byte for byte |
| `PageMapper.PageMapperManager.FrameFor` | kernel/src/paging/page_mapper.rs:320-338 | the frame the mapping prescribes; an empty slot gets a free zeroed frame, a full one is never changed |
| `PageMapper.AlreadyRight` | kernel/src/paging/page_mapper.rs:339-348 | a page found mapped already is mapped as its range prescribes, and no larger page is in the way |
| `PageMapper.PageMapperManager.Resolve` | kernel/src/paging/page_mapper.rs:319-350 | the faulting page is translated as its range prescribes, the faulting address to the byte of its mapping, and every other page as before |
| `PageMapper.PageMapperManager.PageFaultHandler` | kernel/src/paging/page_mapper.rs:302-351 | not handled exactly above user memory or outside every range, then nothing changes; otherwise the page is entered, the address leads to the byte that its range has there, and the cache stays correct |
| `PageMapper.ByRangeFinds` | kernel/src/paging/page_mapper.rs:354-357 | the search of a range finds exactly that range |
| `PageMapper.PageMapperManager.ClearRange` | kernel/src/paging/page_mapper.rs:361-372 | no page of the range is translated any more, every other page is left alone, tables plus free frames are conserved |
| `PageMapper.PageMapperManager.FreeMapping` | kernel/src/paging/page_mapper.rs:353-374 | succeeds exactly on a listed range, which goes with all its translations; otherwise nothing changes |
| `SharedSpaces.ChangeKeepsSpace` | kernel/src/paging/page_mapper.rs:123-374 | every call keeps its own address space correct |
| `SharedSpaces.CallKeepsInv` | kernel/src/paging/page_mapper.rs:123-374 | every call keeps all address spaces correct, their tables apart, and each lazy frame in one slot, not free and not a table |
| `SharedSpaces.NewMappingKeepsInv` | kernel/src/paging/page_mapper.rs:72-109 | so does making a mapping, empty or filled with free frames |
| `PageMapper.MappingHeap.BaseTopStack` | kernel/src/paging/page_mapper.rs:32-50 | the frame of the last page of a lazy mapping; an empty slot gets a free zeroed frame, a full one is not changed |
| `SharedSpaces.TopStackKeepsInv` | kernel/src/paging/page_mapper.rs:32-50 | so does taking the frame of the top of a stack |
| `SharedSpaces.DropKeepsInv` | kernel/src/paging/mod.rs:114-120 | so does dropping a mapping that nothing refers to, which frees its frames |
| `SharedSpaces.RunKeepsInv` | kernel/src/paging/page_mapper.rs:71-374 | so does every run of calls in any number of address spaces, which are made and given up, with mappings made, shared, filled and dropped |
| `SharedSpaces.FramesStay` | kernel/src/paging/page_mapper.rs:325-337 | while a mapping lives, a page of it gets a frame once and keeps it |
| `SharedSpaces.SharedExactly` | kernel/src/paging/page_mapper.rs:319-350 | two lazy pages, in one address space or two, share a frame exactly when they are the same page of the same mapping |
| `SharedSpaces.NoStaleFrame` | kernel/src/paging/page_mapper.rs:353-374 | no lazy page is translated to a free frame or to a page table |
| `SharedSpaces.SameFrameAlways` | kernel/src/elf.rs:98-127 | two address spaces resolve the same page of a shared mapping to the same frame at any two moments, whatever the order of faults |
| `SharedSpaces.BytesAlways` | kernel/src/paging/page_mapper.rs:302-351 | at every moment of every run an address is translated only inside a listed range, and to the byte of its mapping |
| `HeapPages.MapHeapPage` | kernel/src/allocator/slab_allocator.rs:59-68 | the page gets a frame that no other heap page, table or free list has; fails only for want of frames |
| `HeapPages.UnmapHeapPage` | kernel/src/allocator/slab_allocator.rs:128-135 | the page loses exactly its own frame, which becomes free; no `unwrap` fails |
| `SlabBlocks.Position` | kernel/src/allocator/slab_allocator.rs:16-19 | the first slab size that is large enough; none exactly when the largest is too small |
| `SlabBlocks.BlockIsTight` | kernel/src/allocator/slab_allocator.rs:46-48 | the block length is the smallest slab size that holds size and alignment, or the fewest whole pages |
| `SlabBlocks.BlockAligned` | kernel/src/allocator/slab_allocator.rs:46-48 | the block of a layout is aligned for it, for every power of two up to a page |
| `Slab.AlignmentFails` | kernel/src/allocator/slab_allocator.rs:42-103 | a new heap serves a word and then a byte aligned to two pages: the second block is not aligned, unless frames run out |
| `Slab.SlabAllocator.constructor` | kernel/src/allocator/slab_allocator.rs:31-38 | an empty heap is valid |
| `Slab.SlabAllocator.TakeHead` | kernel/src/allocator/slab_allocator.rs:49-53 | the first free block of the size comes into use |
| `Slab.SlabAllocator.Carve` | kernel/src/allocator/slab_allocator.rs:70-75 | the page becomes all multiples of the size in it, chained last first; no other node is written |
| `Slab.SlabAllocator.Refill` | kernel/src/allocator/slab_allocator.rs:54-80 | a new page is mapped and carved, and one of its blocks comes into use |
| `Slab.SlabAllocator.AllocLarge` | kernel/src/allocator/slab_allocator.rs:82-100 | whole pages at the end of the heap, newly mapped, exactly those of the block |
| `Slab.SlabAllocator.Alloc` | kernel/src/allocator/slab_allocator.rs:42-103 | a block not in use before, of the smallest length that holds the layout and aligned up to a page; above that it lies at the end of the heap. Every other block and mapped page is kept, frames are conserved, and the heap grows exactly when no block is at hand |
| `Slab.SlabAllocator.Dealloc` | kernel/src/allocator/slab_allocator.rs:105-139 | a small block becomes the first of its list; a large one is unmapped |
| `Slab.SlabAllocator.FreeLarge` | kernel/src/allocator/slab_allocator.rs:122-136 | exactly the pages of the block are unmapped, their frames become free, and frames are conserved |
| `Slab.HeapIsSound` | kernel/src/allocator/slab_allocator.rs:41-140 | no byte is in two blocks, a block is in use exactly when it is on no list, and every byte of a block can be written in a frame that is neither free nor a table |
| `Slab.BytesApart` | kernel/src/allocator/slab_allocator.rs:41-140 | different heap bytes are different bytes of memory |
| `RunQueue.GlobalSchedData.PopThread` | kernel/src/scheduling/taskmanager.rs:69-83 | takes the thread queued longest |
| `RunQueue.GlobalSchedData.QueueThread` | kernel/src/scheduling/taskmanager.rs:85-108 | puts a thread last unless it is queued; neither assertion fires |
| `Scheduler.NotRunnable` | kernel/src/scheduling/process.rs:363-375 | a waker that finds a thread marked as sleeping finds it parked: the switch away from it is over |
| `Scheduler.StepKeepsPlaces` | kernel/src/scheduling/taskmanager.rs:150-188 | a step of a core, a waker, a creator or a killer panics exactly when it finishes a yield made with interrupts held; every other step keeps each thread in exactly one place |
| `Scheduler.RunKeepsPlaces` | kernel/src/scheduling/taskmanager.rs:150-188 | every interleaving on any number of cores keeps each thread in one place |
| `Scheduler.NoPanicNoDoubleRun` | kernel/src/scheduling/taskmanager.rs:155-184 | the Runnable assertion never fires and the zombie panic fires exactly for a thread that yielded with interrupts held; no thread runs on two cores, and no thread is queued twice |
| `Scheduler.HeldInterruptsPanic` | kernel/src/scheduling/taskmanager.rs:166-175 | a run that ends in that panic |
| `Scheduler.RunnableNotLost` | kernel/src/scheduling/taskmanager.rs:173-184 | a runnable thread is queued, on a core, or about to be queued |
| `Scheduler.KilledNeverRuns` | kernel/src/scheduling/taskmanager.rs:157-161 | a thread killed outside a system call never runs again once it has yielded |
| `SchedulerOrder.FirstInFirstOut` | kernel/src/scheduling/taskmanager.rs:150-188 | in every run cores pop threads in the order in which they were queued |
| `SchedulerOrder.FlagsAreHistory` | kernel/src/scheduling/taskmanager.rs:200-215 | in every run a thread is marked as killed exactly when it was killed, and as in a system call exactly when it last said so |
| `SchedulerOrder.EndedExactly` | kernel/src/scheduling/taskmanager.rs:155-164 | in every run a thread is ended exactly when a core takes it up after it was killed, outside a system call; it stays ended, and otherwise it runs |
| `Signals.ExtractedStaying` | kernel/src/object.rs:55-70 | extraction takes out exactly the waiters that the status fires and leaves the others in order |
| `Signals.ExtractedSent` | kernel/src/object.rs:55-70 | each waiter that fires sends one notification, in the order of registration |
| `Signals.SetSignalLeavesNone` | kernel/src/object.rs:42-72 | after a change of signals a waiter stays exactly when the new status does not fire it |
| `KernelOps.KernelState.Notify` | kernel/src/port.rs:49-55 | is a step of the runs and keeps the kernel valid: no wake-up is lost, a thread sleeps exactly where it is registered, and no waiter is left that a status fires |
| `KernelOps.KernelState.WaitRound` | kernel/src/port.rs:33-46 | the same; the oldest notification is taken, or the thread is asleep as the last waiter |
| `KernelOps.KernelState.SetSignal` | kernel/src/object.rs:42-72 | the same; the loop leaves exactly the waiters that the status does not fire and sends one notification for each other, in order; signals that are not named stay as they were |
| `KernelOps.KernelState.WaitPort` | kernel/src/syscall/mod.rs:430-467 | the same; nothing is registered when the status fires the mask |
| `KernelOps.KernelState.Wait` | kernel/src/syscall/mod.rs:392-428 | the same; the thread is asleep unless the status fires the mask |
| `KernelOps.KernelState.Sleep` | kernel/src/syscall/mod.rs:489-506 | the same |
| `KernelOps.KernelState.CheckSleep` | kernel/src/time.rs:58-68 | the same; exactly the sleepers whose time has come are woken |
| `Registrations.CountParts` | kernel/src/object.rs:55-58 | a change of signals parts the waiters for a thread or a key into those that fire and those that stay |
| `Registrations.NotesSent` | kernel/src/object.rs:59-70 | waiters that fire send one notification each |
| `SignalRuns.NotifyKeeps` | kernel/src/port.rs:49-55 | a notification keeps every sleeper registered once and loses no wake-up |
| `SignalRuns.TakeKeeps` | kernel/src/port.rs:33-37 | so does taking one |
| `SignalRuns.JoinKeeps` | kernel/src/port.rs:39-46 | so does going to sleep in a port |
| `SignalRuns.ThreadWaitsKeeps` | kernel/src/syscall/mod.rs:397-411 | so does going to sleep in an object |
| `SignalRuns.PortWaitsKeeps` | kernel/src/syscall/mod.rs:440-460 | so does registering a port |
| `SignalRuns.SetSignalKeeps` | kernel/src/object.rs:42-72 | so does firing any number of waiters |
| `SignalRuns.SleepKeeps` | kernel/src/syscall/mod.rs:489-506 | so does sleeping for a time |
| `SignalRuns.CheckSleepKeeps` | kernel/src/time.rs:58-68 | so does waking the sleepers |
| `SignalRuns.StepKeepsNoneReady` | kernel/src/object.rs:38-72 | no step leaves a waiter on an object whose status fires it |
| `SignalRuns.QueueAfter` | kernel/src/port.rs:32-55 | a queue grows only by what is sent and shrinks only at its head |
| `SignalRuns.RegistrationsAfter` | kernel/src/object.rs:38-72 | a step adds to the registrations made what it adds to those waiting and those fired |
| `SignalRuns.StepKeepsFireOnce` | kernel/src/object.rs:38-72 | registrations made are those waiting and those fired, for every thread and every key of a port, after every step |
| `SignalRuns.RunKeepsInv` | kernel/src/port.rs:32-55 | all of this over every interleaving |
| `SignalRuns.NothingIsLost` | kernel/src/object.rs:38-72 | at every moment of every run: a port with a sleeping waiter has no more notifications than woken threads coming for them, notifications are taken once each and in order, no waiter is left that the status fires, a thread sleeps exactly when it is registered where it sleeps, and each registration fires at most once: those made for a key are those waiting plus the notifications signalled for it |
| `WaitOrder.ExtractedDrops` | kernel/src/object.rs:55-70 | changing signals wakes one waiter of a port for each notification it sends there, from the front |
| `WaitOrder.PortsServeInOrder` | kernel/src/port.rs:33-55 | in every run the waiters of a port are the threads that joined it and were not woken, in the order in which they joined, and each notification wakes the first |
| `WaitOrder.ObjectsServeInOrder` | kernel/src/object.rs:38-57 | in every run the waiters of an object, and those that a change of signals fires, are in the order of registration |
| `WaitOrder.SleepersAsAsked` | kernel/src/syscall/mod.rs:489-506 | in every run a sleeper is set to the time its thread last asked for |
| `WaitOrder.WokenInTime` | kernel/src/time.rs:58-68 | in every run `check_sleep` wakes exactly the sleeping threads whose own time has come |
| `WaitOrder.NotificationsAnswer` | kernel/src/object.rs:59-69 | in every run a notification for a signal carries the key and the mask of a registration that was made, and a status that fires it |
| `WakeUps.SleepsOrWakes` | kernel/src/port.rs:32-55 | a step of the notification protocol puts one thread to sleep that was awake, or puts none to sleep |
| `WakeUps.WakeAll` | kernel/src/scheduling/process.rs:363-375 | any scheduler run goes on with waking any list of sleeping threads whose locks are free: they are at the end of the run queue in that order and nothing else changes |
| `WakeUps.SignalStepWakes` | kernel/src/object.rs:38-72 | a step that puts no thread to sleep is a series of wake steps of the scheduler: both go on to agree on who sleeps, and every woken thread is in the run queue |
| `WakeUps.SignalStepSleeps` | kernel/src/port.rs:39-45 | a step that puts its thread to sleep is the step by which the core that runs it marks it as sleeping |
| `WakeUps.NotifiedIsQueued` | kernel/src/port.rs:49-55 | in every run, when a port is notified, the first thread that has joined it and has not been woken goes to the end of the run queue, as soon as its lock is free |
| `ServiceRuns.FireToken` | kernel/src/object.rs:55-70 | a waiter that fires carries the token of its key into the queue |
| `ServiceRuns.PortWaitsToken` | kernel/src/syscall/mod.rs:430-467 | registering gives the token of a key to the object or to the queue |
| `ServiceRuns.TakeToken` | kernel_userspace/src/service.rs:77-77 | taking an event brings its token to the loop |
| `ServiceRuns.NewServiceTokens` | kernel_userspace/src/service.rs:57-71 | a new service has one token, that of key 0 |
| `ServiceRuns.PanicsOnlyOnBadMessage` | kernel_userspace/src/service.rs:77-98 | the loop panics exactly when it reads a message that is too large or brings not one handle: the customer of an event is always found and the accepting channel is never found empty |
| `ServiceRuns.InboxStep` | kernel_userspace/src/service.rs:78-91 | the accepting channel is readable exactly while it holds a message, and while it is empty the loop is registered with it |
| `ServiceRuns.StepKeepsTokens` | kernel_userspace/src/service.rs:73-121 | every other step of the loop, and everything other threads do, keeps exactly one token per key, on the channel of the key, and keeps each customer on the channel it was accepted with |
| `ServiceRuns.RunKeepsTokens` | kernel_userspace/src/service.rs:73-121 | the same over every run |
| `ServiceRuns.KeysNeverStale` | kernel_userspace/src/service.rs:76-118 | in every run the loop panics on a bad message only, and a key not in use has neither a waiter nor a notification, so it can be used again |
| `ServiceRuns.CustomersAreHeard` | kernel_userspace/src/service.rs:76-118 | in every run messages are read once each and in order, the channel of a customer is the one in the message read for its key, and each key listens to its own channel for READABLE and to no other, or is queued, or is being handled; while its channel is readable it is one of the latter two |
| `Channel.ChannelCreate` | kernel/src/channel.rs:128-142 | two open, empty endpoints, each the peer of the other; for every endpoint CHANNEL_CLOSED is up exactly while it is not open |
| `Channel.KChannelHandle.constructor` | kernel/src/channel.rs:22-30 | an open endpoint with nothing queued or accepted |
| `Channel.KChannelHandle.Set` | kernel/src/channel.rs:37-42 | the kernel stays valid, so that no waiter is left that the new signals fire; other signals and other objects are left alone |
| `Channel.KChannelHandle.Send` | kernel/src/channel.rs:61-77 | accepted exactly when the peer exists, is open and holds at most 10000 messages; then the message is last in its queue, which stays accepted minus delivered, and READABLE is up |
| `Channel.KChannelHandle.Read` | kernel/src/channel.rs:79-105 | the oldest message exactly when it fits; too small buffers, an empty and a closed endpoint change nothing; READABLE is up exactly while something is queued |
| `Channel.KChannelHandle.CloseHere` | kernel/src/channel.rs:46-51 | what is queued is dropped; READABLE stays up exactly when something was |
| `Channel.KChannelHandle.CloseThere` | kernel/src/channel.rs:53-58 | the peer takes no more messages, keeps those it has and stays linked |
| `Channel.KChannelHandle.Close` | kernel/src/channel.rs:45-59 | both of these; the peer itself has not closed |
| `Channel.ReadableThoughEmpty` | kernel/src/channel.rs:45-59 | a channel is made, sent to and closed: the closed end is empty and readable |
| `Channel.KChannelHandle.Drain` | kernel/src/channel.rs:82-89 | after the peer has closed, reading gives exactly the queued messages in order and then Closed, so that all accepted messages are delivered |
| `Channel.SendAll` | kernel/src/channel.rs:61-77 | of any list of messages sent through an empty open channel the first 10001 are accepted, and they are the queue |
| `Channel.SendCloseDrain` | kernel/src/channel.rs:45-105 | a channel is made, any messages are sent, the sender closes and the other end is read to the end: it reads exactly the accepted messages in order, and then Closed |
| `FatChain.CoalesceExpands` | kernel/src/fs/fat.rs:473-482 | joining adjacent runs changes neither the sectors read nor their order |
| `FatLayout.DataAfterRegions` | kernel/src/fs/fat.rs:132-158 | the clusters begin right after the reserved sectors, every copy of the FAT and the root directory |
| `FatLayout.StartIsWhereItBegins` | kernel/src/fs/fat.rs:170-174 | cluster 2 begins there, and every other cluster where the one before it ends |
| `FatLayout.ClustersApart` | kernel/src/fs/fat.rs:170-174 | clusters are apart from each other, from the reserved sectors and from the FATs |
| `FatLayout.NextIsLinked` | kernel/src/fs/fat.rs:178-208 | the next cluster is the 16- or 32-bit number, low byte first, that the bytes of the FAT spell out at 2 or 4 times the cluster |
| `FatLayout.WalkFindsSector` | kernel/src/fs/fat.rs:528-535 | the plain walk leads to the sector of the file that layout and FAT bytes determine |
| `FatLayout.OneFileSector` | kernel/src/fs/fat.rs:528-535 | and these determine one sector only |
| `FatFiles.Fat.GetNextCluster` | kernel/src/fs/fat.rs:178-208 | whatever is buffered, the entry is the one that the bytes of the FAT on disk spell out |
| `FatFiles.Fat.FindRuns` | kernel/src/fs/fat.rs:469-487 | the runs are the sectors of the file in order, as the layout of the disk and the bytes of the FAT give them |
| `FatFiles.Fat.ReadRuns` | kernel/src/fs/fat.rs:489-499 | the buffer is the contents of the runs, read in requests of at most 56 sectors |
| `FatFiles.Fat.ReadFile` | kernel/src/fs/fat.rs:443-502 | each sector of the buffer is what the disk holds in that sector of the file, by the layout and the bytes of the FAT; the result is its first `length` bytes; folders and missing files are errors |
| `FatFiles.Fat.LoadSector` | kernel/src/fs/fat.rs:528-535 | the loop loads that sector of the file |
| `FatFiles.Fat.ReadFileSector` | kernel/src/fs/fat.rs:504-537 | sector k of the file, by the layout and the bytes of the FAT, nothing at its end, errors for folders and missing files |
| `FatFiles.ReadBothWays` | kernel/src/fs/fat.rs:443-537 | a method that reads a file and a sector of it both ways returns a buffer whose sector k is the sector loaded |
| `FatFiles.CountRightExactly` | kernel/src/fs/fat.rs:519-526 | where a byte count is returned, it is right exactly for a sector of the file that is not the last one of a length that is a multiple of 512 |
| `FatFiles.CountOfFullSector` | kernel/src/fs/fat.rs:519-526 | a file of 512 bytes with count 0 for its only sector and 512 past its end |

## Left out

- The links of the reserved 32-bit list: the first node's link is not written by the source, so only the set of pages is modelled.
- The four kernel slots that `new_with_global` shares between address spaces.
- The 32-bit pages a process owns.
- TLB flushes, the assembly of the context switch, interrupts and the local APIC.
- The order in which `kill_threads` and `exit_thread_inner` take locks, and the removal of a thread from its process.
- `KInterruptHandle`, whose pending and acknowledge flags the source does not update consistently.
- The copying of message buffers and handle tables in the channel system calls.
- The parsing of FAT directories and of ELF files.
- Liveness: that a queued thread is eventually run.
- PageMapper.PageMapperManager.constructor: does not model the four kernel slots that are present in a new table, because the shared slots are left out of what an address space owns.
- PageMapper.PageMapperManager.InsertMappingAt: does not cover empty ranges and ranges that are not canonical, which the source lists but can never map.
- PageMapper.PageMapperManager.InsertMapping: does not cover a first gap that is not canonical, for the same reason.
- FatFiles.Fat.ReadFile: does not model 32-bit overflow of `length + 511`, because sector numbers are taken not to overflow.
