# GOATos kernel: verified models of its memory, task, interrupt and file-system core

GOATos is a small 32-bit x86 kernel. This project models, in Dafny, the parts of it whose
correctness is hardest to see by reading one function at a time, and proves what their comments
and design promise for every input and every run:

- **Kernel heap** (`FreeList`, `Heap`, `HeapRuns`): the first-fit allocator with its intrusive,
  coalescing free list, living in the very memory it hands out. The free list in memory is exactly
  the address-ordered list of maximal gaps between live blocks, so it depends on the live set alone.
- **Physical frames** (`Frames`, `CursorOrder`, `FrameAllocator`, `FrameRuns`): the bump cursor over
  the E820 regions, the free list threaded through free frames, contiguous runs, and the four-way
  classification behind `free`, over runs in which callers react to what they have seen.
- **Paging and boot order** (`Paging`, `Boot`): the identity map is built word by word out of
  allocated frames; an independent two-level page walk gives exactly the identity, minus the guard
  page and everything above the map. The heap and the tables are then placed together.
- **Tasks** (`RoundRobin`, `Scheduler`, `ContextSwitch`, `Tasks`, `TaskRuns`, `TaskHeap`, `SystemRuns`):
  the ready ring, fairness over any number of yields, `context_switch` instruction by instruction over
  memory, and stacks from the heap. After any run of the others, a parked task is resumed with its own
  registers, the words of its stack and its interrupt flag; tasks and heap share one memory over every
  run of task work, heap calls, yields and spawns.
- **Interrupt-safe mutex and input queue** (`InputQueue`, `QueueSteps`, `QueueDepth`, `IrqMutex`,
  `QueueRuns`, `QueueTears`): `IrqMutex::with` as a step machine with interrupts, traps and nesting at
  every point, and the ring buffer it protects, load by load and store by store. Masking interrupts is
  proved to be what keeps the queue right.
- **GOATFS** (`Goatfs`, `GoatfsFormat`, `GoatfsReader`, `GoatfsRoundTrip`, `GoatfsImage`): the packer,
  the mount and read path, and the round trip between them. `GoatfsFormat` states the on-disk format on
  bytes alone; packing and mounting are each proved to meet it exactly.

`Sequences` holds what the ring buffers share. `Machine` holds the memory all of this shares: 2^32 byte addresses, accessed one aligned 32-bit word
at a time; every access in the model proves that it is aligned and in range. A word is stored at the
address of its first byte, and no member ever reads one at any other offset.

Code that changes state in place is modelled by classes and methods over that memory, each tied by
its `ensures` to a function or a ghost value of the old state; code that computes is modelled by
functions. Ghost fields (`free`, `live`, `owned`, `skipped`, `saved`, ...) name what the bytes mean, and
each class's `Valid()` ties them to the bytes.

## Where the code and its words differ

The models follow the code. These are the places where a comment or the obvious reading says
something else, each with a proof of what does hold.

- `kernel/src/memory/frame.rs:242-244` says a frame can only reach the free list by having been
  allocated. Frames that `allocate_contiguous` steps over count as handed out too, so they can be
  freed without ever having been allocated, and such a free lowers `in_use`.
  `FrameAllocator.FrameAllocator.Free` states the exact acceptance condition,
  `FrameRuns.FreesUnallocated` is an instance, and `FrameRuns.RunAll` proves the comment for every
  run without contiguous requests and the counting identities for every run that frees only owned frames.
- A contiguous request that fails still moves the cursor past every region. All unvisited frames
  become skipped: single-frame allocation then finds nothing but the free list.
  `FrameAllocator.FrameAllocator.AllocateContiguous` states this.
- Nothing checks that usable regions are disjoint. `CursorOrder.YieldsOnce` proves that the cursor
  never repeats a frame if and only if no allocatable frame lies in two regions;
  `FrameRuns.YieldsTwice` is an overlapping map on which it does.
- `kernel/src/memory/heap.rs:385-386` takes the frames of the heap for identity-mapped. The map is cut
  off at 0xffc00000, and the run may lie above. `Boot.BringUp` proves that the first store to the heap
  faults if and only if the run starts at or above that address, and that all of the heap is mapped to
  itself if and only if the run ends at or below it; `Boot.HeapAboveMap` is a map on which it faults.
  With paging off, a run ending at 4 GiB overflows the end address, which panics.
- `IrqMutex` runs a closure even when the lock is held (`kernel/src/sync.rs:22-28`). Against maskable
  interrupts masking makes that harmless: `QueueRuns.DisturbedByTrap` proves that a queue call which
  begins while another is in flight always stands under a handler that ignores IF, and
  `QueueRuns.NoEventLost` that no event is lost while such handlers leave the queue alone. When they do
  not, it depends on where they strike. `QueueSteps.InterruptionExact` gives the exact condition,
  instruction by instruction, for a whole call coming in the middle of another,
  `QueueRuns.AccountsExact` carries it over runs, and `QueueRuns.LevelRight` gives a sufficient one at
  any depth. `QueueTears` has a run from start-up for each way it goes wrong: 65 events in 64 slots, a
  refusal not counted, an accepted event gone, and a length below zero, which panics.
- A directory entry whose sector number lies within 2048 of 2^32 mounts, and reading the file panics on
  the sector address: `GoatfsRoundTrip.MountsButPanics`. `GoatfsRoundTrip.PanicExact` says exactly when a read panics.
- `FrameRange::covering` of an empty byte range can still contain one frame.
  `Frames.CoveringEmptyRange` gives the exact condition under which it is right.
- A task's first run begins with interrupts masked, whatever the spawner's flag was: the restore at
  the end of `yield_now` lies on the resumed path only. `Tasks.Arrive` states both paths.
- `kernel/src/task/switch.s:49-51` asks that the stack pointer plus 4 be 16-byte aligned at the call, and
  opens a gap of 12 bytes so that the return address lands on alignment. The two exclude each other: the
  return address does land there, and the stack pointer plus 4 is then off by 8 before the call and by 4
  after it. `Tasks.EntryAlignment` proves this for every stack.
- The packer accepts any ASCII name of 1 to 31 bytes; the reader refuses every volume holding a name
  with a space or control byte before its first zero byte, or with a zero byte first.
  `GoatfsRoundTrip.MountsPacked` gives the exact condition, `GoatfsRoundTrip.PacksButDoesNotMount` an instance.
- `kernel/src/memory/layout.rs` describes and checks the layout but no `mod` line includes it, so it is
  not compiled in. Its promises about the heap and the guard page are proved here of the code that runs.

## Model

| member | source | states |
|---|---|---|
| Heap.AlignedBlockSize | kernel/src/memory/heap.rs:255-258 | the block size is the least multiple of 8 holding payload and header; it fails exactly when the round-up would overflow 32 bits |
| Heap.BlockBytes | kernel/src/memory/heap.rs:255-263 | the size as mathematics, independent of 32-bit arithmetic: a multiple of 8 within 8 of payload plus header |
| Heap.Heap.constructor | kernel/src/memory/heap.rs:79-93 | an uninitialised heap is a valid heap with no memory: not ready, nothing live |
| Heap.Heap.Init | kernel/src/memory/heap.rs:99-116 | the heap becomes one free block spanning it; nothing live, nothing used, no byte outside written; for a heap ending at 4 GiB the header is written, the end address overflows and nothing else changes |
| Heap.Heap.BlockSize | kernel/src/memory/heap.rs:139-142 | the size field in memory is the size of the gap the list says is there |
| Heap.Heap.NextBlock | kernel/src/memory/heap.rs:139-140 | the next pointer in memory is the next gap's address, or null at the end |
| Heap.Heap.Unlink | kernel/src/memory/heap.rs:198-208 | exactly one link changes: the head, or the predecessor's next field |
| Heap.Heap.Carve | kernel/src/memory/heap.rs:142-167 | the headers and links after taking a block from the front of a gap, split or whole, and the only bytes written |
| Heap.Heap.Take | kernel/src/memory/heap.rs:142-170 | the invariant is kept, one live block is added, used grows by its size, and only bytes that were free are written |
| Heap.Heap.AllocateBlock | kernel/src/memory/heap.rs:131-176 | the block is at the lowest vacant run of that size anywhere in the heap; null exactly when none exists |
| Heap.Heap.Allocate | kernel/src/memory/heap.rs:118-176 | null for zero size or alignment above 8; otherwise the payload of the lowest vacant run, 8-aligned, clear of every live block; null exactly when no run fits; no live byte written; the allocation counter rises by one exactly when the pointer is not null |
| Heap.Heap.MergeIfTouching | kernel/src/memory/heap.rs:238-248 | the two headers fuse exactly when the blocks touch, keeping size sum and outer link |
| Heap.RightMerge | kernel/src/memory/heap.rs:238-242 | the first merge leaves the block linked with the size and successor of both when they touch, and as it was when not |
| Heap.LeftMerge | kernel/src/memory/heap.rs:244-248 | the second merge gives the surviving header and confines all writes to the freed block and its predecessor's header |
| Heap.Heap.LinkAndMerge | kernel/src/memory/heap.rs:228-250 | after linking and both merges the surviving header spans every touching neighbour, and only it, the freed block and one link were written |
| Heap.Heap.FindNeighbours | kernel/src/memory/heap.rs:220-226 | the walk stops at the position where the block belongs in address order |
| Heap.Heap.StampHeader | kernel/src/memory/heap.rs:213-218 | writing a live block's header leaves the heap intact and everything outside the block unwritten |
| Heap.Heap.InsertFree | kernel/src/memory/heap.rs:212-250 | the block leaves the live set, the gaps are maximal and ordered again, and the free total grows by its size |
| Heap.Heap.Deallocate | kernel/src/memory/heap.rs:178-196 | a null or foreign pointer changes nothing, except that one below 8 underflows and panics; a live one leaves the live set, used shrinks by its block, and no byte outside the free list is written; the allocation counter never changes |
| FreeList.OrderedUnique | kernel/src/memory/heap.rs:10-16 | two address-ordered lists of non-touching blocks covering the same bytes are the same list |
| FreeList.GapsUnique | kernel/src/memory/heap.rs:212-250 | the live set determines the free list |
| FreeList.EmptyHeapIsOneBlock | kernel/src/memory/heap.rs:14-16 | with nothing live the list is one block spanning the heap: no permanent fragmentation |
| FreeList.RunInsideBlock | kernel/src/memory/heap.rs:131-141 | any vacant run lies inside a single free block, so coalescing never hides room |
| FreeList.FirstFit | kernel/src/memory/heap.rs:118-176 | the lowest vacant address, defined on the live set without a list |
| FreeList.FirstBlockIsFirstFit | kernel/src/memory/heap.rs:131-141 | the first list block large enough starts at that lowest address |
| FreeList.NoBlockNoFit | kernel/src/memory/heap.rs:136-175 | when no list block is large enough, no vacant run exists anywhere |
| FreeList.CarveGaps | kernel/src/memory/heap.rs:142-167 | replacing a gap by its remainder gives exactly the gaps of the grown live set |
| FreeList.CarveInv | kernel/src/memory/heap.rs:142-167 | any memory that differs from the old one as an allocation does satisfies the whole heap invariant |
| FreeList.MergedCovers | kernel/src/memory/heap.rs:238-248 | the merged block covers the freed bytes and the absorbed neighbours, nothing else |
| FreeList.MergedGaps | kernel/src/memory/heap.rs:212-250 | splicing the merged block in gives exactly the gaps of the shrunk live set, conserving bytes |
| FreeList.ReleaseInv | kernel/src/memory/heap.rs:212-250 | any memory that differs from the old one as a free does satisfies the whole heap invariant, and only now-free bytes differ |
| FreeList.ClientWritesKeepHeap | kernel/src/memory/heap.rs:54-56 | clients may write anything to any live payload, and memory outside the heap may change, without harming the heap |
| HeapRuns.Act | kernel/src/memory/heap.rs:118-196 | one call refines the machine whose state is the live set alone; bytes live before and after are kept |
| HeapRuns.Run | kernel/src/memory/heap.rs:118-250 | every run of allocations, frees and client stores follows that machine and keeps every byte that stays live and unwritten |
| HeapRuns.ListDependsOnLiveOnly | kernel/src/memory/heap.rs:212-250 | two heaps with the same bounds and live set agree on list, head and used, whatever their histories |
| HeapRuns.AllocateAndFree | kernel/src/memory/heap.rs:118-196 | on one heap, allocating and freeing at once restores the exact list, head, used bytes and live set, and writes no byte outside the list |
| HeapRuns.FreesRemove | kernel/src/memory/heap.rs:178-196 | freeing distinct live blocks in any order is permitted and removes exactly those |
| HeapRuns.FreeEverything | kernel/src/memory/heap.rs:178-250 | freeing all live blocks in any order leaves one block spanning the heap and nothing used |
| Frames.InsideExact | kernel/src/memory/frame.rs:129-135 | `inside` holds exactly the frames lying wholly in the range, for all 64-bit ends, clamped to the first 4 GiB |
| Frames.CoveringExact | kernel/src/memory/frame.rs:139-144 | `covering` holds exactly the frames sharing a byte with a non-empty range |
| Frames.CoveringEmptyRange | kernel/src/memory/frame.rs:139-144 | for an empty range that is right exactly when its end rounds up to no more than its start rounds down to |
| Frames.RegionFrom | kernel/src/memory/frame.rs:359-363 | the first region holding a frame, or none |
| Frames.PassedByRegionOf | kernel/src/memory/frame.rs:382-391 | comparing a frame's region and index with the cursor decides whether the cursor has passed it |
| Frames.PassOne | kernel/src/memory/frame.rs:408-414 | one cursor step passes that frame, unless reserved, and no other |
| Frames.PassRegion | kernel/src/memory/frame.rs:401-407 | moving into the next region passes nothing |
| Frames.PassedAll | kernel/src/memory/frame.rs:393-417 | past the last region every managed frame has been passed |
| Frames.CursorIsFirst | kernel/src/memory/frame.rs:393-417 | the frame at the cursor precedes every unvisited frame |
| Frames.WindowFresh | kernel/src/memory/frame.rs:421-467 | a run at or after the cursor is wholly unvisited before and wholly passed after |
| CursorOrder.YieldsOnce | kernel/src/memory/frame.rs:393-417 | the order in which the cursor yields frames has no repetition if and only if no allocatable frame lies in two regions |
| CursorOrder.YieldsAll | kernel/src/memory/frame.rs:393-417 | that order holds exactly the allocatable frames |
| CursorOrder.AheadStep | kernel/src/memory/frame.rs:399-412 | one turn of the loop takes the next frame off that order, or none |
| FrameAllocator.ManagedIsSafe | kernel/src/memory/frame.rs:294-346 | every byte of a frame of the pool lies between base and base + length of one usable region, in unbounded integers, and none is in the kernel image, the low BIOS page, the boot sector page or the legacy ROM window |
| FrameAllocator.ManagedExact | kernel/src/memory/frame.rs:294-346 | the pool is exactly the frames all of whose bytes lie between base and base + length of one usable region and which touch none of the four reservations: no usable frame is lost |
| FrameAllocator.UsableRangesFit | kernel/src/memory/frame.rs:318-321 | a map has no more usable ranges than entries, so the table of 32 never overflows |
| FrameAllocator.RangesDisjoint | kernel/src/memory/frame.rs:318-328 | usable regions with no common byte give frame ranges with no common frame |
| FrameAllocator.PoolFromMap | kernel/src/memory/frame.rs:294-335 | every 64-bit map gives well-formed ranges, and a byte-disjoint one a disjoint pool |
| FrameAllocator.CollectRegions | kernel/src/memory/frame.rs:318-328 | the loop keeps the non-empty usable ranges in order, up to the table size |
| FrameAllocator.RangeSource | kernel/src/memory/frame.rs:318-328 | each kept range belongs to one usable region and holds exactly the frames wholly inside it |
| FrameAllocator.RangesInMapOrder | kernel/src/memory/frame.rs:318-328 | the kept ranges stand in the order of their regions in the map, each holding exactly the frames wholly inside its region |
| FrameAllocator.CountAllocatable | kernel/src/memory/frame.rs:368-378 | the count is the number of managed frames |
| FrameAllocator.FrameAllocator.constructor | kernel/src/memory/frame.rs:294-335 | for any map the pool is well formed and the cursor stands at its start; the allocator is valid exactly when no allocatable frame lies in two regions, as for every byte-disjoint map |
| FrameAllocator.FrameAllocator.Conservation | kernel/src/memory/frame.rs:258-264 | total equals owned plus free plus skipped plus unvisited in every reachable state; `in_use` may stand for owned while callers free only owned frames |
| FrameAllocator.FrameAllocator.PushFree | kernel/src/memory/frame.rs:487-497 | the frame becomes the head of the chain threaded through memory; one word written |
| FrameAllocator.FrameAllocator.PopFree | kernel/src/memory/frame.rs:499-509 | the head leaves, the rest stays chained |
| FrameAllocator.FrameAllocator.OnFreeList | kernel/src/memory/frame.rs:514-527 | the bounded walk answers membership exactly |
| FrameAllocator.FrameAllocator.Classify | kernel/src/memory/frame.rs:352-391 | the three tests of `free` on any index agree with ownership: unvisited, or owned, free or skipped |
| FrameAllocator.FrameAllocator.Free | kernel/src/memory/frame.rs:469-485 | each of the four outcomes if and only if its condition on the ghost partition; on an error nothing changes; on success the frame's first word becomes the old head of the free list, or 0xffffffff when that was empty |
| FrameAllocator.FrameAllocator.Release | kernel/src/memory/frame.rs:480-484 | an accepted frame moves to the head of the free list and `in_use` drops, saturating |
| FrameAllocator.FrameAllocator.Store | kernel/src/memory/frame.rs:487-497 | an owner may write any word of its frame without disturbing the allocator's chain |
| FrameAllocator.FrameAllocator.Bump | kernel/src/memory/frame.rs:399-416 | for any pool, disjoint or not, the cursor yields the next frame of its order; in a disjoint one that frame is unvisited and the only one passed; nothing exactly when all are passed |
| FrameAllocator.FrameAllocator.Allocate | kernel/src/memory/frame.rs:393-417 | most recently freed frame first, else the first unvisited in cursor order; never an owned one; fails exactly when nothing is free or unvisited |
| FrameAllocator.FrameAllocator.AllocateFreed | kernel/src/memory/frame.rs:394-397 | the free-list branch: newest first, not owned before, cursor untouched |
| FrameAllocator.FrameAllocator.AllocateFresh | kernel/src/memory/frame.rs:399-416 | the cursor branch: the first unvisited frame, failing exactly when there is none |
| FrameAllocator.FrameAllocator.FindReserved | kernel/src/memory/frame.rs:455-460 | the first reserved frame of a candidate run, or its end |
| FrameAllocator.FrameAllocator.SearchRun | kernel/src/memory/frame.rs:425-466 | the earliest run of that length at or after the cursor; when none, no such run exists and every region is behind the cursor |
| FrameAllocator.FrameAllocator.AllocateContiguous | kernel/src/memory/frame.rs:421-467 | the earliest run, all of it newly owned; exactly the frames stepped over become skipped; a failure skips every unvisited frame |
| FrameAllocator.FrameAllocator.AllocateRun | kernel/src/memory/frame.rs:425-467 | the same for a non-zero count |
| FrameRuns.Act | kernel/src/memory/frame.rs:393-485 | one call or owner store follows the ownership machine whose only state is the set handed out, and keeps the contents of frames that stay owned |
| FrameRuns.RunAll | kernel/src/memory/frame.rs:393-485 | over every run of calls and owner stores, each chosen from the trace so far: no frame is given out while owned; frames that stay owned keep their contents; without contiguous requests a free succeeds exactly on owned frames; with only owned frames freed, `in_use` is their number and the counters add up |
| FrameRuns.FreesUnallocated | kernel/src/memory/frame.rs:242-244 | a map on which a frame nobody was given is freed successfully and `in_use` falls below the number owned |
| FrameRuns.YieldsTwice | kernel/src/memory/frame.rs:318-328 | an overlapping map on which the cursor yields the same frame twice |
| Paging.WalkIsIdentity | kernel/src/memory/paging.rs:168-206 | the page walk of a built map gives the same address, writable, below its end and outside the guard page, and not-present everywhere else |
| Paging.IsPresentExact | kernel/src/memory/paging.rs:243-260 | `is_present` is true exactly below the end of the map and off the guard page, and never while no table is loaded |
| Paging.AddressParts | kernel/src/memory/paging.rs:243-260 | directory index, table index and offset reassemble the address |
| Paging.IdentityMapEnd | kernel/src/memory/paging.rs:271-285 | the loop computes the capped, 4 MiB-rounded end of usable memory |
| Paging.UsableEndCovers | kernel/src/memory/paging.rs:271-285 | that end is at or above every usable region's end, or saturated at 4 GiB |
| Paging.UsableEndAttained | kernel/src/memory/paging.rs:271-285 | some usable region reaches that end |
| Paging.MapEndExact | kernel/src/memory/paging.rs:271-285 | the map ends on a table boundary, reaches the end of every usable region as far as 32 bits go or stops at the cap, and needs its last table |
| Paging.ManagedIsCovered | kernel/src/memory/paging.rs:271-285 | every frame the pool can give out below the cap is inside the map |
| Paging.AllocateZeroed | kernel/src/memory/paging.rs:287-297 | a newly owned frame, all zero, every other byte kept; fails exactly when nothing is available |
| Paging.Wipe | kernel/src/memory/paging.rs:287-297 | the whole frame reads zero and nothing else changed |
| Paging.FillTable | kernel/src/memory/paging.rs:194-202 | every entry of the table maps its own page, except the guard's |
| Paging.MapKept | kernel/src/memory/paging.rs:299-308 | writes outside the directory and tables keep the map |
| Paging.MapExtended | kernel/src/memory/paging.rs:203 | one directory entry extends the map by 4 MiB |
| Paging.AddTable | kernel/src/memory/paging.rs:180-204 | one turn of the loop: a new table is filled, hooked in and owned, earlier ones kept |
| Paging.BuildTables | kernel/src/memory/paging.rs:180-204 | the loop builds all tables exactly when enough frames are available |
| Paging.Init | kernel/src/memory/paging.rs:150-238 | fails exactly when no memory is usable or fewer frames are available than the map needs; otherwise the built map covers it, from distinct frames newly owned, none skipped |
| Boot.ManagedIsSelfMapped | kernel/src/memory/paging.rs:8-15 | a pool frame, tables included, is mapped to itself if and only if it lies below the cap |
| Boot.InitHeap | kernel/src/memory/heap.rs:376-395 | no run found exactly when none lies at or after the cursor; otherwise the earliest one is owned; the first store faults exactly when paging is on and the walk of the run's start finds nothing; without a fault the heap is ready on exactly the run's 1 MiB unless it ends at 4 GiB, which panics; only the run's bytes are written |
| Boot.FirstStore | kernel/src/memory/heap.rs:384-389 | the page a pool frame starts with is absent if and only if it lies at or above the cap |
| Boot.Install | kernel/src/memory/heap.rs:384-389 | initialising the heap on owned frames leaves the frame allocator valid |
| Boot.BringUp | kernel/src/memory/layout.rs:23-28 | after paging and heap start-up: the map is intact; heap and tables share no frame with each other or with the kernel image and its stacks; each of their frames is mapped to itself if and only if it is below the cap; start-up faults if and only if the run starts at or above the cap, and the heap is mapped as a whole if and only if its run ends at or below it |
| Boot.ManagedIsPlaced | kernel/src/memory/layout.rs:18-28 | any pool frame misses the kernel image and is mapped to itself if and only if it is below the cap |
| Boot.RunHeap | kernel/src/memory/heap.rs:118-250 | after start-up every run of heap operations and client stores keeps the page map, every translation under it, and the frame allocator |
| Boot.HeapAboveMap | kernel/src/memory/heap.rs:384-389 | a map on which paging succeeds and the heap's first store faults, on a run of which no frame is mapped |
| RoundRobin.GainsExact | kernel/src/task/mod.rs:182-203 | after any number of yields, the exact queue order and how often each task was switched in |
| RoundRobin.Fair | kernel/src/task/mod.rs:182-203 | no two tasks' counts ever differ by more than one |
| RoundRobin.RunsInTurn | kernel/src/task/mod.rs:182-203 | a task in place p runs after exactly p more yields and not before |
| Sequences.RingPush | kernel/src/task/mod.rs:65-72 | writing a ring slot past the last appends to the queue the ring stands for, at any size |
| Sequences.RingPop | kernel/src/input.rs:65-73 | advancing the head removes the first element of that queue |
| Scheduler.Pigeonhole | kernel/src/task/mod.rs:65-72 | the current task and the queue never exceed the four slots, so the ring cannot overflow |
| Scheduler.Scheduler.Init | kernel/src/task/mod.rs:108-119 | the bootstrap task alone, running |
| Scheduler.Scheduler.EnqueueReady | kernel/src/task/mod.rs:65-72 | appends to the queue |
| Scheduler.Scheduler.DequeueReady | kernel/src/task/mod.rs:74-82 | removes the first, or reports empty |
| Scheduler.Scheduler.Admit | kernel/src/task/mod.rs:169-177 | the lowest free slot joins the end of the order; refused exactly when four tasks exist |
| Scheduler.Scheduler.PickNext | kernel/src/task/mod.rs:182-203 | the order rotates by one, the task switched in gains a turn, modulo 2^32, and no other counter changes; no switch exactly when there is one task |
| Scheduler.Scheduler.RotateQueue | kernel/src/task/mod.rs:185-190 | enqueue then dequeue on the ring is a rotation |
| Scheduler.YieldMany | kernel/src/task/mod.rs:182-203 | n yields rotate n times and credit each task its exact number of turns, modulo 2^32 |
| ContextSwitch.Cpu.ContextSwitch | kernel/src/task/switch.s:18-39 | the registers go to the old stack, its pointer to the old slot, and everything loaded comes from the new stack; no other word changes |
| ContextSwitch.Cpu.PushCalleeSaved | kernel/src/task/switch.s:23-26 | four words in order below the stack pointer |
| ContextSwitch.Cpu.PopCalleeSaved | kernel/src/task/switch.s:34-39 | the same four in reverse, then the return address |
| ContextSwitch.Cpu.TaskTrampoline | kernel/src/task/switch.s:47-57 | control reaches the entry point, with the halt loop as its return address |
| Tasks.SwitchAway | kernel/src/task/mod.rs:209-215 | after flags, cli and switch the old task is parked as it was and only its stack and slot were written |
| Tasks.Arrive | kernel/src/task/mod.rs:214-223 | a parked task gets back registers, stack contents and interrupt flag; a new one starts at its entry point with interrupts masked |
| Tasks.PrimeStack | kernel/src/task/mod.rs:149-167 | the six words of a first frame, and no others |
| Tasks.StackTopAligned | kernel/src/task/mod.rs:144-147 | the stack top is a multiple of 16 and within the last 16 bytes of the block |
| Tasks.EntryAlignment | kernel/src/task/switch.s:47-54 | on every stack block a task is entered with its return address on a 16-byte boundary, and so with the stack pointer plus 4 never on one |
| Tasks.SpawnInv | kernel/src/task/mod.rs:143-178 | priming an unused stack adds a parked task and disturbs none |
| Tasks.SwitchInv | kernel/src/task/mod.rs:209-215 | a switch keeps every waiting task parked |
| Tasks.ArriveInv | kernel/src/task/mod.rs:214-223 | so does the arrival of the next |
| Tasks.AllParkedKept | kernel/src/task/mod.rs:29-43 | writes to the running task's own stack and slot, or to unowned memory, never disturb a parked task |
| Tasks.Kernel.constructor | kernel/src/task/mod.rs:108-119 | the boot stack becomes task 0 |
| Tasks.Kernel.TaskStep | kernel/src/task/mod.rs:3-6 | arbitrary work by the running task, on its own memory, keeps the system valid |
| Tasks.Kernel.YieldNow | kernel/src/task/mod.rs:182-223 | the running task is recorded as it was and the next is restored exactly; alone, a yield returns to the caller unchanged |
| Tasks.Kernel.SwitchTo | kernel/src/task/mod.rs:209-223 | the same for the switch proper |
| Tasks.Kernel.Spawn | kernel/src/task/mod.rs:143-178 | on any unused stack memory: the new task waits with its entry point; refused exactly when four exist, leaving all tasks as they were; nothing outside the stack and the task table is written; its saved stack pointer is six words below the highest 16-byte boundary of the 8 KiB block |
| Tasks.WaitingKept | kernel/src/task/mod.rs:182-223 | one move of the system keeps a waiting task's saved state and stack, or resumes it with its registers and the words of that stack |
| Tasks.StartsAsSaved | kernel/src/task/mod.rs:182-223 | over any run, a waiting task first runs with exactly what was saved, stack contents included |
| Tasks.ResumedAsParked | kernel/src/task/mod.rs:182-223 | over any run, a task that yields next runs with its registers, stack pointer and flag of the yield, at its return address, and with every word from its stack pointer to its stack top unchanged |
| TaskRuns.RunAll | kernel/src/task/mod.rs:143-223 | every sequence of task work, yields and spawns, refused ones included, is a run from the kernel's old state to its new one, so the run theorems apply to it |
| TaskRuns.Perform | kernel/src/task/mod.rs:143-223 | each operation does what the run's step says; a refused spawn keeps the registers and all tasks |
| TaskHeap.SpawnOnHeap | kernel/src/task/mod.rs:143-178 | with the stack from the heap: no memory exactly when no run fits; refused exactly when the table is full, and then the heap's list is as before; otherwise the task waits on a block of its own; tasks and heap stay valid throughout; its saved stack pointer is six words below the block's highest 16-byte boundary |
| SystemRuns.RunAll | kernel/src/task/mod.rs:143-223 | over every run of task work, heap allocations and frees, yields and spawns on heap stacks: tasks and heap stay valid, every stack stays in a live payload or outside the heap, the live set follows the heap's machine, and the views form a run, so waiting tasks keep stack and saved state |
| SystemRuns.Perform | kernel/src/task/mod.rs:143-223 | each of these operations keeps tasks and heap valid and apart and does what its step says |
| TaskHeap.GiveBack | kernel/src/task/mod.rs:169-170 | the stack of a refused task goes back, leaving the heap's list as it was and the tasks undisturbed |
| TaskHeap.NewStack | kernel/src/task/mod.rs:144 | the block is 8 KiB of zeros, disturbs no task and is used by none |
| TaskHeap.FreeWritesOwn | kernel/src/memory/heap.rs:118-250 | the heap's own writes never touch a task's stack or slot |
| TaskHeap.StackWritesKeepHeap | kernel/src/memory/heap.rs:54-56 | a task's writes to its stack never harm the heap |
| InputQueue.Queue.constructor | kernel/src/input.rs:43-52 | empty, nothing dropped |
| InputQueue.Queue.Push | kernel/src/input.rs:54-63 | appended when there is room, else refused, unchanged and counted with saturation |
| InputQueue.Queue.Pop | kernel/src/input.rs:65-73 | the oldest event, or none |
| QueueSteps.UninterruptedCall | kernel/src/input.rs:54-73 | the loads and stores of an uninterrupted call add up to the queue operation |
| QueueSteps.FitsStep | kernel/src/input.rs:54-73 | each load or store keeps what the call relies on |
| QueueSteps.InterruptionExact | kernel/src/input.rs:54-73 | a whole call between two instructions of another leaves everything right after both if and only if it is safe there: a condition on the instruction, the kind of call, the length and the drop count |
| QueueSteps.PairsNotEnough | kernel/src/input.rs:54-63 | three pushes deep, interruptions safe pair by pair overflow the queue |
| QueueSteps.PairsTooMuch | kernel/src/input.rs:54-73 | three calls deep, an interruption unsafe for its pair can come out right |
| QueueTears.CrossedCall | kernel/src/sync.rs:53-81 | for any queue contents, the run in which a trap makes a whole call early in another is possible and ends as the two calls in that order say |
| QueueTears.OverCapacity | kernel/src/input.rs:55-61 | a run from start-up with 65 events in 64 slots |
| QueueTears.Miscounted | kernel/src/input.rs:56 | a run from start-up with two refusals, one counted |
| QueueTears.EventLost | kernel/src/input.rs:59-61 | a run from start-up in which two pushes are accepted and one event is gone |
| QueueTears.Underflow | kernel/src/input.rs:66-71 | a run from start-up in which two pops of one event panic |
| IrqMutex.MaskingStep | kernel/src/sync.rs:53-81 | every step keeps interrupts masked inside a critical section or a handler |
| IrqMutex.LockStep | kernel/src/sync.rs:60-77 | every step keeps the lock bits equal to the set held by calls that acquired them, each once |
| IrqMutex.AcquireStep | kernel/src/sync.rs:60-77 | every step keeps a mutex locked exactly while some call is between its lock attempt and giving it back, with the outermost such call the one that acquired; the attempt always leaves the mutex locked and acquires exactly when it was free |
| IrqMutex.NestingStep | kernel/src/sync.rs:53-81 | every step keeps only handlers directly above a call whose own code is running |
| IrqMutex.OnlyTrapsInterrupt | kernel/src/sync.rs:54-68 | whatever interrupts a running closure is a handler that ignores IF |
| IrqMutex.WorkStep | kernel/src/sync.rs:53-81 | every step keeps calls apart, and a call that has not looked at the queue has left nothing in it |
| IrqMutex.InvRun | kernel/src/sync.rs:53-81 | the masking, lock and work invariants over every run |
| IrqMutex.Safety | kernel/src/sync.rs:18-29 | from start-up, in every reachable state whatever nests where: a held lock means interrupts are masked, and no maskable interrupt ever arrived over a held lock |
| IrqMutex.MutualExclusion | kernel/src/sync.rs:18-29 | from start-up, in every reachable state: the mutex of every running closure is locked, every locked mutex has such a closure, and of the closures under one mutex exactly the outermost acquired it |
| IrqMutex.HandlersReenter | kernel/src/sync.rs:18-29 | the adversary is complete: an interrupt that ignores IF can arrive at any point, a maskable one exactly when IF is set, and handlers, ordinary code and closures of other mutexes may all call `with` |
| QueueRuns.QueueStep | kernel/src/input.rs:54-73 | with at most one call in flight when another begins, a step keeps what the call in flight relies on exactly when it is safe; an unsafe one spoils the queue |
| QueueRuns.AccountsExact | kernel/src/sync.rs:22-29 | over every run in which at most one queue call is in flight when another begins: once the calls in flight finish, the queue holds exactly the events due, in order and within capacity, with every refusal counted and no panic, at every moment if and only if each call that begins is a safe interruption |
| QueueRuns.NoEventLost | kernel/src/sync.rs:18-29 | from start-up, with maskable interrupts arriving anywhere and using the queue, and handlers that ignore IF leaving it alone: no event is lost, duplicated or reordered at any moment, the queue stays within capacity and every refusal is counted |
| QueueRuns.DisturbedByTrap | kernel/src/sync.rs:18-26 | in every reachable state, a queue call that begins while another is in flight stands under a handler that ignores IF, itself directly above a call in flight |
| QueueRuns.MaskingProtects | kernel/src/sync.rs:54-58 | on every run in which no queue call is made under a handler that ignores IF, no queue call begins while another is in flight |
| QueueRuns.UndisturbedRight | kernel/src/input.rs:54-73 | from start-up, if no call begins while another is in flight, the queue is right at every moment |
| QueueRuns.LevelRight | kernel/src/input.rs:54-73 | at any depth of nesting, if each call that begins leaves room for the pushes in flight that have passed their test, an event for the pops that have, and alone what the others have loaded, the queue is right at every moment |
| QueueRuns.NoEventLostNested | kernel/src/input.rs:54-73 | the same from start-up: no event lost, duplicated or reordered |
| QueueDepth.BeginLevel | kernel/src/input.rs:54-73 | a call that may begin keeps everything the calls in flight rely on |
| QueueDepth.OwnLevel | kernel/src/input.rs:54-73 | so does every load and store of the innermost call, however many are in flight |
| IrqMutex.LockedMasks | kernel/src/sync.rs:53-65 | a held lock implies masked interrupts |
| IrqMutex.OnlyHolderReleases | kernel/src/sync.rs:70-72 | only the activation that acquired a lock gives it back |
| IrqMutex.ExcursionReturns | kernel/src/sync.rs:74-78 | whatever nests above an activation, it ends with that activation's saved flag and the stack below untouched |
| IrqMutex.Transparent | kernel/src/sync.rs:53-81 | a whole call, interrupt or trap, with everything nested in it, restores interrupt flag, lock bits and stack |
| IrqMutex.AlwaysRuns | kernel/src/sync.rs:48-69 | a call that returns has run its closure, whether or not it got the lock |
| IrqMutex.NeverBlocks | kernel/src/sync.rs:53-81 | unless a check panicked, the innermost call can always take its next step and needs at most eleven of them: no deadlock |
| Goatfs.Le32RoundTrip | scripts/build-goatfs.py:48-58 | the four bytes weigh 1, 2^8, 2^16 and 2^24, and decoding them gives the word back |
| Goatfs.SectorsCover | scripts/build-goatfs.py:51-52 | the padded size is the least whole number of sectors |
| Goatfs.PackStep | scripts/build-goatfs.py:46-54 | one turn of the loop extends directory, data and next sector as the image says |
| Goatfs.Pack | scripts/build-goatfs.py:31-65 | packs exactly the lists of at most 8 files with ASCII names of 1 to 31 bytes and contents of at most 4096, into the image; otherwise the error names the first offending file and, in the order of the checks, its reason |
| GoatfsImage.ImageOnDisk | scripts/build-goatfs.py:34-65 | every byte of a packed image: magic, version 1 and count; each file's name, size and first sector in its entry, low byte first; its contents at that sector, files back to back from sector 2; zero everywhere else |
| GoatfsImage.ImageExact | scripts/build-goatfs.py:34-65 | a sequence of bytes is in the format for these files if and only if it is the packed image |
| GoatfsImage.StartsAt | scripts/build-goatfs.py:34-54 | the packer's running sector number is where the format puts each file, back to back in the fewest sectors |
| GoatfsFormat.OnDiskUnique | scripts/build-goatfs.py:1-10 | the format fixes every byte |
| GoatfsReader.ReadLba | kernel/src/ata.rs:116-137 | succeeds exactly for 1 to 256 sectors at a 28-bit address inside the disk, and returns those bytes |
| GoatfsReader.NameLength | kernel/src/fs.rs:185-186 | the first zero byte, or the field's length |
| GoatfsReader.FindEntry | kernel/src/fs.rs:226-231 | the first entry of that name, or none |
| GoatfsReader.FileSystem.FillTable | kernel/src/fs.rs:180-211 | the loop fills the table with the parsed entries, stopping at the first bad one |
| GoatfsReader.FileSystem.Mount | kernel/src/fs.rs:165-212 | on any disk: success exactly when the bytes of sectors 2048 and 2049 form a volume, and then the table lists each entry's name, size and sector as those bytes give them; otherwise the error `MountExact` names |
| GoatfsReader.MountExact | kernel/src/fs.rs:165-212 | on the bytes of any disk: mounting succeeds if and only if both sectors are readable, bytes 0 to 7 are GOATFS01, the version is 1, the count at most 8, and each entry in use has a non-empty name of bytes 33 to 126 before its first zero, a size of at most 4096 and a sector of at least 2; and which of the three errors each failure gives |
| GoatfsReader.EntryExact | kernel/src/fs.rs:182-208 | one entry is accepted exactly when its bytes are well formed, and is then read as those bytes say |
| GoatfsReader.NameExact | kernel/src/fs.rs:185-196 | the name check accepts exactly the fields that start with at least one byte of 33 to 126 and hold only such bytes before the first zero |
| GoatfsReader.ReadExact | kernel/src/fs.rs:218-249 | on any disk and table: the size bytes at sector 2048 plus the entry's own, for the first entry of that name, or exactly the error or panic that name, sizes, sector and disk length call for |
| GoatfsReader.FileSystem.Init | kernel/src/fs.rs:130-163 | mounted exactly when the disk parses |
| GoatfsReader.FileSystem.ReadFile | kernel/src/fs.rs:218-249 | the named bytes land at the start of the buffer and nothing else in it changes; every error, and the panic on a sector address beyond 32 bits, leaves it untouched |
| GoatfsReader.DirectoryStops | kernel/src/fs.rs:182-200 | one bad entry spoils every longer directory |
| GoatfsRoundTrip.EntryParses | kernel/src/fs.rs:184-208 | a packed entry parses back to its name, size and sector, exactly when its visible name is non-empty and of bytes 33 to 126 |
| GoatfsRoundTrip.DirectoryParses | kernel/src/fs.rs:180-211 | the same for the whole packed directory |
| GoatfsRoundTrip.MountsPacked | kernel/src/fs.rs:165-212 | a packed volume mounts exactly when every name has at least one byte before its first zero and only bytes of 33 to 126 there, with exactly its files |
| GoatfsRoundTrip.PacksButDoesNotMount | scripts/build-goatfs.py:40-44 | a volume the packer accepts and the reader refuses |
| GoatfsRoundTrip.MountsButPanics | kernel/src/fs.rs:246 | a volume that mounts and whose file panics the reader |
| GoatfsRoundTrip.PanicExact | kernel/src/fs.rs:218-249 | a read panics if and only if a file of that name is found, is not empty, fits the buffer and the size limit, and starts within 2048 sectors of 2^32 |
| GoatfsRoundTrip.SectorsRead | scripts/build-goatfs.py:46-54 | the sectors a directory entry names hold that file's padded contents |
| GoatfsRoundTrip.ReadsPacked | kernel/src/fs.rs:218-249 | reading any name from a mounted packed volume: the first such file's bytes, or the exact error |
| GoatfsRoundTrip.RoundTrip | kernel/src/fs.rs:165-249 | with distinct names of bytes 33 to 126, every file read back equals the file packed, and every other name is not found |

## Left out

- Double frees and frees of pointers inside a live block: the heap trusts its caller there, and `Heap.Heap.Deallocate` asks for null, a live pointer or one outside the heap.
- What reads the heap's allocation counter and the scheduler's task counter: the counters are kept in the model, their reports are not.
- Arithmetic follows the default `dev` profile, in which overflow panics; a `release` build wraps instead. The heap's allocation counter is unbounded in the model, where the kernel would panic at the 2^32nd allocation.
- Frames.CoveringExact: stated for non-empty ranges; `CoveringEmptyRange` states when the empty ones agree.
- FrameAllocator.FrameAllocator.Allocate: stated for pools in which no allocatable frame lies in two regions; for the others `CursorOrder.YieldsOnce` and `FrameAllocator.FrameAllocator.Bump` say what the cursor does.
- FrameAllocator.FrameAllocator.Conservation: `in_use` counts owned frames only while every free named an owned frame; freeing a skipped frame lowers it as well.
- Loading the E820 block, its display and the reservation names; the model starts from the list of regions.
- Paging.Init: the report's read-back of CR0 and CR3 and its re-check of the guard entry are hardware reads; `IsPresentExact` says what the re-check finds.
- Loading CR3, setting CR0, TLB effects, the user and accessed bits, and 4 MiB pages: page entries are modelled by present bit, write bit and frame address, with the bit operations written as arithmetic.
- The task-state segment, descriptor tables and fault delivery on the guard page; the proof ends at the guard's entry being not present.
- EFLAGS other than IF, and floating-point state.
- Code addresses (`TRAMPOLINE`, `HALT`, `YIELD_RETURN`) are fixed distinct words and entry points arbitrary ones; the bodies behind them are the arbitrary work of `Tasks.Kernel.TaskStep`.
- TaskHeap.SpawnOnHeap: running out of heap is reported as `NoMemory`, where the kernel's allocation error handler panics.
- Task exit and blocking, which the kernel does not have; the spin locks around the scheduler, the heap, the frame allocator and the ATA controller.
- QueueRuns.AccountsExact: stated for at most one queue call in flight when another begins. Three calls deep that condition, taken pair by pair, is neither sufficient (`QueueSteps.PairsNotEnough`) nor necessary (`QueueSteps.PairsTooMuch`); `QueueRuns.LevelRight` is sufficient at any depth and not exact.
- Boot.RunHeap: memory is physical. For a run that straddles 0xffc00000, which start-up reports ready, a store to the part above the map is carried out where the processor would fault; `Boot.BringUp` says exactly when there is such a part.
- The queue's `len` and `dropped` queries, which only read. In the kernel only the keyboard interrupt pushes and only the shell pops.
- Multiple processors: `IrqMutex` is a single-CPU design.
- ATA port traffic, timeouts and drive errors: a disk is its contents, and reads past its end fail.
- GOATFS names are bytes; the packer's encoding of non-ASCII text is only modelled as its refusal, and its host-file handling not at all.
- Keyboard decoding, shell, VGA, serial, PIC, PIT and graphics, which would add only short, local members.
- Boot-time self tests, banners and report formatting.
