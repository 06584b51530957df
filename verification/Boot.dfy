/** Bringing memory up: the page map and then the heap, both from one frame
    allocator, share no frame with each other or with the kernel image. */
module Boot {
  import opened Machine
  import opened Frames
  import opened FrameAllocator
  import opened Sequences
  import Paging
  import opened Heap
  import HeapRuns

  const HEAP_SIZE: int := 0x10_0000
  const HEAP_FRAMES: nat := 256

  /** Where the identity map is cut off below 4 GiB. */
  const MAP_CAP: int := 0xffc0_0000

  /** Every address of frame `i` translates to itself and is writable. */
  ghost predicate SelfMapped(cells: Cells, cr3: int, i: int)
    requires Populated(cells) && 0 <= cr3 < ADDRESS_SPACE
  {
    forall x :: 0 <= x < ADDRESS_SPACE && InFrame(i, x) ==> Paging.Walk(cells, cr3, x) == Paging.Mapped(x, true)
  }

  lemma FramePage(i: int, x: int)
    requires InFrame(i, x)
    ensures Paging.PageBase(x) == StartAddress(i)
  {
  }

  /** An allocatable frame is mapped to itself exactly when it lies below the cap: there
      it is covered and is not the guard page, which lies in the kernel image. */
  lemma ManagedIsSelfMapped(cells: Cells, map_: seq<Region>, kernelStart: int, kernelEnd: int, guard: int,
                            directory: int, tables: seq<int>, i: int)
    requires Is64BitMap(map_) && 0 <= kernelStart <= guard && guard + 4096 <= kernelEnd < ADDRESS_SPACE
    requires Paging.MapBuilt(cells, directory, tables, guard)
    requires 0x40_0000 * |tables| == Paging.MapEnd(Paging.UsableEnd(map_))
    requires Managed(MakePool(map_, kernelStart, kernelEnd), i)
    ensures SelfMapped(cells, StartAddress(directory), i) <==> StartAddress(i + 1) <= MAP_CAP
  {
    hide Paging.PageBase, Paging.Walk, Paging.MapBuilt, Managed;
    MapRoot(cells, directory, tables, guard);
    ManagedIsSafe(map_, kernelStart, kernelEnd, i);
    ManagedInMemory(map_, kernelStart, kernelEnd, i);
    if StartAddress(i + 1) <= MAP_CAP {
      Paging.ManagedIsCovered(map_, kernelStart, kernelEnd, i);
      forall x | 0 <= x < ADDRESS_SPACE && InFrame(i, x)
        ensures Paging.Walk(cells, StartAddress(directory), x) == Paging.Mapped(x, true)
      {
        Paging.WalkIsIdentity(cells, directory, tables, guard, x);
        FramePage(i, x);
        assert InFrame(i, StartAddress(i));
      }
    } else {
      assert InFrame(i, StartAddress(i)) && StartAddress(i) >= MAP_CAP;
      Paging.WalkIsIdentity(cells, directory, tables, guard, StartAddress(i));
    }
  }

  lemma MapRoot(cells: Cells, directory: int, tables: seq<int>, guard: int)
    requires Paging.MapBuilt(cells, directory, tables, guard)
    ensures Populated(cells) && 0 <= StartAddress(directory) < ADDRESS_SPACE
  {
  }

  lemma ManagedInMemory(map_: seq<Region>, kernelStart: int, kernelEnd: int, i: int)
    requires Is64BitMap(map_) && Managed(MakePool(map_, kernelStart, kernelEnd), i)
    ensures 0 <= i < MAX_FRAME_INDEX
  {
    PoolFromMap(map_, kernelStart, kernelEnd);
  }

  datatype HeapReport = NoRun | Faulted | Panicked | Ready(start: int)

  /** The processor refuses a store to `x` under the tables `paging` reports, if any. */
  predicate Unreachable(cells: Cells, paging: Paging.Report, x: int)
    requires Populated(cells) && 0 <= x < ADDRESS_SPACE && (paging.Built? ==> 0 <= paging.cr3 < ADDRESS_SPACE)
  {
    paging.Built? && Paging.Walk(cells, paging.cr3, x).NotPresent?
  }

  /** Reserves the heap's contiguous run, the first at or after the cursor, and
      initialises the heap on it, wherever it lies: its first store faults when paging
      is on and the start of the run is not mapped. */
  method InitHeap(fa: FrameAllocator, heap: Heap, paging: Paging.Report) returns (report: HeapReport, ghost s: int)
    requires fa.Valid() && heap.ram == fa.ram && (paging.Built? ==> 0 <= paging.cr3 < ADDRESS_SPACE)
    modifies fa, fa.ram, heap
    ensures fa.Valid() && old(fa.owned) <= fa.owned
    ensures report == NoRun ==>
      forall q, t :: Window(fa.pool, q, t, HEAP_FRAMES) ==> !AtOrAfter(old(fa.cursorRegion), old(fa.cursorFrame), q, t)
    ensures report != NoRun ==>
      && Window(fa.pool, fa.cursorRegion, s, HEAP_FRAMES)
      && AtOrAfter(old(fa.cursorRegion), old(fa.cursorFrame), fa.cursorRegion, s)
      && (forall q, t :: Window(fa.pool, q, t, HEAP_FRAMES) ==>
            (AtOrAfter(old(fa.cursorRegion), old(fa.cursorFrame), q, t) ==> AtOrAfter(fa.cursorRegion, s, q, t)))
      && old(fa.owned) !! Span(s, HEAP_FRAMES) && Span(s, HEAP_FRAMES) <= fa.owned
      && 0 < s && s + HEAP_FRAMES <= MAX_FRAME_INDEX
      && (forall x :: 0 <= x < ADDRESS_SPACE && !(StartAddress(s) <= x < StartAddress(s + HEAP_FRAMES)) ==>
            fa.ram.cells[x] == old(fa.ram.cells)[x])
    ensures report == NoRun || report == Faulted ==> fa.ram.cells == old(fa.ram.cells)
    ensures report != NoRun ==>
      && (report == Faulted <==> Unreachable(old(fa.ram.cells), paging, StartAddress(s)))
      && (report == Panicked <==> report != Faulted && StartAddress(s + HEAP_FRAMES) == ADDRESS_SPACE)
    ensures report.Ready? ==>
      && report.start == StartAddress(s) && heap.Valid() && heap.IsReady() && heap.live == map[]
      && heap.heapStart == report.start && heap.heapEnd == report.start + 0x10_0000
  {
    hide Chained, NoDuplicates, Disjoint, WellFormed, CursorOk, PassedSet, ManagedSet, Managed, Window, Multiple,
      AtOrAfter, Span, Split, Unreachable;
    var run := fa.AllocateContiguous(HEAP_FRAMES);
    if run.None? {
      return NoRun, 0;
    }
    s := run.value;
    if Unreachable(fa.ram.cells, paging, StartAddress(run.value)) {
      return Faulted, s;
    }
    var panicked := Install(fa, heap, run.value);
    report := if panicked then Panicked else Ready(StartAddress(run.value));
  }

  /** Turns an owned run of frames into the heap. */
  method Install(fa: FrameAllocator, heap: Heap, s: int) returns (panicked: bool)
    requires fa.Valid() && heap.ram == fa.ram && 0 < s && s + HEAP_FRAMES <= MAX_FRAME_INDEX
    requires Span(s, HEAP_FRAMES) <= fa.owned
    modifies fa.ram, heap
    ensures fa.Valid() && (panicked <==> StartAddress(s + HEAP_FRAMES) == ADDRESS_SPACE)
    ensures !panicked ==>
      && heap.Valid() && heap.IsReady() && heap.live == map[]
      && heap.heapStart == StartAddress(s) && heap.heapEnd == StartAddress(s + HEAP_FRAMES)
    ensures forall x :: 0 <= x < ADDRESS_SPACE && !(StartAddress(s) <= x < StartAddress(s + HEAP_FRAMES)) ==>
      fa.ram.cells[x] == old(fa.ram.cells)[x]
  {
    hide Chained, NoDuplicates, Disjoint, WellFormed, CursorOk, PassedSet, ManagedSet, Managed, Window, Multiple,
      Split, Elements;
    HeapRunAligned(s);
    panicked := heap.Init(StartAddress(s), HEAP_SIZE);
    ChainKept(fa, old(fa.ram.cells), s, HEAP_FRAMES);
  }

  /** Writes inside a run of owned frames keep the allocator's free list. */
  lemma ChainKept(fa: FrameAllocator, before: Cells, s: int, count: nat)
    requires fa.ram.Valid() && Populated(before) && WellFormed(fa.pool) && fa.Partitioned()
    requires Chained(before, fa.freeList, fa.free) && Span(s, count) <= fa.owned
    requires forall x :: 0 <= x < ADDRESS_SPACE && !(StartAddress(s) <= x < StartAddress(s + count)) ==>
      fa.ram.cells[x] == before[x]
    ensures Chained(fa.ram.cells, fa.freeList, fa.free)
  {
    hide Span;
    FreeOutside(PassedSet(fa.pool, fa.cursorRegion, fa.cursorFrame), fa.owned, fa.free, fa.skipped, s, count);
    forall k | 0 <= k < |fa.free| ensures 0 <= fa.free[k] < MAX_FRAME_INDEX {
      assert fa.free[k] in Elements(fa.free);
    }
    ChainedFrame(before, fa.ram.cells, fa.freeList, fa.free);
  }

  /** Free frames lie outside any run of owned frames. */
  lemma FreeOutside(passed: set<int>, owned: set<int>, free: seq<int>, skipped: set<int>, s: int, count: nat)
    requires Split(passed, owned, Elements(free), skipped) && Span(s, count) <= owned
    ensures forall k :: 0 <= k < |free| ==>
      StartAddress(free[k]) < StartAddress(s) || StartAddress(s + count) <= StartAddress(free[k])
  {
    forall k | 0 <= k < |free| ensures free[k] < s || s + count <= free[k] {
      assert free[k] in Elements(free);
      assert free[k] !in Span(s, count);
    }
  }

  lemma HeapRunAligned(s: int)
    requires 0 <= s
    ensures Multiple(FreeList.ALIGN, StartAddress(s)) && Multiple(FreeList.ALIGN, HEAP_SIZE)
  {
    MultipleOf8(512 * s);
    MultipleOf8(0x2_0000);
  }

  /** Frame `i` holds no byte of the kernel image, and it is mapped to itself exactly
      when it lies below the cap. */
  ghost predicate Placed(cells: Cells, cr3: int, kernelStart: int, kernelEnd: int, i: int)
    requires Populated(cells) && 0 <= cr3 < ADDRESS_SPACE
  {
    !Touches(kernelStart, kernelEnd, i) && (SelfMapped(cells, cr3, i) <==> StartAddress(i + 1) <= MAP_CAP)
  }

  /** Writes confined to a run of other frames keep the map. */
  lemma MapKeptBeside(before: Cells, after: Cells, directory: int, tables: seq<int>, guard: int, s: int, count: nat)
    requires Paging.MapBuilt(before, directory, tables, guard) && Populated(after)
    requires forall i :: i in [directory] + tables ==> i !in Span(s, count)
    requires forall x :: 0 <= x < ADDRESS_SPACE && !(StartAddress(s) <= x < StartAddress(s + count)) ==>
      after[x] == before[x]
    ensures Paging.MapBuilt(after, directory, tables, guard)
  {
    forall i | i in [directory] + tables ensures Paging.FrameKept(before, after, i) {
      assert i < s || s + count <= i;
    }
    assert directory in [directory] + tables && forall k :: 0 <= k < |tables| ==> tables[k] in [directory] + tables;
    Paging.MapKept(before, after, directory, tables, guard);
  }

  /** Paging, then the heap, from any valid allocator state built from `map_`: the
      directory, the tables and the heap run are pairwise disjoint and avoid the kernel
      image; start-up faults exactly when the run it was given starts at or above the
      cap, and the kernel can reach all of the heap exactly when the run ends at or below
      it. */
  method BringUp(fa: FrameAllocator, heap: Heap, map_: seq<Region>, kernelStart: int, kernelEnd: int, guard: int)
    returns (paging: Paging.Report, heapReport: HeapReport,
             ghost directory: int, ghost tables: seq<int>, ghost s: int)
    requires fa.Valid() && heap.ram == fa.ram && Is64BitMap(map_)
    requires 0 <= kernelStart <= guard && guard + 4096 <= kernelEnd < ADDRESS_SPACE
    requires fa.pool == MakePool(map_, kernelStart, kernelEnd)
    modifies fa, fa.ram, heap
    ensures fa.Valid()
    ensures heapReport != NoRun ==> Span(s, HEAP_FRAMES) <= fa.owned
    ensures heapReport.Ready? ==>
      heap.Valid() && heap.heapStart == StartAddress(s) && heap.heapEnd == StartAddress(s + HEAP_FRAMES)
    ensures paging.Built? ==>
      && Paging.MapBuilt(fa.ram.cells, directory, tables, guard)
      && paging.cr3 == StartAddress(directory) < ADDRESS_SPACE
      && directory !in tables && NoDuplicates(tables)
      && (forall i :: i in [directory] + tables ==> Placed(fa.ram.cells, paging.cr3, kernelStart, kernelEnd, i))
    ensures paging.Built? && heapReport != NoRun ==>
      && (forall i :: i in [directory] + tables ==> i !in Span(s, HEAP_FRAMES))
      && (forall i :: i in Span(s, HEAP_FRAMES) ==> Placed(fa.ram.cells, paging.cr3, kernelStart, kernelEnd, i))
      && (heapReport == Faulted <==> StartAddress(s) >= MAP_CAP) && heapReport != Panicked
      && ((forall i :: i in Span(s, HEAP_FRAMES) ==> SelfMapped(fa.ram.cells, paging.cr3, i)) <==>
          StartAddress(s + HEAP_FRAMES) <= MAP_CAP)
    ensures paging == Paging.Failed && heapReport != NoRun ==>
      && heapReport != Faulted && (heapReport == Panicked <==> StartAddress(s + HEAP_FRAMES) == ADDRESS_SPACE)
  {
    hide Split, Elements, Chained, NoDuplicates, Disjoint, WellFormed, CursorOk, PassedSet, ManagedSet, Managed,
      AtOrAfter, SelfMapped, Touches, Window, Span, Paging.MapBuilt, Placed, Paging.Walk;
    paging, directory, tables := Paging.Init(fa, map_, guard);
    ghost var frames := [directory] + tables;
    ghost var cells := fa.ram.cells;
    if paging.Built? { MapRoot(cells, directory, tables, guard); }
    heapReport, s := InitHeap(fa, heap, paging);
    if paging.Built? {
      if heapReport != NoRun {
        WindowManaged(fa.pool, fa.cursorRegion, s, HEAP_FRAMES);
        FirstStore(cells, map_, kernelStart, kernelEnd, guard, directory, tables, s);
        MapKeptBeside(cells, fa.ram.cells, directory, tables, guard, s, HEAP_FRAMES);
        forall i | i in Span(s, HEAP_FRAMES) ensures Placed(fa.ram.cells, paging.cr3, kernelStart, kernelEnd, i) {
          ManagedIsPlaced(fa.ram.cells, map_, kernelStart, kernelEnd, guard, directory, tables, i);
        }
      }
      MapRoot(fa.ram.cells, directory, tables, guard);
      forall i | i in frames ensures Placed(fa.ram.cells, paging.cr3, kernelStart, kernelEnd, i) {
        ManagedIsPlaced(fa.ram.cells, map_, kernelStart, kernelEnd, guard, directory, tables, i);
      }
      if heapReport != NoRun {
        RunReached(fa.ram.cells, paging.cr3, kernelStart, kernelEnd, s);
      }
    }
  }

  /** The page a pool frame starts with is absent exactly at or above the cap. */
  lemma FirstStore(cells: Cells, map_: seq<Region>, kernelStart: int, kernelEnd: int, guard: int,
                   directory: int, tables: seq<int>, s: int)
    requires Is64BitMap(map_) && 0 <= kernelStart <= guard && guard + 4096 <= kernelEnd < ADDRESS_SPACE
    requires Paging.MapBuilt(cells, directory, tables, guard)
    requires 0x40_0000 * |tables| == Paging.MapEnd(Paging.UsableEnd(map_))
    requires Managed(MakePool(map_, kernelStart, kernelEnd), s)
    ensures 0 <= StartAddress(s) < ADDRESS_SPACE && Populated(cells) && 0 <= StartAddress(directory) < ADDRESS_SPACE
    ensures Paging.Walk(cells, StartAddress(directory), StartAddress(s)).NotPresent? <==> StartAddress(s) >= MAP_CAP
  {
    hide Paging.Walk, Paging.MapBuilt, Managed, SelfMapped, Paging.PageBase;
    MapRoot(cells, directory, tables, guard);
    ManagedInMemory(map_, kernelStart, kernelEnd, s);
    ManagedIsSelfMapped(cells, map_, kernelStart, kernelEnd, guard, directory, tables, s);
    Paging.WalkIsIdentity(cells, directory, tables, guard, StartAddress(s));
    if StartAddress(s) < MAP_CAP { SelfMappedStart(cells, StartAddress(directory), s); }
  }

  lemma SelfMappedStart(cells: Cells, cr3: int, i: int)
    requires Populated(cells) && 0 <= cr3 < ADDRESS_SPACE && 0 <= i < MAX_FRAME_INDEX && SelfMapped(cells, cr3, i)
    ensures Paging.Walk(cells, cr3, StartAddress(i)) == Paging.Mapped(StartAddress(i), true)
  {
    assert InFrame(i, StartAddress(i));
  }

  /** A placed run is mapped to itself as a whole exactly when it ends at or below the cap. */
  lemma RunReached(cells: Cells, cr3: int, kernelStart: int, kernelEnd: int, s: int)
    requires Populated(cells) && 0 <= cr3 < ADDRESS_SPACE
    requires forall i :: i in Span(s, HEAP_FRAMES) ==> Placed(cells, cr3, kernelStart, kernelEnd, i)
    ensures (forall i :: i in Span(s, HEAP_FRAMES) ==> SelfMapped(cells, cr3, i)) <==>
      StartAddress(s + HEAP_FRAMES) <= MAP_CAP
  {
    hide SelfMapped, Touches, Span;
    assert s + HEAP_FRAMES - 1 in Span(s, HEAP_FRAMES);
  }

  lemma ManagedIsPlaced(cells: Cells, map_: seq<Region>, kernelStart: int, kernelEnd: int, guard: int,
                        directory: int, tables: seq<int>, i: int)
    requires Is64BitMap(map_) && 0 <= kernelStart <= guard && guard + 4096 <= kernelEnd < ADDRESS_SPACE
    requires Paging.MapBuilt(cells, directory, tables, guard)
    requires 0x40_0000 * |tables| == Paging.MapEnd(Paging.UsableEnd(map_))
    requires Managed(MakePool(map_, kernelStart, kernelEnd), i)
    ensures Placed(cells, StartAddress(directory), kernelStart, kernelEnd, i)
  {
    ManagedIsSafe(map_, kernelStart, kernelEnd, i);
    ManagedIsSelfMapped(cells, map_, kernelStart, kernelEnd, guard, directory, tables, i);
  }

  /** After start-up, no run of heap operations and client stores harms the page map or
      the frame allocator. */
  method RunHeap(fa: FrameAllocator, heap: Heap, ops: seq<HeapRuns.Op>,
                 ghost directory: int, ghost tables: seq<int>, ghost guard: int, ghost s: int)
    requires fa.Valid() && heap.Valid() && heap.ram == fa.ram && Span(s, HEAP_FRAMES) <= fa.owned
    requires heap.heapStart == StartAddress(s) && heap.heapEnd == StartAddress(s + HEAP_FRAMES)
    requires Paging.MapBuilt(fa.ram.cells, directory, tables, guard)
    requires forall i :: i in [directory] + tables ==> i !in Span(s, HEAP_FRAMES)
    requires HeapRuns.AllPermitted(heap.live, heap.heapStart, heap.heapEnd, ops)
    modifies heap, fa.ram
    ensures fa.Valid() && heap.Valid() && Paging.MapBuilt(fa.ram.cells, directory, tables, guard)
    ensures heap.heapStart == old(heap.heapStart) && heap.heapEnd == old(heap.heapEnd)
    ensures heap.live == HeapRuns.RunLive(old(heap.live), heap.heapStart, heap.heapEnd, ops)
    ensures forall x :: 0 <= x < ADDRESS_SPACE && 0 <= StartAddress(directory) < ADDRESS_SPACE ==>
      Paging.Walk(fa.ram.cells, StartAddress(directory), x) == Paging.Walk(old(fa.ram.cells), StartAddress(directory), x)
  {
    hide Chained, NoDuplicates, Disjoint, WellFormed, CursorOk, PassedSet, ManagedSet, Managed, Split, Elements, Span,
      Paging.MapBuilt, Paging.Walk, Paging.Expected;
    ghost var cells := fa.ram.cells;
    HeapRuns.Run(heap, ops);
    MapKeptBeside(cells, fa.ram.cells, directory, tables, guard, s, HEAP_FRAMES);
    ChainKept(fa, cells, s, HEAP_FRAMES);
    forall x | 0 <= x < ADDRESS_SPACE && 0 <= StartAddress(directory) < ADDRESS_SPACE
      ensures Paging.Walk(fa.ram.cells, StartAddress(directory), x) == Paging.Walk(cells, StartAddress(directory), x)
    {
      Paging.WalkIsIdentity(cells, directory, tables, guard, x);
      Paging.WalkIsIdentity(fa.ram.cells, directory, tables, guard, x);
    }
  }

  // ---------- A heap the kernel cannot reach ----------

  /** 1100 low frames, just enough for the page tables, and the last 2 MiB below 4 GiB. */
  const HIGH: seq<Region> := [Region(0x10_0000, 0x44_c000, true), Region(0xffe0_0000, 0x20_0000, true)]

  const HIGH_REGIONS: seq<FrameRange> := [FrameRange(256, 1356), FrameRange(0xf_fe00, 0x10_0000)]

  lemma HighPool()
    ensures Is64BitMap(HIGH) && DisjointMap(HIGH)
    ensures Paging.UsableEnd(HIGH) == ADDRESS_SPACE && Paging.MapEnd(ADDRESS_SPACE) == 0x40_0000 * 1023
    ensures var pool := MakePool(HIGH, 0x8000, 0xa000);
      pool.regions == HIGH_REGIONS && forall i :: 256 <= i ==> !Reserved(pool, i)
  {
    assert UsableRanges(HIGH[1..][1..]) == [];
    assert UsableRanges(HIGH[1..]) == [FrameRange(0xf_fe00, 0x10_0000)];
    assert HIGH[..1] == [HIGH[0]] && HIGH[..1][..0] == [];
    assert Paging.UsableEnd(HIGH[..1]) == 0x54_c000;
  }

  lemma HighFrame(pool: Pool, i: int)
    requires pool.regions == HIGH_REGIONS && 256 <= i < 1356 && !Reserved(pool, i)
    ensures i in ManagedSet(pool) && i !in PassedSet(pool, 0, 256)
  {
    assert InRegion(pool, 0, i);
  }

  /** Every frame of the low region is allocatable. */
  lemma HighManaged(pool: Pool)
    requires pool.regions == HIGH_REGIONS && forall i :: 256 <= i ==> !Reserved(pool, i)
    ensures |ManagedSet(pool) - PassedSet(pool, 0, 256)| >= 1100
    ensures Window(pool, 1, 0xf_fe00, HEAP_FRAMES)
  {
    hide Span, PassedSet, ManagedSet, Reserved;
    forall i | i in Span(256, 1100) ensures i in ManagedSet(pool) - PassedSet(pool, 0, 256) { HighFrame(pool, i); }
    Larger(Span(256, 1100), ManagedSet(pool) - PassedSet(pool, 0, 256));
  }

  lemma Larger(a: set<int>, b: set<int>)
    requires a <= b
    ensures |a| <= |b|
  {
    assert b == a + (b - a);
  }

  /** Once 1024 frames are passed, too few low ones are left for a heap. */
  lemma HighCursor(pool: Pool, c: int, f: int)
    requires pool.regions == HIGH_REGIONS && forall i :: 256 <= i ==> !Reserved(pool, i)
    requires CursorOk(pool, c, f) && |PassedSet(pool, c, f)| == 1024
    ensures c == 0 && f == 1280
  {
    hide Span, PassedSet, Reserved;
    if c == 0 {
      forall i ensures i in PassedSet(pool, 0, f) <==> i in Span(256, f - 256) { LowPassed(pool, 0, f, i); }
      assert PassedSet(pool, 0, f) == Span(256, f - 256);
    } else {
      forall i | i in Span(256, 1100) ensures i in PassedSet(pool, c, f) { LowPassed(pool, c, f, i); }
      Larger(Span(256, 1100), PassedSet(pool, c, f));
    }
  }

  lemma LowPassed(pool: Pool, c: int, f: int, i: int)
    requires pool.regions == HIGH_REGIONS && forall i :: 256 <= i ==> !Reserved(pool, i)
    ensures c == 0 && f <= 1356 ==> (i in PassedSet(pool, c, f) <==> 256 <= i < f)
    ensures c > 0 && 256 <= i < 1356 ==> i in PassedSet(pool, c, f)
  {
    assert InRegion(pool, 0, i) <==> 256 <= i < 1356;
  }

  lemma HighRun(pool: Pool, q: int, t: int)
    requires pool.regions == HIGH_REGIONS && Window(pool, q, t, HEAP_FRAMES) && AtOrAfter(0, 1280, q, t)
    ensures q == 1 && 0xf_fe00 <= t
  {
  }

  lemma AllOwned(passed: set<int>, owned: set<int>)
    requires Split(passed, owned, Elements([]), {})
    ensures passed == owned
  {
  }

  /** On this map paging succeeds and the heap is given a run of which no frame is mapped:
      its first store faults. */
  method HeapAboveMap(ram: Ram) returns (report: HeapReport, ghost cr3: int)
    requires ram.Valid()
    modifies ram
    ensures report == Faulted && Populated(ram.cells) && 0 <= cr3 < ADDRESS_SPACE
    ensures forall i :: i in Span(0xf_fe00, HEAP_FRAMES) ==> !SelfMapped(ram.cells, cr3, i)
  {
    hide Split, Elements, Chained, NoDuplicates, Disjoint, WellFormed, CursorOk, PassedSet, ManagedSet, Managed, MakePool,
      SelfMapped, Touches, Window, Span, Reserved, Paging.Walk, Paging.MapBuilt, Paging.UsableEnd, Paging.MapEnd, HIGH, Is64BitMap;
    HighPool();
    var fa := new FrameAllocator(ram, HIGH, 0x8000, 0xa000);
    var heap := new Heap(ram);
    HighManaged(fa.pool);
    ghost var directory, tables, s;
    var paging;
    paging, directory, tables := Paging.Init(fa, HIGH, 0x8000);
    AllTaken(fa, directory, tables);
    HighCursor(fa.pool, fa.cursorRegion, fa.cursorFrame);
    ghost var cells := fa.ram.cells;
    MapRoot(cells, directory, tables, 0x8000);
    report, s := InitHeap(fa, heap, paging);
    HighRun(fa.pool, fa.cursorRegion, s);
    WindowManaged(fa.pool, fa.cursorRegion, s, HEAP_FRAMES);
    FirstStore(cells, HIGH, 0x8000, 0xa000, 0x8000, directory, tables, s);
    forall i | i in Span(0xf_fe00, HEAP_FRAMES) ensures !SelfMapped(fa.ram.cells, StartAddress(directory), i) {
      ManagedIsSelfMapped(fa.ram.cells, HIGH, 0x8000, 0xa000, 0x8000, directory, tables, i);
    }
    cr3 := StartAddress(directory);
  }

  /** With an empty free list and nothing skipped, the passed frames are the owned ones. */
  lemma AllTaken(fa: FrameAllocator, directory: int, tables: seq<int>)
    requires fa.Valid() && fa.free == [] && fa.skipped == {} && Paging.Taken(fa.pool, {}, fa.owned, directory, tables)
    ensures |PassedSet(fa.pool, fa.cursorRegion, fa.cursorFrame)| == 1 + |tables|
    ensures forall i :: i in [directory] + tables ==> i in fa.owned
    ensures CursorOk(fa.pool, fa.cursorRegion, fa.cursorFrame)
  {
    hide PassedSet, ManagedSet, Managed, Chained, Disjoint, WellFormed, NoDuplicates;
    AllOwned(PassedSet(fa.pool, fa.cursorRegion, fa.cursorFrame), fa.owned);
  }
}
