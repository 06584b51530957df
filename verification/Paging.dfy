/** 32-bit non-PAE paging: what the processor reads from a page directory
    (the 32-bit paging section of the Intel SDM, volume 3A), and the identity
    map with one hole that the kernel builds from allocator frames. */
module Paging {
  import opened Machine
  import opened Frames
  import opened FrameAllocator
  import opened Sequences

  const KERNEL_PAGE: int := 3  // PRESENT | WRITABLE

  // ---------- The walk ----------

  datatype Translation = NotPresent | Mapped(phys: int, writable: bool)

  predicate Present(entry: int) { entry % 2 == 1 }

  predicate Writable(entry: int) { entry / 2 % 2 == 1 }

  /** The frame address held in bits 31:12 of an entry. */
  function FrameOf(entry: int): int { entry / 4096 * 4096 }

  function DirectoryIndex(virt: int): int { virt / 0x40_0000 }

  function TableIndex(virt: int): int { virt % 0x40_0000 / 4096 }

  function PageOffset(virt: int): int { virt % 4096 }

  /** The page containing `virt`. */
  function PageBase(virt: int): int { virt / 4096 * 4096 }

  /** What the processor makes of linear address `virt`. */
  function Walk(cells: Cells, cr3: int, virt: int): Translation
    requires Populated(cells) && 0 <= cr3 < ADDRESS_SPACE && 0 <= virt < ADDRESS_SPACE
  {
    var pde := cells[FrameOf(cr3) + 4 * DirectoryIndex(virt)];
    if !Present(pde) then NotPresent
    else
      var pte := cells[FrameOf(pde) + 4 * TableIndex(virt)];
      if !Present(pte) then NotPresent
      else Mapped(FrameOf(pte) + PageOffset(virt), Writable(pde) && Writable(pte))
  }

  /** The kernel's own query of the active tables. */
  predicate IsPresent(cells: Cells, cr3: int, virt: int)
    requires Populated(cells) && 0 <= cr3 < ADDRESS_SPACE && 0 <= virt < ADDRESS_SPACE
  {
    if cr3 == 0 then false
    else
      var pde := cells[FrameOf(cr3) + 4 * DirectoryIndex(virt)];
      if !Present(pde) then false
      else Present(cells[FrameOf(pde) + 4 * TableIndex(virt)])
  }

  // ---------- Table contents ----------

  /** Entry `p` of table `t`: the page at its own address, or nothing for the guard page. */
  function PageEntry(t: int, p: int, guard: int): int {
    var phys := 0x40_0000 * t + 4096 * p;
    if phys == guard then 0 else phys + KERNEL_PAGE
  }

  ghost predicate TableBuilt(cells: Cells, frame: int, t: int, guard: int)
    requires Populated(cells) && 0 <= frame < MAX_FRAME_INDEX
  {
    forall p :: 0 <= p < 1024 ==> cells[StartAddress(frame) + 4 * p] == PageEntry(t, p, guard)
  }

  function DirectoryEntry(tables: seq<int>, k: int): int
    requires 0 <= k
  {
    if k < |tables| then StartAddress(tables[k]) + KERNEL_PAGE else 0
  }

  ghost predicate DirectoryBuilt(cells: Cells, directory: int, tables: seq<int>)
    requires Populated(cells) && 0 <= directory < MAX_FRAME_INDEX
  {
    forall k :: 0 <= k < 1024 ==> cells[StartAddress(directory) + 4 * k] == DirectoryEntry(tables, k)
  }

  /** A directory and its tables in distinct frames, identity-mapping all but the guard page. */
  ghost predicate MapBuilt(cells: Cells, directory: int, tables: seq<int>, guard: int) {
    && Populated(cells) && 0 <= directory < MAX_FRAME_INDEX && |tables| < 1024
    && (forall k :: 0 <= k < |tables| ==> 0 <= tables[k] < MAX_FRAME_INDEX)
    && DirectoryBuilt(cells, directory, tables)
    && (forall k :: 0 <= k < |tables| ==> TableBuilt(cells, tables[k], k, guard))
  }

  lemma KernelEntry(frame: int)
    requires 0 <= frame
    ensures Present(StartAddress(frame) + KERNEL_PAGE) && Writable(StartAddress(frame) + KERNEL_PAGE)
    ensures FrameOf(StartAddress(frame) + KERNEL_PAGE) == StartAddress(frame) == FrameOf(StartAddress(frame))
  {
  }

  ghost function Expected(mappedEnd: int, guard: int, virt: int): Translation {
    if virt < mappedEnd && PageBase(virt) != guard then Mapped(virt, true) else NotPresent
  }

  /** The directory index, table index and offset of a linear address. */
  lemma AddressParts(virt: int, n: int)
    requires 0 <= virt < ADDRESS_SPACE
    ensures 0 <= DirectoryIndex(virt) < 1024 && 0 <= TableIndex(virt) < 1024
    ensures 0x40_0000 * DirectoryIndex(virt) + 4096 * TableIndex(virt) == PageBase(virt)
    ensures PageBase(virt) + PageOffset(virt) == virt
    ensures DirectoryIndex(virt) < n <==> virt < 0x40_0000 * n
  {
    var t, r := virt / 0x40_0000, virt % 0x40_0000;
    var p, o := r / 4096, r % 4096;
    assert virt == 4096 * (1024 * t + p) + o;
    assert virt / 4096 == 1024 * t + p;
  }

  /** Walking a built map is the identity below its end, except in the guard page. */
  lemma WalkIsIdentity(cells: Cells, directory: int, tables: seq<int>, guard: int, virt: int)
    requires MapBuilt(cells, directory, tables, guard) && 0 <= virt < ADDRESS_SPACE
    ensures Walk(cells, StartAddress(directory), virt) == Expected(0x40_0000 * |tables|, guard, virt)
  {
    assert !Present(0);
    hide Present, Writable, FrameOf, DirectoryIndex, TableIndex, PageOffset, PageBase;
    KernelEntry(directory);
    AddressParts(virt, |tables|);
    var t, p := DirectoryIndex(virt), TableIndex(virt);
    assert cells[StartAddress(directory) + 4 * t] == DirectoryEntry(tables, t);
    if t < |tables| {
      KernelEntry(tables[t]);
      KernelEntry(1024 * t + p);
      assert cells[StartAddress(tables[t]) + 4 * p] == PageEntry(t, p, guard);
      assert StartAddress(1024 * t + p) == PageBase(virt);
    }
  }

  /** `is_present` answers exactly what the walk of a built map does. */
  lemma IsPresentExact(cells: Cells, directory: int, tables: seq<int>, guard: int, virt: int)
    requires MapBuilt(cells, directory, tables, guard) && 0 < directory && 0 <= virt < ADDRESS_SPACE
    ensures IsPresent(cells, StartAddress(directory), virt) <==>
      virt < 0x40_0000 * |tables| && PageBase(virt) != guard
    ensures !IsPresent(cells, 0, virt)
  {
    WalkIsIdentity(cells, directory, tables, guard, virt);
  }

  // ---------- How far to map ----------

  /** The highest usable byte below 4 GiB, exclusive. */
  function UsableEnd(map_: seq<Region>): int {
    if map_ == [] then 0
    else
      var rest := UsableEnd(map_[..|map_| - 1]);
      var last := map_[|map_| - 1];
      var end := if last.End() < ADDRESS_SPACE then last.End() else ADDRESS_SPACE;
      if last.usable && rest < end then end else rest
  }

  /** Rounded up to whole tables, capped at the last table boundary below 4 GiB. */
  function MapEnd(end: int): int {
    var rounded := (end + 0x3f_ffff) / 0x40_0000 * 0x40_0000;
    if rounded < 0xffc0_0000 then rounded else 0xffc0_0000
  }

  method IdentityMapEnd(map_: seq<Region>) returns (mappedEnd: int)
    ensures mappedEnd == MapEnd(UsableEnd(map_))
  {
    var end := 0;
    for k := 0 to |map_|
      invariant end == UsableEnd(map_[..k])
    {
      assert map_[..k + 1][..k] == map_[..k];
      if map_[k].usable {
        var top := if map_[k].End() < ADDRESS_SPACE then map_[k].End() else ADDRESS_SPACE;
        end := if top > end then top else end;
      }
    }
    assert map_[..|map_|] == map_;
    if end == 0 {
      return 0;
    }
    mappedEnd := MapEnd(end);
  }

  /** Where a region ends as far as this machine can address it. */
  function CappedEnd(region: Region): int {
    if region.base + region.length < 0x1_0000_0000 then region.base + region.length else 0x1_0000_0000
  }

  /** Some usable region reaches the end. */
  lemma {:induction false} UsableEndAttained(map_: seq<Region>) returns (k: int)
    requires UsableEnd(map_) != 0
    ensures 0 <= k < |map_| && map_[k].usable && CappedEnd(map_[k]) == UsableEnd(map_)
    decreases |map_|
  {
    var n := |map_| - 1;
    if map_[n].usable && UsableEnd(map_[..n]) < CappedEnd(map_[n]) {
      k := n;
    } else {
      k := UsableEndAttained(map_[..n]);
    }
  }

  /** The map ends at the first table boundary that covers all usable memory, or at the
      cap: everything usable below the cap is inside, and the last table is needed. */
  lemma MapEndExact(map_: seq<Region>)
    requires Is64BitMap(map_)
    ensures var end := MapEnd(UsableEnd(map_));
      && end % 0x40_0000 == 0 && 0 <= end <= 0xffc0_0000
      && (forall k :: 0 <= k < |map_| && map_[k].usable ==> CappedEnd(map_[k]) <= end || end == 0xffc0_0000)
      && (end != 0 ==> exists k :: 0 <= k < |map_| && map_[k].usable && end - 0x40_0000 < CappedEnd(map_[k]))
  {
    UsableEndRange(map_);
    var e, end := UsableEnd(map_), MapEnd(UsableEnd(map_));
    forall k | 0 <= k < |map_| && map_[k].usable ensures CappedEnd(map_[k]) <= e {
      UsableEndCovers(map_, k);
    }
    if end != 0 {
      var k := UsableEndAttained(map_);
      assert map_[k].usable && end - 0x40_0000 < CappedEnd(map_[k]);
    }
  }

  lemma {:induction false} UsableEndCovers(map_: seq<Region>, k: int)
    requires Is64BitMap(map_) && 0 <= k < |map_| && map_[k].usable
    ensures CappedEnd(map_[k]) <= UsableEnd(map_)
    ensures 0 <= UsableEnd(map_) <= ADDRESS_SPACE
    decreases |map_|
  {
    UsableEndRange(map_);
    UsableEndRange(map_[..|map_| - 1]);
    if k < |map_| - 1 { UsableEndCovers(map_[..|map_| - 1], k); }
  }

  lemma {:induction false} UsableEndRange(map_: seq<Region>)
    requires Is64BitMap(map_)
    ensures 0 <= UsableEnd(map_) <= ADDRESS_SPACE
    decreases |map_|
  {
    if map_ != [] { UsableEndRange(map_[..|map_| - 1]); }
  }

  /** Every allocatable frame below the cap lies below the end of the map. */
  lemma ManagedIsCovered(map_: seq<Region>, kernelStart: int, kernelEnd: int, i: int)
    requires Is64BitMap(map_) && 0 <= kernelStart < kernelEnd < ADDRESS_SPACE
    requires Managed(MakePool(map_, kernelStart, kernelEnd), i) && StartAddress(i + 1) <= 0xffc0_0000
    ensures StartAddress(i + 1) <= MapEnd(UsableEnd(map_))
  {
    ManagedIsSafe(map_, kernelStart, kernelEnd, i);
    var k :| UsableByte(map_, k, 4096 * i) && 4096 * (i + 1) <= map_[k].base + map_[k].length;
    UsableEndCovers(map_, k);
  }

  // ---------- Building the map ----------

  /** Memory outside one frame is unchanged. */
  ghost predicate SameOutsideFrame(before: Cells, after: Cells, frame: int) {
    && Populated(before) && Populated(after)
    && (forall x :: 0 <= x < ADDRESS_SPACE && !InFrame(frame, x) ==> after[x] == before[x])
  }

  ghost predicate Zeroed(cells: Cells, frame: int)
    requires Populated(cells) && 0 <= frame < MAX_FRAME_INDEX
  {
    forall k :: 0 <= k < 1024 ==> cells[StartAddress(frame) + 4 * k] == 0
  }

  /** Takes one frame and wipes it. */
  method AllocateZeroed(fa: FrameAllocator) returns (r: Option<int>)
    requires fa.Valid()
    modifies fa, fa.ram
    ensures fa.Valid() && fa.skipped == old(fa.skipped) && (old(fa.free) == [] ==> fa.free == [])
    ensures if old(fa.Available()) == 0 then r.None? else r.Some? && fa.Available() == old(fa.Available()) - 1
    ensures r.None? ==> fa.owned == old(fa.owned) && fa.ram.cells == old(fa.ram.cells)
    ensures r.Some? ==>
      && 0 < r.value < MAX_FRAME_INDEX && Managed(fa.pool, r.value)
      && r.value !in old(fa.owned) && fa.owned == old(fa.owned) + {r.value}
      && Zeroed(fa.ram.cells, r.value) && SameOutsideFrame(old(fa.ram.cells), fa.ram.cells, r.value)
  {
    hide Split, Elements, Chained, Disjoint, WellFormed, CursorOk, PassedSet, ManagedSet;
    r := fa.Allocate();
    if r.Some? {
      Wipe(fa, r.value);
    }
  }

  /** Overwrites one owned frame with zeros. */
  method Wipe(fa: FrameAllocator, frame: int)
    requires fa.Valid() && frame in fa.owned && 0 <= frame < MAX_FRAME_INDEX
    modifies fa.ram
    ensures fa.Valid() && Zeroed(fa.ram.cells, frame)
    ensures SameOutsideFrame(old(fa.ram.cells), fa.ram.cells, frame)
  {
    hide Split, Elements, Chained, Disjoint, WellFormed, CursorOk, PassedSet, ManagedSet;
    for k := 0 to 1024
      invariant fa.Valid()
      invariant forall j :: 0 <= j < k ==> fa.ram.cells[StartAddress(frame) + 4 * j] == 0
      invariant SameOutsideFrame(old(fa.ram.cells), fa.ram.cells, frame)
    {
      fa.Store(frame, k, 0);
    }
  }

  /** Fills a zeroed table with 4 MiB of identity map, leaving out the guard page. */
  method FillTable(fa: FrameAllocator, table: int, t: int, guard: int)
    requires fa.Valid() && table in fa.owned && 0 <= table < MAX_FRAME_INDEX && 0 <= t < 1023
    requires Zeroed(fa.ram.cells, table)
    modifies fa.ram
    ensures fa.Valid() && TableBuilt(fa.ram.cells, table, t, guard)
    ensures SameOutsideFrame(old(fa.ram.cells), fa.ram.cells, table)
  {
    hide Split, Elements, Chained, Disjoint, WellFormed, CursorOk, PassedSet, ManagedSet;
    var base := t * 0x40_0000;
    for p := 0 to 1024
      invariant fa.Valid()
      invariant forall q :: 0 <= q < p ==> fa.ram.cells[StartAddress(table) + 4 * q] == PageEntry(t, q, guard)
      invariant forall q :: p <= q < 1024 ==> fa.ram.cells[StartAddress(table) + 4 * q] == 0
      invariant SameOutsideFrame(old(fa.ram.cells), fa.ram.cells, table)
    {
      var phys := base + p * 4096;
      if phys == guard {
        continue;
      }
      fa.Store(table, p, phys + KERNEL_PAGE);
    }
  }

  /** One frame's contents are unchanged. */
  ghost predicate FrameKept(before: Cells, after: Cells, frame: int) {
    && Populated(before) && Populated(after)
    && (forall x :: 0 <= x < ADDRESS_SPACE && InFrame(frame, x) ==> after[x] == before[x])
  }

  lemma TableKept(before: Cells, after: Cells, frame: int, t: int, guard: int)
    requires FrameKept(before, after, frame) && 0 <= frame < MAX_FRAME_INDEX
    requires TableBuilt(before, frame, t, guard)
    ensures TableBuilt(after, frame, t, guard)
  {
    forall p | 0 <= p < 1024 ensures after[StartAddress(frame) + 4 * p] == PageEntry(t, p, guard) {
      assert InFrame(frame, StartAddress(frame) + 4 * p);
    }
  }

  /** A map survives writes to other frames. */
  lemma MapKept(before: Cells, after: Cells, directory: int, tables: seq<int>, guard: int)
    requires MapBuilt(before, directory, tables, guard) && FrameKept(before, after, directory)
    requires forall k :: 0 <= k < |tables| ==> FrameKept(before, after, tables[k])
    ensures MapBuilt(after, directory, tables, guard)
  {
    forall k | 0 <= k < 1024 ensures after[StartAddress(directory) + 4 * k] == DirectoryEntry(tables, k) {
      assert before[StartAddress(directory) + 4 * k] == DirectoryEntry(tables, k);
      assert InFrame(directory, StartAddress(directory) + 4 * k);
    }
    forall k | 0 <= k < |tables| ensures TableBuilt(after, tables[k], k, guard) {
      TableKept(before, after, tables[k], k, guard);
    }
  }

  lemma MapKeptOutside(before: Cells, after: Cells, edited: int, directory: int, tables: seq<int>, guard: int)
    requires MapBuilt(before, directory, tables, guard) && SameOutsideFrame(before, after, edited)
    requires edited != directory && edited !in tables
    ensures MapBuilt(after, directory, tables, guard)
  {
    OtherFrameKept(before, after, edited, directory);
    forall k | 0 <= k < |tables| ensures FrameKept(before, after, tables[k]) {
      OtherFrameKept(before, after, edited, tables[k]);
    }
    MapKept(before, after, directory, tables, guard);
  }

  lemma OtherFrameKept(before: Cells, after: Cells, edited: int, frame: int)
    requires SameOutsideFrame(before, after, edited) && frame != edited
    ensures FrameKept(before, after, frame)
  {
  }

  /** Hooking a filled table into the next directory slot extends the map. */
  lemma MapExtended(before: Cells, directory: int, tables: seq<int>, guard: int, table: int)
    requires MapBuilt(before, directory, tables, guard) && |tables| < 1023
    requires 0 <= table < MAX_FRAME_INDEX && table != directory && directory !in tables
    requires TableBuilt(before, table, |tables|, guard)
    ensures var slot := StartAddress(directory) + 4 * |tables|;
      MapBuilt(before[slot := StartAddress(table) + KERNEL_PAGE], directory, tables + [table], guard)
  {
    var slot := StartAddress(directory) + 4 * |tables|;
    var after := before[slot := StartAddress(table) + KERNEL_PAGE];
    var tables' := tables + [table];
    forall k | 0 <= k < 1024 ensures after[StartAddress(directory) + 4 * k] == DirectoryEntry(tables', k) {
      assert before[StartAddress(directory) + 4 * k] == DirectoryEntry(tables, k);
    }
    forall k | 0 <= k < |tables'| ensures TableBuilt(after, tables'[k], k, guard) {
      assert k < |tables| ==> tables[k] != directory;
      OtherFrameKept(before, after, directory, tables'[k]);
      TableKept(before, after, tables'[k], k, guard);
    }
  }

  datatype Report = Failed | Built(cr3: int, mappedEnd: int, pageTables: int)

  /** The directory and the tables are distinct frames of the pool taken since `before`. */
  ghost predicate Taken(pool: Pool, before: set<int>, owned: set<int>, directory: int, tables: seq<int>) {
    && before <= owned && |owned| == |before| + 1 + |tables|
    && directory !in tables && NoDuplicates(tables)
    && (forall i :: i in [directory] + tables ==> Managed(pool, i) && i in owned && i !in before)
  }

  lemma TakenFirst(pool: Pool, before: set<int>, directory: int)
    requires Managed(pool, directory) && directory !in before
    ensures Taken(pool, before, before + {directory}, directory, [])
  {
  }

  lemma TakenMore(pool: Pool, before: set<int>, owned: set<int>, directory: int, tables: seq<int>, table: int)
    requires Taken(pool, before, owned, directory, tables) && Managed(pool, table) && table !in owned
    ensures Taken(pool, before, owned + {table}, directory, tables + [table])
  {
    hide Managed;
    assert forall i :: i in tables ==> i in [directory] + tables;
    assert directory in [directory] + tables;
  }

  lemma TakenOwned(pool: Pool, before: set<int>, owned: set<int>, directory: int, tables: seq<int>)
    requires Taken(pool, before, owned, directory, tables)
    ensures before <= owned && directory in owned && directory !in tables && forall i :: i in tables ==> i in owned
  {
    assert directory in [directory] + tables && forall i :: i in tables ==> i in [directory] + tables;
  }

  /** Builds the identity map from freshly allocated frames. Frames taken before a
      failure stay allocated. */
  method Init(fa: FrameAllocator, map_: seq<Region>, guard: int)
    returns (report: Report, ghost directory: int, ghost tables: seq<int>)
    requires fa.Valid() && Is64BitMap(map_) && 0 <= guard < ADDRESS_SPACE
    modifies fa, fa.ram
    ensures fa.Valid() && old(fa.owned) <= fa.owned
    ensures fa.skipped == old(fa.skipped) && (old(fa.free) == [] ==> fa.free == [])
    ensures report == Failed <==>
      UsableEnd(map_) == 0 || old(fa.Available()) < 1 + MapEnd(UsableEnd(map_)) / 0x40_0000
    ensures report.Built? ==>
      && report.mappedEnd == MapEnd(UsableEnd(map_)) == 0x40_0000 * |tables| && report.pageTables == |tables|
      && MapBuilt(fa.ram.cells, directory, tables, guard) && report.cr3 == StartAddress(directory) > 0
      && Taken(fa.pool, old(fa.owned), fa.owned, directory, tables)
  {
    hide MapBuilt, Zeroed, Managed, SameOutsideFrame, Taken, UsableEnd;
    hide Split, Elements, Chained, Disjoint, WellFormed, CursorOk, PassedSet, ManagedSet, NoDuplicates,
      FrameAllocator.Available;
    UsableEndRange(map_);
    directory, tables := 0, [];
    var mappedEnd := IdentityMapEnd(map_);
    if mappedEnd == 0 {
      return Failed, directory, tables;
    }
    var dir := AllocateZeroed(fa);
    if dir.None? {
      return Failed, directory, tables;
    }
    directory := dir.value;
    EmptyMap(fa.ram.cells, directory, guard);
    TakenFirst(fa.pool, old(fa.owned), directory);
    var built;
    built, tables := BuildTables(fa, dir.value, mappedEnd / 0x40_0000, guard, old(fa.owned));
    if !built {
      return Failed, directory, tables;
    }
    return Built(StartAddress(dir.value), mappedEnd, mappedEnd / 0x40_0000), directory, tables;
  }

  /** The loop of the construction: `count` tables, or as many as there are frames for. */
  method BuildTables(fa: FrameAllocator, directory: int, count: nat, guard: int, ghost before: set<int>)
    returns (built: bool, ghost tables: seq<int>)
    requires fa.Valid() && MapBuilt(fa.ram.cells, directory, [], guard) && count <= 1023
    requires Taken(fa.pool, before, fa.owned, directory, [])
    modifies fa, fa.ram
    ensures fa.Valid() && before <= fa.owned
    ensures fa.skipped == old(fa.skipped) && (old(fa.free) == [] ==> fa.free == [])
    ensures built <==> old(fa.Available()) >= count
    ensures built ==>
      && |tables| == count && MapBuilt(fa.ram.cells, directory, tables, guard)
      && Taken(fa.pool, before, fa.owned, directory, tables)
  {
    hide MapBuilt, Managed, Taken;
    hide Split, Elements, Chained, Disjoint, WellFormed, CursorOk, PassedSet, ManagedSet, NoDuplicates,
      FrameAllocator.Available;
    tables := [];
    for t := 0 to count
      invariant fa.Valid() && fa.Available() + t == old(fa.Available())
      invariant fa.skipped == old(fa.skipped) && (old(fa.free) == [] ==> fa.free == [])
      invariant |tables| == t && MapBuilt(fa.ram.cells, directory, tables, guard)
      invariant Taken(fa.pool, before, fa.owned, directory, tables)
    {
      ghost var owned := fa.owned;
      TakenOwned(fa.pool, before, owned, directory, tables);
      var table := AddTable(fa, directory, t, guard, tables);
      if table.None? {
        return false, tables;
      }
      TakenMore(fa.pool, before, owned, directory, tables, table.value);
      tables := tables + [table.value];
    }
    TakenOwned(fa.pool, before, fa.owned, directory, tables);
    built := true;
  }

  lemma EmptyMap(cells: Cells, directory: int, guard: int)
    requires Populated(cells) && 0 <= directory < MAX_FRAME_INDEX && Zeroed(cells, directory)
    ensures MapBuilt(cells, directory, [], guard)
  {
  }

  /** One round of the construction: a fresh table for the next 4 MiB. */
  method AddTable(fa: FrameAllocator, directory: int, t: int, guard: int, ghost tables: seq<int>)
    returns (r: Option<int>)
    requires fa.Valid() && MapBuilt(fa.ram.cells, directory, tables, guard) && |tables| == t < 1023
    requires directory in fa.owned && directory !in tables && forall i :: i in tables ==> i in fa.owned
    modifies fa, fa.ram
    ensures fa.Valid() && fa.skipped == old(fa.skipped) && (old(fa.free) == [] ==> fa.free == [])
    ensures if old(fa.Available()) == 0 then r.None? else r.Some? && fa.Available() == old(fa.Available()) - 1
    ensures r.None? ==> fa.owned == old(fa.owned)
    ensures r.Some? ==>
      && MapBuilt(fa.ram.cells, directory, tables + [r.value], guard)
      && Managed(fa.pool, r.value) && r.value !in old(fa.owned) && fa.owned == old(fa.owned) + {r.value}
  {
    hide TableBuilt, Zeroed, DirectoryBuilt, SameOutsideFrame;
    hide Split, Elements, Chained, Disjoint, WellFormed, CursorOk, PassedSet, ManagedSet;
    r := AllocateZeroed(fa);
    if r.None? {
      return;
    }
    var table := r.value;
    MapKeptOutside(old(fa.ram.cells), fa.ram.cells, table, directory, tables, guard);
    ghost var cells := fa.ram.cells;
    FillTable(fa, table, t, guard);
    MapKeptOutside(cells, fa.ram.cells, table, directory, tables, guard);
    MapExtended(fa.ram.cells, directory, tables, guard, table);
    fa.Store(directory, t, StartAddress(table) + KERNEL_PAGE);
  }
}
