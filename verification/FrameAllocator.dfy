/** The physical frame allocator: a bump cursor over the usable regions with a
    LIFO free list in front of it, whose links live in the free frames. */
module FrameAllocator {
  import opened Machine
  import opened Frames
  import opened Sequences
  import opened CursorOrder

  datatype FreeResult = Freed | NotManaged | NeverAllocated | AlreadyFree

  // ---------- Building the pool ----------

  function FirstRegions(ranges: seq<FrameRange>): seq<FrameRange> {
    if |ranges| <= MAX_REGIONS then ranges else ranges[..MAX_REGIONS]
  }

  /** Usable memory minus the low BIOS page, the boot sector page, the kernel
      image and the legacy ROM window. */
  function MakePool(map_: seq<Region>, kernelStart: int, kernelEnd: int): Pool {
    Pool(FirstRegions(UsableRanges(map_)),
         [Covering(0, 0x1000), Covering(0x7000, 0x8000), Covering(kernelStart, kernelEnd),
          Covering(0xa_0000, 0x10_0000)])
  }

  ghost predicate Is64BitMap(map_: seq<Region>) {
    forall k :: 0 <= k < |map_| ==> map_[k].Is64Bit()
  }

  /** The region says byte `x` is usable RAM. */
  ghost predicate UsableByte(map_: seq<Region>, k: int, x: int) {
    0 <= k < |map_| && map_[k].usable && map_[k].base <= x < map_[k].base + map_[k].length
  }

  /** The BIOS reported no byte of the address space as usable twice. */
  ghost predicate DisjointMap(map_: seq<Region>) {
    forall k, l, x :: x < ADDRESS_SPACE && UsableByte(map_, k, x) && UsableByte(map_, l, x) ==> k == l
  }

  /** Each range comes from one usable region that contains all its frames. */
  lemma {:induction false} RangeOrigin(map_: seq<Region>, r: int, i: int) returns (k: int)
    requires Is64BitMap(map_) && 0 <= r < |UsableRanges(map_)| && UsableRanges(map_)[r].Contains(i)
    ensures 0 <= k < |map_| && map_[k].usable && 0 <= i < MAX_FRAME_INDEX
    ensures map_[k].base <= StartAddress(i) && StartAddress(i + 1) <= map_[k].base + map_[k].length
    decreases |map_|
  {
    var range := Inside(map_[0].base, map_[0].End());
    var head := map_[0].usable && !range.IsEmpty();
    if head && r == 0 {
      InsideExact(map_[0].base, map_[0].End(), i);
      k := 0;
    } else {
      k := RangeOrigin(map_[1..], if head then r - 1 else r, i);
      k := k + 1;
    }
  }

  /** Every allocatable frame is wholly usable RAM and holds no byte of the kernel
      image, the low BIOS page, the boot sector page or the legacy ROM window. */
  lemma ManagedIsSafe(map_: seq<Region>, kernelStart: int, kernelEnd: int, i: int)
    requires Is64BitMap(map_) && 0 <= kernelStart < kernelEnd < ADDRESS_SPACE
    requires Managed(MakePool(map_, kernelStart, kernelEnd), i)
    ensures WhollyUsable(map_, i)
    ensures !Touches(kernelStart, kernelEnd, i) && i != 0
    ensures !Touches(0, 0x1000, i) && !Touches(0x7000, 0x8000, i) && !Touches(0xa_0000, 0x10_0000, i)
  {
    var pool := MakePool(map_, kernelStart, kernelEnd);
    var r :| InRegion(pool, r, i);
    var k := RangeOrigin(map_, r, i);
    assert UsableByte(map_, k, StartAddress(i));
    assert !pool.reservations[0].Contains(i) && !pool.reservations[1].Contains(i);
    assert !pool.reservations[2].Contains(i) && !pool.reservations[3].Contains(i);
    CoveringExact(0, 0x1000, i);
    CoveringExact(0x7000, 0x8000, i);
    CoveringExact(kernelStart, kernelEnd, i);
    CoveringExact(0xa_0000, 0x10_0000, i);
  }

  /** All of frame `i` lies in one usable region. */
  ghost predicate WhollyUsable(map_: seq<Region>, i: int) {
    exists k :: UsableByte(map_, k, 4096 * i) && 4096 * (i + 1) <= map_[k].base + map_[k].length
  }

  lemma {:induction false} RangeFound(map_: seq<Region>, k: int, i: int) returns (r: int)
    requires Is64BitMap(map_) && 0 <= i < MAX_FRAME_INDEX && UsableByte(map_, k, StartAddress(i))
    requires StartAddress(i + 1) <= map_[k].base + map_[k].length
    ensures 0 <= r < |UsableRanges(map_)| && UsableRanges(map_)[r].Contains(i)
    decreases |map_|
  {
    if k == 0 {
      InsideExact(map_[0].base, map_[0].End(), i);
      r := 0;
    } else {
      var rest := RangeFound(map_[1..], k - 1, i);
      var range := Inside(map_[0].base, map_[0].End());
      r := if map_[0].usable && !range.IsEmpty() then rest + 1 else rest;
    }
  }

  lemma ReservedExact(map_: seq<Region>, kernelStart: int, kernelEnd: int, i: int)
    requires 0 <= kernelStart < kernelEnd < ADDRESS_SPACE && 0 <= i < MAX_FRAME_INDEX
    ensures Reserved(MakePool(map_, kernelStart, kernelEnd), i) <==>
      || Touches(0, 0x1000, i) || Touches(0x7000, 0x8000, i)
      || Touches(kernelStart, kernelEnd, i) || Touches(0xa_0000, 0x10_0000, i)
  {
    hide Touches, Covering;
    var pool := MakePool(map_, kernelStart, kernelEnd);
    CoveringExact(0, 0x1000, i);
    CoveringExact(0x7000, 0x8000, i);
    CoveringExact(kernelStart, kernelEnd, i);
    CoveringExact(0xa_0000, 0x10_0000, i);
    assert Reserved(pool, i) <==>
      || pool.reservations[0].Contains(i) || pool.reservations[1].Contains(i)
      || pool.reservations[2].Contains(i) || pool.reservations[3].Contains(i);
  }

  /** The pool is exactly the wholly usable frames that touch no reservation, provided
      the usable ranges fit the region table, as 32 map entries always do. */
  lemma ManagedExact(map_: seq<Region>, kernelStart: int, kernelEnd: int, i: int)
    requires Is64BitMap(map_) && 0 <= kernelStart < kernelEnd < ADDRESS_SPACE
    requires |UsableRanges(map_)| <= 32 && 0 <= i < 0x10_0000
    ensures Managed(MakePool(map_, kernelStart, kernelEnd), i) <==>
      && WhollyUsable(map_, i)
      && !Touches(0, 0x1000, i) && !Touches(0x7000, 0x8000, i)
      && !Touches(kernelStart, kernelEnd, i) && !Touches(0xa_0000, 0x10_0000, i)
  {
    hide Reserved, Touches, UsableRanges;
    ReservedExact(map_, kernelStart, kernelEnd, i);
    var pool := MakePool(map_, kernelStart, kernelEnd);
    if r :| InRegion(pool, r, i) {
      var k := RangeOrigin(map_, r, i);
      assert UsableByte(map_, k, StartAddress(i));
    }
    if k :| UsableByte(map_, k, StartAddress(i)) && StartAddress(i + 1) <= map_[k].base + map_[k].length {
      var r := RangeFound(map_, k, i);
      assert InRegion(pool, r, i);
    }
  }

  lemma {:induction false} UsableRangesFit(map_: seq<Region>)
    ensures |UsableRanges(map_)| <= |map_|
  {
    if map_ != [] { UsableRangesFit(map_[1..]); }
  }

  lemma {:induction false} RangesWellFormed(map_: seq<Region>)
    requires Is64BitMap(map_)
    ensures forall r :: 0 <= r < |UsableRanges(map_)| ==>
      0 <= UsableRanges(map_)[r].start < UsableRanges(map_)[r].end <= MAX_FRAME_INDEX
    decreases |map_|
  {
    if map_ != [] { RangesWellFormed(map_[1..]); }
  }

  lemma {:induction false} RangesDisjoint(map_: seq<Region>, r: int, s: int, i: int)
    requires Is64BitMap(map_) && DisjointMap(map_) && 0 <= r < s < |UsableRanges(map_)|
    requires UsableRanges(map_)[r].Contains(i)
    ensures !UsableRanges(map_)[s].Contains(i)
    decreases |map_|
  {
    var rest := map_[1..];
    var range := Inside(map_[0].base, map_[0].End());
    var head := map_[0].usable && !range.IsEmpty();
    if head && r == 0 {
      InsideExact(map_[0].base, map_[0].End(), i);
      assert UsableByte(map_, 0, StartAddress(i));
      if UsableRanges(rest)[s - 1].Contains(i) {
        var k := RangeOrigin(rest, s - 1, i);
        assert UsableByte(map_, k + 1, StartAddress(i));
      }
    } else {
      assert DisjointMap(rest) by {
        forall k, l, x | x < ADDRESS_SPACE && UsableByte(rest, k, x) && UsableByte(rest, l, x) ensures k == l {
          assert UsableByte(map_, k + 1, x) && UsableByte(map_, l + 1, x);
        }
      }
      var d := if head then 1 else 0;
      RangesDisjoint(rest, r - d, s - d, i);
    }
  }

  /** The range holds exactly the frames wholly inside the region. */
  ghost predicate HoldsFramesOf(region: Region, range: FrameRange) {
    forall i :: 0 <= i < 0x10_0000 ==>
      (range.Contains(i) <==> region.base <= 4096 * i && 4096 * (i + 1) <= region.base + region.length)
  }

  lemma RegionFrames(region: Region)
    requires region.Is64Bit()
    ensures HoldsFramesOf(region, Inside(region.base, region.End()))
  {
    forall i | 0 <= i < 0x10_0000 { InsideExact(region.base, region.End(), i); }
  }

  lemma {:induction false} RangeSource(map_: seq<Region>, r: int) returns (k: int)
    requires Is64BitMap(map_) && 0 <= r < |UsableRanges(map_)|
    ensures 0 <= k < |map_| && map_[k].usable && HoldsFramesOf(map_[k], UsableRanges(map_)[r])
    decreases |map_|
  {
    hide Inside, HoldsFramesOf;
    var range := Inside(map_[0].base, map_[0].End());
    var head := map_[0].usable && !range.IsEmpty();
    if head && r == 0 {
      RegionFrames(map_[0]);
      k := 0;
    } else {
      k := RangeSource(map_[1..], if head then r - 1 else r);
      k := k + 1;
    }
  }

  /** The ranges stand in the order in which the BIOS reported their regions. */
  lemma {:induction false} RangesInMapOrder(map_: seq<Region>, r: int, s: int) returns (k: int, l: int)
    requires Is64BitMap(map_) && 0 <= r < s < |UsableRanges(map_)|
    ensures 0 <= k < l < |map_| && map_[k].usable && map_[l].usable
    ensures HoldsFramesOf(map_[k], UsableRanges(map_)[r]) && HoldsFramesOf(map_[l], UsableRanges(map_)[s])
    decreases |map_|
  {
    hide Inside, HoldsFramesOf;
    var range := Inside(map_[0].base, map_[0].End());
    var head := map_[0].usable && !range.IsEmpty();
    if head && r == 0 {
      RegionFrames(map_[0]);
      k := 0;
      l := RangeSource(map_[1..], s - 1);
      l := l + 1;
    } else {
      var d := if head then 1 else 0;
      k, l := RangesInMapOrder(map_[1..], r - d, s - d);
      k, l := k + 1, l + 1;
    }
  }

  /** A map without overlapping usable regions yields a well-formed, disjoint pool. */
  lemma PoolFromMap(map_: seq<Region>, kernelStart: int, kernelEnd: int)
    requires Is64BitMap(map_)
    ensures WellFormed(MakePool(map_, kernelStart, kernelEnd))
    ensures DisjointMap(map_) ==> Disjoint(MakePool(map_, kernelStart, kernelEnd))
  {
    var pool := MakePool(map_, kernelStart, kernelEnd);
    RangesWellFormed(map_);
    assert pool.reservations[0].Contains(0);
    if DisjointMap(map_) {
      forall r, s, i | InRegion(pool, r, i) && InRegion(pool, s, i) && !Reserved(pool, i) ensures r == s {
        if r < s { RangesDisjoint(map_, r, s, i); }
        if s < r { RangesDisjoint(map_, s, r, i); }
      }
    }
  }

  /** The ranges from entry `k` on: its own, if it has one, and those after it. */
  lemma NextRange(map_: seq<Region>, k: int, regions: seq<FrameRange>)
    requires 0 <= k < |map_|
    ensures var range := Inside(map_[k].base, map_[k].End());
      var kept := if map_[k].usable && !range.IsEmpty() then regions + [range] else regions;
      regions + UsableRanges(map_[k..]) == kept + UsableRanges(map_[k + 1..])
  {
    hide Inside;
    assert map_[k..][1..] == map_[k + 1..] && map_[k..][0] == map_[k];
  }

  /** Keeps the usable regions that hold at least one whole frame, up to the table's size. */
  method CollectRegions(map_: seq<Region>) returns (regions: seq<FrameRange>)
    ensures regions == FirstRegions(UsableRanges(map_))
  {
    hide Inside;
    regions := [];
    var k := 0;
    assert map_[0..] == map_;
    while k < |map_| && |regions| < MAX_REGIONS
      invariant 0 <= k <= |map_| && |regions| <= MAX_REGIONS
      invariant regions + UsableRanges(map_[k..]) == UsableRanges(map_)
    {
      NextRange(map_, k, regions);
      var range := Inside(map_[k].base, map_[k].End());
      if map_[k].usable && !range.IsEmpty() {
        regions := regions + [range];
      }
      k := k + 1;
    }
  }

  /** Counts the allocatable frames, region by region. */
  method CountAllocatable(pool: Pool) returns (count: nat)
    requires WellFormed(pool)
    ensures Disjoint(pool) ==> count == |ManagedSet(pool)|
  {
    hide PassedSet, Disjoint, Reserved;
    count := 0;
    PassedNone(pool);
    var r := 0;
    while r < |pool.regions|
      invariant 0 <= r <= |pool.regions|
      invariant Disjoint(pool) ==> count == |PassedSet(pool, r, EnterRegion(pool, r, 0))|
    {
      var index := pool.regions[r].start;
      while index < pool.regions[r].end
        invariant pool.regions[r].start <= index <= pool.regions[r].end
        invariant Disjoint(pool) ==> count == |PassedSet(pool, r, index)|
      {
        PassOne(pool, r, index);
        if !Reserved(pool, index) {
          count := count + 1;
        }
        index := index + 1;
      }
      PassRegion(pool, r, index);
      PassedAll(pool, 0);
      PassedAll(pool, index);
      r := r + 1;
    }
    PassedAll(pool, EnterRegion(pool, r, 0));
  }

  // ---------- The free list in memory ----------

  /** Each free frame's first word names the next one. */
  ghost predicate Chained(cells: Cells, head: int, free: seq<int>)
    decreases |free|
  {
    if free == [] then head == NO_FRAME
    else
      && head == free[0] && 0 <= StartAddress(head) < |cells|
      && Chained(cells, cells[StartAddress(head)], free[1..])
  }

  lemma ChainHead(cells: Cells, head: int, free: seq<int>)
    requires Chained(cells, head, free)
    ensures head == if free == [] then 0xffff_ffff else free[0]
  {
  }

  /** Writes that leave the link words of free frames alone leave the list alone. */
  lemma {:induction false} ChainedFrame(before: Cells, after: Cells, head: int, free: seq<int>)
    requires Chained(before, head, free) && |after| == |before|
    requires forall k :: 0 <= k < |free| ==> 0 <= StartAddress(free[k]) < |before|
    requires forall k :: 0 <= k < |free| ==> after[StartAddress(free[k])] == before[StartAddress(free[k])]
    ensures Chained(after, head, free)
    decreases |free|
  {
    if free != [] {
      assert forall k :: 0 <= k < |free[1..]| ==> free[1..][k] == free[k + 1];
      ChainedFrame(before, after, before[StartAddress(head)], free[1..]);
    }
  }

  ghost function Elements(free: seq<int>): set<int> {
    set k | 0 <= k < |free| :: free[k]
  }

  lemma {:induction false} ElementsCount(free: seq<int>)
    requires NoDuplicates(free)
    ensures |Elements(free)| == |free|
  {
    if free != [] {
      ElementsCount(free[1..]);
      assert Elements(free) == {free[0]} + Elements(free[1..]);
    }
  }

  /** `passed` is the disjoint union of the three other sets. */
  ghost predicate Split(passed: set<int>, owned: set<int>, free: set<int>, skipped: set<int>) {
    passed == owned + free + skipped && owned !! free !! skipped
  }

  /** The parts and what is ahead of the cursor add up. */
  lemma SplitCount(managed: set<int>, passed: set<int>, owned: set<int>, free: set<int>, skipped: set<int>)
    requires Split(passed, owned, free, skipped) && passed <= managed
    ensures |managed| == |owned| + |free| + |skipped| + |managed - passed|
  {
    assert managed == passed + (managed - passed);
    assert |owned + free + skipped| == |owned + free| + |skipped|;
  }

  /** Freeing moves one frame between the parts of the partition. */
  lemma MoveToFree(passed: set<int>, owned: set<int>, free: seq<int>, skipped: set<int>, i: int)
    requires Split(passed, owned, Elements(free), skipped) && (i in owned || i in skipped) && NoDuplicates(free)
    ensures Split(passed, owned - {i}, Elements([i] + free), skipped - {i}) && NoDuplicates([i] + free)
    ensures |owned - {i}| == if i in owned then |owned| - 1 else |owned|
  {
    assert NoDuplicates([i] + free) by {
      assert forall k :: 0 <= k < |free| ==> free[k] in Elements(free);
    }
    assert i !in owned ==> owned - {i} == owned;
    ElementsPush(i, free);
    hide Elements, NoDuplicates;
    MoveAcross(passed, owned, Elements(free), skipped, i);
  }

  lemma MoveAcross(passed: set<int>, owned: set<int>, free: set<int>, skipped: set<int>, i: int)
    requires Split(passed, owned, free, skipped) && (i in owned || i in skipped)
    ensures Split(passed, owned - {i}, {i} + free, skipped - {i})
  {
  }

  /** Popping hands the head of the free list to its new owner. */
  lemma Popped(passed: set<int>, owned: set<int>, free: seq<int>, skipped: set<int>)
    requires Split(passed, owned, Elements(free), skipped) && NoDuplicates(free) && free != []
    ensures Split(passed, owned + {free[0]}, Elements(free[1..]), skipped) && NoDuplicates(free[1..])
    ensures free[0] !in owned && |owned + {free[0]}| == |owned| + 1
  {
    assert free == [free[0]] + free[1..];
    ElementsPush(free[0], free[1..]);
    assert free[0] !in Elements(free[1..]);
  }

  lemma HandedOne(passed: set<int>, owned: set<int>, free: set<int>, skipped: set<int>, i: int)
    requires Split(passed, owned, free, skipped) && i !in passed
    ensures Split(passed + {i}, owned + {i}, free, skipped)
    ensures i !in owned && |owned + {i}| == |owned| + 1
  {
  }

  /** Frames `out` were handed out, and the other frames no longer ahead of the cursor were skipped. */
  ghost predicate Grants(owned: set<int>, skipped: set<int>, before: set<int>,
                         ownedNow: set<int>, skippedNow: set<int>, after: set<int>, out: set<int>) {
    ownedNow == owned + out && owned !! out && skippedNow == skipped + (before - after - out)
  }

  lemma GrantsExact(owned: set<int>, skipped: set<int>, before: set<int>,
                    ownedNow: set<int>, skippedNow: set<int>, after: set<int>, out: set<int>)
    requires Grants(owned, skipped, before, ownedNow, skippedNow, after, out)
    ensures ownedNow == owned + out && owned !! out && skippedNow == skipped + (before - after - out)
    ensures after == {} && out == {} ==> skippedNow == skipped + before
  {
    assert after == {} && out == {} ==> before - after - out == before;
  }

  /** The allocatable frames the cursor has yet to pass. */
  ghost predicate StillAhead(pool: Pool, c: int, f: int, ahead: set<int>) {
    ahead == ManagedSet(pool) - PassedSet(pool, c, f)
  }

  /** Passing one frame takes it out of those ahead; nothing is ahead when all are passed. */
  lemma LeftOver(pool: Pool, c: int, f: int, before: set<int>, d: int, g: int, after: set<int>, i: int)
    requires StillAhead(pool, c, f, before) && StillAhead(pool, d, g, after)
    ensures PassedSet(pool, d, g) == PassedSet(pool, c, f) + {i} ==> after == before - {i}
    ensures PassedSet(pool, c, f) == ManagedSet(pool) ==> before == {}
  {
    hide PassedSet, ManagedSet;
  }

  /** Frames handed out by the cursor join the owned ones; the rest it passed are skipped. */
  lemma Handed(managed: set<int>, passed: set<int>, after: set<int>,
               owned: set<int>, free: set<int>, skipped: set<int>, out: set<int>)
    requires Split(passed, owned, free, skipped) && passed + out <= after <= managed && passed !! out
    ensures Split(after, owned + out, free, skipped + ((managed - passed) - (managed - after) - out))
    ensures owned !! out && |owned + out| == |owned| + |out|
  {
    assert (managed - passed) - (managed - after) - out == after - passed - out;
  }

  lemma ElementsPush(i: int, free: seq<int>)
    ensures Elements([i] + free) == {i} + Elements(free)
  {
    var s := [i] + free;
    assert s[0] == i && forall k :: 0 <= k < |free| ==> s[k + 1] == free[k];
  }

  // ---------- The allocator ----------

  class FrameAllocator {
    const ram: Ram
    const pool: Pool
    var cursorRegion: int
    var cursorFrame: int
    var freeList: int
    var freeCount: int
    var total: int
    var inUse: int
    /** Frames handed out and not successfully freed since. */
    ghost var owned: set<int>
    /** Unreserved frames a contiguous search passed over, not freed since. */
    ghost var skipped: set<int>
    /** The free list, head first. */
    ghost var free: seq<int>
    /** Whether every successful free so far named an owned frame. */
    ghost var honest: bool

    /** Allocatable frames the cursor has not reached. */
    ghost function Unvisited(): set<int>
      reads this
    {
      ManagedSet(pool) - PassedSet(pool, cursorRegion, cursorFrame)
    }

    /** How many single-frame requests can still succeed. */
    ghost function Available(): nat
      reads this
    {
      |free| + |Unvisited()|
    }

    /** The frames the cursor has passed are owned, free or skipped, and only one of these. */
    ghost predicate Partitioned()
      reads this
    {
      && Split(PassedSet(pool, cursorRegion, cursorFrame), owned, Elements(free), skipped)
      && NoDuplicates(free)
    }

    ghost predicate Valid()
      reads this, ram
    {
      && ram.Valid() && WellFormed(pool) && Disjoint(pool)
      && CursorOk(pool, cursorRegion, cursorFrame)
      && Partitioned()
      && Chained(ram.cells, freeList, free) && freeCount == |free| && 0 <= freeList <= NO_FRAME
      && total == |ManagedSet(pool)|
      && (honest ==> inUse == |owned|) && 0 <= inUse
    }

    constructor (ram: Ram, map_: seq<Region>, kernelStart: int, kernelEnd: int)
      requires ram.Valid() && Is64BitMap(map_) && 0 <= kernelStart < kernelEnd < ADDRESS_SPACE
      ensures this.ram == ram && pool == MakePool(map_, kernelStart, kernelEnd)
      ensures WellFormed(pool) && CursorOk(pool, cursorRegion, cursorFrame)
      ensures cursorRegion == 0 && cursorFrame == EnterRegion(pool, 0, 0)
      ensures (Disjoint(pool) <==> Valid()) && (DisjointMap(map_) ==> Valid())
      ensures owned == {} && skipped == {} && free == [] && honest && inUse == 0
    {
      hide UsableRanges, DisjointMap, Is64BitMap, Covering, Disjoint, ManagedSet, PassedSet, Reserved;
      var regions := CollectRegions(map_);
      this.ram := ram;
      pool := Pool(regions, [Covering(0, 0x1000), Covering(0x7000, 0x8000), Covering(kernelStart, kernelEnd),
                             Covering(0xa_0000, 0x10_0000)]);
      cursorRegion := 0;
      cursorFrame := if |regions| > 0 then regions[0].start else 0;
      freeList, freeCount, inUse := NO_FRAME, 0, 0;
      owned, skipped, free, honest := {}, {}, [], true;
      new;
      PoolFromMap(map_, kernelStart, kernelEnd);
      PassedNone(pool);
      total := CountAllocatable(pool);
    }

    /** Every allocatable frame is in exactly one place, and the counters add up. */
    lemma Conservation()
      requires Valid()
      ensures total == |owned| + freeCount + |skipped| + |Unvisited()|
      ensures honest ==> total == inUse + freeCount + |skipped| + |Unvisited()|
    {
      hide PassedSet, ManagedSet, Split, Elements, Chained, Disjoint, WellFormed, CursorOk, NoDuplicates;
      ElementsCount(free);
      PassedManaged(pool, cursorRegion, cursorFrame);
      SplitCount(ManagedSet(pool), PassedSet(pool, cursorRegion, cursorFrame), owned, Elements(free), skipped);
    }

    // ---------- Free list ----------

    method PushFree(index: int)
      requires ram.Valid() && 0 <= index < MAX_FRAME_INDEX && 0 <= freeList <= NO_FRAME
      requires Chained(ram.cells, freeList, free) && index !in Elements(free)
      requires forall k :: 0 <= k < |free| ==> 0 <= free[k] < MAX_FRAME_INDEX
      modifies this`freeList, this`freeCount, this`free, ram
      ensures ram.Valid() && ram.cells == old(ram.cells)[StartAddress(index) := old(freeList)]
      ensures free == [index] + old(free) && freeCount == old(freeCount) + 1
      ensures Chained(ram.cells, freeList, free)
    {
      StartAddressAligned(index, 0);
      ram.Write(StartAddress(index), freeList);
      ChainedFrame(old(ram.cells), ram.cells, freeList, free);
      freeList := index;
      freeCount := freeCount + 1;
      free := [index] + free;
      assert free[1..] == old(free);
    }

    method PopFree() returns (index: int)
      requires Valid()
      modifies this`freeList, this`freeCount, this`free
      ensures old(free) == [] ==> index == NO_FRAME && free == [] && freeList == old(freeList) && freeCount == 0
      ensures old(free) != [] ==> index == old(free)[0] && free == old(free)[1..] && freeCount == |free|
      ensures 0 <= freeList <= NO_FRAME
      ensures Chained(ram.cells, freeList, free)
    {
      if freeList == NO_FRAME {
        FreeInRange();
        return NO_FRAME;
      }
      index := freeList;
      FreeInRange();
      StartAddressAligned(index, 0);
      freeList := ram.Read(StartAddress(index));
      freeCount := if freeCount == 0 then 0 else freeCount - 1;
      free := free[1..];
    }

    lemma FreeInRange()
      requires Valid()
      ensures forall k :: 0 <= k < |free| ==> 0 < free[k] < MAX_FRAME_INDEX && Managed(pool, free[k])
      ensures 0 <= freeList <= NO_FRAME && (freeList == NO_FRAME <==> free == [])
    {
      forall k | 0 <= k < |free| ensures 0 < free[k] < MAX_FRAME_INDEX && Managed(pool, free[k]) {
        assert free[k] in Elements(free);
        assert free[k] in PassedSet(pool, cursorRegion, cursorFrame);
      }
    }

    /** Walks at most `freeCount` links; decides membership exactly. */
    method OnFreeList(index: int) returns (found: bool)
      requires Valid() && 0 <= index < MAX_FRAME_INDEX
      ensures found <==> index in Elements(free)
    {
      FreeInRange();
      var current := freeList;
      var n := 0;
      while n < freeCount
        invariant 0 <= n <= |free| && Chained(ram.cells, current, free[n..])
        invariant forall k :: 0 <= k < n ==> free[k] != index
      {
        if current == NO_FRAME {
          assert false;
        }
        if current == index {
          assert free[n..][0] == free[n];
          return true;
        }
        assert free[n..][0] == free[n] && free[n..][1..] == free[n + 1..];
        StartAddressAligned(current, 0);
        current := ram.Read(StartAddress(current));
        n := n + 1;
      }
      return false;
    }

    /** Whether the cursor has passed this frame. */
    predicate HandedOut(index: int)
      reads this
    {
      var r := RegionFrom(pool, index, 0);
      r < |pool.regions| && (r < cursorRegion || (r == cursorRegion && index < cursorFrame))
    }

    /** How the tests in `Free` sort a frame. */
    lemma Classify(index: int)
      requires Valid() && 0 <= index < MAX_FRAME_INDEX
      ensures Managed(pool, index) <==> RegionFrom(pool, index, 0) < |pool.regions| && !Reserved(pool, index)
      ensures index in Unvisited() <==> Managed(pool, index) && !HandedOut(index)
      ensures index in owned || index in Elements(free) || index in skipped <==> Managed(pool, index) && HandedOut(index)
    {
      if Managed(pool, index) {
        PassedByRegionOf(pool, cursorRegion, cursorFrame, index);
      }
    }

    /** Succeeds exactly on frames that are owned, or were skipped and are not free. */
    method Free(index: int) returns (result: FreeResult)
      requires Valid() && 0 <= index < MAX_FRAME_INDEX
      modifies this, ram
      ensures Valid() && cursorRegion == old(cursorRegion) && cursorFrame == old(cursorFrame)
      ensures result == NotManaged <==> !Managed(pool, index)
      ensures result == NeverAllocated <==> index in old(Unvisited())
      ensures result == AlreadyFree <==> index in Elements(old(free))
      ensures result == Freed <==> index in old(owned) || index in old(skipped)
      ensures result == Freed ==>
        && owned == old(owned) - {index} && skipped == old(skipped) - {index} && free == [index] + old(free)
        && honest == (old(honest) && index in old(owned))
        && ram.cells == old(ram.cells)[StartAddress(index) := if old(free) == [] then 0xffff_ffff else old(free)[0]]
      ensures result != Freed ==>
        && owned == old(owned) && skipped == old(skipped) && free == old(free) && honest == old(honest)
        && ram.cells == old(ram.cells)
      ensures inUse == if result == Freed && old(inUse) > 0 then old(inUse) - 1 else old(inUse)
    {
      hide PassedSet, ManagedSet, Managed, Disjoint, WellFormed, Reserved, RegionFrom, Elements, Chained;
      Classify(index);
      if RegionFrom(pool, index, 0) == |pool.regions| || Reserved(pool, index) {
        return NotManaged;
      }
      if !HandedOut(index) {
        return NeverAllocated;
      }
      var found := OnFreeList(index);
      if found {
        return AlreadyFree;
      }
      ChainHead(ram.cells, freeList, free);
      Release(index);
      return Freed;
    }

    /** The last part of `Free`: link the frame in and uncount it. */
    method Release(index: int)
      requires Valid() && (index in owned || index in skipped) && index !in Elements(free) && 0 <= index < MAX_FRAME_INDEX
      modifies this, ram
      ensures Valid() && cursorRegion == old(cursorRegion) && cursorFrame == old(cursorFrame)
      ensures owned == old(owned) - {index} && skipped == old(skipped) - {index} && free == [index] + old(free)
      ensures honest == (old(honest) && index in old(owned))
      ensures ram.cells == old(ram.cells)[StartAddress(index) := old(freeList)]
      ensures inUse == if old(inUse) > 0 then old(inUse) - 1 else old(inUse)
    {
      hide PassedSet, ManagedSet, Split, Elements, Chained, NoDuplicates, Disjoint, WellFormed;
      FreeInRange();
      MoveToFree(PassedSet(pool, cursorRegion, cursorFrame), owned, free, skipped, index);
      PushFree(index);
      honest := honest && index in owned;
      owned, skipped := owned - {index}, skipped - {index};
      inUse := if inUse == 0 then 0 else inUse - 1;
    }

    /** A caller's write into a frame it owns cannot reach the free list. */
    method Store(frame: int, entry: int, w: Word)
      requires Valid() && frame in owned && 0 <= frame < MAX_FRAME_INDEX && 0 <= entry < 1024
      modifies ram
      ensures Valid() && ram.cells == old(ram.cells)[StartAddress(frame) + 4 * entry := w]
    {
      hide PassedSet, ManagedSet, Disjoint, WellFormed, Chained, CursorOk;
      StartAddressAligned(frame, entry);
      FreeInRange();
      ram.Write(StartAddress(frame) + 4 * entry, w);
      forall k | 0 <= k < |free|
        ensures ram.cells[StartAddress(free[k])] == old(ram.cells)[StartAddress(free[k])]
      {
        assert free[k] in Elements(free);
      }
      ChainedFrame(old(ram.cells), ram.cells, freeList, free);
    }

    // ---------- Allocation ----------

    /** Advances the cursor past the next unreserved frame. */
    method Bump() returns (r: Option<int>)
      requires WellFormed(pool) && CursorOk(pool, cursorRegion, cursorFrame)
      modifies this`cursorRegion, this`cursorFrame
      ensures CursorOk(pool, cursorRegion, cursorFrame)
      ensures old(Ahead(pool, cursorRegion, cursorFrame)) ==
        if r.None? then [] else [r.value] + Ahead(pool, cursorRegion, cursorFrame)
      ensures r.None? ==>
        PassedSet(pool, cursorRegion, cursorFrame) == old(PassedSet(pool, cursorRegion, cursorFrame)) == ManagedSet(pool)
      ensures r.Some? ==>
        && InRegion(pool, cursorRegion, r.value) && cursorFrame == r.value + 1
        && r.value in ManagedSet(pool) && (Disjoint(pool) ==> r.value in old(Unvisited()))
        && PassedSet(pool, cursorRegion, cursorFrame) == old(PassedSet(pool, cursorRegion, cursorFrame)) + {r.value}
        && PassedSet(pool, cursorRegion, r.value) == old(PassedSet(pool, cursorRegion, cursorFrame))
    {
      hide PassedSet, ManagedSet, Disjoint, Ahead, Unreserved;
      ghost var passed := PassedSet(pool, cursorRegion, cursorFrame);
      ghost var ahead := Ahead(pool, cursorRegion, cursorFrame);
      while cursorRegion < |pool.regions|
        invariant CursorOk(pool, cursorRegion, cursorFrame)
        invariant PassedSet(pool, cursorRegion, cursorFrame) == passed
        invariant Ahead(pool, cursorRegion, cursorFrame) == ahead
        decreases |pool.regions| - cursorRegion,
                  if cursorRegion < |pool.regions| then pool.regions[cursorRegion].end - cursorFrame else 0
      {
        var region := pool.regions[cursorRegion];
        AheadStep(pool, cursorRegion, cursorFrame);
        if cursorFrame >= region.end {
          PassRegion(pool, cursorRegion, cursorFrame);
          cursorRegion := cursorRegion + 1;
          if cursorRegion < |pool.regions| {
            cursorFrame := pool.regions[cursorRegion].start;
          }
          continue;
        }
        var index := cursorFrame;
        PassOne(pool, cursorRegion, index);
        cursorFrame := cursorFrame + 1;
        if Reserved(pool, index) {
          continue;
        }
        AheadUnvisited(pool, cursorRegion, index);
        return Some(index);
      }
      PassedAll(pool, cursorFrame);
      AheadEnd(pool, cursorFrame);
      return None;
    }

    /** Takes one frame: the most recently freed one, else the next one in region order. */
    method Allocate() returns (r: Option<int>)
      requires Valid()
      modifies this
      ensures Valid() && skipped == old(skipped) && honest == old(honest)
      ensures r.None? <==> old(free) == [] && old(Unvisited()) == {}
      ensures if old(Available()) == 0 then r.None? else r.Some? && Available() == old(Available()) - 1
      ensures r.None? ==> owned == old(owned) && free == [] && inUse == old(inUse)
      ensures r.Some? ==>
        && Managed(pool, r.value) && 0 < r.value < MAX_FRAME_INDEX
        && r.value !in old(owned) && owned == old(owned) + {r.value} && inUse == old(inUse) + 1
      ensures old(free) != [] ==>
        r == Some(old(free)[0]) && free == old(free)[1..] && Unvisited() == old(Unvisited())
      ensures old(free) == [] && r.Some? ==>
        && free == [] && r.value in old(Unvisited()) && Unvisited() == old(Unvisited()) - {r.value}
        && forall i :: i in old(Unvisited()) ==>
          AtOrAfter(RegionFrom(pool, r.value, 0), r.value, RegionFrom(pool, i, 0), i)
    {
      hide Split, Elements, Chained, NoDuplicates, Disjoint, WellFormed, CursorOk, PassedSet, ManagedSet, Managed;
      FreeInRange();
      if freeList != NO_FRAME {
        r := AllocateFreed();
      } else {
        r := AllocateFresh();
      }
    }

    /** The free-list half of `Allocate`. */
    method AllocateFreed() returns (r: Option<int>)
      requires Valid() && free != []
      modifies this
      ensures Valid() && skipped == old(skipped) && honest == old(honest) && Unvisited() == old(Unvisited())
      ensures r == Some(old(free)[0]) && free == old(free)[1..]
      ensures Managed(pool, r.value) && 0 < r.value < MAX_FRAME_INDEX
      ensures r.value !in old(owned) && owned == old(owned) + {r.value} && inUse == old(inUse) + 1
    {
      hide PassedSet, Split, Elements, NoDuplicates, Disjoint, WellFormed;
      FreeInRange();
      Popped(PassedSet(pool, cursorRegion, cursorFrame), owned, free, skipped);
      var index := PopFree();
      inUse := inUse + 1;
      owned := owned + {index};
      return Some(index);
    }

    lemma FromManagedSet()
      requires Valid()
      ensures forall i :: i in ManagedSet(pool) ==> Managed(pool, i) && 0 < i < MAX_FRAME_INDEX
    {
    }

    /** The cursor half of `Allocate`. */
    method AllocateFresh() returns (r: Option<int>)
      requires Valid() && free == []
      modifies this
      ensures Valid() && skipped == old(skipped) && honest == old(honest) && free == []
      ensures r.None? <==> old(Unvisited()) == {}
      ensures r.None? ==> owned == old(owned) && inUse == old(inUse)
      ensures r.Some? ==>
        && Managed(pool, r.value) && 0 < r.value < MAX_FRAME_INDEX
        && r.value !in old(owned) && owned == old(owned) + {r.value} && inUse == old(inUse) + 1
        && r.value in old(Unvisited()) && Unvisited() == old(Unvisited()) - {r.value}
        && forall i :: i in old(Unvisited()) ==>
          AtOrAfter(RegionFrom(pool, r.value, 0), r.value, RegionFrom(pool, i, 0), i)
    {
      hide PassedSet, ManagedSet, Managed, Split, Elements, Chained, Disjoint, WellFormed, CursorOk, RegionFrom,
        NoDuplicates, Ahead, AtOrAfter, InRegion, Unvisited, StillAhead;
      FromManagedSet();
      UnvisitedNow();
      ghost var c, f, before := cursorRegion, cursorFrame, Unvisited();
      r := Bump();
      if r.None? {
        LeftOver(pool, c, f, before, c, f, before, 0);
        return;
      }
      inUse := inUse + 1;
      SettleOne(c, f, before, r.value);
      forall i | i in before ensures AtOrAfter(RegionFrom(pool, r.value, 0), r.value, RegionFrom(pool, i, 0), i) {
        CursorIsFirst(pool, cursorRegion, r.value, i);
      }
    }

    /** Bookkeeping after the cursor moved from (c, f) past one frame. */
    ghost method SettleOne(c: int, f: int, before: set<int>, i: int)
      requires StillAhead(pool, c, f, before) && i in before
      requires Split(PassedSet(pool, c, f), owned, Elements(free), skipped) && NoDuplicates(free)
      requires PassedSet(pool, cursorRegion, cursorFrame) == PassedSet(pool, c, f) + {i}
      modifies this`owned
      ensures Partitioned() && Unvisited() == before - {i}
      ensures i !in old(owned) && owned == old(owned) + {i} && |owned| == |old(owned)| + 1
    {
      hide PassedSet, ManagedSet, Split, Elements, NoDuplicates;
      UnvisitedNow();
      LeftOver(pool, c, f, before, cursorRegion, cursorFrame, Unvisited(), i);
      HandedOne(PassedSet(pool, c, f), owned, Elements(free), skipped, i);
      owned := owned + {i};
    }

    /** The first reserved frame of `start .. start + count`, or its end. */
    method FindReserved(start: int, count: nat) returns (bad: int)
      ensures start <= bad <= start + count
      ensures bad < start + count ==> Reserved(pool, bad)
      ensures forall i :: start <= i < bad ==> !Reserved(pool, i)
    {
      bad := start;
      while bad < start + count && !Reserved(pool, bad)
        invariant start <= bad <= start + count
        invariant forall i :: start <= i < bad ==> !Reserved(pool, i)
      {
        bad := bad + 1;
      }
    }

    /** Moves the cursor just past the first window of `count` unreserved frames at
        or after it, in region order; past every region when there is none. */
    method SearchRun(count: nat) returns (r: Option<int>)
      requires WellFormed(pool) && CursorOk(pool, cursorRegion, cursorFrame) && 0 < count
      modifies this`cursorRegion, this`cursorFrame
      ensures CursorOk(pool, cursorRegion, cursorFrame)
      ensures AtOrAfter(old(cursorRegion), old(cursorFrame), cursorRegion, cursorFrame)
      ensures r.Some? ==>
        && Window(pool, cursorRegion, r.value, count) && cursorFrame == r.value + count
        && AtOrAfter(old(cursorRegion), old(cursorFrame), cursorRegion, r.value)
        && forall q, t :: Window(pool, q, t, count) && AtOrAfter(old(cursorRegion), old(cursorFrame), q, t) ==>
          AtOrAfter(cursorRegion, r.value, q, t)
      ensures r.None? ==>
        && cursorRegion == |pool.regions|
        && forall q, t :: Window(pool, q, t, count) ==> !AtOrAfter(old(cursorRegion), old(cursorFrame), q, t)
    {
      while cursorRegion < |pool.regions|
        invariant CursorOk(pool, cursorRegion, cursorFrame)
        invariant AtOrAfter(old(cursorRegion), old(cursorFrame), cursorRegion, cursorFrame)
        invariant forall q, t :: Window(pool, q, t, count) && AtOrAfter(old(cursorRegion), old(cursorFrame), q, t) ==>
          AtOrAfter(cursorRegion, cursorFrame, q, t)
        decreases |pool.regions| - cursorRegion,
                  if cursorRegion < |pool.regions| then pool.regions[cursorRegion].end - cursorFrame else 0
      {
        var region := pool.regions[cursorRegion];
        if cursorFrame >= region.end {
          cursorRegion := cursorRegion + 1;
          if cursorRegion < |pool.regions| {
            cursorFrame := pool.regions[cursorRegion].start;
          }
          continue;
        }
        if Reserved(pool, cursorFrame) {
          cursorFrame := cursorFrame + 1;
          continue;
        }
        var start := cursorFrame;
        if start + count > region.end {
          cursorRegion := cursorRegion + 1;
          if cursorRegion < |pool.regions| {
            cursorFrame := pool.regions[cursorRegion].start;
          }
          continue;
        }
        var bad := FindReserved(start, count);
        if bad < start + count {
          cursorFrame := bad + 1;
          continue;
        }
        cursorFrame := start + count;
        return Some(start);
      }
      return None;
    }

    /** Takes `count` contiguous frames from the cursor; frames passed over on the way are skipped for good. */
    method AllocateContiguous(count: nat) returns (r: Option<int>)
      requires Valid()
      modifies this
      ensures Valid() && free == old(free) && honest == old(honest)
      ensures count == 0 ==> r.None? && Unvisited() == old(Unvisited()) && skipped == old(skipped)
      ensures r.Some? ==>
        && Window(pool, cursorRegion, r.value, count) && 0 < r.value && r.value + count <= MAX_FRAME_INDEX
        && AtOrAfter(old(cursorRegion), old(cursorFrame), cursorRegion, r.value)
        && (forall q, t :: Window(pool, q, t, count) && AtOrAfter(old(cursorRegion), old(cursorFrame), q, t) ==>
              AtOrAfter(cursorRegion, r.value, q, t))
        && owned == old(owned) + Span(r.value, count) && old(owned) !! Span(r.value, count)
        && inUse == old(inUse) + count
        && skipped == old(skipped) + (old(Unvisited()) - Unvisited() - Span(r.value, count))
      ensures r.None? ==> owned == old(owned) && inUse == old(inUse)
      ensures r.None? && count != 0 ==>
        && (forall q, t :: Window(pool, q, t, count) ==> !AtOrAfter(old(cursorRegion), old(cursorFrame), q, t))
        && Unvisited() == {} && skipped == old(skipped) + old(Unvisited())
    {
      hide PassedSet, ManagedSet, Split, Elements, Chained, Disjoint, NoDuplicates, Managed, Window, WellFormed, CursorOk,
        Span, AtOrAfter, Unvisited, Grants;
      if count == 0 {
        return None;
      }
      ghost var before := Unvisited();
      r := AllocateRun(count);
      GrantsExact(old(owned), old(skipped), before, owned, skipped, Unvisited(),
                  if r.None? then {} else Span(r.value, count));
    }

    /** `AllocateContiguous` for a positive count. */
    method AllocateRun(count: nat) returns (r: Option<int>)
      requires Valid() && 0 < count
      modifies this
      ensures Valid() && free == old(free) && honest == old(honest)
      ensures r.Some? ==>
        && Window(pool, cursorRegion, r.value, count) && 0 < r.value && r.value + count <= MAX_FRAME_INDEX
        && AtOrAfter(old(cursorRegion), old(cursorFrame), cursorRegion, r.value)
        && (forall q, t :: Window(pool, q, t, count) && AtOrAfter(old(cursorRegion), old(cursorFrame), q, t) ==>
              AtOrAfter(cursorRegion, r.value, q, t))
        && Grants(old(owned), old(skipped), old(Unvisited()), owned, skipped, Unvisited(), Span(r.value, count))
        && inUse == old(inUse) + count
      ensures r.None? ==>
        && owned == old(owned) && inUse == old(inUse)
        && (forall q, t :: Window(pool, q, t, count) ==> !AtOrAfter(old(cursorRegion), old(cursorFrame), q, t))
        && Grants(old(owned), old(skipped), old(Unvisited()), owned, skipped, {}, {}) && Unvisited() == {}
    {
      hide PassedSet, ManagedSet, Split, Elements, Chained, Disjoint, NoDuplicates, Managed, Window, WellFormed, CursorOk,
        Span, AtOrAfter, Unvisited, Grants, StillAhead;
      ghost var c, f, before := cursorRegion, cursorFrame, Unvisited();
      UnvisitedNow();
      r := SearchRun(count);
      if r.None? {
        SettleMissing(c, f, before);
        return;
      }
      inUse := inUse + count;
      SettleRun(c, f, before, r.value, count);
    }

    lemma UnvisitedNow()
      ensures StillAhead(pool, cursorRegion, cursorFrame, Unvisited())
    {
    }

    /** Bookkeeping after the cursor moved from (c, f), handing out `out`. */
    ghost method Settle(c: int, f: int, out: set<int>)
      requires Split(PassedSet(pool, c, f), owned, Elements(free), skipped) && NoDuplicates(free)
      requires PassedSet(pool, c, f) + out <= PassedSet(pool, cursorRegion, cursorFrame) && PassedSet(pool, c, f) !! out
      modifies this`owned, this`skipped
      ensures Partitioned()
      ensures owned == old(owned) + out && old(owned) !! out && |owned| == |old(owned)| + |out|
      ensures skipped == old(skipped) + (ManagedSet(pool) - PassedSet(pool, c, f) - Unvisited() - out)
    {
      hide PassedSet, ManagedSet, Split, Elements;
      PassedManaged(pool, cursorRegion, cursorFrame);
      Handed(ManagedSet(pool), PassedSet(pool, c, f), PassedSet(pool, cursorRegion, cursorFrame),
             owned, Elements(free), skipped, out);
      owned, skipped := owned + out, skipped + (ManagedSet(pool) - PassedSet(pool, c, f) - Unvisited() - out);
    }

    /** The same for a window the cursor just moved past. */
    ghost method SettleRun(c: int, f: int, before: set<int>, s: int, count: nat)
      requires StillAhead(pool, c, f, before)
      requires WellFormed(pool) && Disjoint(pool) && 0 < count
      requires Split(PassedSet(pool, c, f), owned, Elements(free), skipped) && NoDuplicates(free)
      requires Window(pool, cursorRegion, s, count) && cursorFrame == s + count && AtOrAfter(c, f, cursorRegion, s)
      modifies this`owned, this`skipped
      ensures Partitioned() && 0 < s && s + count <= MAX_FRAME_INDEX
      ensures Grants(old(owned), old(skipped), before, owned, skipped, Unvisited(), Span(s, count))
      ensures |owned| == |old(owned)| + count
    {
      hide PassedSet, ManagedSet, Split, Elements, WellFormed, Disjoint, Window, Span;
      WindowFresh(pool, c, f, cursorRegion, s, count);
      WindowInRange(pool, cursorRegion, s, count);
      Settle(c, f, Span(s, count));
    }

    /** The same when the search found nothing. */
    ghost method SettleMissing(c: int, f: int, before: set<int>)
      requires StillAhead(pool, c, f, before)
      requires Split(PassedSet(pool, c, f), owned, Elements(free), skipped) && NoDuplicates(free)
      requires AtOrAfter(c, f, cursorRegion, cursorFrame) && cursorRegion == |pool.regions|
      modifies this`owned, this`skipped
      ensures Partitioned() && Unvisited() == {}
      ensures owned == old(owned) && Grants(old(owned), old(skipped), before, owned, skipped, {}, {})
    {
      hide PassedSet, ManagedSet, Split, Elements;
      PassedGrows(pool, c, f, cursorRegion, cursorFrame);
      PassedAll(pool, cursorFrame);
      assert Unvisited() == {};
      Settle(c, f, {});
    }
  }
}
