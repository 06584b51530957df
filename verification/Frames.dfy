/** Physical frames, frame ranges, and the pool of frames a memory map yields. */
module Frames {
  import opened Machine

  const MAX_FRAME_INDEX: int := 0x10_0000
  const NO_FRAME: int := 0xFFFF_FFFF
  const MAX_REGIONS: nat := 32
  const U64_MAX: int := 0xFFFF_FFFF_FFFF_FFFF

  /** Address of a frame's first byte; the free list keeps its link in the word there. */
  function StartAddress(index: int): int { 4096 * index }

  lemma StartAddressAligned(index: int, entry: int)
    requires 0 <= index && 0 <= entry
    ensures Multiple(4, StartAddress(index) + 4 * entry)
  {
    MultipleOf4(1024 * index + entry);
  }

  // ---------- Byte ranges to frame ranges ----------

  function SaturatingAdd(a: int, b: int): int {
    if a + b > U64_MAX then U64_MAX else a + b
  }

  function IndexFloor(address: int): int {
    if address / 4096 < MAX_FRAME_INDEX then address / 4096 else MAX_FRAME_INDEX
  }

  function IndexCeil(address: int): int {
    IndexFloor(SaturatingAdd(address, 4095))
  }

  /** A half-open run of frame indices. */
  datatype FrameRange = FrameRange(start: int, end: int) {
    predicate Contains(index: int) { start <= index < end }

    predicate IsEmpty() { start >= end }
  }

  function Inside(start: int, end: int): FrameRange {
    var s, e := IndexCeil(start), IndexFloor(end);
    FrameRange(s, if e < s then s else e)
  }

  function Covering(start: int, end: int): FrameRange {
    FrameRange(IndexFloor(start), IndexCeil(end))
  }

  predicate InFrame(index: int, x: int) {
    4096 * index <= x < 4096 * (index + 1)
  }

  /** Some byte of frame `index` lies in `[start, end)`. */
  ghost predicate Touches(start: int, end: int, index: int) {
    exists x :: start <= x < end && InFrame(index, x)
  }

  /** For every pair of 64-bit addresses, `Inside` holds exactly the frames whose
      every byte is in the range, saturation at both ends included. */
  lemma InsideExact(start: int, end: int, index: int)
    requires 0 <= start <= U64_MAX && 0 <= end <= U64_MAX && 0 <= index < 0x10_0000
    ensures Inside(start, end).Contains(index) <==> start <= 4096 * index && 4096 * (index + 1) <= end
  {
  }

  /** For non-empty 32-bit ranges, `Covering` holds exactly the frames with a byte in the range. */
  lemma CoveringExact(start: int, end: int, index: int)
    requires 0 <= start < end < ADDRESS_SPACE && 0 <= index < 0x10_0000
    ensures Covering(start, end).Contains(index) <==> Touches(start, end, index)
  {
    if Covering(start, end).Contains(index) {
      var x := if start < StartAddress(index) then StartAddress(index) else start;
      assert start <= x < end && InFrame(index, x);
    }
  }

  /** On an empty range `Covering` is exact if and only if its end rounds up to
      no more than its start rounds down to; otherwise it reserves a frame none of
      whose bytes is in the range. */
  lemma CoveringEmptyRange(start: int, end: int)
    requires 0 <= end <= start < ADDRESS_SPACE
    ensures (forall index :: 0 <= index < MAX_FRAME_INDEX ==>
               (Covering(start, end).Contains(index) <==> Touches(start, end, index)))
            <==> IndexCeil(end) <= IndexFloor(start)
  {
    var c := Covering(start, end);
    forall index ensures !Touches(start, end, index) {}
    if c.start < c.end {
      assert c.Contains(c.start) && 0 <= c.start < MAX_FRAME_INDEX;
    }
  }

  // ---------- The memory map ----------

  /** One E820 region as the boot sector handed it over. */
  datatype Region = Region(base: int, length: int, usable: bool) {
    /** One past the region's last byte, or the largest 64-bit address. */
    function End(): (end: int)
      ensures end <= base + length && (end == base + length || end == 0xffff_ffff_ffff_ffff)
    {
      SaturatingAdd(base, length)
    }

    predicate Is64Bit() { 0 <= base <= U64_MAX && 0 <= length <= U64_MAX }
  }

  /** The non-empty frame ranges of the usable regions, in map order. */
  function UsableRanges(map_: seq<Region>): seq<FrameRange> {
    if map_ == [] then []
    else
      var range := Inside(map_[0].base, map_[0].End());
      (if map_[0].usable && !range.IsEmpty() then [range] else []) + UsableRanges(map_[1..])
  }

  // ---------- The pool ----------

  datatype Pool = Pool(regions: seq<FrameRange>, reservations: seq<FrameRange>)

  predicate Reserved(pool: Pool, index: int) {
    exists r :: 0 <= r < |pool.reservations| && pool.reservations[r].Contains(index)
  }

  ghost predicate InRegion(pool: Pool, r: int, index: int) {
    0 <= r < |pool.regions| && pool.regions[r].Contains(index)
  }

  /** Usable and not reserved: a frame the allocator may hand out. */
  ghost predicate Managed(pool: Pool, index: int) {
    !Reserved(pool, index) && exists r :: InRegion(pool, r, index)
  }

  /** Every region is a non-empty range of representable frames and frame 0 is reserved. */
  ghost predicate WellFormed(pool: Pool) {
    && (forall r :: 0 <= r < |pool.regions| ==>
          0 <= pool.regions[r].start < pool.regions[r].end <= MAX_FRAME_INDEX)
    && Reserved(pool, 0)
  }

  /** No allocatable frame lies in two regions. */
  ghost predicate Disjoint(pool: Pool) {
    forall r, s, i :: InRegion(pool, r, i) && InRegion(pool, s, i) && !Reserved(pool, i) ==> r == s
  }

  ghost function ManagedSet(pool: Pool): set<int> {
    set i | 0 <= i < MAX_FRAME_INDEX && Managed(pool, i)
  }

  /** The first region at or after `r` holding this frame, or the region count. */
  function RegionFrom(pool: Pool, index: int, r: int): (found: int)
    requires 0 <= r <= |pool.regions|
    ensures r <= found <= |pool.regions|
    ensures found < |pool.regions| ==> InRegion(pool, found, index)
    ensures forall s :: r <= s < found ==> !InRegion(pool, s, index)
    decreases |pool.regions| - r
  {
    if r == |pool.regions| || pool.regions[r].Contains(index) then r else RegionFrom(pool, index, r + 1)
  }

  // ---------- Cursor positions ----------

  /** Allocatable frames before the cursor at frame `f` of region `c`. */
  ghost predicate Passed(pool: Pool, c: int, f: int, i: int) {
    !Reserved(pool, i) && exists r :: InRegion(pool, r, i) && (r < c || (r == c && i < f))
  }

  ghost function PassedSet(pool: Pool, c: int, f: int): set<int> {
    set i | 0 <= i < MAX_FRAME_INDEX && Passed(pool, c, f, i)
  }

  ghost predicate CursorOk(pool: Pool, c: int, f: int) {
    && 0 <= c <= |pool.regions|
    && (c < |pool.regions| ==> pool.regions[c].start <= f <= pool.regions[c].end)
  }

  /** Frame of the cursor after moving on to region `c`; past the last region it is kept. */
  function EnterRegion(pool: Pool, c: int, f: int): int
    requires 0 <= c
  {
    if c < |pool.regions| then pool.regions[c].start else f
  }

  /** An unreserved frame at the cursor is still unvisited. */
  lemma AheadUnvisited(pool: Pool, c: int, f: int)
    requires WellFormed(pool) && InRegion(pool, c, f) && !Reserved(pool, f)
    ensures f in ManagedSet(pool) && (Disjoint(pool) ==> f !in PassedSet(pool, c, f))
  {
  }

  /** Moving within a region passes exactly the unreserved frames in between. */
  lemma PassWithin(pool: Pool, c: int, f: int, g: int)
    requires WellFormed(pool) && CursorOk(pool, c, f) && c < |pool.regions| && f <= g <= pool.regions[c].end
    ensures PassedSet(pool, c, g) == PassedSet(pool, c, f) + set i | f <= i < g && !Reserved(pool, i)
  {
    forall i | 0 <= i < MAX_FRAME_INDEX
      ensures Passed(pool, c, g, i) <==> Passed(pool, c, f, i) || (f <= i < g && !Reserved(pool, i))
    {
      if f <= i < g { assert InRegion(pool, c, i); }
    }
    assert 0 <= f && g <= MAX_FRAME_INDEX;
  }

  /** Stepping over one frame passes it exactly when it is unreserved. */
  lemma PassOne(pool: Pool, c: int, f: int)
    requires WellFormed(pool) && CursorOk(pool, c, f) && c < |pool.regions| && f < pool.regions[c].end
    ensures PassedSet(pool, c, f + 1) == PassedSet(pool, c, f) + if Reserved(pool, f) then {} else {f}
    ensures Disjoint(pool) && !Reserved(pool, f) ==> f !in PassedSet(pool, c, f)
  {
    PassWithin(pool, c, f, f + 1);
    assert (set i | f <= i < f + 1 && !Reserved(pool, i)) == if Reserved(pool, f) then {} else {f};
    assert InRegion(pool, c, f);
  }

  /** Leaving an exhausted region passes nothing. */
  lemma PassRegion(pool: Pool, c: int, f: int)
    requires WellFormed(pool) && 0 <= c < |pool.regions| && f >= pool.regions[c].end
    ensures PassedSet(pool, c + 1, EnterRegion(pool, c + 1, f)) == PassedSet(pool, c, f)
  {
    var g := EnterRegion(pool, c + 1, f);
    forall i | 0 <= i < MAX_FRAME_INDEX ensures Passed(pool, c + 1, g, i) <==> Passed(pool, c, f, i) {}
  }

  lemma PassedAll(pool: Pool, f: int)
    ensures PassedSet(pool, |pool.regions|, f) == ManagedSet(pool)
  {
    forall i | 0 <= i < MAX_FRAME_INDEX ensures Passed(pool, |pool.regions|, f, i) <==> Managed(pool, i) {
      if Managed(pool, i) {
        var r :| InRegion(pool, r, i);
        assert r < |pool.regions|;
      }
    }
  }

  lemma PassedNone(pool: Pool)
    requires WellFormed(pool)
    ensures PassedSet(pool, 0, EnterRegion(pool, 0, 0)) == {}
  {
  }

  /** Later cursors have passed at least as much. */
  lemma PassedGrows(pool: Pool, c: int, f: int, d: int, g: int)
    requires c < d || (c == d && f <= g)
    ensures PassedSet(pool, c, f) <= PassedSet(pool, d, g)
  {
    forall i | Passed(pool, c, f, i) ensures Passed(pool, d, g, i) {
      var r :| InRegion(pool, r, i) && (r < c || (r == c && i < f));
      assert r < d || (r == d && i < g);
    }
  }

  /** `handed_out` for an allocatable frame: the cursor has passed its only region. */
  lemma PassedByRegionOf(pool: Pool, c: int, f: int, i: int)
    requires Disjoint(pool) && Managed(pool, i)
    ensures var r := RegionFrom(pool, i, 0);
      r < |pool.regions| && (Passed(pool, c, f, i) <==> r < c || (r == c && i < f))
  {
    var r := RegionFrom(pool, i, 0);
    var s :| InRegion(pool, s, i);
    assert r < |pool.regions|;
    assert InRegion(pool, r, i);
  }

  // ---------- Order of the cursor and contiguous windows ----------

  /** Everything still unvisited lies at or after the frame the cursor stands on. */
  lemma CursorIsFirst(pool: Pool, c: int, f: int, i: int)
    requires Disjoint(pool) && InRegion(pool, c, f) && Managed(pool, f)
    requires i in ManagedSet(pool) && i !in PassedSet(pool, c, f)
    ensures AtOrAfter(RegionFrom(pool, f, 0), f, RegionFrom(pool, i, 0), i)
  {
    PassedByRegionOf(pool, c, f, i);
    PassedByRegionOf(pool, c, f, f);
    assert InRegion(pool, RegionFrom(pool, f, 0), f);
  }

  /** Position (q, t) is not before position (c, f). */
  predicate AtOrAfter(c: int, f: int, q: int, t: int) {
    c < q || (c == q && f <= t)
  }

  /** `count` unreserved frames from `s` inside region `r`. */
  ghost predicate Window(pool: Pool, r: int, s: int, count: int) {
    && 0 <= r < |pool.regions|
    && pool.regions[r].start <= s && s + count <= pool.regions[r].end
    && (forall i :: s <= i < s + count ==> !Reserved(pool, i))
  }

  /** The frame indices `s .. s + count`. */
  function Span(s: int, count: nat): (span: set<int>)
    ensures forall i :: i in span <==> s <= i < s + count
    ensures |span| == count
  {
    if count == 0 then {} else Span(s, count - 1) + {s + count - 1}
  }

  lemma WindowPoint(pool: Pool, c: int, f: int, r: int, s: int, count: nat, i: int)
    requires WellFormed(pool) && Disjoint(pool) && Window(pool, r, s, count) && AtOrAfter(c, f, r, s)
    requires s <= i < s + count
    ensures i in PassedSet(pool, r, s + count) && i !in PassedSet(pool, c, f)
  {
    assert InRegion(pool, r, i);
    assert Passed(pool, r, s + count, i);
  }

  /** A window at or after a cursor is fresh: moving past it passes all of it for the first time. */
  lemma WindowFresh(pool: Pool, c: int, f: int, r: int, s: int, count: nat)
    requires WellFormed(pool) && Disjoint(pool) && Window(pool, r, s, count) && AtOrAfter(c, f, r, s)
    ensures PassedSet(pool, c, f) + Span(s, count) <= PassedSet(pool, r, s + count)
    ensures PassedSet(pool, c, f) !! Span(s, count)
  {
    hide PassedSet, WellFormed, Disjoint, Window;
    PassedGrows(pool, c, f, r, s + count);
    forall i | i in Span(s, count) ensures i in PassedSet(pool, r, s + count) && i !in PassedSet(pool, c, f) {
      WindowPoint(pool, c, f, r, s, count, i);
    }
  }

  lemma PassedManaged(pool: Pool, c: int, f: int)
    ensures PassedSet(pool, c, f) <= ManagedSet(pool)
  {
  }

  lemma WindowInRange(pool: Pool, r: int, s: int, count: nat)
    requires WellFormed(pool) && Window(pool, r, s, count) && 0 < count
    ensures 0 < s && s + count <= MAX_FRAME_INDEX
  {
    assert !Reserved(pool, s);
  }

  lemma WindowManaged(pool: Pool, r: int, s: int, count: nat)
    requires Window(pool, r, s, count)
    ensures forall i :: i in Span(s, count) ==> Managed(pool, i)
  {
    forall i | i in Span(s, count) ensures Managed(pool, i) {
      assert InRegion(pool, r, i);
    }
  }
}
