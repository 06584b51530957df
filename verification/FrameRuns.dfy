/** Whole runs of the frame allocator, seen from outside as a trace of events, and
    the two inputs on which its comments promise more than it does. */
module FrameRuns {
  import opened Machine
  import opened Frames
  import opened FrameAllocator
  import opened Sequences
  import opened CursorOrder

  datatype Op = One | Run(count: nat) | Free(frame: int) | Store(frame: int, entry: int, word: Word)

  /** What was asked, the frames handed out for it, and whether it succeeded. */
  datatype Event = Event(op: Op, got: set<int>, ok: bool)

  ghost function OwnedNext(owned: set<int>, e: Event): set<int> {
    if e.op.Free? && e.ok then owned - {e.op.frame} else owned + e.got
  }

  /** Frames the callers hold after a trace: returned and not since successfully freed. */
  ghost function OwnedAfter(owned: set<int>, trace: seq<Event>): set<int> {
    if trace == [] then owned
    else OwnedNext(OwnedAfter(owned, trace[..|trace| - 1]), trace[|trace| - 1])
  }

  /** Every frame handed out is allocatable and was not held by anyone at that moment. */
  ghost predicate Exclusive(pool: Pool, owned: set<int>, trace: seq<Event>) {
    trace == [] ||
    var before, e := trace[..|trace| - 1], trace[|trace| - 1];
    && Exclusive(pool, owned, before)
    && e.got !! OwnedAfter(owned, before) && forall i :: i in e.got ==> Managed(pool, i)
  }

  /** Every free succeeded exactly when the frame was held. */
  ghost predicate ExactFrees(owned: set<int>, trace: seq<Event>) {
    trace == [] ||
    var before, e := trace[..|trace| - 1], trace[|trace| - 1];
    ExactFrees(owned, before) && (e.op.Free? ==> (e.ok <==> e.op.frame in OwnedAfter(owned, before)))
  }

  /** Callers only freed frames they held. */
  ghost predicate OwnFrees(owned: set<int>, trace: seq<Event>) {
    trace == [] ||
    var before, e := trace[..|trace| - 1], trace[|trace| - 1];
    OwnFrees(owned, before) && (e.op.Free? ==> e.op.frame in OwnedAfter(owned, before))
  }

  ghost predicate NoRuns(trace: seq<Event>) {
    trace == [] || (NoRuns(trace[..|trace| - 1]) && !trace[|trace| - 1].op.Run?)
  }

  /** Frame `i` is held throughout and nobody stores to its address `x`. */
  ghost predicate Untouched(owned: set<int>, trace: seq<Event>, i: int, x: int) {
    && i in OwnedAfter(owned, trace)
    && (trace == [] ||
        var e := trace[|trace| - 1];
        Untouched(owned, trace[..|trace| - 1], i, x) && !StoresTo(e.op, x))
  }

  predicate StoresTo(op: Op, x: int) {
    op.Store? && StartAddress(op.frame) + 4 * op.entry == x
  }

  /** What a caller must respect: real frame indices, and stores to frames it holds. */
  ghost predicate Legal(owned: set<int>, op: Op) {
    match op
    case One => true
    case Run(_) => true
    case Free(frame) => 0 <= frame < MAX_FRAME_INDEX
    case Store(frame, entry, _) => frame in owned && 0 <= frame < MAX_FRAME_INDEX && 0 <= entry < 1024
  }

  method Act(fa: FrameAllocator, op: Op) returns (e: Event)
    requires fa.Valid() && Legal(fa.owned, op)
    modifies fa, fa.ram
    ensures fa.Valid() && e.op == op && fa.owned == OwnedNext(old(fa.owned), e)
    ensures e.got !! old(fa.owned) && forall i :: i in e.got ==> Managed(fa.pool, i)
    ensures op.Free? ==> (e.ok <==> op.frame in old(fa.owned) || op.frame in old(fa.skipped))
    ensures !op.Run? && old(fa.skipped) == {} ==> fa.skipped == {}
    ensures old(fa.honest) && (op.Free? ==> op.frame in old(fa.owned)) ==> fa.honest
    ensures forall i, x :: i in old(fa.owned) && i in fa.owned && InFrame(i, x) && 0 <= x < ADDRESS_SPACE ==>
      StoresTo(op, x) || fa.ram.cells[x] == old(fa.ram.cells)[x]
  {
    hide Split, Elements, Chained, NoDuplicates, Disjoint, WellFormed, CursorOk, PassedSet, ManagedSet, Managed, Window,
      AtOrAfter, Span;
    match op {
      case One =>
        var r := fa.Allocate();
        e := if r.None? then Event(op, {}, false) else Event(op, {r.value}, true);
      case Run(count) => e := ActRun(fa, count);
      case Free(frame) =>
        var result := fa.Free(frame);
        e := Event(op, {}, result == Freed);
      case Store(frame, entry, w) =>
        fa.Store(frame, entry, w);
        e := Event(op, {}, true);
    }
  }

  method ActRun(fa: FrameAllocator, count: nat) returns (e: Event)
    requires fa.Valid()
    modifies fa
    ensures fa.Valid() && e.op == Run(count) && fa.owned == OwnedNext(old(fa.owned), e)
    ensures e.got !! old(fa.owned) && forall i :: i in e.got ==> Managed(fa.pool, i)
    ensures fa.honest == old(fa.honest)
  {
    hide Split, Elements, Chained, NoDuplicates, Disjoint, WellFormed, CursorOk, PassedSet, ManagedSet, Managed, Window,
      AtOrAfter, Span;
    var r := fa.AllocateContiguous(count);
    if r.None? {
      return Event(Run(count), {}, false);
    }
    WindowManaged(fa.pool, fa.cursorRegion, r.value, count);
    return Event(Run(count), Span(r.value, count), true);
  }

  /** In every run of allocations, frees and stores, each chosen by the callers from
      what they have seen so far: no frame is ever held twice; frames that stay held
      keep their contents; without contiguous requests frees succeed exactly on held
      frames; and when callers free only what they hold, `in_use` is their number and
      every frame of the pool is accounted for. */
  method RunAll(fa: FrameAllocator, callers: seq<Event> -> Op, n: nat) returns (trace: seq<Event>)
    requires fa.Valid() && forall seen :: Legal(OwnedAfter(fa.owned, seen), callers(seen))
    modifies fa, fa.ram
    ensures |trace| == n && forall k :: 0 <= k < n ==> trace[k].op == callers(trace[..k])
    ensures fa.Valid() && fa.owned == OwnedAfter(old(fa.owned), trace)
    ensures Exclusive(fa.pool, old(fa.owned), trace)
    ensures old(fa.skipped) == {} && NoRuns(trace) ==> ExactFrees(old(fa.owned), trace)
    ensures old(fa.honest) && OwnFrees(old(fa.owned), trace) ==>
      fa.inUse == |fa.owned| && fa.total == fa.inUse + fa.freeCount + |fa.skipped| + |fa.Unvisited()|
    ensures forall i, x :: Untouched(old(fa.owned), trace, i, x) && InFrame(i, x) && 0 <= x < ADDRESS_SPACE ==>
      fa.ram.cells[x] == old(fa.ram.cells)[x]
  {
    hide Split, Elements, Chained, NoDuplicates, Disjoint, WellFormed, CursorOk, PassedSet, ManagedSet, Managed;
    trace := [];
    while |trace| < n
      invariant |trace| <= n && forall k :: 0 <= k < |trace| ==> trace[k].op == callers(trace[..k])
      invariant fa.Valid() && fa.owned == OwnedAfter(old(fa.owned), trace)
      invariant Exclusive(fa.pool, old(fa.owned), trace)
      invariant old(fa.skipped) == {} && NoRuns(trace) ==> fa.skipped == {} && ExactFrees(old(fa.owned), trace)
      invariant old(fa.honest) && OwnFrees(old(fa.owned), trace) ==> fa.honest
      invariant forall i, x :: Untouched(old(fa.owned), trace, i, x) && InFrame(i, x) && 0 <= x < ADDRESS_SPACE ==>
        fa.ram.cells[x] == old(fa.ram.cells)[x]
    {
      ghost var before := trace;
      var e := Act(fa, callers(trace));
      trace := trace + [e];
      assert trace[..|trace| - 1] == before;
      assert forall k :: 0 <= k < |before| ==> trace[..k] == before[..k];
    }
    fa.Conservation();
  }

  // ---------- Two inputs ----------

  const GAPPED: seq<Region> := [Region(0x10_0000, 0x2000, true), Region(0x20_0000, 0x10_0000, true)]

  lemma GappedPool(kernelStart: int, kernelEnd: int)
    requires 0 <= kernelStart < kernelEnd < 0x10_0000
    ensures Is64BitMap(GAPPED) && DisjointMap(GAPPED)
    ensures var pool := MakePool(GAPPED, kernelStart, kernelEnd);
      && pool.regions == [FrameRange(256, 258), FrameRange(512, 768)]
      && forall i :: 256 <= i ==> !Reserved(pool, i)
  {
    assert UsableRanges(GAPPED[1..][1..]) == [];
    assert UsableRanges(GAPPED[1..]) == [FrameRange(512, 768)];
  }

  /** The only run of three frames starts at 512; nobody is given 256 or 257. */
  lemma GappedRun(pool: Pool, q: int, t: int, f: int)
    requires pool.regions == [FrameRange(256, 258), FrameRange(512, 768)] && forall i :: 256 <= i ==> !Reserved(pool, i)
    ensures Window(pool, 1, 512, 3) && (Window(pool, q, t, 3) ==> q == 1 && 512 <= t)
    ensures 256 in ManagedSet(pool) - PassedSet(pool, 0, 256) && 256 in PassedSet(pool, 1, f)
  {
    assert InRegion(pool, 0, 256);
  }

  /** A contiguous request steps over two frames that are too few for it; freeing one
      of them succeeds although nobody was ever given it, and `in_use` goes wrong. */
  method FreesUnallocated(ram: Ram) returns (fa: FrameAllocator, run: Option<int>, result: FreeResult)
    requires ram.Valid()
    modifies ram
    ensures run == Some(512) && result == Freed && fa.inUse < |fa.owned|
  {
    hide Split, Elements, Chained, NoDuplicates, Disjoint, WellFormed, CursorOk, PassedSet, ManagedSet, Managed, Window,
      Span, MakePool, Is64BitMap, DisjointMap, Reserved, GAPPED;
    GappedPool(0x8000, 0x9000);
    fa := new FrameAllocator(ram, GAPPED, 0x8000, 0x9000);
    run := fa.AllocateContiguous(3);
    GappedRun(fa.pool, fa.cursorRegion, if run.Some? then run.value else 0, fa.cursorFrame);
    result := fa.Free(256);
  }

  const DOUBLED: seq<Region> := [Region(0x10_0000, 0x1000, true), Region(0x10_0000, 0x1000, true)]

  lemma DoubledOrder(kernelStart: int, kernelEnd: int)
    requires 0 <= kernelStart < kernelEnd < 0x10_0000
    ensures Is64BitMap(DOUBLED) && YieldOrder(MakePool(DOUBLED, kernelStart, kernelEnd)) == [256, 256]
  {
    var pool := MakePool(DOUBLED, kernelStart, kernelEnd);
    assert UsableRanges(DOUBLED[1..][1..]) == [];
    assert UsableRanges(DOUBLED[1..]) == [FrameRange(256, 257)];
    assert !Reserved(pool, 256);
    assert Unreserved(pool, 256, 257) == [256] + Unreserved(pool, 257, 257);
    assert Ahead(pool, 2, 0) == [];
    assert Ahead(pool, 1, 256) == [256];
  }

  /** Two usable regions that share a frame: the cursor yields that frame twice. */
  method YieldsTwice(ram: Ram) returns (first: Option<int>, second: Option<int>)
    requires ram.Valid()
    ensures first == second == Some(256)
  {
    hide Disjoint, WellFormed, CursorOk, PassedSet, ManagedSet, MakePool, Is64BitMap, DisjointMap, Ahead;
    DoubledOrder(0x8000, 0x9000);
    var fa := new FrameAllocator(ram, DOUBLED, 0x8000, 0x9000);
    ghost var order := Ahead(fa.pool, fa.cursorRegion, fa.cursorFrame);
    assert order == [256, 256];
    first := fa.Bump();
    ghost var rest := Ahead(fa.pool, fa.cursorRegion, fa.cursorFrame);
    assert order[0] == 256 && order[1] == 256 && (first.Some? ==> order == [first.value] + rest);
    second := fa.Bump();
  }
}
