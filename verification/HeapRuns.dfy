/** Whole runs of the heap. The allocator is abstracted to its live set alone:
    allocation takes the lowest vacant run, a free removes one entry. Every run
    of the real allocator follows that machine, and the free list it leaves in
    memory depends on nothing but the final live set. */
module HeapRuns {
  import opened Machine
  import opened FreeList
  import opened Heap

  datatype Op = Alloc(size: int, align: int) | Free(ptr: int) | Store(addr: int, word: Word)

  /** The pointer an allocation returns, from the live set alone; 0 is null. */
  ghost function AllocResult(live: Live, lo: int, hi: int, size: int, align: int): int
    requires 0 <= size
  {
    if size == 0 || align > ALIGN then 0
    else
      var fit := FirstFit(live, lo, hi, BlockBytes(size));
      if fit == hi then 0 else fit + HEADER_SIZE
  }

  /** Clients free pointers they hold and write only inside live payloads. */
  ghost predicate Permitted(live: Live, op: Op) {
    match op
    case Alloc(size, _) => 0 <= size < ADDRESS_SPACE
    case Free(ptr) => ptr - HEADER_SIZE in live
    case Store(addr, _) => Multiple(4, addr) && exists a :: a in live && a + HEADER_SIZE <= addr < a + live[a]
  }

  ghost function Step(live: Live, lo: int, hi: int, op: Op): Live
    requires Permitted(live, op)
  {
    match op
    case Alloc(size, align) =>
      var ptr := AllocResult(live, lo, hi, size, align);
      if ptr == 0 then live else live[ptr - HEADER_SIZE := BlockBytes(size)]
    case Free(ptr) => live - {ptr - HEADER_SIZE}
    case Store(_, _) => live
  }

  ghost predicate AllPermitted(live: Live, lo: int, hi: int, ops: seq<Op>)
    decreases |ops|
  {
    ops == [] || (Permitted(live, ops[0]) && AllPermitted(Step(live, lo, hi, ops[0]), lo, hi, ops[1..]))
  }

  ghost function RunLive(live: Live, lo: int, hi: int, ops: seq<Op>): Live
    requires AllPermitted(live, lo, hi, ops)
    decreases |ops|
  {
    if ops == [] then live else RunLive(Step(live, lo, hi, ops[0]), lo, hi, ops[1..])
  }

  /** Byte `x` belongs to a live block throughout the run and no client stores to it. */
  ghost predicate Steady(live: Live, lo: int, hi: int, ops: seq<Op>, x: int)
    requires AllPermitted(live, lo, hi, ops)
    decreases |ops|
  {
    && InLive(live, x)
    && (ops == [] ||
        (!(ops[0].Store? && ops[0].addr == x) && Steady(Step(live, lo, hi, ops[0]), lo, hi, ops[1..], x)))
  }

  /** Live bytes are not free, and neither kind lies outside the heap. */
  lemma SeparateParts(free: seq<Block>, live: Live, lo: int, hi: int)
    requires Gaps(free, live, lo, hi) && LiveOk(live, lo, hi)
    ensures forall x :: InLive(live, x) ==> lo <= x < hi && !Holds(free, x)
    ensures forall x :: Holds(free, x) ==> lo <= x < hi
  {
    forall x | InLive(live, x) ensures lo <= x < hi && !Holds(free, x) {
      var a :| a in live && a <= x < a + live[a];
      assert Fits(Block(a, live[a]), lo, hi);
    }
  }

  lemma LiveAbove(live: Live, lo: int, hi: int, a: int)
    requires LiveOk(live, lo, hi) && a in live
    ensures lo <= a && a + live[a] <= hi
  {
    assert Fits(Block(a, live[a]), lo, hi);
  }

  lemma StoreInBody(live: Live, addr: int, lo: int, hi: int)
    requires LiveOk(live, lo, hi) && exists a :: a in live && a + HEADER_SIZE <= addr < a + live[a]
    ensures InBody(live, addr) && lo <= addr < hi
  {
    var a :| a in live && a + HEADER_SIZE <= addr < a + live[a];
    assert Fits(Block(a, live[a]), lo, hi);
    assert a + 4 <= addr;
  }

  /** One client action on the real allocator. */
  method Act(h: Heap, op: Op) returns (ptr: int)
    requires h.Valid() && Permitted(h.live, op)
    modifies h, h.ram
    ensures h.Valid() && h.heapStart == old(h.heapStart) && h.heapEnd == old(h.heapEnd)
    ensures h.live == Step(old(h.live), h.heapStart, h.heapEnd, op)
    ensures op.Alloc? ==> ptr == AllocResult(old(h.live), h.heapStart, h.heapEnd, op.size, op.align)
    ensures forall x :: InLive(old(h.live), x) && InLive(h.live, x) && !(op.Store? && op.addr == x) ==>
        0 <= x < ADDRESS_SPACE && h.ram.cells[x] == old(h.ram.cells)[x]
    ensures forall x :: 0 <= x < ADDRESS_SPACE && !(h.heapStart <= x < h.heapEnd) ==>
        h.ram.cells[x] == old(h.ram.cells)[x]
  {
    hide Gaps, LiveOk, Linked, LiveAligned, AllAligned, Total, Multiple, Holds, InLive, InBody, FirstFit;
    SeparateParts(h.free, h.live, h.heapStart, h.heapEnd);
    ptr := 0;
    match op {
      case Alloc(size, align) => ptr := h.Allocate(size, align);
      case Free(p) =>
        LiveAbove(h.live, h.heapStart, h.heapEnd, p - HEADER_SIZE);
        var panicked := h.Deallocate(p);
        SeparateParts(h.free, h.live, h.heapStart, h.heapEnd);
      case Store(a, w) =>
        StoreInBody(h.live, a, h.heapStart, h.heapEnd);
        h.ram.Write(a, w);
        ClientWritesKeepHeap(old(h.ram.cells), h.ram.cells, h.freeList, h.free, h.live, h.heapStart, h.heapEnd);
    }
  }

  /** Every permitted run, of any length and in any order, follows the live-set
      machine, keeps the heap valid, and leaves steady bytes alone. */
  method Run(h: Heap, ops: seq<Op>)
    requires h.Valid() && AllPermitted(h.live, h.heapStart, h.heapEnd, ops)
    modifies h, h.ram
    ensures h.Valid() && h.heapStart == old(h.heapStart) && h.heapEnd == old(h.heapEnd)
    ensures h.live == RunLive(old(h.live), h.heapStart, h.heapEnd, ops)
    ensures forall x :: 0 <= x < ADDRESS_SPACE && Steady(old(h.live), h.heapStart, h.heapEnd, ops, x) ==>
        h.ram.cells[x] == old(h.ram.cells)[x]
    ensures forall x :: 0 <= x < ADDRESS_SPACE && !(h.heapStart <= x < h.heapEnd) ==>
        h.ram.cells[x] == old(h.ram.cells)[x]
    decreases |ops|
  {
    if ops != [] {
      var _ := Act(h, ops[0]);
      Run(h, ops[1..]);
    }
  }

  /** Heaps with the same bounds and live blocks hold the same free list, whatever
      order of calls produced them, and account for every byte. */
  lemma ListDependsOnLiveOnly(g: Heap, h: Heap)
    requires g.Valid() && h.Valid() && g.heapStart == h.heapStart && g.heapEnd == h.heapEnd && g.live == h.live
    ensures g.free == h.free && g.freeList == h.freeList && g.used == h.used
  {
    GapsUnique(g.free, h.free, g.live, g.heapStart, g.heapEnd);
  }

  lemma NullNotLive(live: Live, lo: int, hi: int)
    requires LiveOk(live, lo, hi) && 0 < lo
    ensures -HEADER_SIZE !in live
  {
    assert -HEADER_SIZE in live ==> Fits(Block(-HEADER_SIZE, live[-HEADER_SIZE]), lo, hi);
  }

  /** On one heap: an allocation followed at once by its free restores the exact free
      list, head, count of used bytes and live set, and disturbs no byte outside the
      list. */
  method AllocateAndFree(h: Heap, size: int, align: int) returns (ptr: int)
    requires h.Valid() && 0 <= size < ADDRESS_SPACE
    modifies h, h.ram
    ensures ptr == AllocResult(old(h.live), old(h.heapStart), old(h.heapEnd), size, align)
    ensures h.Valid() && h.heapStart == old(h.heapStart) && h.heapEnd == old(h.heapEnd)
    ensures h.live == old(h.live) && h.free == old(h.free) && h.freeList == old(h.freeList) && h.used == old(h.used)
    ensures forall x :: 0 <= x < ADDRESS_SPACE && !Holds(h.free, x) ==> h.ram.cells[x] == old(h.ram.cells)[x]
  {
    hide Gaps, LiveOk, Linked, LiveAligned, AllAligned, Total, Multiple, Holds, InLive, FirstFit;
    ptr := h.Allocate(size, align);
    var panicked := h.Deallocate(ptr);
    NullNotLive(old(h.live), h.heapStart, h.heapEnd);
    assert h.live == old(h.live);
    GapsUnique(old(h.free), h.free, h.live, h.heapStart, h.heapEnd);
  }

  function Frees(blocks: seq<int>): seq<Op> {
    if blocks == [] then [] else [Free(blocks[0] + HEADER_SIZE)] + Frees(blocks[1..])
  }

  /** Frees in any order remove exactly the blocks they name. */
  lemma {:induction false} FreesRemove(live: Live, lo: int, hi: int, blocks: seq<int>)
    requires forall i :: 0 <= i < |blocks| ==> blocks[i] in live
    requires forall i, j :: 0 <= i < j < |blocks| ==> blocks[i] != blocks[j]
    ensures AllPermitted(live, lo, hi, Frees(blocks))
    ensures RunLive(live, lo, hi, Frees(blocks)) == live - set b | b in blocks
  {
    if blocks == [] {
      assert live - (set b | b in blocks) == live;
    } else {
      var rest := live - {blocks[0]};
      FreesRemove(rest, lo, hi, blocks[1..]);
      assert Frees(blocks)[1..] == Frees(blocks[1..]);
      assert (set b | b in blocks) == {blocks[0]} + set b | b in blocks[1..];
      assert live - (set b | b in blocks) == rest - set b | b in blocks[1..];
    }
  }

  /** Freeing every live block, in any order, leaves one block spanning the heap. */
  method FreeEverything(h: Heap, blocks: seq<int>)
    requires h.Valid() && h.heapStart + HEADER_SIZE <= h.heapEnd
    requires forall i :: 0 <= i < |blocks| ==> blocks[i] in h.live
    requires forall i, j :: 0 <= i < j < |blocks| ==> blocks[i] != blocks[j]
    requires forall a :: a in h.live ==> a in blocks
    modifies h, h.ram
    ensures h.Valid() && h.live == map[] && h.used == 0
    ensures h.free == [Block(old(h.heapStart), old(h.heapEnd) - old(h.heapStart))]
  {
    hide Linked, LiveOk, LiveAligned, AllAligned, Gaps, RunLive, AllPermitted, Frees;
    FreesRemove(h.live, h.heapStart, h.heapEnd, blocks);
    assert h.live - (set b | b in blocks) == map[] by {
      assert forall a :: a in h.live ==> a in blocks;
    }
    Run(h, Frees(blocks));
    EmptyHeapIsOneBlock(h.free, h.heapStart, h.heapEnd);
  }
}
