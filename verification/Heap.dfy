/** The kernel heap: first fit over an intrusive, address-sorted, coalescing
    free list that lives in the memory it manages. */
module Heap {
  import opened Machine
  import opened FreeList

  // ---------- Request sizes ----------

  function AlignUp(value: int): (r: Option<int>)
    requires 0 <= value < ADDRESS_SPACE
  {
    if value + (ALIGN - 1) >= ADDRESS_SPACE then None
    else Some((value + (ALIGN - 1)) / 8 * 8)
  }

  /** The size of the block to take for a request, as computed in 32-bit arithmetic. */
  function AlignedBlockSize(payload: int): (r: Option<int>)
    requires 0 <= payload < ADDRESS_SPACE
    ensures r.Some? ==> r.value == BlockBytes(payload)
    ensures r.None? <==> BlockBytes(payload) + (ALIGN - 1) >= ADDRESS_SPACE
  {
    match AlignUp(payload)
    case None => None
    case Some(body) =>
      if body + HEADER_SIZE >= ADDRESS_SPACE then None else AlignUp(body + HEADER_SIZE)
  }

  /** The least multiple of ALIGN holding a header and `payload` bytes. */
  ghost function BlockBytes(payload: int): (n: int)
    requires 0 <= payload
    ensures Multiple(8, n) && payload + 8 <= n < payload + 16
  {
    var n := (payload + HEADER_SIZE + ALIGN - 1) / 8 * 8;
    MultipleMod(ALIGN, n);
    n
  }

  /** A size whose round-up would overflow is no size below 4 GiB. */
  lemma NothingSoLarge(payload: int)
    requires 0 <= payload && BlockBytes(payload) + (ALIGN - 1) >= ADDRESS_SPACE
    ensures BlockBytes(payload) >= ADDRESS_SPACE
  {
    MultipleMod(8, BlockBytes(payload));
  }

  // ---------- Linking and merging, on memory ----------

  /** Blocks at `left` and `right` exist and the first ends where the second starts. */
  predicate Touch(cells: Cells, left: int, right: int)
    requires Populated(cells) && 0 <= left < ADDRESS_SPACE
  {
    left != 0 && right != 0 && left + cells[left] == right
  }

  /** Memory once `right` is absorbed into `left`, if they touch. */
  function MergeCells(cells: Cells, left: int, right: int): (merged: Cells)
    requires Populated(cells) && 0 <= left < ADDRESS_SPACE - 4 && 0 <= right < ADDRESS_SPACE - 4
    requires Touch(cells, left, right) ==> cells[left] + cells[right] < ADDRESS_SPACE
    ensures Populated(merged)
  {
    if Touch(cells, left, right) then cells[left := cells[left] + cells[right]][left + 4 := cells[right + 4]] else cells
  }

  /** Where `block` lies between the free blocks `k - 1` and `k`. */
  ghost predicate Apart(free: seq<Block>, block: int, size: int, k: int) {
    && 0 <= k <= |free| && HEADER_SIZE < size && 0 < block && block + size < ADDRESS_SPACE
    && (0 < k ==> 0 < free[k - 1].addr && free[k - 1].addr + HEADER_SIZE <= free[k - 1].End() <= block)
    && (k < |free| ==> block + size <= free[k].addr && free[k].addr + HEADER_SIZE <= free[k].End() < ADDRESS_SPACE)
  }

  /** `block` is linked in between its neighbours with this size and successor; apart
      from its header and the link to it, memory is as it `was`. */
  ghost predicate Joined(was: Cells, cells: Cells, free: seq<Block>, block: int, k: int, size: int, next: int)
    requires Populated(was)
  {
    && Populated(cells) && 0 <= k <= |free| && Header(cells, Block(block, size), next)
    && (0 < k ==> Header(cells, free[k - 1], block))
    && (k < |free| ==> Header(cells, free[k], HeadOf(free[k + 1..], 0)))
    && (forall x :: 0 <= x < ADDRESS_SPACE && x != block && x != block + 4 && !(0 < k && x == free[k - 1].addr + 4) ==>
          cells[x] == was[x])
  }

  lemma LinkedIn(was: Cells, free: seq<Block>, block: int, size: int, k: int)
    requires Populated(was) && Apart(free, block, size, k) && was[block] == size
    requires 0 < k ==> was[free[k - 1].addr] == free[k - 1].size
    requires k < |free| ==> Header(was, free[k], HeadOf(free[k + 1..], 0))
    ensures 0 <= HeadOf(free[k..], 0) < ADDRESS_SPACE
    ensures var linked := was[block + 4 := HeadOf(free[k..], 0)];
      Joined(was, if k == 0 then linked else linked[free[k - 1].addr + 4 := block], free, block, k, size,
             HeadOf(free[k..], 0))
  {
  }

  /** The size and successor of `block` after merging with the free block that follows it. */
  function RightSize(free: seq<Block>, block: int, size: int, k: int): int
    requires 0 <= k <= |free|
  {
    if JoinsRight(free, block + size, k) then size + free[k].size else size
  }

  function RightNext(free: seq<Block>, block: int, size: int, k: int): int
    requires 0 <= k <= |free|
  {
    HeadOf(free[if JoinsRight(free, block + size, k) then k + 1 else k..], 0)
  }

  lemma RightMerge(was: Cells, cells: Cells, free: seq<Block>, block: int, size: int, k: int)
    requires Populated(was) && Apart(free, block, size, k)
    requires Joined(was, cells, free, block, k, size, HeadOf(free[k..], 0))
    ensures var current := HeadOf(free[k..], 0);
      && 0 <= current < ADDRESS_SPACE - 4
      && (Touch(cells, block, current) ==> cells[block] + cells[current] < ADDRESS_SPACE)
      && Joined(was, MergeCells(cells, block, current), free, block, k,
                RightSize(free, block, size, k), RightNext(free, block, size, k))
  {
    var current := HeadOf(free[k..], 0);
    assert Touch(cells, block, current) <==> JoinsRight(free, block + size, k);
    assert current != 0 ==> current == free[k].addr && cells[current] == free[k].size;
  }

  lemma LeftMerge(was: Cells, cells: Cells, free: seq<Block>, block: int, size: int, k: int)
    requires Populated(was) && Apart(free, block, size, k)
    requires Joined(was, cells, free, block, k, RightSize(free, block, size, k), RightNext(free, block, size, k))
    ensures var prev := if k == 0 then 0 else free[k - 1].addr;
      && (Touch(cells, prev, block) ==> cells[prev] + cells[block] < ADDRESS_SPACE)
      && var after := MergeCells(cells, prev, block);
         && Header(after, Merged(free, Block(block, size), k), RightNext(free, block, size, k))
         && (0 < k && !JoinsLeft(free, block, k) ==> after[free[k - 1].addr + 4] == block)
         && forall x :: 0 <= x < ADDRESS_SPACE && !ReleaseTouches(free, block, size, k, x) ==> after[x] == was[x]
  {
    var prev := if k == 0 then 0 else free[k - 1].addr;
    assert Touch(cells, prev, block) <==> JoinsLeft(free, block, k);
  }

  class Heap {
    const ram: Ram
    var heapStart: int
    var heapEnd: int
    var freeList: int
    var used: int
    var allocations: nat
    ghost var free: seq<Block>
    ghost var live: Live

    /** The list in memory is exactly the gaps between live blocks, all aligned. */
    ghost predicate Shaped()
      reads this, ram
    {
      && HeapInv(ram.cells, freeList, free, live, heapStart, heapEnd)
      && AllAligned(free) && LiveAligned(live)
    }

    ghost predicate Valid()
      reads this, ram
    {
      && Shaped()
      && used + Total(free) == heapEnd - heapStart
    }

    constructor (ram: Ram)
      requires ram.Valid()
      ensures this.ram == ram && Valid() && !IsReady() && live == map[]
    {
      this.ram := ram;
      heapStart, heapEnd := 1, 1;
      freeList, used, allocations := 0, 0, 0;
      free, live := [], map[];
    }

    predicate IsReady()
      reads this
    {
      heapEnd > heapStart
    }

    /** One free block spanning `size` bytes from `start`. For a heap ending at 4 GiB the
        end address overflows after the header is written, and the kernel panics. */
    method Init(start: int, size: int) returns (panicked: bool)
      requires ram.Valid()
      requires 0 < start && Multiple(ALIGN, start) && HEADER_SIZE <= size && Multiple(ALIGN, size)
      requires start + size <= ADDRESS_SPACE
      modifies this, ram
      ensures ram.Valid() && (panicked <==> start + size == ADDRESS_SPACE)
      ensures !panicked ==>
        && Valid() && IsReady() && heapStart == start && heapEnd == start + size
        && live == map[] && free == [Block(start, size)] && used == 0 && allocations == 0
      ensures panicked ==> unchanged(this) && Header(ram.cells, Block(start, size), 0)
      ensures forall x :: 0 <= x < ADDRESS_SPACE && !(start <= x < start + size) ==> ram.cells[x] == old(ram.cells)[x]
    {
      MultipleCoarser(start);
      ram.Write(start, size);
      ram.Write(start + 4, 0);
      if start + size == ADDRESS_SPACE {
        return true;
      }
      heapStart, heapEnd := start, start + size;
      freeList, used, allocations := start, 0, 0;
      free, live := [Block(start, size)], map[];
      InitInv(old(ram.cells), start, start + size);
      return false;
    }

    /** The size field of the free block at list position `i`. */
    function BlockSize(block: int, ghost i: int): (size: int)
      requires Shaped() && 0 <= i < |free| && block == free[i].addr
      reads this, ram
      ensures size == free[i].size
    {
      assert Header(ram.cells, free[i], After(free, i, 0));
      AlignedAt(free, i);
      MultipleCoarser(block);
      ram.Read(block)
    }

    /** The next field of the free block at list position `i`. */
    function NextBlock(block: int, ghost i: int): (next: int)
      requires Shaped() && 0 <= i < |free| && block == free[i].addr
      reads this, ram
      ensures next == HeadOf(free[i + 1..], 0)
    {
      assert Header(ram.cells, free[i], After(free, i, 0));
      AlignedAt(free, i);
      MultipleCoarser(block);
      ram.Read(block + 4)
    }

    method Unlink(prev: int, newNext: Word)
      requires ram.Valid() && (prev == 0 || (0 <= prev < ADDRESS_SPACE - 4 && Multiple(4, prev + 4)))
      modifies this`freeList, ram
      ensures ram.Valid()
      ensures freeList == if prev == 0 then newNext else old(freeList)
      ensures ram.cells == if prev == 0 then old(ram.cells) else old(ram.cells)[prev + 4 := newNext]
    {
      if prev == 0 {
        freeList := newNext;
      } else {
        ram.Write(prev + 4, newNext);
      }
    }

    /** What the walk in `AllocateBlock` establishes about the block it stops at. */
    ghost predicate Carvable(i: int, n: int)
      reads this, ram
    {
      && ram.Valid() && 0 <= i < |free| && HEADER_SIZE < n <= free[i].size
      && 0 < heapStart <= free[i].addr && free[i].End() <= heapEnd < ADDRESS_SPACE
      && (n < free[i].size ==> n + HEADER_SIZE <= free[i].size)
      && Header(ram.cells, free[i], HeadOf(free[i + 1..], 0))
      && Multiple(4, free[i].addr) && Multiple(4, free[i].addr + 4)
      && Multiple(4, free[i].addr + n) && Multiple(4, free[i].addr + n + 4)
      && (0 < i ==>
        && heapStart <= free[i - 1].addr && free[i - 1].addr + HEADER_SIZE < free[i].addr
        && Multiple(4, free[i - 1].addr + 4))
    }

    lemma FitsCarvable(i: int, n: int)
      requires Shaped() && 0 <= i < |free| && Multiple(ALIGN, n) && HEADER_SIZE < n <= free[i].size
      ensures Carvable(i, n)
    {
      AlignedAt(free, i);
      MultipleSum(ALIGN, free[i].addr, n);
      MultipleDifference(ALIGN, free[i].size, n);
      MultipleCoarser(free[i].addr);
      MultipleCoarser(free[i].addr + n);
      assert Header(ram.cells, free[i], After(free, i, 0));
      if 0 < i {
        AlignedAt(free, i - 1);
        MultipleCoarser(free[i - 1].addr);
      }
    }

    /** The stores of `Allocate` once a block is found: split off the tail, unlink, write the header. */
    method Carve(prev: int, current: int, needed: int, ghost i: int) returns (total: int)
      requires Carvable(i, needed)
      requires current == free[i].addr && prev == if i == 0 then 0 else free[i - 1].addr
      modifies this`freeList, ram
      ensures ram.Valid() && total == needed && ram.cells[current] == needed
      ensures forall x :: 0 <= x < ADDRESS_SPACE && !CarveTouches(free, i, x) ==> ram.cells[x] == old(ram.cells)[x]
      ensures var next := HeadOf(free[i + 1..], 0);
        var newNext := if needed == free[i].size then next else current + needed;
        && freeList == (if i == 0 then newNext else old(freeList))
        && (0 < i ==> ram.cells[free[i - 1].addr + 4] == newNext)
        && (needed < free[i].size ==> Header(ram.cells, Block(newNext, free[i].size - needed), next))
    {
      hide Multiple;
      var next := ram.Read(current + 4);
      var remaining := ram.Read(current) - needed;
      if remaining >= HEADER_SIZE {
        var split := current + needed;
        ram.Write(split, remaining);
        ram.Write(split + 4, next);
        Unlink(prev, split);
      } else {
        Unlink(prev, next);
      }
      ram.Write(current, if remaining >= HEADER_SIZE then needed else needed + remaining);
      ram.Write(current + 4, 0);
      total := ram.Read(current);
    }

    /** Takes the first `needed` bytes of the free block at list position `i`. */
    method Take(prev: int, current: int, needed: int, ghost i: int)
      requires Valid() && 0 <= i < |free|
      requires current == free[i].addr && prev == if i == 0 then 0 else free[i - 1].addr
      requires HEADER_SIZE < needed <= free[i].size && Multiple(ALIGN, needed)
      modifies this, ram
      ensures Valid() && heapStart == old(heapStart) && heapEnd == old(heapEnd)
      ensures current !in old(live) && live == old(live)[current := needed] && used == old(used) + needed
      ensures allocations == old(allocations) + 1
      ensures forall x :: 0 <= x < ADDRESS_SPACE && !Holds(old(free), x) ==> ram.cells[x] == old(ram.cells)[x]
    {
      hide Multiple, AllAligned, Total, Holds, InLive;
      FitsCarvable(i, needed);
      ghost var head, was := freeList, ram.cells;
      ghost var next := HeadOf(free[i + 1..], 0);
      ghost var newNext := if needed == free[i].size then next else current + needed;
      var total := Carve(prev, current, needed, i);
      forall x | 0 <= x < ADDRESS_SPACE && !Holds(free, x) ensures ram.cells[x] == was[x] {
        CarveOnlyFree(free, live, heapStart, heapEnd, i, x);
      }
      ghost var rest := CarveInv(was, ram.cells, head, free, live, heapStart, heapEnd, i, needed, next, newNext);
      live := live[current := needed];
      free := rest;
      used := used + total;
      allocations := allocations + 1;
    }

    /** First fit over the list for a whole block of `needed` bytes. */
    method AllocateBlock(needed: int) returns (block: int)
      requires Valid() && HEADER_SIZE < needed && Multiple(ALIGN, needed)
      modifies this, ram
      ensures Valid() && heapStart == old(heapStart) && heapEnd == old(heapEnd)
      ensures
        var fit := FirstFit(old(live), heapStart, heapEnd, needed);
        block == if fit == heapEnd then 0 else fit
      ensures block == 0 ==>
        live == old(live) && used == old(used) && free == old(free) && ram.cells == old(ram.cells)
      ensures block != 0 ==>
        block !in old(live) && live == old(live)[block := needed] && used == old(used) + needed
      ensures allocations == old(allocations) + if block == 0 then 0 else 1
      ensures forall x :: 0 <= x < ADDRESS_SPACE && !Holds(old(free), x) ==> ram.cells[x] == old(ram.cells)[x]
    {
      var prev, current := 0, freeList;
      ghost var i := 0;
      while current != 0 && BlockSize(current, i) < needed
        invariant 0 <= i <= |free|
        invariant current == HeadOf(free[i..], 0)
        invariant prev == if i == 0 then 0 else free[i - 1].addr
        invariant forall j :: 0 <= j < i ==> free[j].size < needed
        decreases |free| - i
      {
        prev, current := current, NextBlock(current, i);
        i := i + 1;
      }
      if current == 0 {
        NoBlockNoFit(free, live, heapStart, heapEnd, needed);
        return 0;
      }
      FirstBlockIsFirstFit(free, live, heapStart, heapEnd, needed, i);
      Take(prev, current, needed, i);
      return current;
    }

    /** Null exactly when no vacant run of the needed size exists; otherwise the
        lowest such address, past its header. */
    method Allocate(size: int, align: int) returns (ptr: int)
      requires Valid() && 0 <= size < ADDRESS_SPACE
      modifies this, ram
      ensures Valid() && heapStart == old(heapStart) && heapEnd == old(heapEnd)
      ensures size == 0 || align > ALIGN ==> ptr == 0
      ensures size != 0 && align <= ALIGN ==>
        var fit := FirstFit(old(live), heapStart, heapEnd, BlockBytes(size));
        ptr == if fit == heapEnd then 0 else fit + HEADER_SIZE
      ensures ptr == 0 ==>
        live == old(live) && used == old(used) && free == old(free) && ram.cells == old(ram.cells)
      ensures ptr != 0 ==>
        && Multiple(ALIGN, ptr) && ptr - HEADER_SIZE !in old(live)
        && live == old(live)[ptr - HEADER_SIZE := BlockBytes(size)]
        && used == old(used) + BlockBytes(size)
      ensures allocations == old(allocations) + if ptr == 0 then 0 else 1
      ensures forall x :: 0 <= x < ADDRESS_SPACE && !Holds(old(free), x) ==> ram.cells[x] == old(ram.cells)[x]
    {
      hide Gaps, LiveOk, Linked, AllAligned, Total, Multiple, Holds, InLive, FirstFit, BlockBytes, AlignedBlockSize;
      if !IsReady() || size == 0 {
        return 0;
      }
      if align > ALIGN {
        return 0;
      }
      var needed := AlignedBlockSize(size);
      if needed.None? {
        NothingSoLarge(size);
        return 0;
      }
      var block := AllocateBlock(needed.value);
      if block == 0 {
        return 0;
      }
      assert Aligned(Block(block, live[block]));
      MultipleOf8(1);
      MultipleSum(ALIGN, block, HEADER_SIZE);
      return block + HEADER_SIZE;
    }

    /** What the walk in `InsertFree` establishes about the neighbours of `block`. */
    ghost predicate Between(block: int, k: int)
      reads this, ram
    {
      && ram.Valid() && block in live && 0 <= k <= |free|
      && 0 < heapStart <= block && HEADER_SIZE < live[block] && block + live[block] <= heapEnd < ADDRESS_SPACE
      && ram.cells[block] == live[block] && Multiple(4, block) && Multiple(4, block + 4)
      && (0 < k ==>
        && Header(ram.cells, free[k - 1], HeadOf(free[k..], 0))
        && heapStart <= free[k - 1].addr && free[k - 1].addr + HEADER_SIZE <= free[k - 1].End() <= block
        && Multiple(4, free[k - 1].addr) && Multiple(4, free[k - 1].addr + 4))
      && (k < |free| ==>
        && Header(ram.cells, free[k], HeadOf(free[k + 1..], 0))
        && block + live[block] <= free[k].addr && free[k].addr + HEADER_SIZE <= free[k].End() <= heapEnd
        && Multiple(4, free[k].addr) && Multiple(4, free[k].addr + 4))
    }

    lemma SplitsBetween(block: int, k: int)
      requires Shaped() && block in live && SplitsAt(free, block, k)
      ensures Between(block, k)
    {
      hide Multiple, AllAligned, Holds, InLive, Linked, Gaps, LiveOk;
      assert Aligned(Block(block, live[block]));
      MultipleCoarser(block);
      SplitBounds(free, live, heapStart, heapEnd, block, k);
      if 0 < k {
        LinkedAt(ram.cells, free, k - 1);
        AlignedAt(free, k - 1);
        MultipleCoarser(free[k - 1].addr);
      }
      if k < |free| {
        LinkedAt(ram.cells, free, k);
        AlignedAt(free, k);
        MultipleCoarser(free[k].addr);
      }
    }

    /** Absorbs block `right` into block `left` when both exist and they touch. */
    method MergeIfTouching(left: int, right: int)
      requires ram.Valid() && 0 <= left < ADDRESS_SPACE - 4 && 0 <= right < ADDRESS_SPACE - 4
      requires Multiple(4, left) && Multiple(4, left + 4) && Multiple(4, right) && Multiple(4, right + 4)
      requires Touch(ram.cells, left, right) ==> ram.cells[left] + ram.cells[right] < ADDRESS_SPACE
      modifies ram
      ensures ram.Valid() && ram.cells == MergeCells(old(ram.cells), left, right)
    {
      hide Multiple;
      if left != 0 && right != 0 && left + ram.Read(left) == right {
        ram.Write(left, ram.Read(left) + ram.Read(right));
        ram.Write(left + 4, ram.Read(right + 4));
      }
    }

    /** The stores of `InsertFree` after its walk: link the block in, then merge. */
    method LinkAndMerge(prev: int, current: int, block: int, ghost k: int)
      requires Between(block, k) && current == HeadOf(free[k..], 0)
      requires prev == if k == 0 then 0 else free[k - 1].addr
      modifies this`freeList, ram
      ensures ram.Valid() && freeList == if k == 0 then block else old(freeList)
      ensures forall x :: 0 <= x < ADDRESS_SPACE && !ReleaseTouches(free, block, live[block], k, x) ==>
          ram.cells[x] == old(ram.cells)[x]
      ensures var right := JoinsRight(free, block + live[block], k);
        Header(ram.cells, Merged(free, Block(block, live[block]), k), HeadOf(free[if right then k + 1 else k..], 0))
      ensures 0 < k && !JoinsLeft(free, block, k) ==> ram.cells[free[k - 1].addr + 4] == block
    {
      hide Multiple, MergeCells, Touch, ReleaseTouches, JoinsLeft, JoinsRight, Merged, Joined, Apart;
      MultipleOf4(0);
      MultipleOf4(1);
      ghost var was, size := ram.cells, live[block];
      BetweenBounds(block, k);
      ram.Write(block + 4, current);
      Unlink(prev, block);
      LinkedIn(was, free, block, size, k);
      RightMerge(was, ram.cells, free, block, size, k);
      MergeIfTouching(block, current);
      LeftMerge(was, ram.cells, free, block, size, k);
      MergeIfTouching(prev, block);
    }

    lemma BetweenBounds(block: int, k: int)
      requires Between(block, k)
      ensures Apart(free, block, live[block], k)
      ensures k < |free| ==> 0 < HeadOf(free[k..], 0) == free[k].addr
      ensures k == |free| ==> HeadOf(free[k..], 0) == 0
    {
      hide Multiple;
    }

    /** The walk of `InsertFree`: the free blocks just below and just above `block`. */
    method FindNeighbours(block: int) returns (prev: int, current: int, ghost k: int)
      requires Shaped() && block in live
      ensures SplitsAt(free, block, k) && Between(block, k) && current == HeadOf(free[k..], 0)
      ensures prev == if k == 0 then 0 else free[k - 1].addr
    {
      hide Multiple, AllAligned, Holds, InLive, LiveOk;
      prev, current, k := 0, freeList, 0;
      while current != 0 && current < block
        invariant 0 <= k <= |free| && forall q :: 0 <= q < k ==> free[q].addr < block
        invariant current == HeadOf(free[k..], 0)
        invariant prev == if k == 0 then 0 else free[k - 1].addr
        decreases |free| - k
      {
        prev, current := current, NextBlock(current, k);
        k := k + 1;
      }
      assert SplitsAt(free, block, k);
      SplitsBetween(block, k);
    }

    /** Writes a block's header without linking it anywhere. */
    method StampHeader(block: int, size: int)
      requires Shaped() && block in live && size == live[block]
      modifies ram
      ensures Shaped()
      ensures forall x :: 0 <= x < ADDRESS_SPACE && !(block <= x < block + size) ==> ram.cells[x] == old(ram.cells)[x]
    {
      assert Aligned(Block(block, size));
      MultipleCoarser(block);
      assert InBody(live, block + 4);
      hide Multiple, AllAligned, Holds, InLive, InBody;
      ram.Write(block, size);
      ram.Write(block + 4, 0);
      ClientWritesKeepHeap(old(ram.cells), ram.cells, freeList, free, live, heapStart, heapEnd);
    }

    /** Splices `block` into the sorted list and merges it with the neighbours it touches. */
    method InsertFree(block: int, size: int)
      requires Shaped() && block in live && size == live[block]
      modifies this`freeList, this`free, this`live, ram
      ensures Shaped() && live == old(live) - {block} && Total(free) == Total(old(free)) + size
      ensures forall x :: 0 <= x < ADDRESS_SPACE && !Holds(free, x) ==> ram.cells[x] == old(ram.cells)[x]
    {
      hide Multiple, AllAligned, LiveAligned, LiveOk, Gaps, Linked, Total, Holds, InLive;
      StampHeader(block, size);
      var prev, current, k := FindNeighbours(block);
      ghost var head, was := freeList, ram.cells;
      LinkAndMerge(prev, current, block, k);
      ghost var rest := ReleaseInv(was, ram.cells, head, free, live, heapStart, heapEnd, block, k,
                                   HeadOf(free[if JoinsRight(free, block + size, k) then k + 1 else k..], 0));
      live := live - {block};
      free := rest;
    }

    /** Frees a pointer `Allocate` returned; null and pointers outside the heap are ignored,
        except that finding the header of a pointer below 8 underflows and panics. */
    method Deallocate(ptr: int) returns (panicked: bool)
      requires Valid() && 0 <= ptr
      requires ptr == 0 || ptr - HEADER_SIZE in live || !(heapStart <= ptr - HEADER_SIZE < heapEnd)
      modifies this, ram
      ensures Valid() && heapStart == old(heapStart) && heapEnd == old(heapEnd)
      ensures allocations == old(allocations) && (panicked <==> IsReady() && 0 < ptr < HEADER_SIZE)
      ensures live == old(live) - {ptr - HEADER_SIZE}
      ensures ptr - HEADER_SIZE in old(live) ==> used == old(used) - old(live)[ptr - HEADER_SIZE]
      ensures ptr - HEADER_SIZE !in old(live) ==>
        used == old(used) && free == old(free) && freeList == old(freeList) && ram.cells == old(ram.cells)
      ensures forall x :: 0 <= x < ADDRESS_SPACE && !Holds(free, x) ==> ram.cells[x] == old(ram.cells)[x]
    {
      assert ptr - HEADER_SIZE !in live ==> live - {ptr - HEADER_SIZE} == live;
      if ptr == 0 || !IsReady() {
        return false;
      }
      if ptr < HEADER_SIZE {
        return true;
      }
      var block := ptr - HEADER_SIZE;
      if block < heapStart || block >= heapEnd {
        return false;
      }
      assert Aligned(Block(block, live[block]));
      MultipleCoarser(block);
      var size := ram.Read(block);
      if !(size < HEADER_SIZE || block + size > heapEnd) {
        used := if used < size then 0 else used - size;
        InsertFree(block, size);
        TotalBounded(free, heapStart, heapEnd);
      }
      return false;
    }
  }
}
