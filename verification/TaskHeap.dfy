/** `spawn` with its stack from the kernel heap: tasks and heap share one memory and
    keep out of each other's way. */
module TaskHeap {
  import opened Machine
  import opened Sequences
  import opened FreeList
  import opened Heap
  import opened HeapRuns
  import opened Scheduler
  import opened Tasks

  datatype SpawnResult = NoMemory | TableFull | Spawned(id: int)

  /** The stack, not an empty one, is outside the heap or inside the payload of a live block. */
  ghost predicate Held(stack: Stack, live: Live, lo: int, hi: int) {
    && stack.lo < stack.hi
    && (stack.hi <= lo || hi <= stack.lo ||
        exists a :: a in live && a + HEADER_SIZE <= stack.lo && stack.hi <= a + live[a])
  }

  /** Every stack is held and the task table lies outside the heap. */
  ghost predicate Backed(slots: seq<int>, stacks: map<int, Stack>, live: Live, lo: int, hi: int) {
    && (forall id :: id in stacks ==> Held(stacks[id], live, lo, hi))
    && (forall i :: 0 <= i < |slots| ==> !(lo <= slots[i] < hi))
  }

  /** No byte of a held stack is free. */
  lemma HeldNotFree(stack: Stack, free: seq<Block>, live: Live, lo: int, hi: int, x: int)
    requires Gaps(free, live, lo, hi) && Held(stack, live, lo, hi) && stack.Has(x)
    ensures !Holds(free, x)
  {
    if a :| a in live && a + HEADER_SIZE <= stack.lo && stack.hi <= a + live[a] {
      assert InLive(live, x);
    }
  }

  /** Writes to free bytes only are none of the tasks' business. */
  lemma FreeWritesOwn(before: Cells, after: Cells, slots: seq<int>, stacks: map<int, Stack>, id: int,
                      free: seq<Block>, live: Live, lo: int, hi: int)
    requires Gaps(free, live, lo, hi) && Backed(slots, stacks, live, lo, hi) && Populated(before) && Populated(after)
    requires forall x :: 0 <= x < ADDRESS_SPACE && !Holds(free, x) ==> after[x] == before[x]
    ensures OwnWrites(before, after, slots, stacks, id)
  {
    hide Held, Gaps, Holds;
    forall other, x | other in stacks && 0 <= x < ADDRESS_SPACE && stacks[other].Has(x) ensures after[x] == before[x] {
      HeldNotFree(stacks[other], free, live, lo, hi, x);
    }
    forall i | 0 <= i < |slots| && 0 <= slots[i] < ADDRESS_SPACE ensures after[slots[i]] == before[slots[i]] {
      OutsideNotFree(free, live, lo, hi, slots[i]);
    }
  }

  lemma OutsideNotFree(free: seq<Block>, live: Live, lo: int, hi: int, x: int)
    requires Gaps(free, live, lo, hi) && !(lo <= x < hi)
    ensures !Holds(free, x)
  {
  }

  /** The payload of a new block is clear of every stack and slot held before it. */
  lemma NewPayloadUnused(slots: seq<int>, stacks: map<int, Stack>, live: Live, lo: int, hi: int,
                         a: int, n: int, stack: Stack)
    requires Backed(slots, stacks, live, lo, hi) && LiveOk(live[a := n], lo, hi) && a !in live
    requires a + HEADER_SIZE == stack.lo && stack.lo < stack.hi <= a + n
    ensures Unused(slots, stacks, stack)
    ensures Held(stack, live[a := n], lo, hi)
  {
    var grown := live[a := n];
    assert Fits(Block(a, grown[a]), lo, hi);
    forall id | id in stacks ensures stack.Apart(stacks[id]) {
      HeldApart(stacks[id], live, lo, hi, a, n, stack);
    }
  }

  lemma HeldApart(other: Stack, live: Live, lo: int, hi: int, a: int, n: int, stack: Stack)
    requires Held(other, live, lo, hi) && LiveOk(live[a := n], lo, hi) && a !in live
    requires a + HEADER_SIZE == stack.lo && stack.lo < stack.hi <= a + n
    ensures stack.Apart(other)
  {
    var grown := live[a := n];
    assert Fits(Block(a, grown[a]), lo, hi);
    if b :| b in live && b + HEADER_SIZE <= other.lo && other.hi <= b + live[b] {
      assert grown[b] == live[b] && b != a;
    }
  }

  /** Growing the live set keeps what is held. */
  lemma BackedGrows(slots: seq<int>, stacks: map<int, Stack>, live: Live, lo: int, hi: int, a: int, n: int)
    requires Backed(slots, stacks, live, lo, hi) && a !in live
    ensures Backed(slots, stacks, live[a := n], lo, hi)
  {
    forall id | id in stacks ensures Held(stacks[id], live[a := n], lo, hi) {
      if b :| b in live && b + HEADER_SIZE <= stacks[id].lo && stacks[id].hi <= b + live[b] {
        assert live[a := n][b] == live[b];
      }
    }
  }

  /** Bytes of a live payload, and bytes outside the heap, are the caller's to write. */
  lemma StackWritesKeepHeap(before: Cells, after: Cells, head: int, free: seq<Block>, live: Live, lo: int, hi: int,
                            a: int, stack: Stack, slots: seq<int>)
    requires HeapInv(before, head, free, live, lo, hi) && Populated(after) && a in live
    requires a + HEADER_SIZE <= stack.lo && stack.hi <= a + live[a]
    requires forall i :: 0 <= i < |slots| ==> !(lo <= slots[i] < hi)
    requires forall x :: 0 <= x < ADDRESS_SPACE && !stack.Has(x) && x !in slots ==> after[x] == before[x]
    ensures HeapInv(after, head, free, live, lo, hi)
  {
    hide Gaps, LiveOk, Linked;
    forall x | lo <= x < hi && !InBody(live, x) ensures after[x] == before[x] {
      assert !stack.Has(x) && x !in slots;
    }
    ClientWritesKeepHeap(before, after, head, free, live, lo, hi);
  }

  /** Clears a new stack, as a zeroed allocation does. */
  method Clear(ram: Ram, base: int, words: nat)
    requires ram.Valid() && Multiple(4, base) && 0 <= base && base + 4 * words <= ADDRESS_SPACE
    modifies ram
    ensures ram.Valid() && forall k :: 0 <= k < words ==> ram.cells[base + 4 * k] == 0
    ensures forall x :: 0 <= x < ADDRESS_SPACE && !(base <= x < base + 4 * words) ==> ram.cells[x] == old(ram.cells)[x]
  {
    hide Multiple;
    for n := 0 to words
      invariant ram.Valid() && forall k :: 0 <= k < n ==> ram.cells[base + 4 * k] == 0
      invariant forall x :: 0 <= x < ADDRESS_SPACE && !(base <= x < base + 4 * n) ==> ram.cells[x] == old(ram.cells)[x]
    {
      MultipleOf4(n);
      MultipleSum(4, base, 4 * n);
      ram.Write(base + 4 * n, 0);
    }
  }

  /** Writes confined to memory no task uses keep the tasks as they are. */
  lemma UnusedWritesOwn(before: Cells, after: Cells, slots: seq<int>, stacks: map<int, Stack>, id: int, stack: Stack)
    requires Unused(slots, stacks, stack) && Populated(before) && Populated(after)
    requires forall x :: 0 <= x < ADDRESS_SPACE && !stack.Has(x) ==> after[x] == before[x]
    ensures OwnWrites(before, after, slots, stacks, id)
  {
  }

  /** A zeroed stack from the heap: unused by any task, and disturbing none. */
  method NewStack(k: Kernel, h: Heap) returns (ptr: int)
    requires k.Valid() && h.Valid() && h.ram == k.cpu.ram
    requires Backed(k.slots, k.stacks, h.live, h.heapStart, h.heapEnd)
    modifies h, h.ram
    ensures k.Valid() && h.Valid() && h.heapStart == old(h.heapStart) && h.heapEnd == old(h.heapEnd)
    ensures ptr == AllocResult(old(h.live), h.heapStart, h.heapEnd, STACK_SIZE, 1)
    ensures ptr == 0 ==> h.live == old(h.live) && h.free == old(h.free) && h.ram.cells == old(h.ram.cells)
    ensures ptr != 0 ==>
      && ptr - HEADER_SIZE !in old(h.live) && h.live == old(h.live)[ptr - HEADER_SIZE := BlockBytes(STACK_SIZE)]
      && h.used == old(h.used) + BlockBytes(STACK_SIZE)
      && 0 < ptr && ptr + STACK_SIZE <= ADDRESS_SPACE && Multiple(4, ptr)
      && Unused(k.slots, k.stacks, Stack(ptr, ptr + STACK_SIZE))
      && Held(Stack(ptr, ptr + STACK_SIZE), h.live, h.heapStart, h.heapEnd)
      && (forall j :: 0 <= j < 2048 ==> h.ram.cells[ptr + 4 * j] == 0)
      && Backed(k.slots, k.stacks, h.live, h.heapStart, h.heapEnd)
  {
    hide Gaps, LiveOk, Linked, LiveAligned, AllAligned, Total, Multiple, Holds, InLive, FirstFit, BlockBytes, Backed,
      Held, Unused, OwnWrites, TaskInv, Consistent, Ring;
    ghost var order, cells, free, live := k.sched.Order(), h.ram.cells, h.free, h.live;
    HeadRuns(k);
    ptr := h.Allocate(STACK_SIZE, 1);
    FreeWritesOwn(cells, h.ram.cells, k.slots, k.stacks, order[0], free, live, h.heapStart, h.heapEnd);
    OwnKept(order, k.slots, k.stacks, k.saved, cells, h.ram.cells, k.cpu.esp);
    if ptr == 0 {
      return;
    }
    ghost var block, stack := ptr - HEADER_SIZE, Stack(ptr, ptr + STACK_SIZE);
    MultipleCoarser(ptr);
    LiveAbove(h.live, h.heapStart, h.heapEnd, block);
    NewPayloadUnused(k.slots, k.stacks, live, h.heapStart, h.heapEnd, block, BlockBytes(STACK_SIZE), stack);
    BackedGrows(k.slots, k.stacks, live, h.heapStart, h.heapEnd, block, BlockBytes(STACK_SIZE));
    cells := h.ram.cells;
    Clear(h.ram, ptr, 2048);
    UnusedWritesOwn(cells, h.ram.cells, k.slots, k.stacks, order[0], stack);
    OwnKept(order, k.slots, k.stacks, k.saved, cells, h.ram.cells, k.cpu.esp);
    StackWritesKeepHeap(cells, h.ram.cells, h.freeList, h.free, h.live, h.heapStart, h.heapEnd, block, stack, []);
  }

  lemma HeadRuns(k: Kernel)
    requires k.Valid()
    ensures k.sched.Order() != []
  {
  }

  /** `spawn`: the stack comes from the heap; if the task table is full it goes back,
      leaving the heap's list as it was. */
  method SpawnOnHeap(k: Kernel, h: Heap, entry: Word) returns (r: SpawnResult)
    requires k.Valid() && h.Valid() && h.ram == k.cpu.ram
    requires Backed(k.slots, k.stacks, h.live, h.heapStart, h.heapEnd)
    modifies h, h.ram, k`stacks, k`saved, k.sched, k.sched.occupied, k.sched.ready
    ensures k.Valid() && h.Valid() && h.heapStart == old(h.heapStart) && h.heapEnd == old(h.heapEnd)
    ensures Backed(k.slots, k.stacks, h.live, h.heapStart, h.heapEnd)
    ensures var ptr := AllocResult(old(h.live), h.heapStart, h.heapEnd, STACK_SIZE, 1);
      && (r == NoMemory <==> ptr == 0)
      && (r == TableFull <==> ptr != 0 && old(|k.sched.Order()|) == 4)
      && (r.Spawned? ==>
          && Spawns(old(k.Now()), k.Now(), r.id, Fresh(entry, StackTop(ptr)), Stack(ptr, ptr + STACK_SIZE))
          && h.live == old(h.live)[ptr - HEADER_SIZE := BlockBytes(STACK_SIZE)]
          && 0 <= r.id < 4 && PrimedPointer(ptr, k.cpu.ram.cells[k.slots[r.id]])
          && forall i :: 0 <= i < r.id ==> i in old(k.sched.Order()))
    ensures !r.Spawned? ==>
      Stays(old(k.Now()), k.Now()) && h.live == old(h.live) && h.free == old(h.free) && h.used == old(h.used)
  {
    hide Gaps, LiveOk, Linked, LiveAligned, AllAligned, Total, Multiple, Holds, InLive, FirstFit, BlockBytes, Backed,
      Held, Unused, OwnWrites, TaskInv, Consistent, Ring, StackTop;
    ghost var free, live := h.free, h.live;
    var ptr := NewStack(k, h);
    if ptr == 0 {
      return NoMemory;
    }
    ghost var block, stack := ptr - HEADER_SIZE, Stack(ptr, ptr + STACK_SIZE);
    ghost var cells, stacks := h.ram.cells, k.stacks;
    SlotsOutside(k.slots, stacks, h.live, h.heapStart, h.heapEnd);
    var id := k.Spawn(entry, ptr);
    LiveAbove(h.live, h.heapStart, h.heapEnd, block);
    StackWritesKeepHeap(cells, h.ram.cells, h.freeList, h.free, h.live, h.heapStart, h.heapEnd, block, stack, k.slots);
    if id.Some? {
      BackedJoined(k.slots, stacks, h.live, h.heapStart, h.heapEnd, id.value, stack);
      return Spawned(id.value);
    }
    GiveBack(k, h, ptr, free, live);
    return TableFull;
  }

  /** Frees a stack no task got: the heap is as it was, and the tasks are not disturbed. */
  method GiveBack(k: Kernel, h: Heap, ptr: int, ghost free: seq<Block>, ghost live: Live)
    requires k.Valid() && h.Valid() && h.ram == k.cpu.ram && Gaps(free, live, h.heapStart, h.heapEnd)
    requires ptr - HEADER_SIZE !in live && ptr - HEADER_SIZE in h.live
    requires h.live == live[ptr - HEADER_SIZE := h.live[ptr - HEADER_SIZE]]
    requires Backed(k.slots, k.stacks, live, h.heapStart, h.heapEnd)
    modifies h, h.ram
    ensures k.Valid() && h.Valid() && h.heapStart == old(h.heapStart) && h.heapEnd == old(h.heapEnd)
    ensures h.live == live && h.free == free && h.used == old(h.used) - old(h.live)[ptr - HEADER_SIZE]
  {
    hide Gaps, LiveOk, Linked, LiveAligned, AllAligned, Total, Multiple, Holds, InLive, Backed, Held, OwnWrites, TaskInv,
      Consistent, Ring;
    ghost var order, cells := k.sched.Order(), h.ram.cells;
    HeadRuns(k);
    LiveAbove(h.live, h.heapStart, h.heapEnd, ptr - HEADER_SIZE);
    var panicked := h.Deallocate(ptr);
    assert h.live == live;
    GapsUnique(free, h.free, live, h.heapStart, h.heapEnd);
    FreeWritesOwn(cells, h.ram.cells, k.slots, k.stacks, order[0], free, live, h.heapStart, h.heapEnd);
    OwnKept(order, k.slots, k.stacks, k.saved, cells, h.ram.cells, k.cpu.esp);
  }

  lemma BackedJoined(slots: seq<int>, stacks: map<int, Stack>, live: Live, lo: int, hi: int, id: int, stack: Stack)
    requires Backed(slots, stacks, live, lo, hi) && Held(stack, live, lo, hi)
    ensures Backed(slots, stacks[id := stack], live, lo, hi)
  {
  }

  lemma SlotsOutside(slots: seq<int>, stacks: map<int, Stack>, live: Live, lo: int, hi: int)
    requires Backed(slots, stacks, live, lo, hi)
    ensures forall i :: 0 <= i < |slots| ==> !(lo <= slots[i] < hi)
  {
  }
}
