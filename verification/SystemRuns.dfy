/** Whole runs of tasks and heap together: whoever runs works on memory that is its to
    use, calls the heap, yields and spawns, in any order. */
module SystemRuns {
  import opened Machine
  import opened Sequences
  import opened FreeList
  import opened Heap
  import opened HeapRuns
  import opened Scheduler
  import opened Tasks
  import opened TaskHeap
  import TaskRuns

  datatype Op =
    | Work(ebx: Word, esi: Word, edi: Word, ebp: Word, esp: int, interrupts: bool, writes: map<int, Word>)
    | Alloc(size: int, align: int)
    | Free(ptr: int)
    | Yield(resume: Word)
    | Start(entry: Word)

  /** The tasks as seen from outside, and what the heap has handed out. */
  datatype Sys = Sys(view: View, live: Live)

  /** The running task stores to its own stack, to memory no task and no heap uses, and
      to payloads that hold no other task's stack; it keeps its stack pointer in its own
      stack, with room for a yield; and it frees blocks that hold no stack. */
  ghost predicate Permitted(slots: seq<int>, s: Sys, lo: int, hi: int, op: Op)
    requires s.view.order != []
  {
    var v := s.view;
    match op
    case Work(ebx, esi, edi, ebp, esp, interrupts, writes) =>
      && TaskRuns.Permitted(slots, v, TaskRuns.Work(ebx, esi, edi, ebp, esp, interrupts, writes))
      && (forall x :: x in writes && lo <= x < hi ==> InBody(s.live, x))
    case Alloc(size, _) => 0 <= size < ADDRESS_SPACE
    case Free(ptr) =>
      && ptr - HEADER_SIZE in s.live
      && forall id :: id in v.stacks ==> StackFree(v.stacks[id], ptr - HEADER_SIZE, s.live)
    case Yield(resume) => TaskRuns.Permitted(slots, v, TaskRuns.Yield(resume))
    case Start(_) => true
  }

  /** The live block at `a` holds no part of the stack. */
  ghost predicate StackFree(stack: Stack, a: int, live: Live)
    requires a in live
  {
    stack.hi <= a || a + live[a] <= stack.lo
  }

  /** What one operation makes of tasks and heap. */
  ghost predicate Follows(s: Sys, lo: int, hi: int, op: Op, t: Sys) {
    match op
    case Work(ebx, esi, edi, ebp, esp, interrupts, writes) =>
      && TaskRuns.Follows(s.view, TaskRuns.Work(ebx, esi, edi, ebp, esp, interrupts, writes), t.view)
      && t.live == s.live
    case Alloc(size, align) =>
      && 0 <= size < ADDRESS_SPACE && Stays(s.view, t.view)
      && t.live == HeapRuns.Step(s.live, lo, hi, HeapRuns.Alloc(size, align))
    case Free(ptr) => Stays(s.view, t.view) && t.live == s.live - {ptr - HEADER_SIZE}
    case Yield(resume) => Yields(s.view, t.view, resume) && t.live == s.live
    case Start(entry) =>
      var ptr := AllocResult(s.live, lo, hi, STACK_SIZE, 1);
      if ptr == 0 || |s.view.order| == 4 then Stays(s.view, t.view) && t.live == s.live
      else
        && TaskRuns.Follows(s.view, TaskRuns.Start(entry, ptr), t.view)
        && t.live == s.live[ptr - HEADER_SIZE := BlockBytes(STACK_SIZE)]
  }

  /** Each operation is permitted when its turn comes, whatever the ones before it did. */
  ghost predicate AllPermitted(slots: seq<int>, s: Sys, lo: int, hi: int, ops: seq<Op>)
    decreases |ops|
  {
    ops != [] ==>
    && s.view.order != [] && Permitted(slots, s, lo, hi, ops[0])
    && forall t :: Follows(s, lo, hi, ops[0], t) ==> AllPermitted(slots, t, lo, hi, ops[1..])
  }

  lemma FollowsMoves(s: Sys, lo: int, hi: int, op: Op, t: Sys)
    requires Follows(s, lo, hi, op, t)
    ensures Moves(s.view, t.view)
  {
  }

  /** Tasks and heap are valid, share one memory and keep out of each other's way. */
  ghost predicate Sound(k: Kernel, h: Heap)
    reads k, k.cpu, k.cpu.ram, k.sched, k.sched.occupied, k.sched.ready, k.sched.turns, h, h.ram
  {
    k.Valid() && h.Valid() && h.ram == k.cpu.ram && Backed(k.slots, k.stacks, h.live, h.heapStart, h.heapEnd)
  }

  ghost function Seen(k: Kernel, h: Heap): Sys
    requires k.sched.Valid()
    reads k, k.cpu, k.cpu.ram, k.sched, k.sched.occupied, k.sched.ready, k.sched.turns, h
  {
    Sys(k.Now(), h.live)
  }

  // ---------- One operation ----------

  /** Stacks lie in payloads or outside the heap, and slots outside it. */
  lemma BodyOrElsewhere(slots: seq<int>, stacks: map<int, Stack>, live: Live, lo: int, hi: int, x: int)
    requires Backed(slots, stacks, live, lo, hi) && lo <= x < hi && !InBody(live, x) && 0 <= x < ADDRESS_SPACE
    ensures Elsewhere(slots, stacks, x)
  {
    forall id | id in stacks ensures !stacks[id].Has(x) {
      if a :| a in live && a + HEADER_SIZE <= stacks[id].lo && stacks[id].hi <= a + live[a] {
        assert stacks[id].Has(x) ==> InBody(live, x);
      }
    }
  }

  method DoWork(k: Kernel, h: Heap, ebx: Word, esi: Word, edi: Word, ebp: Word, esp: int, interrupts: bool,
                writes: map<int, Word>)
    requires Sound(k, h)
    requires Permitted(k.slots, Seen(k, h), h.heapStart, h.heapEnd, Work(ebx, esi, edi, ebp, esp, interrupts, writes))
    modifies k.cpu, k.cpu.ram
    ensures Sound(k, h)
    ensures TaskRuns.Follows(old(k.Now()), TaskRuns.Work(ebx, esi, edi, ebp, esp, interrupts, writes), k.Now())
  {
    hide Gaps, LiveOk, Linked, LiveAligned, AllAligned, Total, Multiple, Backed, Consistent, Ring, Layout, AllParked,
      OwnWrites, TaskRuns.Written, InBody;
    ghost var before := k.cpu.ram.cells;
    TaskRuns.WrittenIsOwn(k.slots, k.Now(), writes);
    k.TaskStep(ebx, esi, edi, ebp, esp, interrupts, TaskRuns.Written(k.cpu.ram.cells, writes));
    ClientWritesKeepHeap(before, h.ram.cells, h.freeList, h.free, h.live, h.heapStart, h.heapEnd);
  }

  method DoYield(k: Kernel, h: Heap, resume: Word)
    requires Sound(k, h) && Permitted(k.slots, Seen(k, h), h.heapStart, h.heapEnd, Yield(resume))
    modifies k`saved, k.cpu, k.cpu.ram, k.sched, k.sched.ready, k.sched.turns
    ensures Sound(k, h) && Yields(old(k.Now()), k.Now(), resume)
  {
    hide Gaps, LiveOk, Linked, LiveAligned, AllAligned, Total, Multiple, Backed, Consistent, Ring, Layout, AllParked,
      InBody, Elsewhere, StackBack;
    ghost var before := k.cpu.ram.cells;
    k.YieldNow(resume);
    forall x | h.heapStart <= x < h.heapEnd && !InBody(h.live, x) ensures h.ram.cells[x] == before[x] {
      BodyOrElsewhere(k.slots, k.stacks, h.live, h.heapStart, h.heapEnd, x);
    }
    ClientWritesKeepHeap(before, h.ram.cells, h.freeList, h.free, h.live, h.heapStart, h.heapEnd);
  }

  method DoAlloc(k: Kernel, h: Heap, size: int, align: int) returns (ptr: int)
    requires Sound(k, h) && 0 <= size < ADDRESS_SPACE
    modifies h, h.ram
    ensures Sound(k, h) && h.heapStart == old(h.heapStart) && h.heapEnd == old(h.heapEnd)
    ensures ptr == AllocResult(old(h.live), h.heapStart, h.heapEnd, size, align)
    ensures h.live == HeapRuns.Step(old(h.live), h.heapStart, h.heapEnd, HeapRuns.Alloc(size, align))
    ensures Stays(old(k.Now()), k.Now())
  {
    hide Gaps, LiveOk, Linked, LiveAligned, AllAligned, Total, Multiple, Backed, Consistent, Ring, Holds, InLive, FirstFit,
      BlockBytes, TaskInv, OwnWrites;
    ghost var order, cells, free, live := k.sched.Order(), h.ram.cells, h.free, h.live;
    HeadRuns(k);
    ptr := h.Allocate(size, align);
    FreeWritesOwn(cells, h.ram.cells, k.slots, k.stacks, order[0], free, live, h.heapStart, h.heapEnd);
    OwnKept(order, k.slots, k.stacks, k.saved, cells, h.ram.cells, k.cpu.esp);
    if ptr != 0 {
      BackedGrows(k.slots, k.stacks, live, h.heapStart, h.heapEnd, ptr - HEADER_SIZE, BlockBytes(size));
    }
  }

  lemma BackedShrinks(slots: seq<int>, stacks: map<int, Stack>, live: Live, lo: int, hi: int, a: int)
    requires Backed(slots, stacks, live, lo, hi) && a in live
    requires forall id :: id in stacks ==> StackFree(stacks[id], a, live)
    ensures Backed(slots, stacks, live - {a}, lo, hi)
  {
    forall id | id in stacks ensures Held(stacks[id], live - {a}, lo, hi) {
      if b :| b in live && b + HEADER_SIZE <= stacks[id].lo && stacks[id].hi <= b + live[b] {
        assert b in live - {a} && (live - {a})[b] == live[b];
      }
    }
  }

  method DoFree(k: Kernel, h: Heap, ptr: int)
    requires Sound(k, h) && Permitted(k.slots, Seen(k, h), h.heapStart, h.heapEnd, Op.Free(ptr))
    modifies h, h.ram
    ensures Sound(k, h) && h.heapStart == old(h.heapStart) && h.heapEnd == old(h.heapEnd)
    ensures h.live == old(h.live) - {ptr - HEADER_SIZE} && Stays(old(k.Now()), k.Now())
  {
    hide Gaps, LiveOk, Linked, LiveAligned, AllAligned, Total, Multiple, Backed, Consistent, Ring, Holds, InLive, TaskInv,
      OwnWrites, StackFree;
    ghost var order, cells, live := k.sched.Order(), h.ram.cells, h.live;
    HeadRuns(k);
    LiveAbove(live, h.heapStart, h.heapEnd, ptr - HEADER_SIZE);
    BackedShrinks(k.slots, k.stacks, live, h.heapStart, h.heapEnd, ptr - HEADER_SIZE);
    var panicked := h.Deallocate(ptr);
    FreeWritesOwn(cells, h.ram.cells, k.slots, k.stacks, order[0], h.free, h.live, h.heapStart, h.heapEnd);
    OwnKept(order, k.slots, k.stacks, k.saved, cells, h.ram.cells, k.cpu.esp);
  }

  method Perform(k: Kernel, h: Heap, op: Op)
    requires Sound(k, h) && Permitted(k.slots, Seen(k, h), h.heapStart, h.heapEnd, op)
    modifies k, k.cpu, k.cpu.ram, k.sched, k.sched.occupied, k.sched.ready, k.sched.turns, h
    ensures Sound(k, h) && h.heapStart == old(h.heapStart) && h.heapEnd == old(h.heapEnd)
    ensures Follows(old(Seen(k, h)), h.heapStart, h.heapEnd, op, Seen(k, h))
  {
    hide TaskInv, Consistent, Ring, Backed, AllocResult, BlockBytes, HeapInv, Multiple, StackTop, TaskRuns.Written;
    match op {
      case Work(ebx, esi, edi, ebp, esp, interrupts, writes) =>
        DoWork(k, h, ebx, esi, edi, ebp, esp, interrupts, writes);
      case Alloc(size, align) => var ptr := DoAlloc(k, h, size, align);
      case Free(ptr) => DoFree(k, h, ptr);
      case Yield(resume) => DoYield(k, h, resume);
      case Start(entry) => var r := SpawnOnHeap(k, h, entry);
    }
  }

  // ---------- Runs ----------

  ghost function Views(run: seq<Sys>): (views: seq<View>)
    ensures |views| == |run| && forall j :: 0 <= j < |run| ==> views[j] == run[j].view
  {
    seq(|run|, j requires 0 <= j < |run| => run[j].view)
  }

  /** Over every run: tasks and heap stay valid and apart; the live set follows the
      heap's machine; and the views form a run, so that every task that waits keeps its
      stack and saved state and every task that yields gets them back. */
  method RunAll(k: Kernel, h: Heap, ops: seq<Op>) returns (ghost run: seq<Sys>)
    requires Sound(k, h) && AllPermitted(k.slots, Seen(k, h), h.heapStart, h.heapEnd, ops)
    modifies k, k.cpu, k.cpu.ram, k.sched, k.sched.occupied, k.sched.ready, k.sched.turns, h
    ensures Sound(k, h) && h.heapStart == old(h.heapStart) && h.heapEnd == old(h.heapEnd)
    ensures |run| == |ops| + 1 && run[0] == old(Seen(k, h)) && run[|ops|] == Seen(k, h)
    ensures forall j :: 0 <= j < |ops| ==> Follows(run[j], h.heapStart, h.heapEnd, ops[j], run[j + 1])
    ensures IsRun(Views(run))
    decreases |ops|
  {
    hide Permitted, Follows, Moves, TaskInv, Consistent, Ring, Backed, Views;
    ghost var first := Seen(k, h);
    if ops == [] {
      return [first];
    }
    Perform(k, h, ops[0]);
    FollowsMoves(first, h.heapStart, h.heapEnd, ops[0], Seen(k, h));
    ghost var rest := RunAll(k, h, ops[1..]);
    run := [first] + rest;
    forall j | 0 <= j < |ops| ensures Follows(run[j], h.heapStart, h.heapEnd, ops[j], run[j + 1]) {
      if j > 0 {
        assert run[j] == rest[j - 1] && ops[j] == ops[1..][j - 1] && run[j + 1] == rest[j];
      }
    }
    RunJoins(first, rest);
  }

  lemma RunJoins(first: Sys, rest: seq<Sys>)
    requires rest != [] && IsRun(Views(rest)) && first.view.order != [] && Moves(first.view, rest[0].view)
    ensures IsRun(Views([first] + rest))
  {
    hide Moves;
    var run := [first] + rest;
    forall j | 0 <= j < |run| - 1 ensures Moves(Views(run)[j], Views(run)[j + 1]) {
      assert j > 0 ==> Views(run)[j] == Views(rest)[j - 1] && Views(run)[j + 1] == Views(rest)[j];
    }
    forall j | 0 <= j < |run| ensures Views(run)[j].order != [] {
      assert j > 0 ==> Views(run)[j] == Views(rest)[j - 1];
    }
  }
}
