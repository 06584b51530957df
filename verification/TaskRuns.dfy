/** Whole runs of the kernel's tasks: arbitrary work by whoever runs, yields and
    spawns, in any order. */
module TaskRuns {
  import opened Machine
  import opened Sequences
  import opened Scheduler
  import opened Tasks

  datatype Op =
    | Work(ebx: Word, esi: Word, edi: Word, ebp: Word, esp: int, interrupts: bool, writes: map<int, Word>)
    | Yield(resume: Word)
    | Start(entry: Word, base: int)

  /** Memory after a task's stores. */
  function Written(cells: Cells, writes: map<int, Word>): (after: Cells)
    requires Populated(cells)
    ensures Populated(after) && forall x :: 0 <= x < ADDRESS_SPACE && x !in writes ==> after[x] == cells[x]
  {
    seq(ADDRESS_SPACE, x requires 0 <= x < ADDRESS_SPACE => if x in writes then writes[x] else cells[x])
  }

  /** The running task stays out of the other tasks' stacks and table slots, keeps its
      stack pointer in its own stack with room for a yield, and spawns on unused memory. */
  ghost predicate Permitted(slots: seq<int>, v: View, op: Op)
    requires v.order != []
  {
    match op
    case Work(_, _, _, _, esp, _, writes) =>
      && Multiple(4, esp) && v.order[0] in v.stacks
      && v.stacks[v.order[0]].lo <= esp <= v.stacks[v.order[0]].hi
      && (forall x :: x in writes ==> OwnAddress(slots, v, x))
    case Yield(_) => v.order[0] in v.stacks && v.stacks[v.order[0]].lo + 36 <= v.regs.esp
    case Start(_, base) =>
      && 0 < base && base + STACK_SIZE <= ADDRESS_SPACE && Multiple(4, base)
      && Unused(slots, v.stacks, Stack(base, base + STACK_SIZE))
  }

  /** No other task's stack or slot holds address `x`. */
  ghost predicate OwnAddress(slots: seq<int>, v: View, x: int)
    requires v.order != []
  {
    && (forall id :: id in v.stacks && id != v.order[0] ==> !v.stacks[id].Has(x))
    && (forall i :: 0 <= i < |slots| && i != v.order[0] ==> slots[i] != x)
  }

  /** What one operation makes of a view. */
  ghost predicate Follows(v: View, op: Op, w: View) {
    match op
    case Work(ebx, esi, edi, ebp, esp, interrupts, writes) =>
      && Steps(v, w) && w.regs == Regs(ebx, esi, edi, ebp, esp, w.regs.eip, interrupts)
      && Populated(v.cells) && w.cells == Written(v.cells, writes)
    case Yield(resume) => Yields(v, w, resume)
    case Start(entry, base) =>
      if |v.order| == 4 then Stays(v, w)
      else
        && w.order != []
        && var id := w.order[|w.order| - 1];
           && Spawns(v, w, id, Fresh(entry, StackTop(base)), Stack(base, base + STACK_SIZE))
           && forall i :: 0 <= i < id ==> i in v.order
  }

  /** Each operation is permitted when its turn comes, whatever the ones before it did. */
  ghost predicate AllPermitted(slots: seq<int>, v: View, ops: seq<Op>)
    decreases |ops|
  {
    ops != [] ==>
    && v.order != [] && Permitted(slots, v, ops[0])
    && forall w :: Follows(v, ops[0], w) ==> AllPermitted(slots, w, ops[1..])
  }

  lemma FollowsMoves(v: View, op: Op, w: View)
    requires Follows(v, op, w)
    ensures Moves(v, w)
  {
  }

  lemma WrittenIsOwn(slots: seq<int>, v: View, writes: map<int, Word>)
    requires v.order != [] && Populated(v.cells) && forall x :: x in writes ==> OwnAddress(slots, v, x)
    ensures OwnWrites(v.cells, Written(v.cells, writes), slots, v.stacks, v.order[0])
  {
    hide Written;
  }

  method Perform(k: Kernel, op: Op)
    requires k.Valid() && Permitted(k.slots, k.Now(), op)
    modifies k, k.cpu, k.cpu.ram, k.sched, k.sched.occupied, k.sched.ready, k.sched.turns
    ensures k.Valid() && Follows(old(k.Now()), op, k.Now())
  {
    hide Written, Multiple, Consistent, Ring, Layout, AllParked, OwnWrites, OwnAddress, Unused, StackBack, StackTop;
    match op {
      case Work(ebx, esi, edi, ebp, esp, interrupts, writes) =>
        WrittenIsOwn(k.slots, k.Now(), writes);
        k.TaskStep(ebx, esi, edi, ebp, esp, interrupts, Written(k.cpu.ram.cells, writes));
      case Yield(resume) => k.YieldNow(resume);
      case Start(entry, base) => var id := k.Spawn(entry, base);
    }
  }

  /** Every sequence of kernel operations is a run of views from the old state to the
      new one; with `ResumedAsParked`, every task that yields gets back its registers,
      flag and stack, whatever ran in between. */
  method RunAll(k: Kernel, ops: seq<Op>) returns (ghost run: seq<View>)
    requires k.Valid() && AllPermitted(k.slots, k.Now(), ops)
    modifies k, k.cpu, k.cpu.ram, k.sched, k.sched.occupied, k.sched.ready, k.sched.turns
    ensures k.Valid() && IsRun(run)
    ensures |run| == |ops| + 1 && run[0] == old(k.Now()) && run[|ops|] == k.Now()
    ensures forall j :: 0 <= j < |ops| ==> Follows(run[j], ops[j], run[j + 1])
    decreases |ops|
  {
    hide Permitted, Follows, Moves, TaskInv, Consistent, Ring;
    ghost var first := k.Now();
    if ops == [] {
      return [first];
    }
    Perform(k, ops[0]);
    FollowsMoves(first, ops[0], k.Now());
    ghost var rest := RunAll(k, ops[1..]);
    run := [first] + rest;
    forall j | 0 <= j < |ops| ensures Follows(run[j], ops[j], run[j + 1]) {
      if j > 0 {
        assert run[j] == rest[j - 1] && ops[j] == ops[1..][j - 1] && run[j + 1] == rest[j];
      }
    }
    forall j | 0 <= j < |run| - 1 ensures Moves(run[j], run[j + 1]) {
      assert j > 0 ==> run[j] == rest[j - 1] && run[j + 1] == rest[j];
    }
  }
}
