/** Tasks, their stacks, and switching between them: `spawn`, `yield_now` and
    whatever a running task does in between. */
module Tasks {
  import opened Machine
  import opened Sequences
  import opened RoundRobin
  import opened Scheduler
  import opened ContextSwitch

  const STACK_SIZE: int := 8192

  /** A task's stack memory `[lo, hi)`. */
  datatype Stack = Stack(lo: int, hi: int) {
    predicate Has(x: int) { lo <= x < hi }

    predicate InMemory() { 0 <= lo <= hi <= ADDRESS_SPACE }

    predicate Apart(other: Stack) { hi <= other.lo || other.hi <= lo }
  }

  /** What a task that is not running must get back when it runs again. */
  datatype Saved =
    | Parked(ebx: Word, esi: Word, edi: Word, ebp: Word, esp: int, resume: Word, interrupts: bool, image: Cells)
    | Fresh(entry: Word, top: int)

  /** EFLAGS as far as IF (bit 9) is concerned. */
  function Flags(interrupts: bool): (eflags: Word)
    ensures eflags / 0x200 % 2 == 1 <==> interrupts
  {
    if interrupts then 0x200 else 0
  }

  predicate HasIF(flags: Word) { flags / 0x200 % 2 == 1 }

  /** The saved stack pointer of a parked task: nine words below its own. */
  function FrameBase(saved: Saved): int {
    match saved
    case Parked(_, _, _, _, esp, _, _, _) => esp - 36
    case Fresh(_, top) => top - 24
  }

  /** The task table slot and the stack of a task hold what `saved` describes. */
  ghost predicate ParkedAt(cells: Cells, slot: int, saved: Saved, stack: Stack) {
    && Populated(cells) && 0 <= slot < ADDRESS_SPACE && stack.InMemory()
    && cells[slot] == FrameBase(saved) && Multiple(4, FrameBase(saved)) && stack.lo <= FrameBase(saved)
    && match saved
       case Parked(ebx, esi, edi, ebp, esp, resume, interrupts, image) =>
         && esp <= stack.hi && Populated(image)
         && HoldsFrame(cells, esp - 36, ebx, esi, edi, ebp, YIELD_RETURN)
         && cells[esp - 8] == Flags(interrupts) && cells[esp - 4] == resume
         && (forall x :: esp <= x < stack.hi ==> cells[x] == image[x])
       case Fresh(entry, top) =>
         top <= stack.hi && HoldsFrame(cells, top - 24, 0, 0, 0, 0, TRAMPOLINE) && cells[top - 4] == entry
  }

  /** A parked task depends on its own slot and stack only. */
  lemma ParkedKept(before: Cells, after: Cells, slot: int, saved: Saved, stack: Stack)
    requires ParkedAt(before, slot, saved, stack) && Populated(after)
    requires after[slot] == before[slot] && forall x :: stack.lo <= x < stack.hi ==> after[x] == before[x]
    ensures ParkedAt(after, slot, saved, stack)
  {
  }

  /** Stacks and table slots occupy separate memory. */
  ghost predicate Layout(slots: seq<int>, stacks: map<int, Stack>) {
    && |slots| == 4
    && (forall i :: 0 <= i < 4 ==> 0 <= slots[i] < ADDRESS_SPACE && Multiple(4, slots[i]))
    && (forall i, j :: 0 <= i < j < 4 ==> slots[i] != slots[j])
    && (forall id :: id in stacks ==> 0 <= id < 4 && stacks[id].InMemory())
    && (forall id, i :: id in stacks && 0 <= i < 4 ==> !stacks[id].Has(slots[i]))
    && (forall a, b :: a in stacks && b in stacks && a != b ==> stacks[a].Apart(stacks[b]))
  }

  /** Every task in `queue` is parked. */
  ghost predicate AllParked(cells: Cells, slots: seq<int>, stacks: map<int, Stack>, saved: map<int, Saved>,
                            queue: seq<int>)
    requires |slots| == 4
  {
    forall k :: 0 <= k < |queue| ==>
      && queue[k] in stacks && queue[k] in saved && 0 <= queue[k] < 4
      && ParkedAt(cells, slots[queue[k]], saved[queue[k]], stacks[queue[k]])
  }

  /** `after` differs from `before` only in one task's stack, in its slot, or outside all stacks and slots. */
  ghost predicate OwnWrites(before: Cells, after: Cells, slots: seq<int>, stacks: map<int, Stack>, id: int) {
    && Populated(before) && Populated(after)
    && (forall other, x :: other in stacks && other != id && 0 <= x < ADDRESS_SPACE && stacks[other].Has(x) ==>
          after[x] == before[x])
    && (forall i :: 0 <= i < |slots| && i != id && 0 <= slots[i] < ADDRESS_SPACE ==> after[slots[i]] == before[slots[i]])
  }

  lemma AllParkedKept(before: Cells, after: Cells, slots: seq<int>, stacks: map<int, Stack>, saved: map<int, Saved>,
                      queue: seq<int>, id: int)
    requires |slots| == 4 && AllParked(before, slots, stacks, saved, queue) && id !in queue
    requires OwnWrites(before, after, slots, stacks, id)
    ensures AllParked(after, slots, stacks, saved, queue)
  {
    forall k | 0 <= k < |queue|
      ensures ParkedAt(after, slots[queue[k]], saved[queue[k]], stacks[queue[k]])
    {
      var other := queue[k];
      assert other != id;
      assert forall x :: stacks[other].lo <= x < stacks[other].hi ==> stacks[other].Has(x);
      ParkedKept(before, after, slots[other], saved[other], stacks[other]);
    }
  }

  /** `yield_now` from `read_eflags` to the switch: the flags local, `cli`, the two
      arguments, the call, and `context_switch` itself. The word at the stack pointer
      is the caller's return address. */
  method SwitchAway(cpu: Cpu, park: Word, load: Word, ghost target: int, ghost stack: Stack)
    requires cpu.Valid() && stack.InMemory() && stack.lo + 32 <= cpu.esp && cpu.esp + 4 <= stack.hi
    requires Multiple(4, park) && Multiple(4, load) && park != load && !stack.Has(park) && !stack.Has(load)
    requires cpu.ram.cells[load] == target && Multiple(4, target) && target + 20 <= ADDRESS_SPACE
    modifies cpu, cpu.ram
    ensures cpu.Valid() && !cpu.interrupts && cpu.esp == target + 20
    ensures HoldsFrame(cpu.ram.cells, target, cpu.ebx, cpu.esi, cpu.edi, cpu.ebp, cpu.eip)
    ensures ParkedAt(cpu.ram.cells, park,
                     Parked(old(cpu.ebx), old(cpu.esi), old(cpu.edi), old(cpu.ebp), old(cpu.esp) + 4,
                            old(cpu.ram.cells)[old(cpu.esp)], old(cpu.interrupts), old(cpu.ram.cells)), stack)
    ensures forall x :: 0 <= x < ADDRESS_SPACE && !stack.Has(x) && x != park ==>
      cpu.ram.cells[x] == old(cpu.ram.cells)[x]
  {
    hide Multiple, ParkedAt, SavedCells, HoldsFrame;
    var flags := Flags(cpu.interrupts);
    cpu.Push(flags);
    cpu.interrupts := false;
    cpu.Push(load);
    cpu.Push(park);
    cpu.Push(YIELD_RETURN);
    cpu.ContextSwitch(park, load, target);
    SwitchedAway(old(cpu.ram.cells), old(cpu.esp), old(cpu.interrupts), load, park,
                 old(cpu.ebx), old(cpu.esi), old(cpu.edi), old(cpu.ebp), stack);
  }

  /** Memory after a task pushed its flags, the call's arguments and its return address. */
  function CallCells(cells: Cells, sp: int, interrupts: bool, load: Word, park: Word): (called: Cells)
    requires Populated(cells) && 32 <= sp < ADDRESS_SPACE
    ensures Populated(called)
  {
    cells[sp - 4 := Flags(interrupts)][sp - 8 := load][sp - 12 := park][sp - 16 := YIELD_RETURN]
  }

  /** Memory after a task pushed its flags, the call's arguments and its registers,
      and its stack pointer went into its slot. */
  function SwitchCells(cells: Cells, sp: int, interrupts: bool, load: Word, park: Word,
                       ebx: Word, esi: Word, edi: Word, ebp: Word): Cells
    requires Populated(cells) && 32 <= sp < ADDRESS_SPACE
  {
    SavedCells(CallCells(cells, sp, interrupts, load, park), sp - 16, ebx, esi, edi, ebp)[park := sp - 32]
  }

  lemma SwitchedAway(cells: Cells, sp: int, interrupts: bool, load: Word, park: Word,
                     ebx: Word, esi: Word, edi: Word, ebp: Word, stack: Stack)
    requires Populated(cells) && stack.InMemory() && stack.lo + 32 <= sp && sp + 4 <= stack.hi && Multiple(4, sp)
    requires !stack.Has(park)
    ensures var after := SwitchCells(cells, sp, interrupts, load, park, ebx, esi, edi, ebp);
      && ParkedAt(after, park, Parked(ebx, esi, edi, ebp, sp + 4, cells[sp], interrupts, cells), stack)
      && forall x :: 0 <= x < ADDRESS_SPACE && !stack.Has(x) && x != park ==> after[x] == cells[x]
  {
    hide Multiple, SavedCells, HoldsFrame;
    MultipleOf4(8);
    MultipleDifference(4, sp, 32);
    var called := CallCells(cells, sp, interrupts, load, park);
    Called(cells, sp, interrupts, load, park);
    SavedHolds(called, sp - 16, ebx, esi, edi, ebp);
    FrameKept(SavedCells(called, sp - 16, ebx, esi, edi, ebp), park, sp - 32, ebx, esi, edi, ebp, YIELD_RETURN);
  }

  lemma Called(cells: Cells, sp: int, interrupts: bool, load: Word, park: Word)
    requires Populated(cells) && 32 <= sp < ADDRESS_SPACE
    ensures var called := CallCells(cells, sp, interrupts, load, park);
      && Populated(called) && called[sp - 16] == YIELD_RETURN && called[sp - 4] == Flags(interrupts)
      && forall x :: 0 <= x < ADDRESS_SPACE && !(sp - 16 <= x < sp) ==> called[x] == cells[x]
  {
  }

  /** A store elsewhere keeps a saved frame. */
  lemma FrameKept(cells: Cells, at: Word, base: int, ebx: Word, esi: Word, edi: Word, ebp: Word, ret: Word)
    requires HoldsFrame(cells, base, ebx, esi, edi, ebp, ret) && Populated(cells) && !(base <= at < base + 20)
    ensures HoldsFrame(cells[at := base], base, ebx, esi, edi, ebp, ret)
  {
  }

  /** The instructions after the switch, on the stack of the task switched to: the
      rest of `yield_now` for a parked task, the trampoline for a fresh one. */
  method Arrive(cpu: Cpu, ghost slot: int, ghost saved: Saved, ghost stack: Stack)
    requires cpu.Valid() && !cpu.interrupts && cpu.esp == FrameBase(saved) + 20
    requires ParkedAt(cpu.ram.cells, slot, saved, stack)
    requires HoldsFrame(cpu.ram.cells, FrameBase(saved), cpu.ebx, cpu.esi, cpu.edi, cpu.ebp, cpu.eip)
    modifies cpu, cpu.ram
    ensures cpu.Valid()
    ensures saved.Parked? ==>
      && cpu.ebx == saved.ebx && cpu.esi == saved.esi && cpu.edi == saved.edi && cpu.ebp == saved.ebp
      && cpu.esp == saved.esp && cpu.eip == saved.resume && cpu.interrupts == saved.interrupts
      && cpu.ram.cells == old(cpu.ram.cells)
      && forall x :: saved.esp <= x < stack.hi ==> cpu.ram.cells[x] == saved.image[x]
    ensures saved.Fresh? ==>
      && cpu.eip == saved.entry && cpu.esp == saved.top - 16 && !cpu.interrupts
      && cpu.ebx == 0 && cpu.esi == 0 && cpu.edi == 0 && cpu.ebp == 0
      && cpu.ram.cells == old(cpu.ram.cells)[saved.top - 16 := HALT]
  {
    hide Multiple;
    if cpu.eip == YIELD_RETURN {
      var oldArgument := cpu.Pop();
      var newArgument := cpu.Pop();
      var flags := cpu.Pop();
      if HasIF(flags) {
        cpu.interrupts := true;
      }
      cpu.eip := cpu.Pop();
    } else {
      cpu.TaskTrampoline();
    }
  }

  /** No stack and no slot holds address `x`. */
  ghost predicate Elsewhere(slots: seq<int>, stacks: map<int, Stack>, x: int) {
    0 <= x < ADDRESS_SPACE && x !in slots && forall id :: id in stacks ==> !stacks[id].Has(x)
  }

  /** The running task is first in `order` and on its own stack; the others are parked. */
  ghost predicate TaskInv(order: seq<int>, slots: seq<int>, stacks: map<int, Stack>, saved: map<int, Saved>,
                          cells: Cells, esp: int)
  {
    && order != [] && NoDuplicates(order) && Layout(slots, stacks)
    && (forall id :: id in stacks <==> id in order)
    && AllParked(cells, slots, stacks, saved, order[1..])
    && order[0] in stacks && stacks[order[0]].lo <= esp <= stacks[order[0]].hi
  }

  lemma HeadNotInTail(order: seq<int>)
    requires order != [] && NoDuplicates(order)
    ensures order[0] !in order[1..]
  {
  }

  /** Memory changes a switch from `was` makes on behalf of `was` are its own. */
  lemma SwitchIsOwn(before: Cells, after: Cells, slots: seq<int>, stacks: map<int, Stack>, was: int)
    requires Layout(slots, stacks) && was in stacks && Populated(before) && Populated(after)
    requires forall x :: 0 <= x < ADDRESS_SPACE && !stacks[was].Has(x) && x != slots[was] ==> after[x] == before[x]
    ensures OwnWrites(before, after, slots, stacks, was)
  {
  }

  /** After a switch: the task switched from is parked behind the others. */
  lemma SwitchInv(order: seq<int>, slots: seq<int>, stacks: map<int, Stack>, saved: map<int, Saved>,
                  before: Cells, after: Cells, esp: int, s: Saved)
    requires TaskInv(order, slots, stacks, saved, before, esp) && |order| > 1
    requires OwnWrites(before, after, slots, stacks, order[0])
    requires ParkedAt(after, slots[order[0]], s, stacks[order[0]])
    ensures AllParked(after, slots, stacks, saved[order[0] := s], Rotate(order))
  {
    hide ParkedAt, OwnWrites;
    HeadNotInTail(order);
    AllParkedKept(before, after, slots, stacks, saved, order[1..], order[0]);
    var saved' := saved[order[0] := s];
    var r := Rotate(order);
    forall k | 0 <= k < |r|
      ensures r[k] in stacks && r[k] in saved' && 0 <= r[k] < 4
      ensures ParkedAt(after, slots[r[k]], saved'[r[k]], stacks[r[k]])
    {
      if k < |order| - 1 {
        assert r[k] == order[1..][k];
      } else {
        assert r[k] == order[0];
      }
    }
  }

  /** Writes to its own stack by the task switched to keep the invariant. */
  lemma ArriveInv(order: seq<int>, slots: seq<int>, stacks: map<int, Stack>, saved: map<int, Saved>,
                  before: Cells, after: Cells, esp: int)
    requires order != [] && NoDuplicates(order) && Layout(slots, stacks) && forall id :: id in stacks <==> id in order
    requires AllParked(before, slots, stacks, saved, order) && OwnWrites(before, after, slots, stacks, order[0])
    requires order[0] in stacks && stacks[order[0]].lo <= esp <= stacks[order[0]].hi
    ensures TaskInv(order, slots, stacks, saved, after, esp)
  {
    hide ParkedAt, OwnWrites;
    HeadNotInTail(order);
    assert AllParked(before, slots, stacks, saved, order[1..]) by {
      assert forall k :: 0 <= k < |order[1..]| ==> order[1..][k] == order[k + 1];
    }
    AllParkedKept(before, after, slots, stacks, saved, order[1..], order[0]);
  }

  /** The next task's slot holds a stack pointer it can be resumed from. */
  lemma QueueHead(order: seq<int>, slots: seq<int>, stacks: map<int, Stack>, saved: map<int, Saved>,
                  cells: Cells, esp: int)
    requires TaskInv(order, slots, stacks, saved, cells, esp) && |order| > 1
    ensures |slots| == 4 && order[1] in stacks && order[1] in saved && 0 <= order[0] < 4 && 0 <= order[1] < 4
    ensures cells[slots[order[1]]] == FrameBase(saved[order[1]]) && Multiple(4, FrameBase(saved[order[1]]))
    ensures FrameBase(saved[order[1]]) + 20 <= ADDRESS_SPACE
    ensures !stacks[order[0]].Has(slots[order[0]]) && !stacks[order[0]].Has(slots[order[1]])
    ensures slots[order[0]] != slots[order[1]] && Multiple(4, slots[order[0]]) && Multiple(4, slots[order[1]])
    ensures 0 <= slots[order[0]] < ADDRESS_SPACE && 0 <= slots[order[1]] < ADDRESS_SPACE
    ensures stacks[order[0]].InMemory() && stacks[order[1]].InMemory()
  {
    hide Multiple;
    assert order[1..][0] == order[1] && order[0] != order[1];
  }

  lemma HeadParked(cells: Cells, slots: seq<int>, stacks: map<int, Stack>, saved: map<int, Saved>, queue: seq<int>)
    requires |slots| == 4 && AllParked(cells, slots, stacks, saved, queue) && queue != []
    ensures queue[0] in stacks && queue[0] in saved && 0 <= queue[0] < 4
    ensures ParkedAt(cells, slots[queue[0]], saved[queue[0]], stacks[queue[0]])
    ensures saved[queue[0]].Fresh? ==> stacks[queue[0]].Has(saved[queue[0]].top - 16)
    ensures FrameBase(saved[queue[0]]) + 20 <= stacks[queue[0]].hi
  {
  }

  /** Only the part of the image above the stack pointer matters. */
  lemma ImageKept(cells: Cells, slot: int, s: Saved, stack: Stack, image: Cells)
    requires s.Parked? && ParkedAt(cells, slot, s, stack) && Populated(image)
    requires forall x :: s.esp <= x < stack.hi ==> image[x] == s.image[x]
    ensures ParkedAt(cells, slot, s.(image := image), stack)
  {
  }

  lemma ArriveIsOwn(before: Cells, after: Cells, slots: seq<int>, stacks: map<int, Stack>, now: int, s: Saved)
    requires Layout(slots, stacks) && now in stacks && Populated(before) && Populated(after)
    requires after == before || (s.Fresh? && 0 <= s.top - 16 < ADDRESS_SPACE && stacks[now].Has(s.top - 16) &&
      after == before[s.top - 16 := HALT])
    ensures OwnWrites(before, after, slots, stacks, now)
  {
  }

  /** A push on a task's own stack changes nothing elsewhere. */
  lemma PushIsOwn(cells: Cells, slots: seq<int>, stacks: map<int, Stack>, id: int, sp: int, w: Word)
    requires Populated(cells) && id in stacks && stacks[id].Has(sp) && 0 <= sp < ADDRESS_SPACE
    ensures forall x :: Elsewhere(slots, stacks, x) ==> 0 <= x < ADDRESS_SPACE && cells[sp := w][x] == cells[x]
  {
  }

  lemma OnOwnStack(order: seq<int>, slots: seq<int>, stacks: map<int, Stack>, saved: map<int, Saved>,
                   cells: Cells, esp: int)
    requires TaskInv(order, slots, stacks, saved, cells, esp)
    ensures order[0] in stacks && 0 <= stacks[order[0]].lo && esp <= stacks[order[0]].hi <= ADDRESS_SPACE
  {
  }

  /** With one task there is nothing parked to protect. */
  lemma AloneInv(order: seq<int>, slots: seq<int>, stacks: map<int, Stack>, saved: map<int, Saved>,
                 before: Cells, after: Cells, esp: int)
    requires TaskInv(order, slots, stacks, saved, before, esp) && |order| == 1
    ensures TaskInv(order, slots, stacks, saved, after, esp) && Rotate(order) == order
  {
  }

  lemma RotateTasks(order: seq<int>, stacks: map<int, Stack>)
    requires order != [] && NoDuplicates(order) && forall id :: id in stacks <==> id in order
    ensures NoDuplicates(Rotate(order)) && forall id :: id in stacks <==> id in Rotate(order)
  {
    var r := Rotate(order);
    assert forall i :: 0 <= i < |order| - 1 ==> r[i] == order[i + 1];
    assert order == [order[0]] + order[1..];
  }

  /** The processor and the stack are as `s` recorded them. */
  ghost predicate Restored(cpu: Cpu, s: Saved, stack: Stack)
    reads cpu, cpu.ram
  {
    match s
    case Parked(ebx, esi, edi, ebp, esp, resume, interrupts, image) =>
      && cpu.ebx == ebx && cpu.esi == esi && cpu.edi == edi && cpu.ebp == ebp
      && cpu.esp == esp && cpu.eip == resume && cpu.interrupts == interrupts
      && Populated(image) && Populated(cpu.ram.cells) && 0 <= esp && stack.hi <= ADDRESS_SPACE
      && (forall x :: esp <= x < stack.hi ==> cpu.ram.cells[x] == image[x])
    case Fresh(entry, top) =>
      && cpu.eip == entry && cpu.esp == top - 16 && !cpu.interrupts
      && cpu.ebx == 0 && cpu.esi == 0 && cpu.edi == 0 && cpu.ebp == 0
  }

  // ---------- Runs, seen from outside ----------

  datatype Regs = Regs(ebx: Word, esi: Word, edi: Word, ebp: Word, esp: int, eip: Word, interrupts: bool)

  /** Who runs and who waits, on which stacks, what the waiting tasks left behind, the
      registers and the memory. */
  datatype View = View(order: seq<int>, stacks: map<int, Stack>, saved: map<int, Saved>, regs: Regs, cells: Cells)

  /** The registers a task restarts with. */
  function RegsOf(s: Saved): Regs {
    match s
    case Parked(ebx, esi, edi, ebp, esp, resume, interrupts, _) => Regs(ebx, esi, edi, ebp, esp, resume, interrupts)
    case Fresh(entry, top) => Regs(0, 0, 0, 0, top - 16, entry, false)
  }

  /** What `yield_now` records for the running task. */
  function Snap(v: View, resume: Word): Saved {
    Parked(v.regs.ebx, v.regs.esi, v.regs.edi, v.regs.ebp, v.regs.esp, resume, v.regs.interrupts, v.cells)
  }

  /** The words from the saved stack pointer to the top of the stack are as they were. */
  ghost predicate StackBack(cells: Cells, s: Saved, stack: Stack) {
    s.Parked? ==>
    && Populated(cells) && Populated(s.image) && 0 <= s.esp && stack.hi <= ADDRESS_SPACE
    && forall x :: s.esp <= x < stack.hi ==> cells[x] == s.image[x]
  }

  ghost predicate Steps(v: View, w: View) {
    w.order == v.order && w.stacks == v.stacks && w.saved == v.saved
  }

  /** Nothing about the tasks changes but memory no task relies on. */
  ghost predicate Stays(v: View, w: View) {
    Steps(v, w) && w.regs == v.regs
  }

  ghost predicate Yields(v: View, w: View, resume: Word) {
    && v.order != [] && w.order == Rotate(v.order) && w.stacks == v.stacks && v.order[0] in v.stacks
    && if |v.order| == 1 then
         && w.saved == v.saved && w.regs == v.regs.(eip := resume)
         && StackBack(w.cells, Snap(v, resume), v.stacks[v.order[0]])
       else
         && w.saved == v.saved[v.order[0] := Snap(v, resume)]
         && v.order[1] in v.saved && v.order[1] in v.stacks && w.regs == RegsOf(v.saved[v.order[1]])
         && StackBack(w.cells, v.saved[v.order[1]], v.stacks[v.order[1]])
  }

  ghost predicate Spawns(v: View, w: View, id: int, s: Saved, stack: Stack) {
    && id !in v.order && w.order == v.order + [id] && w.stacks == v.stacks[id := stack]
    && w.saved == v.saved[id := s] && w.regs == v.regs
  }

  ghost predicate Moves(v: View, w: View) {
    || Steps(v, w)
    || (exists resume :: Yields(v, w, resume))
    || (exists id, s, stack :: Spawns(v, w, id, s, stack))
  }

  /** Task `t` waits, with something saved and a stack of its own. */
  ghost predicate Waits(v: View, t: int) {
    t in v.order && v.order[0] != t && t in v.saved && t in v.stacks
  }

  /** While a task waits, nothing changes what it left behind, and it stays in the
      order; when it runs, it has back its registers and the words of its stack. */
  lemma WaitingKept(v: View, w: View, t: int)
    requires Moves(v, w) && Waits(v, t)
    ensures w.order != [] && (w.order[0] != t ==> Waits(w, t) && w.saved[t] == v.saved[t])
    ensures t in w.stacks && w.stacks[t] == v.stacks[t]
    ensures w.order[0] == t ==> w.regs == RegsOf(v.saved[t]) && StackBack(w.cells, v.saved[t], v.stacks[t])
  {
    if exists resume :: Yields(v, w, resume) {
      assert v.order == [v.order[0]] + v.order[1..];
    }
  }

  ghost predicate IsRun(run: seq<View>) {
    && (forall k :: 0 <= k < |run| ==> run[k].order != [])
    && (forall k :: 0 <= k < |run| - 1 ==> Moves(run[k], run[k + 1]))
  }

  /** Task `t` runs in the last view of the run and in no earlier one. */
  ghost predicate FirstRunsLast(run: seq<View>, t: int)
    requires IsRun(run)
  {
    && |run| > 0 && run[|run| - 1].order[0] == t
    && (forall k :: 0 <= k < |run| - 1 ==> run[k].order[0] != t)
  }

  /** Over any run: a waiting task starts with exactly what was saved for it, stack
      contents included. For a spawned task that is its entry point, zeroed registers
      and interrupts masked. */
  lemma {:induction false} StartsAsSaved(run: seq<View>, t: int)
    requires IsRun(run) && FirstRunsLast(run, t) && |run| > 1 && Waits(run[0], t)
    ensures run[|run| - 1].regs == RegsOf(run[0].saved[t])
    ensures StackBack(run[|run| - 1].cells, run[0].saved[t], run[0].stacks[t])
  {
    hide StackBack, Moves;
    WaitingKept(run[0], run[1], t);
    if |run| > 2 {
      var rest := run[1..];
      assert forall k :: 0 <= k < |rest| ==> rest[k] == run[k + 1];
      assert run[1].order[0] != t;
      StartsAsSaved(rest, t);
    }
  }

  /** Over any run: when a task that yielded runs again, its registers, stack pointer,
      return address and interrupt flag are those of its own yield, and so is every
      word from its stack pointer to the top of its stack. */
  lemma ResumedAsParked(run: seq<View>, t: int, resume: Word)
    requires IsRun(run) && |run| > 2 && Yields(run[0], run[1], resume)
    requires |run[0].order| > 1 && run[0].order[0] == t && FirstRunsLast(run[1..], t)
    ensures run[|run| - 1].regs == run[0].regs.(eip := resume)
    ensures t in run[0].stacks && StackBack(run[|run| - 1].cells, Snap(run[0], resume), run[0].stacks[t])
  {
    hide StackBack, Moves;
    assert run[1].order[|run[0].order| - 1] == t;
    assert IsRun(run[1..]);
    StartsAsSaved(run[1..], t);
  }

  class Kernel {
    const cpu: Cpu
    const sched: Scheduler
    /** Where each task's saved stack pointer lives in memory. */
    const slots: seq<int>
    ghost var stacks: map<int, Stack>
    ghost var saved: map<int, Saved>

    ghost predicate Valid()
      reads this, cpu, cpu.ram, sched, sched.occupied, sched.ready, sched.turns
    {
      && cpu.Valid() && sched.Valid()
      && TaskInv(sched.Order(), slots, stacks, saved, cpu.ram.cells, cpu.esp)
    }

    ghost function Now(): View
      requires sched.Valid()
      reads this, cpu, cpu.ram, sched, sched.occupied, sched.ready, sched.turns
    {
      View(sched.Order(), stacks, saved,
           Regs(cpu.ebx, cpu.esi, cpu.edi, cpu.ebp, cpu.esp, cpu.eip, cpu.interrupts), cpu.ram.cells)
    }

    constructor (cpu: Cpu, sched: Scheduler, slots: seq<int>, ghost stack: Stack)
      requires cpu.Valid() && sched.Valid() && sched.Order() == [0]
      requires Layout(slots, map[0 := stack]) && stack.lo <= cpu.esp <= stack.hi
      ensures Valid() && this.cpu == cpu && this.sched == sched && this.slots == slots
      ensures stacks == map[0 := stack] && saved == map[]
    {
      this.cpu, this.sched, this.slots := cpu, sched, slots;
      stacks, saved := map[0 := stack], map[];
    }

    /** Any code of the running task that stays out of other tasks' stacks and out of
        the task table: new register values, a stack pointer in its own stack, new memory. */
    method TaskStep(ebx: Word, esi: Word, edi: Word, ebp: Word, esp: int, interrupts: bool, cells: Cells)
      requires Valid() && OwnWrites(cpu.ram.cells, cells, slots, stacks, sched.current)
      requires Multiple(4, esp) && stacks[sched.current].lo <= esp <= stacks[sched.current].hi
      modifies cpu, cpu.ram
      ensures Valid() && Steps(old(Now()), Now())
      ensures cpu.ram.cells == cells && cpu.esp == esp && cpu.interrupts == interrupts
      ensures cpu.ebx == ebx && cpu.esi == esi && cpu.edi == edi && cpu.ebp == ebp
    {
      hide ParkedAt, Multiple;
      ghost var order := sched.Order();
      HeadNotInTail(order);
      AllParkedKept(cpu.ram.cells, cells, slots, stacks, saved, order[1..], order[0]);
      cpu.ebx, cpu.esi, cpu.edi, cpu.ebp, cpu.esp, cpu.interrupts := ebx, esi, edi, ebp, esp, interrupts;
      cpu.ram.cells := cells;
    }

    /** What `yield_now` records for the calling task. */
    ghost function Snapshot(resume: Word): Saved
      reads cpu, cpu.ram
    {
      Parked(cpu.ebx, cpu.esi, cpu.edi, cpu.ebp, cpu.esp, resume, cpu.interrupts, cpu.ram.cells)
    }

    /** Parks the running task and runs the head of the queue. The task switched to
        gets back exactly what it had at its own call; a fresh one starts at its
        entry with interrupts masked. */
    method YieldNow(resume: Word)
      requires Valid() && stacks[sched.current].lo + 36 <= cpu.esp
      modifies this`saved, cpu, cpu.ram, sched, sched.ready, sched.turns
      ensures Valid() && Yields(old(Now()), Now(), resume)
      ensures old(|sched.Order()|) == 1 ==>
        saved == old(saved) && Restored(cpu, old(Snapshot(resume)), stacks[sched.current])
      ensures old(|sched.Order()|) > 1 ==>
        var was, now := old(sched.Order())[0], old(sched.Order())[1];
        && saved == old(saved)[was := old(Snapshot(resume))]
        && now in old(saved) && now in stacks && Restored(cpu, old(saved)[now], stacks[now])
      ensures forall x :: Elsewhere(slots, stacks, x) ==> cpu.ram.cells[x] == old(cpu.ram.cells)[x]
    {
      hide Multiple, Consistent, TaskInv, Ring, Elsewhere;
      ghost var order, cells, s := sched.Order(), cpu.ram.cells, Snapshot(resume);
      OnOwnStack(order, slots, stacks, saved, cells, cpu.esp);
      cpu.Push(resume);
      PushIsOwn(cells, slots, stacks, order[0], cpu.esp, resume);
      var pair := sched.PickNext();
      if pair.None? {
        cpu.eip := cpu.Pop();
        AloneInv(order, slots, stacks, saved, cells, cpu.ram.cells, cpu.esp);
        return;
      }
      SwitchTo(pair.value.0, pair.value.1, order, s);
    }

    /** The switching half of `yield_now`, entered with the return address just pushed. */
    method SwitchTo(was: int, now: int, ghost order: seq<int>, ghost s: Saved)
      requires cpu.Valid() && |order| > 1 && order[0] == was && order[1] == now
      requires s.Parked? && TaskInv(order, slots, stacks, saved, s.image, s.esp) && stacks[was].lo + 36 <= s.esp
      requires Populated(s.image) && cpu.esp == s.esp - 4 && cpu.ram.cells == s.image[s.esp - 4 := s.resume]
      requires cpu.ebx == s.ebx && cpu.esi == s.esi && cpu.edi == s.edi && cpu.ebp == s.ebp
      requires cpu.interrupts == s.interrupts
      modifies this`saved, cpu, cpu.ram
      ensures cpu.Valid() && TaskInv(Rotate(order), slots, stacks, saved, cpu.ram.cells, cpu.esp)
      ensures saved == old(saved)[was := s] && now in old(saved) && now in stacks
      ensures Restored(cpu, old(saved)[now], stacks[now])
      ensures forall x :: Elsewhere(slots, stacks, x) ==> cpu.ram.cells[x] == s.image[x]
    {
      hide ParkedAt, HoldsFrame, Multiple, Layout, AllParked, OwnWrites;
      QueueHead(order, slots, stacks, saved, s.image, s.esp);
      SwitchAway(cpu, slots[was], slots[now], FrameBase(saved[now]), stacks[was]);
      ghost var switched := cpu.ram.cells;
      ImageKept(switched, slots[was], s.(image := s.image[s.esp - 4 := s.resume]), stacks[was], s.image);
      SwitchIsOwn(s.image, switched, slots, stacks, was);
      SwitchInv(order, slots, stacks, saved, s.image, switched, s.esp, s);
      saved := saved[was := s];
      HeadParked(switched, slots, stacks, saved, Rotate(order));
      Arrive(cpu, slots[now], saved[now], stacks[now]);
      ArriveIsOwn(switched, cpu.ram.cells, slots, stacks, now, saved[now]);
      RotateTasks(order, stacks);
      ArriveInv(Rotate(order), slots, stacks, saved, switched, cpu.ram.cells, cpu.esp);
      forall x | Elsewhere(slots, stacks, x) ensures cpu.ram.cells[x] == s.image[x] {
        assert !stacks[was].Has(x) && !stacks[now].Has(x) && x != slots[was];
      }
    }

    /** Prepares a stack so that the first switch to it looks like a resume, then
        admits the task if the table has room. `base` is a freshly allocated block. */
    method Spawn(entry: Word, base: int) returns (id: Option<int>)
      requires Valid() && 0 < base && base + STACK_SIZE <= ADDRESS_SPACE
      requires Multiple(4, base) && Unused(slots, stacks, Stack(base, base + STACK_SIZE))
      modifies this`stacks, this`saved, cpu.ram, sched, sched.occupied, sched.ready
      ensures Valid() && (id.None? ==> Stays(old(Now()), Now()))
      ensures id.None? <==> old(|sched.Order()|) == 4
      ensures id.None? ==> stacks == old(stacks)
      ensures id.Some? ==>
        && Spawns(old(Now()), Now(), id.value, Fresh(entry, StackTop(base)), Stack(base, base + STACK_SIZE))
        && stacks == old(stacks)[id.value := Stack(base, base + 8192)]
        && 0 <= id.value < 4 && PrimedPointer(base, cpu.ram.cells[slots[id.value]])
        && forall i :: 0 <= i < id.value ==> i in old(sched.Order())
      ensures forall x :: 0 <= x < ADDRESS_SPACE && !Stack(base, base + STACK_SIZE).Has(x) && x !in slots ==>
        cpu.ram.cells[x] == old(cpu.ram.cells)[x]
    {
      hide Multiple, Consistent, TaskInv, Ring, ParkedAt, Unused;
      ghost var order, cells := sched.Order(), cpu.ram.cells;
      ghost var stack := Stack(base, base + STACK_SIZE);
      StackTopAligned(base);
      PrimeStack(cpu.ram, entry, StackTop(base));
      UnusedKept(order, slots, stacks, saved, cells, cpu.ram.cells, cpu.esp, stack);
      id := sched.Admit();
      if id.None? {
        return;
      }
      ghost var primed := cpu.ram.cells;
      SlotBounds(order, slots, stacks, saved, primed, cpu.esp, id.value);
      cpu.ram.Write(slots[id.value], StackTop(base) - 24);
      SpawnInv(order, slots, stacks, saved, primed, cpu.esp, id.value, entry, StackTop(base), stack);
      saved := saved[id.value := Fresh(entry, StackTop(base))];
      stacks := stacks[id.value := stack];
    }
  }

  /** The high end of a stack block, rounded down to 16 bytes. */
  function StackTop(base: int): int { (base + 8192) / 16 * 16 }

  /** `esp` is six words below the highest 16-byte boundary of the 8 KiB block at `base`. */
  predicate PrimedPointer(base: int, esp: int) {
    (esp + 24) % 16 == 0 && base + 8192 - 16 < esp + 24 <= base + 8192
  }

  /** A block that overlaps no stack and no table slot, as the heap guarantees for a new allocation. */
  ghost predicate Unused(slots: seq<int>, stacks: map<int, Stack>, stack: Stack) {
    && (forall id :: id in stacks ==> stacks[id].Apart(stack))
    && (forall i :: 0 <= i < |slots| ==> !stack.Has(slots[i]))
  }

  lemma StackTopAligned(base: int)
    requires 0 < base
    ensures StackTop(base) % 16 == 0 && base + 8192 - 16 < StackTop(base) <= base + 8192
    ensures Multiple(4, StackTop(base)) && Multiple(4, StackTop(base) - 24)
  {
    MultipleOf4((base + 8192) / 16 * 4);
    MultipleOf4((base + 8192) / 16 * 4 - 6);
  }

  /** Where a task's entry point finds the stack: its return address is on a 16-byte
      boundary, so neither the word above it nor the one above that is, on any block. */
  lemma EntryAlignment(entry: Word, base: int)
    requires 0 < base
    ensures var esp := RegsOf(Fresh(entry, StackTop(base))).esp;
      esp % 16 == 0 && (esp + 4) % 16 == 4 && (esp + 8) % 16 == 8
  {
    StackTopAligned(base);
  }

  /** Entry pointer, trampoline address and four zeroed registers, downwards from `top`. */
  method PrimeStack(ram: Ram, entry: Word, top: int)
    requires ram.Valid() && 24 <= top <= ADDRESS_SPACE && Multiple(4, top)
    modifies ram
    ensures ram.Valid() && HoldsFrame(ram.cells, top - 24, 0, 0, 0, 0, TRAMPOLINE) && ram.cells[top - 4] == entry
    ensures forall x :: 0 <= x < ADDRESS_SPACE && !(top - 24 <= x < top) ==> ram.cells[x] == old(ram.cells)[x]
  {
    assert Multiple(4, 4);
    var esp := top - 4;
    MultipleDifference(4, top, 4);
    ram.Write(esp, entry);
    MultipleDifference(4, esp, 4);
    esp := esp - 4;
    ram.Write(esp, TRAMPOLINE);
    ghost var named := ram.cells;
    for k := 0 to 4
      invariant ram.Valid() && esp == top - 8 - 4 * k && Multiple(4, esp)
      invariant forall x :: 0 <= x < ADDRESS_SPACE && !(esp <= x < top - 8) ==> ram.cells[x] == named[x]
      invariant forall j :: 0 <= j < k ==> ram.cells[top - 12 - 4 * j] == 0
    {
      MultipleDifference(4, esp, 4);
      esp := esp - 4;
      ram.Write(esp, 0);
    }
    assert ram.cells[top - 12 - 4 * 0] == 0 && ram.cells[top - 12 - 4 * 1] == 0;
    assert ram.cells[top - 12 - 4 * 2] == 0 && ram.cells[top - 12 - 4 * 3] == 0;
  }

  /** Writes to unused memory disturb no task. */
  lemma UnusedKept(order: seq<int>, slots: seq<int>, stacks: map<int, Stack>, saved: map<int, Saved>,
                   before: Cells, after: Cells, esp: int, stack: Stack)
    requires TaskInv(order, slots, stacks, saved, before, esp) && Unused(slots, stacks, stack)
    requires Populated(before) && Populated(after)
    requires forall x :: 0 <= x < ADDRESS_SPACE && !stack.Has(x) ==> after[x] == before[x]
    ensures TaskInv(order, slots, stacks, saved, after, esp)
  {
    hide ParkedAt;
    HeadNotInTail(order);
    AllParkedKept(before, after, slots, stacks, saved, order[1..], order[0]);
  }

  /** Writes that leave the waiting tasks' stacks and slots alone keep the invariant. */
  lemma OwnKept(order: seq<int>, slots: seq<int>, stacks: map<int, Stack>, saved: map<int, Saved>,
                before: Cells, after: Cells, esp: int)
    requires TaskInv(order, slots, stacks, saved, before, esp) && OwnWrites(before, after, slots, stacks, order[0])
    ensures TaskInv(order, slots, stacks, saved, after, esp)
  {
    hide ParkedAt, OwnWrites;
    HeadNotInTail(order);
    AllParkedKept(before, after, slots, stacks, saved, order[1..], order[0]);
  }

  lemma SlotBounds(order: seq<int>, slots: seq<int>, stacks: map<int, Stack>, saved: map<int, Saved>,
                   cells: Cells, esp: int, id: int)
    requires TaskInv(order, slots, stacks, saved, cells, esp) && 0 <= id < 4
    ensures |slots| == 4 && 0 <= slots[id] < ADDRESS_SPACE && Multiple(4, slots[id])
  {
  }

  /** Filling the new task's slot parks it behind the others. */
  lemma SpawnInv(order: seq<int>, slots: seq<int>, stacks: map<int, Stack>, saved: map<int, Saved>,
                 cells: Cells, esp: int, id: int, entry: Word, top: int, stack: Stack)
    requires TaskInv(order, slots, stacks, saved, cells, esp) && Unused(slots, stacks, stack) && stack.InMemory()
    requires 0 <= id < 4 && id !in order && Populated(cells) && 24 <= top <= ADDRESS_SPACE && Multiple(4, top - 24)
    requires stack.lo <= top - 24 && top <= stack.hi
    requires HoldsFrame(cells, top - 24, 0, 0, 0, 0, TRAMPOLINE) && cells[top - 4] == entry
    ensures var s := Fresh(entry, top);
      TaskInv(order + [id], slots, stacks[id := stack], saved[id := s], cells[slots[id] := top - 24], esp)
  {
    var after := cells[slots[id] := top - 24];
    FreshParked(cells, slots[id], entry, top, stack);
    hide ParkedAt, HoldsFrame, Multiple;
    var queue := order[1..];
    assert id !in queue && id !in stacks;
    assert OwnWrites(cells, after, slots, stacks, id);
    AllParkedKept(cells, after, slots, stacks, saved, queue, id);
    assert (order + [id])[1..] == queue + [id];
    assert AllParked(after, slots, stacks[id := stack], saved[id := Fresh(entry, top)], queue + [id]);
    assert Layout(slots, stacks[id := stack]);
    assert NoDuplicates(order + [id]);
  }

  lemma FreshParked(cells: Cells, slot: int, entry: Word, top: int, stack: Stack)
    requires Populated(cells) && 0 <= slot < ADDRESS_SPACE && stack.InMemory() && !stack.Has(slot)
    requires 24 <= top <= ADDRESS_SPACE && Multiple(4, top - 24) && stack.lo <= top - 24 && top <= stack.hi
    requires HoldsFrame(cells, top - 24, 0, 0, 0, 0, TRAMPOLINE) && cells[top - 4] == entry
    ensures ParkedAt(cells[slot := top - 24], slot, Fresh(entry, top), stack)
  {
  }
}
