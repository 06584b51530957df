/** The input queue's `push` and `pop` load by load and store by store, as one of them
    may be interrupted by the other. An event is represented by the number of the call
    that brought it, so that two equal key strokes are still two events. */
module QueueSteps {
  import opened Sequences
  import opened InputQueue

  type Slot = i: int | 0 <= i < 64

  type Slots = b: seq<int> | |b| == 64 witness seq(64, _ => -1)

  /** The queue's fields; the events accepted and popped so far, in order; how many
      pushes were refused; and whether an arithmetic check has panicked. */
  datatype Fields = Fields(buf: Slots, head: Slot, tail: Slot, len: nat, dropped: nat,
                           accepted: seq<int>, popped: seq<int>, refused: nat, panicked: bool)

  datatype Op = Push | Pop

  /** What a call does next, with the values it has loaded. */
  datatype Pc =
    | Test
    | DropLoad
    | DropStore(dropped: nat)
    | SlotLoad
    | SlotStore(slot: Slot)
    | HeadLoad
    | HeadStore(head: Slot)
    | GrowLoad
    | GrowStore(len: nat)
    | ItemSlotLoad
    | ItemLoad(slot: Slot)
    | TailLoad(item: int)
    | TailStore(item: int, tail: Slot)
    | ShrinkLoad
    | ShrinkStore(len: nat)
    | Done

  function Next(i: Slot): (r: Slot)
    ensures r == Place(64, i, 1)
  {
    NextSlot(i);
    (i + 1) % 64
  }

  // ---------- One instruction ----------

  function After(r: Fields, op: Op, pc: Pc): Pc {
    match pc
    case Test =>
      if op == Push then (if r.len == CAPACITY then DropLoad else SlotLoad)
      else if r.len == 0 then Done else ItemSlotLoad
    case DropLoad => DropStore(r.dropped)
    case DropStore(_) => Done
    case SlotLoad => SlotStore(r.head)
    case SlotStore(_) => HeadLoad
    case HeadLoad => HeadStore(r.head)
    case HeadStore(_) => GrowLoad
    case GrowLoad => GrowStore(r.len)
    case GrowStore(_) => Done
    case ItemSlotLoad => ItemLoad(r.tail)
    case ItemLoad(slot) => TailLoad(r.buf[slot])
    case TailLoad(item) => TailStore(item, r.tail)
    case TailStore(_, _) => ShrinkLoad
    case ShrinkLoad => ShrinkStore(r.len)
    case ShrinkStore(_) => Done
    case Done => Done
  }

  /** A push counts as accepted when it claims its slot, a pop as taken when it gives
      its slot up. */
  function Exec(r: Fields, id: int, pc: Pc): Fields {
    match pc
    case DropStore(dropped) => r.(dropped := SaturatingIncrement(dropped), refused := r.refused + 1)
    case SlotStore(slot) => r.(buf := r.buf[slot := id])
    case HeadStore(head) => r.(head := Next(head), accepted := r.accepted + [id])
    case GrowStore(len) => r.(len := len + 1)
    case TailStore(item, tail) => r.(tail := Next(tail), popped := r.popped + [item])
    case ShrinkStore(len) => if len == 0 then r.(panicked := true) else r.(len := len - 1)
    case _ => r
  }

  /** An upper bound on the instructions left. */
  function Left(pc: Pc): nat {
    match pc
    case Test => 7
    case SlotLoad => 6
    case ItemSlotLoad => 6
    case SlotStore(_) => 5
    case ItemLoad(_) => 5
    case HeadLoad => 4
    case TailLoad(_) => 4
    case HeadStore(_) => 3
    case TailStore(_, _) => 3
    case GrowLoad => 2
    case ShrinkLoad => 2
    case DropLoad => 2
    case GrowStore(_) => 1
    case ShrinkStore(_) => 1
    case DropStore(_) => 1
    case Done => 0
  }

  lemma LeftDecreases(r: Fields, op: Op, pc: Pc)
    requires pc != Done
    ensures Left(After(r, op, pc)) < Left(pc)
  {
  }

  // ---------- Running a call to its end ----------

  /** The fields once a call at `pc` has run to its end without interruption. */
  function Finish(r: Fields, id: int, op: Op, pc: Pc): Fields
    decreases Left(pc)
  {
    if pc == Done then r
    else
      LeftDecreases(r, op, pc);
      Finish(Exec(r, id, pc), id, op, After(r, op, pc))
  }

  function Grown(r: Fields, len: nat): Fields { r.(len := len + 1) }

  function Claimed(r: Fields, id: int, head: Slot): Fields {
    var claimed := r.(head := Next(head), accepted := r.accepted + [id]);
    Grown(claimed, claimed.len)
  }

  function Filled(r: Fields, id: int, slot: Slot): Fields {
    var filled := r.(buf := r.buf[slot := id]);
    Claimed(filled, id, filled.head)
  }

  function Refused(r: Fields, dropped: nat): Fields {
    r.(dropped := SaturatingIncrement(dropped), refused := r.refused + 1)
  }

  function Shrunk(r: Fields, len: nat): Fields {
    if len == 0 then r.(panicked := true) else r.(len := len - 1)
  }

  function GivenUp(r: Fields, item: int, tail: Slot): Fields {
    var given := r.(tail := Next(tail), popped := r.popped + [item]);
    Shrunk(given, given.len)
  }

  /** `Finish` written out. */
  function Ending(r: Fields, id: int, op: Op, pc: Pc): Fields {
    match pc
    case Test =>
      if op == Push then (if r.len == CAPACITY then Refused(r, r.dropped) else Filled(r, id, r.head))
      else if r.len == 0 then r else GivenUp(r, r.buf[r.tail], r.tail)
    case DropLoad => Refused(r, r.dropped)
    case DropStore(dropped) => Refused(r, dropped)
    case SlotLoad => Filled(r, id, r.head)
    case SlotStore(slot) => Filled(r, id, slot)
    case HeadLoad => Claimed(r, id, r.head)
    case HeadStore(head) => Claimed(r, id, head)
    case GrowLoad => Grown(r, r.len)
    case GrowStore(len) => Grown(r, len)
    case ItemSlotLoad => GivenUp(r, r.buf[r.tail], r.tail)
    case ItemLoad(slot) => GivenUp(r, r.buf[slot], r.tail)
    case TailLoad(item) => GivenUp(r, item, r.tail)
    case TailStore(item, tail) => GivenUp(r, item, tail)
    case ShrinkLoad => Shrunk(r, r.len)
    case ShrinkStore(len) => Shrunk(r, len)
    case Done => r
  }

  lemma EndingStep(r: Fields, id: int, op: Op, pc: Pc)
    ensures Ending(Exec(r, id, pc), id, op, After(r, op, pc)) == Ending(r, id, op, pc)
  {
    hide Next, SaturatingIncrement;
  }

  lemma {:induction false} FinishIsEnding(r: Fields, id: int, op: Op, pc: Pc)
    ensures Finish(r, id, op, pc) == Ending(r, id, op, pc)
    decreases Left(pc)
  {
    hide Exec, After, Ending;
    if pc == Done {
      DoneEnds(r, id, op);
    } else {
      LeftDecreases(r, op, pc);
      EndingStep(r, id, op, pc);
      FinishIsEnding(Exec(r, id, pc), id, op, After(r, op, pc));
    }
  }

  lemma DoneEnds(r: Fields, id: int, op: Op)
    ensures Ending(r, id, op, Done) == r
  {
  }

  // ---------- Right fields, and fields right for a call under way ----------

  /** Nothing has panicked, what was popped is the first of what was accepted, and no
      event was accepted twice. */
  ghost predicate Sound(r: Fields) {
    !r.panicked && r.popped <= r.accepted && NoDuplicates(r.accepted)
  }

  /** The events that are due. */
  ghost function Due(r: Fields): seq<int>
    requires r.popped <= r.accepted
  {
    r.accepted[|r.popped|..]
  }

  /** The first `n` slots from the tail are the events due, and the head follows them. */
  ghost predicate Holds(r: Fields, n: int)
    requires r.popped <= r.accepted
  {
    0 <= n <= 64 && r.head == Place(64, r.tail, n) && Ring(r.buf, r.tail, n) == Due(r)
  }

  /** Every refusal is counted, up to saturation. */
  predicate Counted(r: Fields) {
    r.dropped == if r.refused <= U32_MAX then r.refused else U32_MAX
  }

  /** With no call under way: within capacity, exactly the events due in order, refusals counted. */
  ghost predicate Whole(r: Fields) {
    Sound(r) && Counted(r) && Holds(r, r.len)
  }

  ghost predicate Unused(r: Fields, id: int) {
    id !in r.accepted && id !in r.buf
  }

  /** What a call at `pc` relies on. */
  ghost predicate Fits(r: Fields, id: int, pc: Pc) {
    match pc
    case Test => Whole(r) && Unused(r, id)
    case DropLoad => Whole(r)
    case DropStore(dropped) => Whole(r) && SaturatingIncrement(dropped) == SaturatingIncrement(r.dropped)
    case SlotLoad => Whole(r) && r.len < CAPACITY && Unused(r, id)
    case SlotStore(slot) => Whole(r) && r.len < CAPACITY && Unused(r, id) && slot == r.head
    case HeadLoad => Whole(r) && r.len < CAPACITY && Written(r, id)
    case HeadStore(head) => Whole(r) && r.len < CAPACITY && Written(r, id) && head == r.head
    case GrowLoad => Sound(r) && Counted(r) && Holds(r, r.len + 1)
    case GrowStore(len) => Sound(r) && Counted(r) && Holds(r, r.len + 1) && len == r.len
    case ItemSlotLoad => Whole(r) && r.len > 0
    case ItemLoad(slot) => Whole(r) && r.len > 0 && slot == r.tail
    case TailLoad(item) => Whole(r) && r.len > 0 && item == r.buf[r.tail]
    case TailStore(item, tail) => Whole(r) && r.len > 0 && item == r.buf[r.tail] && tail == r.tail
    case ShrinkLoad => Sound(r) && Counted(r) && 0 < r.len <= CAPACITY && Holds(r, r.len - 1)
    case ShrinkStore(len) => Sound(r) && Counted(r) && 0 < r.len <= CAPACITY && Holds(r, r.len - 1) && len == r.len
    case Done => Whole(r)
  }

  /** The event is in the slot at the head, nowhere else, and not yet accepted. */
  ghost predicate Written(r: Fields, id: int) {
    id !in r.accepted && r.buf[r.head] == id && forall i :: 0 <= i < 64 && i != r.head ==> r.buf[i] != id
  }

  lemma RingGrows(buf: Slots, tail: Slot, n: int)
    requires 0 <= n < 64
    ensures Ring(buf, tail, n + 1) == Ring(buf, tail, n) + [buf[Place(64, tail, n)]]
  {
  }

  /** Writing the slot after the last leaves the others. */
  lemma RingSpared(buf: Slots, tail: Slot, n: int, id: int)
    requires 0 <= n < 64
    ensures Ring(buf[Place(64, tail, n) := id], tail, n) == Ring(buf, tail, n)
  {
    forall i | 0 <= i < n ensures Place(64, tail, i) != Place(64, tail, n) {}
  }

  /** Claiming the slot at the head for the event in it. */
  lemma ClaimHolds(r: Fields, n: int, id: int)
    requires Sound(r) && Holds(r, n) && n < 64 && id !in r.accepted && r.buf[r.head] == id
    ensures var t := r.(head := Next(r.head), accepted := r.accepted + [id]); Sound(t) && Holds(t, n + 1)
  {
    hide Ring, Next;
    var t := r.(head := Next(r.head), accepted := r.accepted + [id]);
    RingGrows(r.buf, r.tail, n);
    PlaceShift(64, r.tail, n);
    assert Due(t) == Due(r) + [id];
  }

  lemma FillHolds(r: Fields, n: int, id: int)
    requires Sound(r) && Holds(r, n) && n < 64 && Unused(r, id)
    ensures var t := r.(buf := r.buf[r.head := id]); Sound(t) && Holds(t, n) && Written(t, id)
  {
    hide Ring;
    RingSpared(r.buf, r.tail, n, id);
  }

  /** Giving up the slot at the tail. */
  lemma GiveHolds(r: Fields, n: int)
    requires Sound(r) && Holds(r, n) && n > 0
    ensures var t := r.(tail := Next(r.tail), popped := r.popped + [r.buf[r.tail]]);
      Sound(t) && Holds(t, n - 1)
  {
    hide Ring, Next;
    var t := r.(tail := Next(r.tail), popped := r.popped + [r.buf[r.tail]]);
    RingPop(r.buf, r.tail, n);
    PlaceShift(64, r.tail, n - 1);
    assert Due(r)[0] == r.buf[r.tail] && r.accepted == r.popped + Due(r);
    assert t.popped <= t.accepted && Due(t) == Due(r)[1..];
  }

  /** A whole push that is not refused, on fields holding `n` events. */
  lemma PushHolds(r: Fields, n: int, id: int)
    requires Sound(r) && Holds(r, n) && n < 64 && Unused(r, id)
    ensures var t := Filled(r, id, r.head); Sound(t) && Holds(t, n + 1)
  {
    hide Ring, Next, Holds;
    FillHolds(r, n, id);
    var filled := r.(buf := r.buf[r.head := id]);
    ClaimHolds(filled, n, id);
    LenFree(filled.(head := Next(filled.head), accepted := filled.accepted + [id]), n + 1, r.len + 1);
  }

  /** A whole pop that finds something, on fields holding `n` events. */
  lemma PopHolds(r: Fields, n: int)
    requires Sound(r) && Holds(r, n) && n > 0 && r.len > 0
    ensures var t := GivenUp(r, r.buf[r.tail], r.tail); Sound(t) && Holds(t, n - 1)
  {
    hide Ring, Next, Holds;
    GiveHolds(r, n);
    LenFree(r.(tail := Next(r.tail), popped := r.popped + [r.buf[r.tail]]), n - 1, r.len - 1);
  }

  lemma LenFree(r: Fields, n: int, len: nat)
    requires r.popped <= r.accepted && Holds(r, n)
    ensures Holds(r.(len := len), n)
  {
  }

  lemma RefusalCounted(r: Fields, dropped: nat)
    requires Counted(r) && SaturatingIncrement(dropped) == SaturatingIncrement(r.dropped)
    ensures Counted(Refused(r, dropped))
  {
  }

  predicate Stores(pc: Pc) {
    pc.DropStore? || pc.SlotStore? || pc.HeadStore? || pc.GrowStore? || pc.TailStore? || pc.ShrinkStore?
  }

  lemma LoadFits(r: Fields, id: int, op: Op, pc: Pc)
    requires Fits(r, id, pc) && !Stores(pc)
    ensures Exec(r, id, pc) == r && Fits(r, id, After(r, op, pc))
  {
    hide Ring, Next, SaturatingIncrement, NoDuplicates, Sound, Counted, Unused, Written;
  }

  lemma SlotFits(r: Fields, id: int, op: Op, pc: Pc)
    requires Fits(r, id, pc) && (pc.DropStore? || pc.SlotStore? || pc.HeadStore?)
    ensures Fits(Exec(r, id, pc), id, After(r, op, pc))
  {
    hide Ring, Next, NoDuplicates, SaturatingIncrement;
    if pc.DropStore? {
      RefusalCounted(r, pc.dropped);
    } else if pc.SlotStore? {
      FillHolds(r, r.len, id);
    } else {
      ClaimHolds(r, r.len, id);
    }
  }

  lemma LengthFits(r: Fields, id: int, op: Op, pc: Pc)
    requires Fits(r, id, pc) && (pc.GrowStore? || pc.TailStore? || pc.ShrinkStore?)
    ensures Fits(Exec(r, id, pc), id, After(r, op, pc))
  {
    hide Ring, Next, NoDuplicates, SaturatingIncrement;
    if pc.TailStore? { GiveHolds(r, r.len); }
  }

  /** One instruction of a call keeps what the call relies on. */
  lemma FitsStep(r: Fields, id: int, op: Op, pc: Pc)
    requires Fits(r, id, pc)
    ensures Fits(Exec(r, id, pc), id, After(r, op, pc))
  {
    hide Fits, Exec, After;
    if !Stores(pc) {
      LoadFits(r, id, op, pc);
    } else if pc.DropStore? || pc.SlotStore? || pc.HeadStore? {
      SlotFits(r, id, op, pc);
    } else {
      LengthFits(r, id, op, pc);
    }
  }

  /** A call under way whose needs are met ends with everything right. */
  lemma {:induction false} FitsEnds(r: Fields, id: int, op: Op, pc: Pc)
    requires Fits(r, id, pc)
    ensures Whole(Finish(r, id, op, pc))
    decreases Left(pc)
  {
    hide Fits, Exec, After;
    if pc == Done {
      DoneFits(r, id);
    } else {
      LeftDecreases(r, op, pc);
      FitsStep(r, id, op, pc);
      FitsEnds(Exec(r, id, pc), id, op, After(r, op, pc));
    }
  }

  lemma DoneFits(r: Fields, id: int)
    ensures Fits(r, id, Done) <==> Whole(r)
  {
  }

  /** Without interruption a call is the queue operation. */
  lemma UninterruptedCall(r: Fields, id: int, op: Op)
    requires Whole(r) && Unused(r, id)
    ensures var t := Finish(r, id, op, Test);
      && Whole(t)
      && Due(t) == (if op == Push then Pushed(Due(r), id) else Popped(Due(r)))
      && t.refused == (if op == Push && |Due(r)| == CAPACITY then r.refused + 1 else r.refused)
  {
    FitsEnds(r, id, op, Test);
    FinishIsEnding(r, id, op, Test);
    assert |Due(r)| == r.len;
    assert op == Pop && r.len > 0 ==> r.accepted == r.popped + Due(r) && Due(r)[0] == r.buf[r.tail];
  }

  // ---------- Interrupting one call by another ----------

  /** When a whole call of kind `op` may come between two instructions of one at `pc`. */
  predicate Safe(r: Fields, pc: Pc, op: Op) {
    match pc
    case Test => true
    case DropLoad => true
    case DropStore(_) => op == Pop || r.len != CAPACITY || r.dropped + 1 >= U32_MAX
    case SlotLoad => op == Pop || r.len + 1 < CAPACITY
    case SlotStore(_) => op == Pop
    case HeadLoad => op == Pop
    case HeadStore(_) => op == Pop
    case GrowLoad => op == Pop || r.len + 1 < CAPACITY
    case GrowStore(_) => op == Pop && r.len == 0
    case ItemSlotLoad => op == Push || r.len > 1
    case ItemLoad(_) => op == Push
    case TailLoad(_) => op == Push
    case TailStore(_, _) => op == Push
    case ShrinkLoad => op == Push || r.len > 1
    case ShrinkStore(_) => op == Push && r.len == CAPACITY
    case Done => true
  }

  /** The fields after a whole call. */
  function Called(r: Fields, id: int, op: Op): Fields {
    Ending(r, id, op, Test)
  }

  lemma SafePush(r: Fields, id: int, pc: Pc, other: int)
    requires Fits(r, id, pc) && Unused(r, other) && other != id && pc != Test && pc != Done && Safe(r, pc, Push)
    ensures Fits(Called(r, other, Push), id, pc)
  {
    hide Ring, Next;
    if r.len != CAPACITY && !pc.GrowLoad? && !pc.ShrinkLoad? {
      PushHolds(r, r.len, other);
    } else if r.len != CAPACITY && pc.GrowLoad? {
      PushHolds(r, r.len + 1, other);
    } else if r.len != CAPACITY {
      PushHolds(r, r.len - 1, other);
    }
  }

  lemma SafePop(r: Fields, id: int, pc: Pc, other: int)
    requires Fits(r, id, pc) && pc != Test && pc != Done && Safe(r, pc, Pop)
    ensures Fits(Called(r, other, Pop), id, pc)
  {
    hide Ring, Next;
    if r.len > 0 && !pc.GrowLoad? && !pc.ShrinkLoad? {
      PopHolds(r, r.len);
    } else if r.len > 0 && pc.GrowLoad? {
      PopHolds(r, r.len + 1);
    } else if r.len > 0 {
      PopHolds(r, r.len - 1);
    }
  }

  /** The slots of the two latest events differ. */
  lemma SlotsApart(tail: Slot, n: int)
    requires 0 <= n < 64
    ensures Place(64, tail, n + 1) == Place(64, Place(64, tail, n), 1) != Place(64, tail, n)
    ensures n + 2 <= 64 ==> Place(64, tail, n + 2) != Place(64, tail, n + 1)
    ensures n + 2 <= 64 ==> Place(64, Place(64, tail, n + 1), 1) == Place(64, tail, n + 2)
  {
  }

  /** Two events were accepted, but the head or one of their two slots is wrong. */
  lemma Misplaced(r: Fields, t: Fields, first: int, second: int)
    requires Sound(r) && Holds(r, r.len) && r.len < CAPACITY
    requires t.len == r.len + 2 && t.tail == r.tail && t.popped == r.popped
    requires t.accepted == r.accepted + [first] + [second]
    requires || t.head == Place(64, r.tail, r.len + 1)
             || t.buf[Place(64, r.tail, r.len)] != first
             || t.buf[Place(64, r.tail, r.len + 1)] != second
    ensures !Whole(t)
  {
    SlotsApart(r.tail, r.len);
    assert |Due(r)| == r.len && r.accepted == r.popped + Due(r);
    assert t.popped <= t.accepted ==> Due(t) == Due(r) + [first, second];
    assert t.len <= 64 ==>
      && Ring(t.buf, t.tail, t.len)[r.len] == t.buf[Place(64, t.tail, r.len)]
      && Ring(t.buf, t.tail, t.len)[r.len + 1] == t.buf[Place(64, t.tail, r.len + 1)];
    assert (Due(r) + [first, second])[r.len] == first && (Due(r) + [first, second])[r.len + 1] == second;
  }

  /** A push between a push's loading a slot and its claiming it. */
  lemma UnsafeClaim(r: Fields, id: int, pc: Pc, other: int)
    requires Fits(r, id, pc) && Unused(r, other) && other != id && (pc.SlotStore? || pc.HeadLoad? || pc.HeadStore?)
    ensures !Whole(Ending(Called(r, other, Push), id, Push, pc))
  {
    hide Next, Ring, Whole;
    SlotsApart(r.tail, r.len);
    WholeHolds(r);
    Misplaced(r, Ending(Called(r, other, Push), id, Push, pc), other, id);
  }

  lemma WholeHolds(r: Fields)
    ensures Whole(r) ==> Sound(r) && Counted(r) && Holds(r, r.len)
  {
  }

  /** A pop between a pop's loading its slot and its giving it up. */
  lemma UnsafeGive(r: Fields, id: int, pc: Pc, other: int)
    requires Fits(r, id, pc) && (pc.ItemLoad? || pc.TailLoad? || pc.TailStore?)
    ensures !Whole(Ending(Called(r, other, Pop), id, Pop, pc))
  {
    hide Next;
    var t := Ending(Called(r, other, Pop), id, Pop, pc);
    var item := r.buf[r.tail];
    assert t.popped == r.popped + [item] + [item] && t.popped[|r.popped|] == t.popped[|r.popped| + 1];
    assert t.popped <= t.accepted ==> t.accepted[|r.popped|] == item;
  }

  /** A call between another's loading the length and its storing it. */
  lemma UnsafeLen(r: Fields, id: int, pc: Pc, op: Op, other: int)
    requires Fits(r, id, pc) && Unused(r, other) && (pc.GrowStore? || pc.ShrinkStore?) && !Safe(r, pc, op)
    ensures !Whole(Ending(Called(r, other, op), id, if pc.GrowStore? then Push else Pop, pc))
  {
    hide Next, Ring;
    var t := Ending(Called(r, other, op), id, if pc.GrowStore? then Push else Pop, pc);
    assert op == Pop && r.len == 1 && pc.ShrinkStore? ==> |t.popped| == |t.accepted| + 1;
    assert op == Push ==> t.tail == r.tail && t.head == Next(r.head);
    assert op == Pop && r.len > 0 ==> t.tail == Next(r.tail) && t.head == r.head;
  }

  /** The other ways: over capacity, a refusal not counted, and a length below zero. */
  lemma UnsafeRest(r: Fields, id: int, pc: Pc, op: Op, other: int)
    requires Fits(r, id, pc) && !Safe(r, pc, op)
    requires pc.SlotLoad? || pc.GrowLoad? || pc.DropStore? || pc.ItemSlotLoad? || pc.ShrinkLoad?
    ensures !Whole(Ending(Called(r, other, op), id, if pc.ItemSlotLoad? || pc.ShrinkLoad? then Pop else Push, pc))
  {
    hide Next, Ring;
  }

  /** The kind of call that can be at `pc`. */
  predicate At(op: Op, pc: Pc) {
    match pc
    case Test => true
    case Done => true
    case ItemSlotLoad => op == Pop
    case ItemLoad(_) => op == Pop
    case TailLoad(_) => op == Pop
    case TailStore(_, _) => op == Pop
    case ShrinkLoad => op == Pop
    case ShrinkStore(_) => op == Pop
    case _ => op == Push
  }

  /** Exactly the safe interruptions leave everything right: if a whole call comes
      between two instructions of another, then after both the queue holds exactly the
      events due, in order, within capacity, with refusals counted and no panic, if and
      only if the interruption was safe. */
  lemma InterruptionExact(r: Fields, id: int, op: Op, pc: Pc, other: int, otherOp: Op)
    requires Fits(r, id, pc) && At(op, pc) && pc != Test && pc != Done && Unused(r, other) && other != id
    ensures Safe(r, pc, otherOp) ==> Fits(Finish(r, other, otherOp, Test), id, pc)
    ensures Whole(Finish(Finish(r, other, otherOp, Test), id, op, pc)) <==> Safe(r, pc, otherOp)
  {
    hide Fits, Whole, Ending, Finish, Unused;
    FinishIsEnding(r, other, otherOp, Test);
    var t := Called(r, other, otherOp);
    FinishIsEnding(t, id, op, pc);
    if Safe(r, pc, otherOp) {
      if otherOp == Push { SafePush(r, id, pc, other); } else { SafePop(r, id, pc, other); }
      FitsEnds(t, id, op, pc);
    } else if pc.SlotStore? || pc.HeadLoad? || pc.HeadStore? {
      UnsafeClaim(r, id, pc, other);
    } else if pc.ItemLoad? || pc.TailLoad? || pc.TailStore? {
      UnsafeGive(r, id, pc, other);
    } else if pc.GrowStore? || pc.ShrinkStore? {
      UnsafeLen(r, id, pc, otherOp, other);
    } else {
      UnsafeRest(r, id, pc, otherOp, other);
    }
  }

  // ---------- Facts for the machine around it ----------

  lemma NeverTest(r: Fields, op: Op, pc: Pc)
    ensures After(r, op, pc) != Test
  {
  }

  lemma AtAfter(r: Fields, op: Op, pc: Pc)
    requires At(op, pc)
    ensures At(op, After(r, op, pc))
  {
  }

  lemma AtTest()
    ensures forall op :: At(op, Test)
  {
  }

  lemma FinishStep(r: Fields, id: int, op: Op, pc: Pc)
    requires pc != Done
    ensures Finish(r, id, op, pc) == Finish(Exec(r, id, pc), id, op, After(r, op, pc))
  {
  }

  lemma FinishDone(r: Fields, id: int, op: Op)
    ensures Finish(r, id, op, Done) == r
  {
  }

  /** A call puts no number but its own into the slots or among the accepted. */
  lemma ExecFrom(r: Fields, id: int, pc: Pc, x: int)
    requires x != id
    ensures var t := Exec(r, id, pc); (x in t.buf ==> x in r.buf) && (x in t.accepted ==> x in r.accepted)
  {
  }

  lemma TestKeeps(r: Fields, id: int)
    ensures Exec(r, id, Test) == r
  {
  }

  lemma TestFits(r: Fields, id: int)
    ensures Fits(r, id, Test) <==> Whole(r) && Unused(r, id)
  {
  }

  lemma LeftBounds(pc: Pc)
    ensures Left(pc) <= 7 && (Left(pc) == 0 <==> pc == Done)
  {
  }

  /** Only the last instruction of a call can panic. */
  lemma PanicsLast(r: Fields, id: int, op: Op, pc: Pc)
    ensures After(r, op, pc) != Done ==> Exec(r, id, pc).panicked == r.panicked
  {
  }

  /** A call's test and the instruction after it store nothing. */
  lemma EarlyLoads(r: Fields, id: int, op: Op)
    ensures Exec(r, id, Test) == r && Exec(r, id, After(r, op, Test)) == r
  {
  }

  // ---------- Three calls deep ----------

  /** The fields after `outer`, interrupted by `middle`, interrupted by a whole push of `inner`. */
  function Nested(r: Fields, outer: int, op: Op, pc: Pc, middle: int, inner: int): Fields {
    Ending(Ending(Called(r, inner, Push), middle, Push, SlotLoad), outer, op, pc)
  }

  /** Between three calls, interruptions that are safe for each pair can be too many
      together: a push that has claimed its slot, one that has passed its test, and a
      third, with two slots left, overflow the queue. */
  lemma PairsNotEnough(r: Fields, outer: int, middle: int, inner: int)
    requires Fits(r, outer, GrowLoad) && r.len == 62
    ensures Safe(r, GrowLoad, Push) && After(r, Push, Test) == SlotLoad && Safe(r, SlotLoad, Push)
    ensures Nested(r, outer, Push, GrowLoad, middle, inner).len == 65
    ensures !Whole(Nested(r, outer, Push, GrowLoad, middle, inner))
  {
    hide Next, Ring;
  }

  /** And interruptions unsafe for a pair can be right together: a pop that has read its
      event makes room for the two pushes that would have overflowed the queue. */
  lemma PairsTooMuch(r: Fields, outer: int, middle: int, inner: int)
    requires Fits(r, outer, TailLoad(r.buf[r.tail])) && r.len == 63
    requires Unused(r, middle) && Unused(r, inner) && middle != inner
    ensures Safe(r, TailLoad(r.buf[r.tail]), Push) && After(r, Push, Test) == SlotLoad && !Safe(r, SlotLoad, Push)
    ensures Whole(Nested(r, outer, Pop, TailLoad(r.buf[r.tail]), middle, inner))
  {
    hide Next;
    var item := r.buf[r.tail];
    var t := Nested(r, outer, Pop, TailLoad(item), middle, inner);
    assert r.head == Place(64, r.tail, 63) && Next(r.head) == r.tail;
    assert t.buf == r.buf[r.head := inner][r.tail := middle] && t.len == 64 && t.tail == Next(r.tail);
    assert |Due(r)| == 63 && r.accepted == r.popped + Due(r) && Due(r)[0] == item;
    assert t.accepted == r.accepted + [inner] + [middle] && t.popped == r.popped + [item];
    assert t.popped <= t.accepted && Due(t) == Due(r)[1..] + [inner, middle];
    forall k | 0 <= k < 64 ensures Ring(t.buf, t.tail, 64)[k] == Due(t)[k] {
      PlaceShift(64, r.tail, if k < 63 then k else 62);
      if k < 62 { assert Due(r)[k + 1] == Ring(r.buf, r.tail, 63)[k + 1] == r.buf[Place(64, r.tail, k + 1)]; }
    }
  }
}
