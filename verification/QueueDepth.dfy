/** Queue calls nested to any depth: a condition, checked when a call begins, under which
    the queue stays right. It counts what the calls in flight still have to do. */
module QueueDepth {
  import opened Sequences
  import opened InputQueue
  import opened QueueSteps

  /** A call in flight. */
  datatype Flight = Flight(id: int, op: Op, pc: Pc)

  /** How many calls in flight have passed their test and not claimed a slot, have claimed
      one and not counted it, have found an event and not given up its slot, and have given
      it up and not counted that. */
  datatype Tally = Tally(tested: nat, claimed: nat, wanting: nat, gone: nat)

  function One(pc: Pc): Tally {
    match pc
    case SlotLoad => Tally(1, 0, 0, 0)
    case SlotStore(_) => Tally(1, 0, 0, 0)
    case HeadLoad => Tally(1, 0, 0, 0)
    case HeadStore(_) => Tally(1, 0, 0, 0)
    case GrowLoad => Tally(0, 1, 0, 0)
    case GrowStore(_) => Tally(0, 1, 0, 0)
    case ItemSlotLoad => Tally(0, 0, 1, 0)
    case ItemLoad(_) => Tally(0, 0, 1, 0)
    case TailLoad(_) => Tally(0, 0, 1, 0)
    case TailStore(_, _) => Tally(0, 0, 1, 0)
    case ShrinkLoad => Tally(0, 0, 0, 1)
    case ShrinkStore(_) => Tally(0, 0, 0, 1)
    case _ => Tally(0, 0, 0, 0)
  }

  function Plus(a: Tally, b: Tally): Tally {
    Tally(a.tested + b.tested, a.claimed + b.claimed, a.wanting + b.wanting, a.gone + b.gone)
  }

  function Sum(fl: seq<Flight>): Tally {
    if fl == [] then Tally(0, 0, 0, 0) else Plus(Sum(fl[..|fl| - 1]), One(fl[|fl| - 1].pc))
  }

  /** Events in the ring, whatever the length field says. */
  function Present(r: Fields, w: Tally): int { r.len + w.claimed - w.gone }

  /** There is room for every push that passed its test and an event for every pop. */
  ghost predicate Room(r: Fields, w: Tally) {
    && Sound(r) && Counted(r) && Holds(r, Present(r, w))
    && Present(r, w) + w.tested <= 64 && r.len >= w.gone + w.wanting
  }

  /** What a call has loaded is still so. */
  ghost predicate Pinned(r: Fields, f: Flight) {
    match f.pc
    case DropStore(dropped) => SaturatingIncrement(dropped) == SaturatingIncrement(r.dropped)
    case SlotLoad => Unused(r, f.id)
    case SlotStore(slot) => Unused(r, f.id) && slot == r.head
    case HeadLoad => Written(r, f.id)
    case HeadStore(head) => Written(r, f.id) && head == r.head
    case GrowStore(len) => len == r.len
    case ItemLoad(slot) => slot == r.tail
    case TailLoad(item) => item == r.buf[r.tail]
    case TailStore(item, tail) => item == r.buf[r.tail] && tail == r.tail
    case ShrinkStore(len) => len == r.len
    case _ => true
  }

  /** The kinds of call that may come above one at `pc`. */
  predicate Admits(pc: Pc, op: Op) {
    match pc
    case DropStore(_) => op == Pop
    case SlotStore(_) => op == Pop
    case HeadLoad => op == Pop
    case HeadStore(_) => op == Pop
    case ItemLoad(_) => op == Push
    case TailLoad(_) => op == Push
    case TailStore(_, _) => op == Push
    case GrowStore(_) => false
    case ShrinkStore(_) => false
    case _ => true
  }

  ghost predicate Ordered(fl: seq<Flight>) {
    && (forall i :: 0 <= i < |fl| ==> At(fl[i].op, fl[i].pc) && fl[i].pc != Test && fl[i].pc != Done)
    && (forall i, j :: 0 <= i < j < |fl| ==> Admits(fl[i].pc, fl[j].op) && fl[i].id != fl[j].id)
  }

  /** Everything the calls in flight, outermost first, rely on. */
  ghost predicate Level(r: Fields, fl: seq<Flight>) {
    Room(r, Sum(fl)) && Ordered(fl) && forall i :: 0 <= i < |fl| ==> Pinned(r, fl[i])
  }

  /** The condition under which a call of kind `op` may begin. A pop of an empty queue and
      a push onto a full one take no slot; any other push must leave room for the pushes
      that have passed their test, any other pop an event for the pops that have. */
  ghost predicate MayBegin(r: Fields, fl: seq<Flight>, op: Op) {
    || (op == Pop && r.len == 0)
    || (&& (forall i :: 0 <= i < |fl| ==> Admits(fl[i].pc, op))
        && if op == Push then r.len == CAPACITY || Present(r, Sum(fl)) + Sum(fl).tested < 64
           else r.len > Sum(fl).gone + Sum(fl).wanting)
  }

  lemma SumLast(fl: seq<Flight>, f: Flight)
    ensures Sum(fl + [f]) == Plus(Sum(fl), One(f.pc))
  {
    assert (fl + [f])[..|fl|] == fl;
  }

  /** With nothing in flight, level means right. */
  lemma LevelNone(r: Fields)
    ensures Level(r, []) <==> Whole(r)
  {
  }

  /** A call that may begin keeps everything level. */
  lemma BeginLevel(r: Fields, fl: seq<Flight>, id: int, op: Op)
    requires Level(r, fl) && MayBegin(r, fl, op) && Unused(r, id) && forall i :: 0 <= i < |fl| ==> fl[i].id != id
    ensures var pc := After(r, op, Test); pc != Done ==> Level(r, fl + [Flight(id, op, pc)])
  {
    hide Room, Pinned, Sum, Ordered, After, MayBegin, One, Plus, Unused;
    var f := Flight(id, op, After(r, op, Test));
    if f.pc != Done {
      SumLast(fl, f);
      BeginRoom(r, fl, op);
      BeginOrdered(r, fl, id, op);
      BeginPinned(r, id, op);
      assert (fl + [f])[|fl|] == f && forall i :: 0 <= i < |fl| ==> (fl + [f])[i] == fl[i];
    }
  }

  lemma BeginRoom(r: Fields, fl: seq<Flight>, op: Op)
    requires Room(r, Sum(fl)) && MayBegin(r, fl, op) && After(r, op, Test) != Done
    ensures Room(r, Plus(Sum(fl), One(After(r, op, Test))))
  {
    hide Sound, Holds, Counted, Sum, Admits;
  }

  lemma BeginOrdered(r: Fields, fl: seq<Flight>, id: int, op: Op)
    requires Ordered(fl) && MayBegin(r, fl, op) && After(r, op, Test) != Done
    requires forall i :: 0 <= i < |fl| ==> fl[i].id != id
    ensures Ordered(fl + [Flight(id, op, After(r, op, Test))])
  {
    hide Sum, Admits, At, Present;
    var f := Flight(id, op, After(r, op, Test));
    AtTest();
    AtAfter(r, op, Test);
    NeverTest(r, op, Test);
    assert (fl + [f])[|fl|] == f && forall i :: 0 <= i < |fl| ==> (fl + [f])[i] == fl[i];
  }

  lemma BeginPinned(r: Fields, id: int, op: Op)
    requires Unused(r, id)
    ensures Pinned(r, Flight(id, op, After(r, op, Test)))
  {
    hide Unused;
  }

  // ---------- One instruction of the innermost call ----------

  /** An event present and a slot free: head and tail differ. */
  lemma Apart(r: Fields, n: int)
    requires r.popped <= r.accepted && Holds(r, n) && 0 < n < 64
    ensures r.head != r.tail
  {
  }

  lemma RoomLoad(r: Fields, w: Tally, f: Flight)
    requires Room(r, Plus(w, One(f.pc))) && !Stores(f.pc) && At(f.op, f.pc) && f.pc != Test && f.pc != Done
    ensures Exec(r, f.id, f.pc) == r && Room(r, Plus(w, One(After(r, f.op, f.pc))))
  {
    hide Room;
    assert One(After(r, f.op, f.pc)) == One(f.pc);
  }

  lemma RoomSlot(r: Fields, w: Tally, f: Flight)
    requires Room(r, Plus(w, One(f.pc))) && Pinned(r, f) && (f.pc.DropStore? || f.pc.SlotStore? || f.pc.HeadStore?)
    ensures Room(Exec(r, f.id, f.pc), Plus(w, One(After(r, f.op, f.pc))))
  {
    hide Ring, Next, NoDuplicates, SaturatingIncrement;
    var n := Present(r, Plus(w, One(f.pc)));
    if f.pc.DropStore? {
      RefusalCounted(r, f.pc.dropped);
    } else if f.pc.SlotStore? {
      FillHolds(r, n, f.id);
    } else {
      ClaimHolds(r, n, f.id);
    }
  }

  lemma RoomLength(r: Fields, w: Tally, f: Flight)
    requires Room(r, Plus(w, One(f.pc))) && Pinned(r, f) && (f.pc.GrowStore? || f.pc.TailStore? || f.pc.ShrinkStore?)
    ensures Room(Exec(r, f.id, f.pc), Plus(w, One(After(r, f.op, f.pc))))
  {
    hide Ring, Next, NoDuplicates;
    if f.pc.TailStore? { GiveHolds(r, Present(r, Plus(w, One(f.pc)))); }
  }

  lemma RoomAfter(r: Fields, w: Tally, f: Flight)
    requires Room(r, Plus(w, One(f.pc))) && Pinned(r, f) && At(f.op, f.pc) && f.pc != Test && f.pc != Done
    ensures Room(Exec(r, f.id, f.pc), Plus(w, One(After(r, f.op, f.pc))))
  {
    hide Room, Pinned, Exec, After, One, Plus;
    if !Stores(f.pc) {
      RoomLoad(r, w, f);
    } else if f.pc.DropStore? || f.pc.SlotStore? || f.pc.HeadStore? {
      RoomSlot(r, w, f);
    } else {
      RoomLength(r, w, f);
    }
  }

  /** The innermost call's own pin moves along. */
  lemma PinnedAfter(r: Fields, w: Tally, f: Flight)
    requires Room(r, Plus(w, One(f.pc))) && Pinned(r, f) && f.pc != Test && f.pc != Done
    ensures Pinned(Exec(r, f.id, f.pc), f.(pc := After(r, f.op, f.pc)))
  {
    hide Ring, Next, SaturatingIncrement;
    if f.pc.SlotStore? { FillHolds(r, Present(r, Plus(w, One(f.pc))), f.id); }
  }

  /** The pin of a call further out stays: what may come above it does not move it. */
  lemma PinnedBelow(r: Fields, w: Tally, g: Flight, f: Flight)
    requires Room(r, w) && w.wanting >= One(g.pc).wanting && w.tested >= One(f.pc).tested
    requires Pinned(r, g) && Pinned(r, f) && Admits(g.pc, f.op) && At(f.op, f.pc) && g.id != f.id
    ensures Pinned(Exec(r, f.id, f.pc), g)
  {
    hide Ring, Next, SaturatingIncrement, Sound, Counted;
    if f.pc.SlotStore? && One(g.pc).wanting == 1 { ApartIn(r, w); }
  }

  lemma ApartIn(r: Fields, w: Tally)
    requires Room(r, w) && w.wanting >= 1 && w.tested >= 1
    ensures r.head != r.tail
  {
    Apart(r, Present(r, w));
  }

  lemma {:induction false} SumAtLeast(fl: seq<Flight>, i: int)
    requires 0 <= i < |fl|
    ensures Sum(fl).wanting >= One(fl[i].pc).wanting && Sum(fl).tested >= One(fl[i].pc).tested
  {
    if i < |fl| - 1 { SumAtLeast(fl[..|fl| - 1], i); }
  }

  lemma OrderedAfter(r: Fields, fl: seq<Flight>, f: Flight)
    requires Ordered(fl + [f])
    ensures Ordered(fl) && (After(r, f.op, f.pc) != Done ==> Ordered(fl + [f.(pc := After(r, f.op, f.pc))]))
  {
    hide After, At, Admits;
    var all, g := fl + [f], f.(pc := After(r, f.op, f.pc));
    OrderedAt(fl, f);
    AtAfter(r, f.op, f.pc);
    NeverTest(r, f.op, f.pc);
    assert all[|fl|] == f && forall i :: 0 <= i < |fl| ==> all[i] == fl[i] == (fl + [g])[i];
  }

  /** One instruction of the innermost call keeps everything level. */
  lemma OwnLevel(r: Fields, fl: seq<Flight>, f: Flight)
    requires Level(r, fl + [f])
    ensures var t, pc := Exec(r, f.id, f.pc), After(r, f.op, f.pc);
      if pc == Done then Level(t, fl) else Level(t, fl + [f.(pc := pc)])
  {
    hide Room, Ordered, Pinned, Exec, After, Sum;
    var t, pc, all := Exec(r, f.id, f.pc), After(r, f.op, f.pc), fl + [f];
    var g := f.(pc := pc);
    assert all[|fl|] == f && forall i :: 0 <= i < |fl| ==> all[i] == fl[i] == (fl + [g])[i];
    SumLast(fl, f);
    SumLast(fl, g);
    PlusNone(Sum(fl));
    OrderedAt(fl, f);
    RoomAfter(r, Sum(fl), f);
    PinnedAfter(r, Sum(fl), f);
    OrderedAfter(r, fl, f);
    forall i | 0 <= i < |fl| ensures Pinned(t, fl[i]) {
      SumAtLeast(all, i);
      SumAtLeast(all, |fl|);
      OrderedPair(all, i, |fl|);
      PinnedBelow(r, Sum(all), fl[i], f);
    }
  }

  lemma PlusNone(w: Tally)
    ensures Plus(w, One(Done)) == w
  {
  }

  lemma OrderedAt(fl: seq<Flight>, f: Flight)
    requires Ordered(fl + [f])
    ensures At(f.op, f.pc) && f.pc != Test && f.pc != Done
  {
    assert (fl + [f])[|fl|] == f;
  }

  lemma OrderedPair(fl: seq<Flight>, i: int, j: int)
    requires Ordered(fl) && 0 <= i < j < |fl|
    ensures Admits(fl[i].pc, fl[j].op) && fl[i].id != fl[j].id
  {
  }

  /** The innermost call run to its end leaves the others level. */
  lemma {:induction false} FinishLevel(r: Fields, fl: seq<Flight>, f: Flight)
    requires Level(r, fl + [f])
    ensures Level(Finish(r, f.id, f.op, f.pc), fl)
    decreases Left(f.pc)
  {
    hide Level, Exec, After, Finish, Left;
    LevelAt(r, fl, f);
    LeftDecreases(r, f.op, f.pc);
    FinishStep(r, f.id, f.op, f.pc);
    OwnLevel(r, fl, f);
    var t, pc := Exec(r, f.id, f.pc), After(r, f.op, f.pc);
    if pc == Done {
      FinishDone(t, f.id, f.op);
    } else {
      FinishLevel(t, fl, f.(pc := pc));
    }
  }

  lemma LevelAt(r: Fields, fl: seq<Flight>, f: Flight)
    requires Level(r, fl + [f])
    ensures f.pc != Done
  {
    OrderedAt(fl, f);
  }
}
