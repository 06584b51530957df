/** The input queue over runs of the mutex: when its accounts stay right, and that
    masking interrupts is what keeps them right. */
module QueueRuns {
  import opened IrqMutex
  import D = QueueDepth

  // ---------- Calls in flight ----------

  /** A queue call that has looked at the queue and is not done. */
  predicate InFlight(f: Frame) {
    f.With? && f.phase.Running? && f.phase.pc != Q.Test
  }

  /** The calls in flight, outermost first. */
  ghost function Flying(frames: seq<Frame>): (fl: seq<Frame>)
    ensures forall i :: 0 <= i < |fl| ==> InFlight(fl[i]) && fl[i] in frames
  {
    if frames == [] then []
    else
      var f := frames[|frames| - 1];
      Flying(frames[..|frames| - 1]) + if InFlight(f) then [f] else []
  }

  /** The fields once one call in flight has finished. */
  ghost function Landed(r: Q.Fields, f: Frame): Q.Fields
    requires InFlight(f)
  {
    if f.work.Queue? then Q.Finish(r, f.id, f.work.op, f.phase.pc) else r
  }

  /** The fields once all calls in flight have finished, innermost first. */
  ghost function Settled(r: Q.Fields, fl: seq<Frame>): Q.Fields
    requires forall i :: 0 <= i < |fl| ==> InFlight(fl[i])
    decreases |fl|
  {
    if fl == [] then r else Settled(Landed(r, fl[|fl| - 1]), fl[..|fl| - 1])
  }

  /** If the calls in flight finished now, the queue would hold exactly the events due,
      in order and within capacity, every refusal would be counted, and nothing would
      have panicked. With none in flight, all of this is so. */
  ghost predicate Right(s: State) {
    Q.Whole(Settled(s.fields, Flying(s.frames)))
  }

  /** What the outermost call in flight relies on holds once the others have finished. */
  ghost predicate Meets(r: Q.Fields, fl: seq<Frame>)
    requires forall i :: 0 <= i < |fl| ==> InFlight(fl[i])
  {
    if fl == [] then Q.Whole(r) else assert InFlight(fl[0]); Q.Fits(Settled(r, fl[1..]), fl[0].id, fl[0].phase.pc)
  }

  ghost predicate QueueInv(s: State) {
    |Flying(s.frames)| <= 2 && Meets(s.fields, Flying(s.frames))
  }

  /** A queue closure makes its first load. */
  predicate Begins(s: State, step: Step) {
    step.Exec? && InPhase(s, Running(Q.Test))
  }

  /** At most one call is in flight when another begins. */
  ghost predicate Shallow(s: State, step: Step) {
    Begins(s, step) ==> |Flying(s.frames)| <= 1
  }

  /** A call that begins is a safe interruption of the one in flight. */
  ghost predicate SafeStep(s: State, step: Step) {
    Begins(s, step) && Top(s).work.Queue? ==>
    forall i :: 0 <= i < |Flying(s.frames)| ==> Q.Safe(s.fields, Flying(s.frames)[i].phase.pc, Top(s).work.op)
  }

  lemma FlyingPush(frames: seq<Frame>, f: Frame)
    ensures Flying(frames + [f]) == Flying(frames) + if InFlight(f) then [f] else []
  {
    assert (frames + [f])[..|frames|] == frames;
  }

  lemma FlyingSplit(s: State)
    requires s.frames != []
    ensures Flying(s.frames) == Flying(Below(s)) + if InFlight(Top(s)) then [Top(s)] else []
  {
  }

  /** Steps other than a closure's own leave the calls in flight alone. */
  lemma FlyingKept(s: State, step: Step)
    requires Enabled(s, step) && !step.Exec?
    ensures Flying(Apply(s, step).frames) == Flying(s.frames)
  {
    hide Flying;
    var t := Apply(s, step);
    if s.frames != [] { FlyingSplit(s); }
    match step
    case Call(mutex, work) => FlyingPush(s.frames, With(mutex, s.interrupts, false, Entered, work, s.calls));
    case Irq => FlyingPush(s.frames, Handler(s.interrupts, true));
    case Trap => FlyingPush(s.frames, Handler(s.interrupts, false));
    case Restore =>
    case Iret =>
    case SetInterrupts(_) =>
    case Exec =>
    case Cli => FlyingPush(Below(s), t.frames[|s.frames| - 1]);
    case TryLock => FlyingPush(Below(s), t.frames[|s.frames| - 1]);
    case Finish => FlyingPush(Below(s), t.frames[|s.frames| - 1]);
    case Release => FlyingPush(Below(s), t.frames[|s.frames| - 1]);
  }

  /** A closure's own step, as seen by the calls in flight. */
  lemma FlyingExec(s: State)
    requires Enabled(s, Exec)
    ensures var pc := Q.After(s.fields, Top(s).work.op, Top(s).phase.pc);
      var f := Top(s).(phase := At(pc));
      Flying(Apply(s, Exec).frames) == Flying(Below(s)) + if pc == Q.Done then [] else [f]
  {
    hide Flying, Q.After, Q.Exec;
    var t := Apply(s, Exec);
    FlyingPush(Below(s), t.frames[|s.frames| - 1]);
    Q.NeverTest(s.fields, Top(s).work.op, Top(s).phase.pc);
  }

  lemma SettledLast(r: Q.Fields, fl: seq<Frame>, f: Frame)
    requires InFlight(f) && forall i :: 0 <= i < |fl| ==> InFlight(fl[i])
    ensures Settled(r, fl + [f]) == Settled(Landed(r, f), fl)
  {
    assert (fl + [f])[..|fl|] == fl;
  }

  lemma SettledOne(r: Q.Fields, f: Frame)
    requires InFlight(f)
    ensures Settled(r, [f]) == Landed(r, f)
  {
    assert [f][..0] == [];
  }

  lemma SettledTwo(r: Q.Fields, fl: seq<Frame>)
    requires |fl| == 2 && InFlight(fl[0]) && InFlight(fl[1])
    ensures fl[1..] == [fl[1]] && Settled(r, fl) == Landed(Landed(r, fl[1]), fl[0])
  {
    assert fl == [fl[0]] + [fl[1]];
    SettledLast(r, [fl[0]], fl[1]);
    SettledOne(Landed(r, fl[1]), fl[0]);
  }

  /** The own step of a call in flight changes nothing about how things will settle. */
  lemma SettlesSame(s: State)
    requires Enabled(s, Exec) && Top(s).phase.pc != Q.Done
    ensures var pc := Q.After(s.fields, Top(s).work.op, Top(s).phase.pc);
      Settled(Apply(s, Exec).fields, Flying(Apply(s, Exec).frames)) ==
      Settled(Q.Finish(s.fields, Top(s).id, Top(s).work.op, Top(s).phase.pc), Flying(Below(s)))
  {
    hide Flying, Q.After, Q.Exec, Settled;
    FlyingExec(s);
    var f, r := Top(s), Apply(s, Exec).fields;
    var pc := Q.After(s.fields, f.work.op, f.phase.pc);
    Q.FinishStep(s.fields, f.id, f.work.op, f.phase.pc);
    if pc != Q.Done {
      Q.NeverTest(s.fields, f.work.op, f.phase.pc);
      SettledLast(r, Flying(Below(s)), f.(phase := At(pc)));
    } else {
      assert Flying(Below(s)) + [] == Flying(Below(s));
    }
  }

  lemma FlyingProper(s: State)
    requires WorkInv(s)
    ensures forall i :: 0 <= i < |Flying(s.frames)| ==>
      var f := Flying(s.frames)[i]; f.work.Queue? && f.phase.pc != Q.Done && Q.At(f.work.op, f.phase.pc)
  {
    hide Flying, Q.At;
    var fl := Flying(s.frames);
    forall i | 0 <= i < |fl| ensures fl[i].work.Queue? && fl[i].phase.pc != Q.Done && Q.At(fl[i].work.op, fl[i].phase.pc) {
      var k :| 0 <= k < |s.frames| && s.frames[k] == fl[i];
    }
  }

  /** What is relied on will be met, so things will be right. */
  lemma MeetsRight(s: State)
    requires WorkInv(s) && QueueInv(s)
    ensures Right(s)
  {
    hide Q.Fits, Q.Whole, Q.Finish, Flying, WorkInv, Q.At;
    var fl := Flying(s.frames);
    FlyingProper(s);
    if |fl| == 1 {
      assert fl == [fl[0]] && fl[1..] == [];
      SettledOne(s.fields, fl[0]);
      Q.FitsEnds(s.fields, fl[0].id, fl[0].work.op, fl[0].phase.pc);
    } else if |fl| == 2 {
      SettledTwo(s.fields, fl);
      SettledOne(s.fields, fl[1]);
      Q.FitsEnds(Landed(s.fields, fl[1]), fl[0].id, fl[0].work.op, fl[0].phase.pc);
    }
  }

  /** The own step of a call in flight keeps what is relied on. */
  lemma OwnStepMeets(s: State)
    requires WorkInv(s) && QueueInv(s) && Enabled(s, Exec) && Top(s).phase.pc != Q.Test
    ensures QueueInv(Apply(s, Exec))
  {
    hide Flying, Settled, Q.Fits, Q.Whole, Q.Finish, Q.After, Q.Exec, Q.At, WorkInv;
    var t, f, fl := Apply(s, Exec), Top(s), Flying(Below(s));
    TopProper(s);
    FlyingSplit(s);
    FlyingExec(s);
    var pc := Q.After(s.fields, f.work.op, f.phase.pc);
    Q.FinishStep(s.fields, f.id, f.work.op, f.phase.pc);
    Q.NeverTest(s.fields, f.work.op, f.phase.pc);
    var g := f.(phase := At(pc));
    if fl == [] {
      assert Flying(s.frames) == fl + [f] == [f] && [f][1..] == [] && [g][1..] == [];
      assert fl + [g] == [g] && pc == Q.Done ==> Flying(t.frames) == [];
      SettledNone(s.fields);
      SettledNone(t.fields);
      Q.FitsStep(s.fields, f.id, f.work.op, f.phase.pc);
      Q.DoneFits(t.fields, f.id);
    } else {
      assert |fl| == 1 && Flying(s.frames) == fl + [f] && (fl + [f])[1..] == [f] && (fl + [g])[1..] == [g];
      assert pc == Q.Done ==> Flying(t.frames) == fl && fl[1..] == [];
      assert pc != Q.Done ==> Flying(t.frames) == fl + [g] && (fl + [g])[0] == fl[0] == (fl + [f])[0];
      SettledOne(s.fields, f);
      SettledNone(t.fields);
      Q.FinishDone(t.fields, f.id, f.work.op);
      if pc != Q.Done { SettledOne(t.fields, g); }
    }
  }

  lemma SettledNone(r: Q.Fields)
    ensures Settled(r, []) == r
  {
  }

  lemma TopProper(s: State)
    requires WorkInv(s) && Enabled(s, Exec)
    ensures Top(s).phase.pc != Q.Done && Q.At(Top(s).work.op, Top(s).phase.pc)
    ensures Top(s).phase.pc == Q.Test ==> Q.Unused(s.fields, Top(s).id)
    ensures forall f :: f in Below(s) && f.With? ==> f.id != Top(s).id
  {
    assert s.frames[|s.frames| - 1] == Top(s);
  }

  /** The first load of a call keeps what is relied on exactly when it is safe. */
  lemma BeginMeets(s: State)
    requires WorkInv(s) && QueueInv(s) && Begins(s, Exec) && Enabled(s, Exec) && Shallow(s, Exec)
    ensures SafeStep(s, Exec) ==> QueueInv(Apply(s, Exec))
    ensures !SafeStep(s, Exec) ==> !Right(Apply(s, Exec))
  {
    hide Flying, Settled, Q.Fits, Q.Whole, Q.Finish, Q.After, Q.Exec, Q.At, Q.Unused, Q.Safe, WorkInv;
    var t, f, fl := Apply(s, Exec), Top(s), Flying(Below(s));
    TopProper(s);
    FlyingSplit(s);
    FlyingProper(s);
    assert Flying(s.frames) == fl;
    FlyingExec(s);
    SettlesSame(s);
    Q.TestKeeps(s.fields, f.id);
    Q.FinishStep(s.fields, f.id, f.work.op, Q.Test);
    var pc := Q.After(s.fields, f.work.op, Q.Test);
    Q.NeverTest(s.fields, f.work.op, Q.Test);
    var g := f.(phase := At(pc));
    if fl == [] {
      Q.TestFits(s.fields, f.id);
      Q.FitsStep(s.fields, f.id, f.work.op, Q.Test);
      Q.DoneFits(t.fields, f.id);
      SettledNone(t.fields);
      assert Flying(t.frames) == if pc == Q.Done then [] else [g];
      assert [g][1..] == [] && [g][0] == g;
    } else {
      var o := fl[0];
      assert fl == [o] && (fl + [g])[1..] == [g] && fl[1..] == [] && fl + [] == fl;
      SettledNone(s.fields);
      SettledOne(Q.Finish(s.fields, f.id, f.work.op, Q.Test), o);
      Q.InterruptionExact(s.fields, o.id, o.work.op, o.phase.pc, f.id, f.work.op);
      if pc != Q.Done { SettledOne(t.fields, g); }
    }
  }

  /** Every step of a shallow run keeps what is relied on exactly when it is safe. */
  lemma QueueStep(s: State, step: Step)
    requires WorkInv(s) && QueueInv(s) && Enabled(s, step) && Shallow(s, step)
    ensures SafeStep(s, step) ==> QueueInv(Apply(s, step))
    ensures !SafeStep(s, step) ==> !Right(Apply(s, step))
  {
    hide Flying, WorkInv, Meets, Right;
    if !step.Exec? {
      FlyingKept(s, step);
      FieldsKept(s, step);
    } else if Begins(s, step) {
      BeginMeets(s);
    } else {
      OwnStepMeets(s);
    }
  }

  ghost predicate AlwaysRight(s: State, steps: seq<Step>)
    requires Possible(s, steps)
    decreases |steps|
  {
    Right(s) && (steps != [] ==> AlwaysRight(Apply(s, steps[0]), steps[1..]))
  }

  ghost predicate AlwaysSafe(s: State, steps: seq<Step>)
    requires Possible(s, steps)
    decreases |steps|
  {
    steps != [] ==> SafeStep(s, steps[0]) && AlwaysSafe(Apply(s, steps[0]), steps[1..])
  }

  ghost predicate AlwaysShallow(s: State, steps: seq<Step>)
    requires Possible(s, steps)
    decreases |steps|
  {
    steps != [] ==> Shallow(s, steps[0]) && AlwaysShallow(Apply(s, steps[0]), steps[1..])
  }

  /** No call begins while another is in flight. */
  ghost predicate Undisturbed(s: State, steps: seq<Step>)
    requires Possible(s, steps)
    decreases |steps|
  {
    steps != [] ==>
    (Begins(s, steps[0]) ==> Flying(s.frames) == []) && Undisturbed(Apply(s, steps[0]), steps[1..])
  }

  /** Over every run in which at most one call is in flight when another begins: the
      queue stays right throughout if and only if every call that begins is a safe
      interruption of the one in flight. */
  lemma {:induction false} AccountsExact(s: State, steps: seq<Step>)
    requires WorkInv(s) && QueueInv(s) && Possible(s, steps) && AlwaysShallow(s, steps)
    ensures AlwaysRight(s, steps) <==> AlwaysSafe(s, steps)
    decreases |steps|
  {
    hide WorkInv, QueueInv, Apply, Enabled, Right, SafeStep, Shallow;
    MeetsRight(s);
    if steps != [] {
      WorkStep(s, steps[0]);
      QueueStep(s, steps[0]);
      if SafeStep(s, steps[0]) { AccountsExact(Apply(s, steps[0]), steps[1..]); }
    }
  }

  lemma {:induction false} UndisturbedIsSafe(s: State, steps: seq<Step>)
    requires Possible(s, steps) && Undisturbed(s, steps)
    ensures AlwaysShallow(s, steps) && AlwaysSafe(s, steps)
    decreases |steps|
  {
    hide Flying, Apply, Enabled;
    if steps != [] { UndisturbedIsSafe(Apply(s, steps[0]), steps[1..]); }
  }

  /** From start-up, if no call begins while another is in flight: at every moment no
      event is lost, duplicated or reordered, and with no call in flight the queue holds
      exactly the events due, within its capacity, and every refusal is counted. */
  lemma UndisturbedRight(steps: seq<Step>)
    requires Possible(Start, steps) && Undisturbed(Start, steps)
    ensures AlwaysRight(Start, steps)
    ensures Flying(After(Start, steps).frames) == [] ==> Q.Whole(After(Start, steps).fields)
  {
    hide Right, Q.Whole;
    StartRight();
    UndisturbedIsSafe(Start, steps);
    AccountsExact(Start, steps);
    RightAtEnd(Start, steps);
  }

  lemma StartRight()
    ensures WorkInv(Start) && QueueInv(Start)
  {
  }

  lemma {:induction false} RightAtEnd(s: State, steps: seq<Step>)
    requires Possible(s, steps) && AlwaysRight(s, steps)
    ensures Right(After(s, steps))
    ensures Flying(After(s, steps).frames) == [] ==> Q.Whole(After(s, steps).fields)
    decreases |steps|
  {
    hide Flying, Apply, Enabled, Q.Whole;
    if steps != [] {
      RightAtEnd(Apply(s, steps[0]), steps[1..]);
    } else {
      SettledNone(s.fields);
    }
  }

  // ---------- Calls nested to any depth ----------

  function FlightOf(f: Frame): D.Flight
    requires InFlight(f) && f.work.Queue?
  {
    D.Flight(f.id, f.work.op, f.phase.pc)
  }

  ghost predicate AllQueue(fl: seq<Frame>) {
    forall i :: 0 <= i < |fl| ==> InFlight(fl[i]) && fl[i].work.Queue?
  }

  ghost function Flights(fl: seq<Frame>): (cs: seq<D.Flight>)
    requires AllQueue(fl)
    ensures |cs| == |fl| && forall i :: 0 <= i < |fl| ==> cs[i] == FlightOf(fl[i])
  {
    seq(|fl|, i requires 0 <= i < |fl| => FlightOf(fl[i]))
  }

  /** Everything the calls in flight rely on holds. */
  ghost predicate LevelInv(s: State) {
    AllQueue(Flying(s.frames)) && D.Level(s.fields, Flights(Flying(s.frames)))
  }

  /** A call that begins leaves the ones in flight what they need. */
  ghost predicate LevelStep(s: State, step: Step) {
    Begins(s, step) && Top(s).work.Queue? ==>
    AllQueue(Flying(s.frames)) && D.MayBegin(s.fields, Flights(Flying(s.frames)), Top(s).work.op)
  }

  lemma FlightsLast(fl: seq<Frame>, f: Frame)
    requires AllQueue(fl) && InFlight(f) && f.work.Queue?
    ensures AllQueue(fl + [f])
    ensures Flights(fl + [f]) == Flights(fl) + [FlightOf(f)]
  {
    var all := fl + [f];
    assert all[|fl|] == f && forall i :: 0 <= i < |fl| ==> all[i] == fl[i];
  }

  /** Level calls in flight will settle right. */
  lemma {:induction false} LevelSettles(r: Q.Fields, fl: seq<Frame>)
    requires AllQueue(fl) && D.Level(r, Flights(fl))
    ensures Q.Whole(Settled(r, fl))
    decreases |fl|
  {
    hide D.Level, Q.Whole, Q.Finish;
    if fl == [] {
      assert Flights(fl) == [];
      D.LevelNone(r);
    } else {
      var below, f := fl[..|fl| - 1], fl[|fl| - 1];
      assert fl == below + [f] && AllQueue(below);
      FlightsLast(below, f);
      D.FinishLevel(r, Flights(below), FlightOf(f));
      LevelSettles(Landed(r, f), below);
    }
  }

  lemma LevelExec(s: State)
    requires WorkInv(s) && LevelInv(s) && Enabled(s, Exec) && LevelStep(s, Exec)
    ensures LevelInv(Apply(s, Exec))
  {
    hide Flying, Q.After, Q.Exec, Q.At, Q.Unused, WorkInv, D.Level, D.MayBegin;
    var t, f, fl := Apply(s, Exec), Top(s), Flying(Below(s));
    TopProper(s);
    FlyingSplit(s);
    FlyingExec(s);
    FlyingBelow(s);
    var pc := Q.After(s.fields, f.work.op, f.phase.pc);
    Q.NeverTest(s.fields, f.work.op, f.phase.pc);
    var g := f.(phase := At(pc));
    assert fl + [] == fl;
    if f.phase.pc == Q.Test {
      Q.TestKeeps(s.fields, f.id);
      D.BeginLevel(s.fields, Flights(fl), f.id, f.work.op);
    } else {
      FlightsLast(fl, f);
      D.OwnLevel(s.fields, Flights(fl), FlightOf(f));
    }
    if pc != Q.Done { FlightsLast(fl, g); }
  }

  /** The calls in flight below the innermost activation have other numbers. */
  lemma FlyingBelow(s: State)
    requires WorkInv(s) && Enabled(s, Exec)
    ensures AllQueue(Flying(Below(s))) && forall i :: 0 <= i < |Flying(Below(s))| ==> Flying(Below(s))[i].id != Top(s).id
  {
    hide Flying, Q.At;
    TopProper(s);
    var fl := Flying(Below(s));
    forall i | 0 <= i < |fl| ensures fl[i].work.Queue? && fl[i].id != Top(s).id {
      var k :| 0 <= k < |Below(s)| && Below(s)[k] == fl[i];
      assert s.frames[k] == fl[i];
    }
  }

  ghost predicate AlwaysLevel(s: State, steps: seq<Step>)
    requires Possible(s, steps)
    decreases |steps|
  {
    steps != [] ==> LevelStep(s, steps[0]) && AlwaysLevel(Apply(s, steps[0]), steps[1..])
  }

  /** Over every run, at any depth of nesting: if each call that begins leaves room for the
      pushes in flight that have passed their test, an event for the pops that have, and
      alone what the others have loaded, then the queue stays right throughout. */
  lemma {:induction false} LevelRight(s: State, steps: seq<Step>)
    requires WorkInv(s) && LevelInv(s) && Possible(s, steps) && AlwaysLevel(s, steps)
    ensures AlwaysRight(s, steps)
    decreases |steps|
  {
    hide WorkInv, D.Level, Apply, Enabled, LevelStep, Flying, Q.Whole;
    LevelSettles(s.fields, Flying(s.frames));
    if steps != [] {
      WorkStep(s, steps[0]);
      if steps[0].Exec? {
        LevelExec(s);
      } else {
        FlyingKept(s, steps[0]);
        FieldsKept(s, steps[0]);
      }
      LevelRight(Apply(s, steps[0]), steps[1..]);
    }
  }

  /** The same from start-up. */
  lemma NoEventLostNested(steps: seq<Step>)
    requires Possible(Start, steps) && AlwaysLevel(Start, steps)
    ensures AlwaysRight(Start, steps)
    ensures Flying(After(Start, steps).frames) == [] ==> Q.Whole(After(Start, steps).fields)
  {
    hide D.Level, Q.Whole, AlwaysRight;
    StartRight();
    assert Flights(Flying(Start.frames)) == [];
    D.LevelNone(Start.fields);
    LevelRight(Start, steps);
    RightAtEnd(Start, steps);
  }

  // ---------- What masking gives ----------

  /** Position of a call in flight. */
  lemma {:induction false} FlyingAt(frames: seq<Frame>) returns (i: int)
    requires Flying(frames) != []
    ensures 0 <= i < |frames| && InFlight(frames[i])
  {
    var n := |frames| - 1;
    if InFlight(frames[n]) { i := n; } else { i := FlyingAt(frames[..n]); }
  }

  /** In every reachable state: a queue call that begins while another is in flight was
      made under a handler that ignores IF and stands above that other call. No maskable
      handler, and no code it calls, ever gets in between. */
  lemma DisturbedByTrap(s: State, step: Step)
    requires MaskingInv(s) && Nesting(s) && Begins(s, step) && Enabled(s, step) && Flying(s.frames) != []
    ensures exists i :: 0 <= i < |s.frames| - 2 && InFlight(s.frames[i]) && Trapped(s, i)
  {
    var i := FlyingAt(s.frames);
    assert s.frames[|s.frames| - 1] == Top(s) && i < |s.frames| - 1;
    OnlyTrapsInterrupt(s, i);
    assert Trapped(s, i);
  }

  /** The activation directly above position `i` is a handler that ignores IF. */
  predicate Trapped(s: State, i: int)
    requires 0 <= i < |s.frames| - 1
  {
    s.frames[i + 1].Handler? && !s.frames[i + 1].maskable
  }

  ghost predicate NoTraps(frames: seq<Frame>) {
    forall i :: 0 <= i < |frames| && frames[i].Handler? ==> frames[i].maskable
  }

  /** No queue call of the run is made under a handler that ignores IF. */
  ghost predicate NoTrapCalls(s: State, steps: seq<Step>)
    requires Possible(s, steps)
    decreases |steps|
  {
    steps != [] ==>
    && (steps[0].Call? && steps[0].mutex == QUEUE ==> NoTraps(s.frames))
    && NoTrapCalls(Apply(s, steps[0]), steps[1..])
  }

  /** No queue call stands above a handler that ignores IF. */
  ghost predicate Quiet(s: State) {
    forall i, j :: 0 <= i < j < |s.frames| && s.frames[i].Handler? && s.frames[j].With? && s.frames[j].mutex == QUEUE ==>
      s.frames[i].maskable
  }

  lemma QuietStep(s: State, step: Step)
    requires Quiet(s) && Enabled(s, step) && (step.Call? && step.mutex == QUEUE ==> NoTraps(s.frames))
    ensures Quiet(Apply(s, step))
  {
    hide Q.After, Q.Exec;
    if Inner(step) {
      InnerFrames(s, step);
      var t := Apply(s, step);
      assert t.frames[|s.frames| - 1] == Top(t) && s.frames[|s.frames| - 1] == Top(s);
      assert forall i :: 0 <= i < |s.frames| - 1 ==> t.frames[i] == Below(t)[i] == s.frames[i];
    }
  }

  /** A queue call that begins finds no other in flight. */
  lemma BeginsAlone(s: State, step: Step)
    requires MaskingInv(s) && Nesting(s) && WorkInv(s) && Quiet(s) && Begins(s, step) && Enabled(s, step)
    ensures Flying(s.frames) == []
  {
    assert s.frames[|s.frames| - 1] == Top(s);
    if Flying(s.frames) != [] {
      DisturbedByTrap(s, step);
      assert false;
    }
  }

  lemma {:induction false} MaskingProtects(s: State, steps: seq<Step>)
    requires MaskingInv(s) && Nesting(s) && WorkInv(s) && Quiet(s) && Possible(s, steps) && NoTrapCalls(s, steps)
    ensures Undisturbed(s, steps)
    decreases |steps|
  {
    hide MaskingInv, Nesting, WorkInv, Quiet, Apply, Enabled, Begins, Flying;
    if steps != [] {
      if Begins(s, steps[0]) { BeginsAlone(s, steps[0]); }
      MaskingStep(s, steps[0]);
      NestingStep(s, steps[0]);
      WorkStep(s, steps[0]);
      QuietStep(s, steps[0]);
      MaskingProtects(Apply(s, steps[0]), steps[1..]);
    }
  }

  /** From start-up, on every run in which handlers that ignore IF leave the queue alone,
      as in the kernel, where the keyboard interrupt pushes and the shell pops: at every
      moment no event is lost, duplicated or reordered, and with no call in flight the
      queue holds exactly the events due, within its capacity, and every refusal is
      counted. Maskable interrupts may arrive anywhere and use the queue. */
  lemma NoEventLost(steps: seq<Step>)
    requires Possible(Start, steps) && NoTrapCalls(Start, steps)
    ensures AlwaysRight(Start, steps)
    ensures Flying(After(Start, steps).frames) == [] ==> Q.Whole(After(Start, steps).fields)
  {
    hide AlwaysRight, Q.Whole, Flying;
    StartInv();
    StartQuiet();
    MaskingProtects(Start, steps);
    UndisturbedRight(steps);
  }

  lemma StartQuiet()
    ensures Quiet(Start)
  {
  }
}
