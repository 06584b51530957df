/** `IrqMutex::with` on one CPU, instruction group by instruction group, under
    maskable interrupts, interrupts that ignore IF, and nesting, with the input
    queue as the data one of the mutexes protects: its closures run load by load and
    store by store. */
module IrqMutex {
  import Q = QueueSteps

  /** The mutex around the input queue; every other number is some other mutex. */
  const QUEUE: int := 0

  /** What the closure passed to `with` does. */
  datatype Work = Other | Queue(op: Q.Op)

  /** How far one `with` call has got. */
  datatype Phase =
    | Entered            // flags read, `cli` still to come
    | Masked             // interrupts masked, lock not yet tried
    | Body               // lock tried, a closure of some other mutex running
    | Running(pc: Q.Pc)  // lock tried, a queue closure at its next load or store
    | Stored             // closure done
    | Released           // lock given back, IF not yet restored

  /** One activation: a `with` call, with its number, or an interrupt handler. */
  datatype Frame =
    | With(mutex: int, saved: bool, acquired: bool, phase: Phase, work: Work, id: int)
    | Handler(saved: bool, maskable: bool)

  /** `frames` is the call stack, innermost last; empty means ordinary kernel code. */
  datatype State = State(interrupts: bool, locked: set<int>, frames: seq<Frame>, fields: Q.Fields, calls: nat)

  const Start: State :=
    State(false, {}, [], Q.Fields(seq(64, _ => -1), 0, 0, 0, 0, [], [], 0, false), 0)

  datatype Step =
    | Call(mutex: int, work: Work)
    | Cli
    | TryLock
    | Exec
    | Finish
    | Release
    | Restore
    | Irq
    | Trap
    | Iret
    | SetInterrupts(on: bool)

  // ---------- Steps ----------

  function Top(s: State): Frame
    requires s.frames != []
  {
    s.frames[|s.frames| - 1]
  }

  function Below(s: State): seq<Frame>
    requires s.frames != []
  {
    s.frames[..|s.frames| - 1]
  }

  function SetTop(s: State, f: Frame): State
    requires s.frames != []
  {
    s.(frames := Below(s) + [f])
  }

  predicate InPhase(s: State, p: Phase) {
    s.frames != [] && Top(s).With? && Top(s).phase == p
  }

  /** A closure makes calls only while it runs, and the queue's own closures make none. */
  predicate MayCall(s: State, mutex: int, work: Work) {
    && (mutex == QUEUE <==> work.Queue?)
    && (s.frames != [] && Top(s).With? ==> Top(s).phase == Body)
  }

  /** After a panic nothing runs. */
  predicate Enabled(s: State, step: Step) {
    && !s.fields.panicked
    && match step
       case Call(mutex, work) => MayCall(s, mutex, work)
       case Cli => InPhase(s, Entered)
       case TryLock => InPhase(s, Masked)
       case Exec => s.frames != [] && Top(s).With? && Top(s).phase.Running? && Top(s).work.Queue?
       case Finish => InPhase(s, Body)
       case Release => InPhase(s, Stored)
       case Restore => InPhase(s, Released)
       case Irq => s.interrupts
       case Trap => true
       case Iret => s.frames != [] && Top(s).Handler?
       case SetInterrupts(_) => s.frames == []
  }

  /** The phase of a queue closure whose next instruction is at `pc`. */
  function At(pc: Q.Pc): Phase {
    if pc == Q.Done then Stored else Running(pc)
  }

  function Apply(s: State, step: Step): State
    requires Enabled(s, step)
  {
    match step
    case Call(mutex, work) =>
      s.(frames := s.frames + [With(mutex, s.interrupts, false, Entered, work, s.calls)], calls := s.calls + 1)
    case Cli => SetTop(s, Top(s).(phase := Masked)).(interrupts := false)
    case TryLock =>
      var phase := if Top(s).work == Other then Body else Running(Q.Test);
      SetTop(s, Top(s).(phase := phase, acquired := Top(s).mutex !in s.locked)).(locked := s.locked + {Top(s).mutex})
    case Exec =>
      var f := Top(s);
      SetTop(s, f.(phase := At(Q.After(s.fields, f.work.op, f.phase.pc)))).
      (fields := Q.Exec(s.fields, f.id, f.phase.pc))
    case Finish => SetTop(s, Top(s).(phase := Stored))
    case Release =>
      SetTop(s, Top(s).(phase := Released)).(locked := if Top(s).acquired then s.locked - {Top(s).mutex} else s.locked)
    case Restore => s.(frames := Below(s), interrupts := if Top(s).saved then true else s.interrupts)
    case Irq => s.(frames := s.frames + [Handler(s.interrupts, true)], interrupts := false)
    case Trap => s.(frames := s.frames + [Handler(s.interrupts, false)], interrupts := false)
    case Iret => s.(frames := Below(s), interrupts := Top(s).saved)
    case SetInterrupts(on) => s.(interrupts := on)
  }

  // ---------- What every step keeps ----------

  /** This activation runs with interrupts masked. */
  predicate Masks(f: Frame) {
    f.Handler? || f.phase != Entered
  }

  /** This activation has tried its mutex and not yet come to giving it back. */
  predicate Critical(f: Frame) {
    f.With? && (f.phase == Body || f.phase.Running? || f.phase == Stored)
  }

  /** This activation is between taking and giving back its mutex. */
  predicate Holds(f: Frame) {
    Critical(f) && f.acquired
  }

  ghost predicate MaskingInv(s: State) {
    && (forall i :: 0 <= i < |s.frames| && Masks(s.frames[i]) ==> !s.interrupts)
    && (forall i, j :: 0 <= i < j < |s.frames| && Masks(s.frames[i]) ==> !s.frames[j].saved)
    && (forall i, j :: 0 <= i < j < |s.frames| && s.frames[j].Handler? && s.frames[j].maskable ==> !Masks(s.frames[i]))
  }

  /** The mutexes held by some activation. */
  ghost function Held(frames: seq<Frame>): set<int> {
    if frames == [] then {}
    else
      var f := frames[|frames| - 1];
      Held(frames[..|frames| - 1]) + if Holds(f) then {f.mutex} else {}
  }

  /** No mutex is held by two activations. */
  ghost predicate HeldOnce(frames: seq<Frame>) {
    frames == [] ||
    var below, f := frames[..|frames| - 1], frames[|frames| - 1];
    HeldOnce(below) && (Holds(f) ==> f.mutex !in Held(below))
  }

  ghost predicate LockInv(s: State) {
    s.locked == Held(s.frames) && HeldOnce(s.frames)
  }

  /** A queue call that has not yet looked at the queue. */
  predicate Waiting(f: Frame) {
    f.With? && f.work.Queue? && (f.phase == Entered || f.phase == Masked || f.phase == Running(Q.Test))
  }

  /** Only queue calls run queue closures; calls have numbers of their own; and a call
      that has not looked at the queue has left nothing in it. */
  ghost predicate WorkInv(s: State) {
    && (forall i :: 0 <= i < |s.frames| && s.frames[i].With? ==> Proper(s.frames[i], s.calls))
    && (forall i, j :: 0 <= i < j < |s.frames| && s.frames[i].With? && s.frames[j].With? ==>
          s.frames[i].id != s.frames[j].id)
    && (forall i :: 0 <= i < |s.frames| && Waiting(s.frames[i]) ==> Q.Unused(s.fields, s.frames[i].id))
    && (forall x :: x in s.fields.buf ==> x < s.calls) && (forall x :: x in s.fields.accepted ==> x < s.calls)
  }

  predicate Proper(f: Frame, calls: nat)
    requires f.With?
  {
    && (f.mutex == QUEUE <==> f.work.Queue?) && 0 <= f.id < calls
    && (f.phase.Running? ==> f.work.Queue? && f.phase.pc != Q.Done && Q.At(f.work.op, f.phase.pc))
  }

  ghost predicate Inv(s: State) {
    MaskingInv(s) && LockInv(s) && WorkInv(s)
  }

  lemma MaskingPush(s: State, step: Step)
    requires MaskingInv(s) && Enabled(s, step) && (step.Call? || step.Irq? || step.Trap?)
    ensures MaskingInv(Apply(s, step))
  {
  }

  lemma MaskingOther(s: State, step: Step)
    requires MaskingInv(s) && Enabled(s, step) && !(step.Call? || step.Irq? || step.Trap?)
    ensures MaskingInv(Apply(s, step))
  {
  }

  lemma MaskingStep(s: State, step: Step)
    requires MaskingInv(s) && Enabled(s, step)
    ensures MaskingInv(Apply(s, step))
  {
    hide *;
    if step.Call? || step.Irq? || step.Trap? {
      MaskingPush(s, step);
    } else {
      MaskingOther(s, step);
    }
  }

  /** The steps that only move the innermost activation along. */
  predicate Inner(step: Step) {
    step.Cli? || step.TryLock? || step.Exec? || step.Finish? || step.Release?
  }

  /** What an inner step makes of the frames and of the innermost one. */
  lemma InnerFrames(s: State, step: Step)
    requires Enabled(s, step) && Inner(step)
    ensures s.frames != [] && Top(s).With?
    ensures var t := Apply(s, step);
      |t.frames| == |s.frames| && Below(t) == Below(s) && Top(t).With? && t.calls == s.calls
    ensures var f, g := Top(s), Top(Apply(s, step));
      && g.mutex == f.mutex && g.work == f.work && g.id == f.id
      && (g.phase.Running? ==>
          || (step.TryLock? && g.phase.pc == Q.Test && f.work != Other)
          || (step.Exec? && g.phase.pc == Q.After(s.fields, f.work.op, f.phase.pc)))
      && (Waiting(g) ==> Waiting(f) && !step.Exec?)
  {
    if step.Exec? { Q.NeverTest(s.fields, Top(s).work.op, Top(s).phase.pc); }
  }

  lemma FieldsKept(s: State, step: Step)
    requires Enabled(s, step) && !step.Exec?
    ensures Apply(s, step).fields == s.fields
  {
  }

  /** The innermost closure puts no other call's number into the queue. */
  lemma FieldsFrom(s: State, x: int)
    requires Enabled(s, Exec) && x != Top(s).id
    ensures var t := Apply(s, Exec);
      (x in t.fields.buf ==> x in s.fields.buf) && (x in t.fields.accepted ==> x in s.fields.accepted)
  {
    Q.ExecFrom(s.fields, Top(s).id, Top(s).phase.pc, x);
  }

  lemma WorkInner(s: State, step: Step)
    requires WorkInv(s) && Enabled(s, step) && Inner(step)
    ensures WorkInv(Apply(s, step))
  {
    hide Apply, Enabled, Q.At, Q.After, Q.Unused, Proper;
    InnerFrames(s, step);
    var t, n := Apply(s, step), |s.frames| - 1;
    assert s.frames[n] == Top(s) && t.frames[n] == Top(t);
    assert forall i :: 0 <= i < n ==> t.frames[i] == Below(t)[i] == s.frames[i];
    ProperInner(s, step);
    if step.Exec? {
      forall i | 0 <= i < n && Waiting(s.frames[i]) ensures Q.Unused(t.fields, s.frames[i].id) {
        UnusedKept(s, i);
      }
      IdsBounded(s);
    } else {
      FieldsKept(s, step);
    }
  }

  lemma ProperInner(s: State, step: Step)
    requires WorkInv(s) && Enabled(s, step) && Inner(step)
    ensures Proper(Top(Apply(s, step)), s.calls)
  {
    hide Q.At, Q.After, Q.Exec, Q.Unused;
    assert s.frames[|s.frames| - 1] == Top(s);
    if step.Exec? {
      Q.AtAfter(s.fields, Top(s).work.op, Top(s).phase.pc);
    } else {
      Q.AtTest();
    }
  }

  lemma UnusedKept(s: State, i: int)
    requires WorkInv(s) && Enabled(s, Exec) && 0 <= i < |s.frames| - 1 && Waiting(s.frames[i])
    ensures Q.Unused(Apply(s, Exec).fields, s.frames[i].id)
  {
    hide Apply, Q.At, Q.After, Q.Exec;
    assert s.frames[|s.frames| - 1] == Top(s);
    FieldsFrom(s, s.frames[i].id);
  }

  lemma IdsBounded(s: State)
    requires WorkInv(s) && Enabled(s, Exec)
    ensures forall x :: x in Apply(s, Exec).fields.buf ==> x < s.calls
    ensures forall x :: x in Apply(s, Exec).fields.accepted ==> x < s.calls
  {
    hide Apply, Q.At, Q.After, Q.Exec, Waiting, Q.Unused;
    assert s.frames[|s.frames| - 1] == Top(s);
    var t := Apply(s, Exec);
    forall x | x in t.fields.buf || x in t.fields.accepted ensures x < s.calls {
      if x != Top(s).id { FieldsFrom(s, x); }
    }
  }

  lemma WorkOuter(s: State, step: Step)
    requires WorkInv(s) && Enabled(s, step) && !Inner(step)
    ensures WorkInv(Apply(s, step))
  {
    hide Q.At, Q.After, Q.Exec;
  }

  /** Every step keeps calls apart and the numbers in the queue accounted for. */
  lemma WorkStep(s: State, step: Step)
    requires WorkInv(s) && Enabled(s, step)
    ensures WorkInv(Apply(s, step))
  {
    hide WorkInv, Apply, Enabled;
    if Inner(step) { WorkInner(s, step); } else { WorkOuter(s, step); }
  }

  lemma HeldPush(frames: seq<Frame>, f: Frame)
    ensures Held(frames + [f]) == Held(frames) + if Holds(f) then {f.mutex} else {}
    ensures HeldOnce(frames + [f]) <==> HeldOnce(frames) && (Holds(f) ==> f.mutex !in Held(frames))
  {
    assert (frames + [f])[..|frames|] == frames;
  }

  lemma LockStep(s: State, step: Step)
    requires LockInv(s) && Enabled(s, step)
    ensures LockInv(Apply(s, step))
  {
    hide Held, HeldOnce;
    var s' := Apply(s, step);
    if s.frames != [] {
      assert Below(s) + [Top(s)] == s.frames;
      HeldPush(Below(s), Top(s));
    }
    match step
    case Call(mutex, work) => HeldPush(s.frames, With(mutex, s.interrupts, false, Entered, work, s.calls));
    case Irq => HeldPush(s.frames, Handler(s.interrupts, true));
    case Trap => HeldPush(s.frames, Handler(s.interrupts, false));
    case Restore =>
    case Iret =>
    case SetInterrupts(_) =>
    case _ =>
      assert s'.frames == Below(s) + [s'.frames[|s.frames| - 1]];
      HeldPush(Below(s), s'.frames[|s.frames| - 1]);
  }

  // ---------- Who acquired ----------

  /** Some activation is in its critical part under mutex `m`. */
  ghost predicate Busy(frames: seq<Frame>, m: int) {
    exists i :: 0 <= i < |frames| && Critical(frames[i]) && frames[i].mutex == m
  }

  /** Of the activations in their critical part under one mutex, the outermost
      acquired it and no other did. */
  ghost predicate OutermostAcquired(frames: seq<Frame>) {
    forall i :: 0 <= i < |frames| && Critical(frames[i]) ==>
      (frames[i].acquired <==> !Busy(frames[..i], frames[i].mutex))
  }

  /** A mutex is locked exactly while some activation is in its critical part under it. */
  ghost predicate AcquireInv(s: State) {
    && (forall m :: m in s.locked <==> Busy(s.frames, m))
    && OutermostAcquired(s.frames)
  }

  lemma BusyPush(frames: seq<Frame>, f: Frame, m: int)
    ensures Busy(frames + [f], m) <==> Busy(frames, m) || (Critical(f) && f.mutex == m)
  {
    var all, n := frames + [f], |frames|;
    assert all[n] == f && forall i :: 0 <= i < n ==> all[i] == frames[i];
    if i :| 0 <= i < n && Critical(frames[i]) && frames[i].mutex == m { assert Critical(all[i]); }
  }

  lemma OutermostPush(frames: seq<Frame>, f: Frame)
    ensures OutermostAcquired(frames + [f]) <==>
      OutermostAcquired(frames) && (Critical(f) ==> (f.acquired <==> !Busy(frames, f.mutex)))
  {
    hide Busy, Critical;
    var all, n := frames + [f], |frames|;
    assert all[n] == f && all[..n] == frames;
    forall i | 0 <= i < n ensures all[i] == frames[i] && all[..i] == frames[..i] {}
  }

  lemma AcquirePush(frames: seq<Frame>, f: Frame)
    ensures forall m :: Busy(frames + [f], m) <==> Busy(frames, m) || (Critical(f) && f.mutex == m)
    ensures OutermostAcquired(frames + [f]) <==>
      OutermostAcquired(frames) && (Critical(f) ==> (f.acquired <==> !Busy(frames, f.mutex)))
  {
    hide *;
    forall m { BusyPush(frames, f, m); }
    OutermostPush(frames, f);
  }

  /** Every step keeps this. The attempt itself always leaves the mutex locked, and it
      acquires exactly when nobody had it. */
  lemma AcquireStep(s: State, step: Step)
    requires AcquireInv(s) && Enabled(s, step)
    ensures AcquireInv(Apply(s, step))
    ensures var t := Apply(s, step); step == TryLock ==>
      && t.frames != [] && Top(t).With? && Top(t).mutex == Top(s).mutex && Top(t).mutex in t.locked
      && (Top(t).acquired <==> Top(s).mutex !in s.locked)
  {
    hide Busy, OutermostAcquired, Q.After, Q.Exec;
    var t := Apply(s, step);
    if s.frames != [] {
      assert Below(s) + [Top(s)] == s.frames;
      AcquirePush(Below(s), Top(s));
    }
    match step
    case Call(mutex, work) => AcquirePush(s.frames, With(mutex, s.interrupts, false, Entered, work, s.calls));
    case Irq => AcquirePush(s.frames, Handler(s.interrupts, true));
    case Trap => AcquirePush(s.frames, Handler(s.interrupts, false));
    case Restore =>
    case Iret =>
    case SetInterrupts(_) =>
    case _ =>
      assert t.frames == Below(s) + [t.frames[|s.frames| - 1]];
      AcquirePush(Below(s), t.frames[|s.frames| - 1]);
  }

  lemma InvStep(s: State, step: Step)
    requires Inv(s) && Enabled(s, step)
    ensures Inv(Apply(s, step))
  {
    hide MaskingInv, LockInv, WorkInv, Apply, Enabled;
    MaskingStep(s, step);
    WorkStep(s, step);
    LockStep(s, step);
  }

  /** A call whose own code is running, or waiting to, is only ever interrupted: what
      stands directly above it is a handler. */
  ghost predicate Nesting(s: State) {
    forall i :: 0 <= i < |s.frames| - 1 && s.frames[i].With? && s.frames[i].phase != Body ==> s.frames[i + 1].Handler?
  }

  lemma NestingStep(s: State, step: Step)
    requires Nesting(s) && Enabled(s, step)
    ensures Nesting(Apply(s, step))
  {
    hide Q.After, Q.Exec;
    var t := Apply(s, step);
    if Inner(step) {
      InnerFrames(s, step);
      assert forall i :: 0 <= i < |s.frames| - 1 ==> t.frames[i] == Below(t)[i] == s.frames[i];
      assert |s.frames| > 1 ==> (t.frames[|s.frames| - 1] == Top(t) && s.frames[|s.frames| - 1] == Top(s));
    } else if s.frames != [] {
      assert s.frames[|s.frames| - 1] == Top(s);
    }
  }

  /** Masking at work: whatever interrupts a running closure ignores IF. */
  lemma OnlyTrapsInterrupt(s: State, i: int)
    requires MaskingInv(s) && Nesting(s) && 0 <= i < |s.frames| - 1
    requires s.frames[i].With? && s.frames[i].phase.Running?
    ensures s.frames[i + 1].Handler? && !s.frames[i + 1].maskable
  {
    assert Masks(s.frames[i]);
  }

  // ---------- Runs ----------

  ghost predicate Possible(s: State, steps: seq<Step>)
    decreases |steps|
  {
    steps != [] ==> Enabled(s, steps[0]) && Possible(Apply(s, steps[0]), steps[1..])
  }

  ghost function After(s: State, steps: seq<Step>): State
    requires Possible(s, steps)
    decreases |steps|
  {
    if steps == [] then s else After(Apply(s, steps[0]), steps[1..])
  }

  lemma {:induction false} InvRun(s: State, steps: seq<Step>)
    requires Inv(s) && Possible(s, steps)
    ensures Inv(After(s, steps))
    decreases |steps|
  {
    hide Inv, Apply, Enabled;
    if steps != [] {
      InvStep(s, steps[0]);
      InvRun(Apply(s, steps[0]), steps[1..]);
    }
  }

  lemma StartInv()
    ensures Inv(Start) && Nesting(Start)
  {
  }

  /** In every reachable state, whatever nests where: a held mutex means interrupts are
      masked, and a maskable handler finds nothing held by the code it interrupted. */
  lemma Safety(steps: seq<Step>)
    requires Possible(Start, steps)
    ensures var s := After(Start, steps);
      && (forall m :: m in s.locked ==> !s.interrupts)
      && (forall i :: 0 <= i < |s.frames| && s.frames[i].Handler? && s.frames[i].maskable ==> Held(s.frames[..i]) == {})
  {
    StartInv();
    InvRun(Start, steps);
    var s := After(Start, steps);
    forall m | m in s.locked ensures !s.interrupts { LockedMasks(s, m); }
    forall i | 0 <= i < |s.frames| && s.frames[i].Handler? && s.frames[i].maskable ensures Held(s.frames[..i]) == {} {
      NothingHeld(s.frames[..i]);
    }
  }

  lemma {:induction false} AcquireRun(s: State, steps: seq<Step>)
    requires AcquireInv(s) && Possible(s, steps)
    ensures AcquireInv(After(s, steps))
    decreases |steps|
  {
    hide AcquireInv, Apply, Enabled;
    if steps != [] {
      AcquireStep(s, steps[0]);
      AcquireRun(Apply(s, steps[0]), steps[1..]);
    }
  }

  /** In every reachable state: whatever closure is running, its mutex is locked; a locked
      mutex has a closure running under it; and of the closures running under one
      mutex exactly the outermost acquired it. */
  lemma MutualExclusion(steps: seq<Step>)
    requires Possible(Start, steps)
    ensures var s := After(Start, steps);
      && (forall i :: 0 <= i < |s.frames| && Critical(s.frames[i]) ==> s.frames[i].mutex in s.locked)
      && (forall m :: m in s.locked ==> Busy(s.frames, m))
      && (forall i :: 0 <= i < |s.frames| && Critical(s.frames[i]) ==>
            (s.frames[i].acquired <==>
             forall j :: 0 <= j < i && Critical(s.frames[j]) ==> s.frames[j].mutex != s.frames[i].mutex))
  {
    AcquireRun(Start, steps);
    var s := After(Start, steps);
    forall i | 0 <= i < |s.frames| && Critical(s.frames[i])
      ensures s.frames[i].mutex in s.locked
      ensures s.frames[i].acquired <==>
        forall j :: 0 <= j < i && Critical(s.frames[j]) ==> s.frames[j].mutex != s.frames[i].mutex
    {
      assert Busy(s.frames, s.frames[i].mutex);
      assert forall j :: 0 <= j < i ==> s.frames[..i][j] == s.frames[j];
    }
  }

  /** What can happen at any time: an interrupt that ignores IF arrives at any point, a
      maskable one exactly when IF is set, its handler may return or itself call `with`,
      and so may ordinary code and the closures of other mutexes. */
  lemma HandlersReenter(s: State, op: Q.Op)
    requires !s.fields.panicked
    ensures Enabled(s, Trap) && (Enabled(s, Irq) <==> s.interrupts)
    ensures forall arrival :: (arrival == Trap || arrival == Irq) && Enabled(s, arrival) ==>
      Enabled(Apply(s, arrival), Iret) && Enabled(Apply(s, arrival), Call(QUEUE, Queue(op)))
    ensures s.frames == [] || InPhase(s, Body) ==>
      Enabled(s, Call(QUEUE, Queue(op))) && forall m :: m != QUEUE ==> Enabled(s, Call(m, Other))
    ensures s.frames == [] ==> Enabled(s, SetInterrupts(true)) && Enabled(s, SetInterrupts(false))
  {
  }

  lemma {:induction false} NothingHeld(frames: seq<Frame>)
    requires forall i :: 0 <= i < |frames| ==> !Masks(frames[i])
    ensures Held(frames) == {}
  {
    if frames != [] { NothingHeld(frames[..|frames| - 1]); }
  }

  lemma {:induction false} HeldBy(frames: seq<Frame>, m: int) returns (i: int)
    requires m in Held(frames)
    ensures 0 <= i < |frames| && Holds(frames[i]) && frames[i].mutex == m
  {
    var n := |frames| - 1;
    if Holds(frames[n]) && frames[n].mutex == m {
      i := n;
    } else {
      i := HeldBy(frames[..n], m);
    }
  }

  lemma LockedMasks(s: State, m: int)
    requires Inv(s) && m in s.locked
    ensures !s.interrupts
  {
    var i := HeldBy(s.frames, m);
    assert Masks(s.frames[i]);
  }

  /** Only the activation that took a mutex gives it back. */
  lemma OnlyHolderReleases(s: State, step: Step, m: int)
    requires Inv(s) && Enabled(s, step) && m in s.locked && m !in Apply(s, step).locked
    ensures step == Release && Holds(Top(s)) && Top(s).mutex == m && m !in Held(Below(s))
  {
    hide MaskingInv, WorkInv, Held, HeldOnce;
    UnlockStep(s, step, m);
    assert Below(s) + [Top(s)] == s.frames;
    HeldPush(Below(s), Top(s));
  }

  lemma UnlockStep(s: State, step: Step, m: int)
    requires Enabled(s, step) && m in s.locked && m !in Apply(s, step).locked
    ensures step == Release && Holds(Top(s)) && Top(s).mutex == m
  {
  }

  // ---------- Excursions ----------

  /** From above depth `d`, the steps stay above it until the last one reaches it. */
  ghost predicate Excursion(s: State, steps: seq<Step>, d: nat)
    requires Possible(s, steps)
    decreases |steps|
  {
    && steps != [] && |s.frames| > d
    && if |steps| == 1 then |Apply(s, steps[0]).frames| == d
       else Excursion(Apply(s, steps[0]), steps[1..], d)
  }

  /** A step above depth `d` leaves the activations below alone and keeps what the one at `d` saved. */
  lemma StepAbove(s: State, step: Step, d: nat)
    requires Enabled(s, step) && |s.frames| > d
    ensures var t := Apply(s, step);
      && |t.frames| >= d && t.frames[..d] == s.frames[..d]
      && (|t.frames| > d ==> t.frames[d].With? == s.frames[d].With? && t.frames[d].saved == s.frames[d].saved)
  {
  }

  lemma ReturnStep(s: State, step: Step)
    requires MaskingInv(s) && Enabled(s, step) && s.frames != [] && |Apply(s, step).frames| == |s.frames| - 1
    ensures Apply(s, step).frames == Below(s) && Apply(s, step).interrupts == Top(s).saved
  {
    assert s.frames[|s.frames| - 1] == Top(s);
  }

  lemma {:induction false} ExcursionReturns(s: State, steps: seq<Step>, d: nat)
    requires Inv(s) && Possible(s, steps) && Excursion(s, steps, d)
    ensures After(s, steps).frames == s.frames[..d] && After(s, steps).interrupts == s.frames[d].saved
    decreases |steps|
  {
    hide Inv, Apply, Enabled;
    var t := Apply(s, steps[0]);
    StepAbove(s, steps[0], d);
    InvStep(s, steps[0]);
    if |steps| == 1 {
      LastStep(s, steps[0], d);
    } else {
      ExcursionReturns(t, steps[1..], d);
    }
  }

  lemma LastStep(s: State, step: Step, d: nat)
    requires Inv(s) && Enabled(s, step) && |s.frames| > d && |Apply(s, step).frames| == d
    ensures Apply(s, step).frames == s.frames[..d] && Apply(s, step).interrupts == s.frames[d].saved
  {
    ReturnStep(s, step);
  }

  /** Every `with` call and every interrupt, whatever nests inside it, ends with the
      interrupt flag, the held mutexes and the call stack exactly as it found them. */
  lemma Transparent(s: State, steps: seq<Step>)
    requires Inv(s) && Possible(s, steps) && |steps| > 1 && (steps[0].Call? || steps[0].Irq? || steps[0].Trap?)
    requires Excursion(Apply(s, steps[0]), steps[1..], |s.frames|)
    ensures var t := After(s, steps); t.frames == s.frames && t.interrupts == s.interrupts && t.locked == s.locked
  {
    var u := Apply(s, steps[0]);
    InvStep(s, steps[0]);
    ExcursionReturns(u, steps[1..], |s.frames|);
    InvRun(s, steps);
  }

  /** At some point of the run the activation at depth `d` executes its closure. */
  ghost predicate RunsBody(s: State, steps: seq<Step>, d: nat)
    requires Possible(s, steps)
    decreases |steps|
  {
    || (|s.frames| > d && s.frames[d].With? && (s.frames[d].phase == Body || s.frames[d].phase.Running?))
    || (steps != [] && RunsBody(Apply(s, steps[0]), steps[1..], d))
  }

  lemma PhaseOrder(s: State, step: Step, d: nat)
    requires Enabled(s, step) && |s.frames| > d && s.frames[d].With?
    requires s.frames[d].phase == Entered || s.frames[d].phase == Masked
    ensures var t := Apply(s, step);
      && |t.frames| > d && t.frames[d].With?
      && (|| t.frames[d].phase == Entered || t.frames[d].phase == Masked
          || t.frames[d].phase == Body || t.frames[d].phase.Running?)
  {
  }

  /** `with` always runs its closure, held lock or not. */
  lemma {:induction false} AlwaysRuns(s: State, steps: seq<Step>, d: nat)
    requires Possible(s, steps) && Excursion(s, steps, d) && s.frames[d].With?
    requires s.frames[d].phase == Entered || s.frames[d].phase == Masked
    ensures RunsBody(s, steps, d)
    decreases |steps|
  {
    hide Apply, Enabled;
    var t := Apply(s, steps[0]);
    PhaseOrder(s, steps[0], d);
    if |steps| > 1 && t.frames[d].phase != Body && !t.frames[d].phase.Running? {
      AlwaysRuns(t, steps[1..], d);
    }
  }

  // ---------- Progress ----------

  /** The next instruction group of a `with` call. */
  function OwnStep(f: Frame): Step
    requires f.With?
  {
    match f.phase
    case Entered => Cli
    case Masked => TryLock
    case Body => Finish
    case Running(_) => Exec
    case Stored => Release
    case Released => Restore
  }

  function StepsLeft(f: Frame): nat
    requires f.With?
  {
    match f.phase
    case Entered => 11
    case Masked => 10
    case Body => 3
    case Running(pc) => 2 + Q.Left(pc)
    case Stored => 2
    case Released => 1
  }

  /** `with` never waits: unless a check panics, its next step is always possible, lock
      held or not, and eleven steps of its own complete it. */
  lemma NeverBlocks(s: State)
    requires Inv(s) && !s.fields.panicked && s.frames != [] && Top(s).With?
    ensures Enabled(s, OwnStep(Top(s)))
    ensures var t := Apply(s, OwnStep(Top(s)));
      if StepsLeft(Top(s)) == 1 then t.frames == Below(s)
      else t.frames != [] && Below(t) == Below(s) && Top(t).With? && StepsLeft(Top(t)) < StepsLeft(Top(s))
  {
    hide Q.After, Q.Exec, Q.Left, Q.At;
    assert s.frames[|s.frames| - 1] == Top(s);
    if Top(s).phase.Running? {
      Q.LeftDecreases(s.fields, Top(s).work.op, Top(s).phase.pc);
      Q.LeftBounds(Top(s).phase.pc);
      Q.LeftBounds(Q.After(s.fields, Top(s).work.op, Top(s).phase.pc));
    } else {
      Q.LeftBounds(Q.Test);
    }
  }
}
