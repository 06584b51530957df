/** Runs from start-up in which a trap's handler uses the input queue while a call is in
    flight, and what becomes of the queue. */
module QueueTears {
  import opened IrqMutex

  // ---------- Putting runs together ----------

  lemma NoSteps(s: State)
    ensures Possible(s, []) && After(s, []) == s
  {
  }

  lemma OneStep(s: State, step: Step)
    requires Enabled(s, step)
    ensures Possible(s, [step]) && After(s, [step]) == Apply(s, step)
  {
    NoSteps(Apply(s, step));
  }

  lemma {:induction false} Append(s: State, a: seq<Step>, b: seq<Step>)
    requires Possible(s, a) && Possible(After(s, a), b)
    ensures Possible(s, a + b) && After(s, a + b) == After(After(s, a), b)
    decreases |a|
  {
    hide Apply, Enabled;
    if a == [] {
      assert a + b == b;
    } else {
      Append(Apply(s, a[0]), a[1..], b);
      assert (a + b)[0] == a[0] && (a + b)[1..] == a[1..] + b;
    }
  }

  lemma AndThen(s: State, a: seq<Step>, step: Step)
    requires Possible(s, a) && Enabled(After(s, a), step)
    ensures Possible(s, a + [step]) && After(s, a + [step]) == Apply(After(s, a), step)
  {
    hide Apply, Enabled, Possible, After;
    OneStep(After(s, a), step);
    Append(s, a, [step]);
  }

  /** Code that may call and has interrupts masked: the kernel proper or a handler. */
  predicate Idle(s: State) {
    !s.interrupts && !s.fields.panicked && (s.frames == [] || Top(s).Handler?)
  }

  /** A queue call from `s` about to execute the instruction at `pc`. */
  function Calling(s: State, op: Q.Op, pc: Q.Pc): State {
    s.(frames := s.frames + [With(QUEUE, false, QUEUE !in s.locked, IrqMutex.At(pc), Queue(op), s.calls)],
       locked := s.locked + {QUEUE}, calls := s.calls + 1)
  }

  lemma CallStarts(s: State, op: Q.Op) returns (steps: seq<Step>)
    requires Idle(s)
    ensures Possible(s, steps) && After(s, steps) == Calling(s, op, Q.Test)
  {
    hide Possible, After;
    var called := Apply(s, Call(QUEUE, Queue(op)));
    assert Below(called) == s.frames;
    var masked := Apply(called, Cli);
    assert Below(masked) == s.frames;
    OneStep(s, Call(QUEUE, Queue(op)));
    AndThen(s, [Call(QUEUE, Queue(op))], Cli);
    AndThen(s, [Call(QUEUE, Queue(op))] + [Cli], TryLock);
    steps := [Call(QUEUE, Queue(op))] + [Cli] + [TryLock];
  }

  /** One instruction of the innermost call. */
  lemma CallSteps(s: State, op: Q.Op, pc: Q.Pc, id: int)
    requires s.frames != [] && Top(s).With? && Top(s).phase == Running(pc) && Top(s).work == Queue(op) && Top(s).id == id
    requires !s.fields.panicked
    ensures Enabled(s, Exec)
    ensures Apply(s, Exec) ==
      SetTop(s, Top(s).(phase := IrqMutex.At(Q.After(s.fields, op, pc)))).(fields := Q.Exec(s.fields, id, pc))
  {
  }

  /** The innermost call run to its end. */
  lemma {:induction false} CallEnds(s: State, op: Q.Op, pc: Q.Pc) returns (steps: seq<Step>)
    requires s.frames != [] && Top(s).With? && Top(s).phase == IrqMutex.At(pc) && Top(s).work == Queue(op)
    requires !s.fields.panicked
    ensures Possible(s, steps)
    ensures After(s, steps) == SetTop(s, Top(s).(phase := Stored)).(fields := Q.Finish(s.fields, Top(s).id, op, pc))
    decreases Q.Left(pc)
  {
    hide Possible, After, Q.Exec, Q.After, Q.Finish, Q.Left, Apply, Enabled;
    if pc == Q.Done {
      Q.FinishDone(s.fields, Top(s).id, op);
      NoSteps(s);
      assert Below(s) + [Top(s)] == s.frames;
      steps := [];
    } else {
      var id := Top(s).id;
      CallSteps(s, op, pc, id);
      var t := Apply(s, Exec);
      assert Below(t) == Below(s);
      Q.LeftDecreases(s.fields, op, pc);
      Q.FinishStep(s.fields, id, op, pc);
      Q.PanicsLast(s.fields, id, op, pc);
      OneStep(s, Exec);
      if Q.After(s.fields, op, pc) == Q.Done {
        Q.FinishDone(t.fields, id, op);
        steps := [Exec];
      } else {
        var rest := CallEnds(t, op, Q.After(s.fields, op, pc));
        Append(s, [Exec], rest);
        steps := [Exec] + rest;
      }
    }
  }

  /** From the end of the closure back to the caller. */
  lemma Returns(s: State, base: State, op: Q.Op) returns (steps: seq<Step>)
    requires Idle(base) && !s.fields.panicked
    requires s == Calling(base, op, Q.Done).(fields := s.fields, calls := s.calls)
    ensures Possible(s, steps) && After(s, steps) == base.(fields := s.fields, calls := s.calls)
  {
    hide Possible, After;
    assert Below(s) == base.frames;
    var released := Apply(s, Release);
    assert Below(released) == base.frames;
    assert QUEUE !in base.locked ==> base.locked + {QUEUE} - {QUEUE} == base.locked;
    assert QUEUE in base.locked ==> base.locked + {QUEUE} == base.locked;
    OneStep(s, Release);
    AndThen(s, [Release], Restore);
    steps := [Release] + [Restore];
  }

  /** An uninterrupted queue call. */
  lemma WholeCall(s: State, op: Q.Op) returns (steps: seq<Step>)
    requires Idle(s) && !Q.Finish(s.fields, s.calls, op, Q.Test).panicked
    ensures Possible(s, steps)
    ensures After(s, steps) == s.(fields := Q.Finish(s.fields, s.calls, op, Q.Test), calls := s.calls + 1)
  {
    hide Possible, After, Q.Finish;
    var a := CallStarts(s, op);
    var started := Calling(s, op, Q.Test);
    assert Below(started) == s.frames;
    var b := CallEnds(started, op, Q.Test);
    var ended := After(started, b);
    var c := Returns(ended, s, op);
    Append(s, a, b);
    Append(s, a + b, c);
    steps := a + b + c;
  }

  /** Where a call stands after its test, or after the load that follows it. */
  function Early(r: Q.Fields, op: Q.Op, later: bool): Q.Pc {
    var first := Q.After(r, op, Q.Test);
    if later then Q.After(r, op, first) else first
  }

  /** A queue call up to an early point of it. */
  lemma CallPauses(s: State, op: Q.Op, later: bool) returns (steps: seq<Step>)
    requires Idle(s) && Early(s.fields, op, false) != Q.Done && Early(s.fields, op, later) != Q.Done
    ensures Possible(s, steps) && After(s, steps) == Calling(s, op, Early(s.fields, op, later))
  {
    hide Possible, After, Apply, Enabled, Q.After, Q.Exec;
    steps := CallStarts(s, op);
    var started := Calling(s, op, Q.Test);
    assert Below(started) == s.frames;
    Q.EarlyLoads(s.fields, s.calls, op);
    CallSteps(started, op, Q.Test, s.calls);
    AndThen(s, steps, Exec);
    steps := steps + [Exec];
    var first := Early(s.fields, op, false);
    var tested := Calling(s, op, first);
    assert Below(tested) == s.frames && After(s, steps) == tested;
    if later {
      CallSteps(tested, op, first, s.calls);
      AndThen(s, steps, Exec);
      steps := steps + [Exec];
    }
  }

  /** The fields after a call of kind `op`, interrupted early by a whole call of kind `other`. */
  function Crossed(r: Q.Fields, calls: nat, op: Q.Op, later: bool, other: Q.Op): Q.Fields {
    Q.Finish(Q.Finish(r, calls + 1, other, Q.Test), calls, op, Early(r, op, later))
  }

  /** A queue call interrupted early by a trap whose handler makes a whole call. */
  lemma CrossedCall(s: State, op: Q.Op, later: bool, other: Q.Op) returns (steps: seq<Step>)
    requires Idle(s) && s.frames == [] && Early(s.fields, op, false) != Q.Done && Early(s.fields, op, later) != Q.Done
    requires !Q.Finish(s.fields, s.calls + 1, other, Q.Test).panicked
    ensures Possible(s, steps)
    ensures After(s, steps).fields == Crossed(s.fields, s.calls, op, later, other)
    ensures !Crossed(s.fields, s.calls, op, later, other).panicked ==>
      After(s, steps) == s.(fields := Crossed(s.fields, s.calls, op, later, other), calls := s.calls + 2)
  {
    hide Possible, After, Q.Finish, Q.After, Q.Exec;
    var pc := Early(s.fields, op, later);
    var a := CallPauses(s, op, later);
    var paused := Calling(s, op, pc);
    AndThen(s, a, Trap);
    var trapped := Apply(paused, Trap);
    assert Top(trapped).Handler? && Below(trapped) == paused.frames;
    var b := WholeCall(trapped, other);
    Append(s, a + [Trap], b);
    var crossed := trapped.(fields := Q.Finish(s.fields, s.calls + 1, other, Q.Test), calls := s.calls + 2);
    assert Below(crossed) == paused.frames;
    AndThen(s, a + [Trap] + b, Iret);
    var back := Apply(crossed, Iret);
    assert back.frames == paused.frames && Top(back) == Top(paused) && Below(back) == s.frames == [];
    var c := CallEnds(back, op, pc);
    Append(s, a + [Trap] + b + [Iret], c);
    steps := a + [Trap] + b + [Iret] + c;
    var ended := After(back, c);
    if !ended.fields.panicked {
      assert ended == Calling(s, op, Q.Done).(fields := ended.fields, calls := s.calls + 2);
      var d := Returns(ended, s, op);
      Append(s, steps, d);
      steps := steps + d;
    }
  }

  // ---------- Four runs ----------

  /** The queue with `n` events waiting and nothing else going on. */
  ghost predicate Filled(s: State, n: nat) {
    && Idle(s) && s.frames == [] && Q.Whole(s.fields) && s.fields.len == n && s.fields.refused == 0
    && s.fields.tail == 0
  }

  lemma {:induction false} FillQueue(n: nat) returns (steps: seq<Step>)
    requires n <= 64
    ensures Possible(Start, steps) && Filled(After(Start, steps), n)
  {
    hide Possible, After, Q.Whole, Q.Finish, Inv;
    if n == 0 {
      NoSteps(Start);
      StartFilled();
      steps := [];
    } else {
      var before := FillQueue(n - 1);
      var s := After(Start, before);
      FreshNumber(before);
      OneMore(s, n - 1);
      var call := WholeCall(s, Q.Push);
      Append(Start, before, call);
      steps := before + call;
    }
  }

  lemma StartFilled()
    ensures Filled(Start, 0)
  {
  }

  lemma FreshNumber(steps: seq<Step>)
    requires Possible(Start, steps)
    ensures Q.Unused(After(Start, steps).fields, After(Start, steps).calls)
  {
    hide MaskingInv, LockInv, Possible, After;
    StartInv();
    InvRun(Start, steps);
  }

  lemma OneMore(s: State, n: nat)
    requires Filled(s, n) && n < 64 && Q.Unused(s.fields, s.calls)
    ensures var t := Q.Finish(s.fields, s.calls, Q.Push, Q.Test);
      Q.Whole(t) && !t.panicked && t.len == n + 1 && t.refused == 0 && t.tail == 0
  {
    hide Q.Next;
    Q.UninterruptedCall(s.fields, s.calls, Q.Push);
    Q.FinishIsEnding(s.fields, s.calls, Q.Push, Q.Test);
  }

  /** One slot left, a push interrupted after its test by a push: 65 events in 64 slots. */
  lemma OverCapacity() returns (steps: seq<Step>)
    ensures Possible(Start, steps)
    ensures var s := After(Start, steps); s.frames == [] && s.fields.len == 65
  {
    hide Possible, After, Q.Finish;
    steps := FillQueue(63);
    var s := After(Start, steps);
    Q.FinishIsEnding(s.fields, s.calls + 1, Q.Push, Q.Test);
    Q.FinishIsEnding(Q.Ending(s.fields, s.calls + 1, Q.Push, Q.Test), s.calls, Q.Push, Q.SlotLoad);
    var crossed := CrossedCall(s, Q.Push, false, Q.Push);
    Append(Start, steps, crossed);
    steps := steps + crossed;
  }

  /** No slot left, a push interrupted between loading and storing the drop count by a
      push: both are refused, one is counted. */
  lemma Miscounted() returns (steps: seq<Step>)
    ensures Possible(Start, steps)
    ensures var s := After(Start, steps); s.frames == [] && s.fields.refused == 2 && s.fields.dropped == 1
  {
    hide Possible, After, Q.Finish;
    steps := FillQueue(64);
    var s := After(Start, steps);
    Q.FinishIsEnding(s.fields, s.calls + 1, Q.Push, Q.Test);
    Q.FinishIsEnding(Q.Ending(s.fields, s.calls + 1, Q.Push, Q.Test), s.calls, Q.Push, Q.DropStore(0));
    var crossed := CrossedCall(s, Q.Push, true, Q.Push);
    Append(Start, steps, crossed);
    steps := steps + crossed;
  }

  /** A push interrupted between loading its slot and storing to it by a push: both are
      accepted, and the interrupting event is gone. */
  lemma EventLost() returns (steps: seq<Step>)
    ensures Possible(Start, steps)
    ensures var s := After(Start, steps);
      && s.frames == [] && s.fields.accepted == [1, 0] && s.fields.popped == [] && s.fields.len == 2
      && 1 !in s.fields.buf
  {
    hide Possible, After, Q.Finish;
    Q.FinishIsEnding(Start.fields, 1, Q.Push, Q.Test);
    Q.FinishIsEnding(Q.Ending(Start.fields, 1, Q.Push, Q.Test), 0, Q.Push, Q.SlotStore(0));
    steps := CrossedCall(Start, Q.Push, true, Q.Push);
  }

  /** One event waiting, a pop interrupted after its test by a pop: the length would go
      below zero and the kernel panics. */
  lemma Underflow() returns (steps: seq<Step>)
    ensures Possible(Start, steps) && After(Start, steps).fields.panicked
  {
    hide Possible, After, Q.Finish;
    steps := FillQueue(1);
    var s := After(Start, steps);
    Q.FinishIsEnding(s.fields, s.calls + 1, Q.Pop, Q.Test);
    Q.FinishIsEnding(Q.Ending(s.fields, s.calls + 1, Q.Pop, Q.Test), s.calls, Q.Pop, Q.ItemSlotLoad);
    var crossed := CrossedCall(s, Q.Pop, false, Q.Pop);
    Append(Start, steps, crossed);
    steps := steps + crossed;
  }
}
