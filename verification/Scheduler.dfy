/** The cooperative scheduler: a fixed task table and a ring-buffer ready queue. */
module Scheduler {
  import opened Machine
  import opened Sequences
  import opened RoundRobin

  lemma WrapsRing(head: int, i: int)
    requires 0 <= head < 4 && 0 <= i <= 4
    ensures (head + i) % 4 == Place(4, head, i)
  {
  }

  /** Distinct ids among four slots: at most four of them, fewer if a slot is empty. */
  lemma Pigeonhole(order: seq<int>, occupied: seq<bool>)
    requires |occupied| == 4 && NoDuplicates(order)
    requires forall i :: 0 <= i < |order| ==> 0 <= order[i] < 4 && occupied[order[i]]
    ensures |order| <= 4
    ensures |order| == 4 ==> occupied[0] && occupied[1] && occupied[2] && occupied[3]
  {
    if |order| >= 4 {
      var a, b, c, d := order[0], order[1], order[2], order[3];
      assert a != b && a != c && a != d && b != c && b != d && c != d;
      var e := order[|order| - 1];
      assert |order| > 4 ==> e != a && e != b && e != c && e != d;
    }
  }

  /** The running task is not queued; together with the queue it is every task, once. */
  ghost predicate Consistent(occupied: seq<bool>, order: seq<int>) {
    && NoDuplicates(order)
    && (forall i :: 0 <= i < |order| ==> 0 <= order[i] < |occupied| && occupied[order[i]])
    && (forall id :: 0 <= id < |occupied| && occupied[id] ==> id in order)
  }

  class Scheduler {
    const occupied: array<bool>
    const ready: array<int>
    const turns: array<int>
    var readyHead: int
    var readyLen: int
    var current: int
    var count: int

    ghost predicate Shaped()
      reads this
    {
      && occupied.Length == ready.Length == turns.Length == 4 && ready != turns
      && 0 <= readyHead < 4 && 0 <= readyLen <= 4
    }

    /** The ready queue, next to run first. */
    ghost function Queue(): seq<int>
      requires Shaped()
      reads this, ready
    {
      Ring(ready[..], readyHead, readyLen)
    }

    /** The running task followed by the ready queue. */
    ghost function Order(): seq<int>
      requires Shaped()
      reads this, ready
    {
      [current] + Queue()
    }

    ghost predicate Valid()
      reads this, occupied, ready, turns
    {
      && Shaped() && Consistent(occupied[..], Order()) && count == |Order()| <= 4
      && (forall i :: 0 <= i < 4 ==> 0 <= turns[i] < 0x1_0000_0000)
    }

    /** The static table as linked, before `Init`. */
    constructor ()
      ensures Shaped() && fresh(occupied) && fresh(ready) && fresh(turns)
      ensures forall i :: 0 <= i < 4 ==> !occupied[i] && turns[i] == 0
    {
      occupied := new bool[4](_ => false);
      ready := new int[4](_ => 0);
      turns := new int[4](_ => 0);
      readyHead, readyLen, current, count := 0, 0, 0, 0;
    }

    /** The boot context becomes the first task and is running. */
    method Init()
      requires Shaped() && forall i :: 0 <= i < 4 ==> !occupied[i] && turns[i] == 0
      modifies this, occupied
      ensures Valid() && Order() == [0] && turns[..] == old(turns[..])
    {
      occupied[0] := true;
      current, readyHead, readyLen, count := 0, 0, 0, 1;
    }

    method EnqueueReady(id: int)
      requires Shaped() && readyLen < 4
      modifies this`readyLen, ready
      ensures Shaped() && Queue() == old(Queue()) + [id]
    {
      RingPush(ready[..], readyHead, readyLen, id);
      WrapsRing(readyHead, readyLen);
      var tail := (readyHead + readyLen) % 4;
      ready[tail] := id;
      assert ready[..] == old(ready[..])[tail := id];
      readyLen := readyLen + 1;
    }

    method DequeueReady() returns (id: Option<int>)
      requires Shaped()
      modifies this`readyHead, this`readyLen
      ensures Shaped()
      ensures old(Queue()) == [] ==> id.None? && Queue() == []
      ensures old(Queue()) != [] ==> id == Some(old(Queue())[0]) && Queue() == old(Queue())[1..]
    {
      if readyLen == 0 {
        return None;
      }
      RingPop(ready[..], readyHead, readyLen);
      id := Some(ready[readyHead]);
      WrapsRing(readyHead, 1);
      readyHead := (readyHead + 1) % 4;
      readyLen := readyLen - 1;
    }

    /** The scheduling half of `spawn`: the first empty slot joins the back of the queue. */
    method Admit() returns (id: Option<int>)
      requires Valid()
      modifies this, occupied, ready
      ensures Valid() && turns[..] == old(turns[..])
      ensures id.None? <==> old(|Order()|) == 4
      ensures id.None? ==> Order() == old(Order()) && occupied[..] == old(occupied[..])
      ensures id.Some? ==>
        && 0 <= id.value < 4 && id.value !in old(Order()) && Order() == old(Order()) + [id.value]
        && forall i :: 0 <= i < id.value ==> old(occupied[i]) && i in old(Order())
    {
      Pigeonhole(Order(), occupied[..]);
      var slot := 0;
      while slot < 4 && occupied[slot]
        invariant 0 <= slot <= 4
        invariant forall i :: 0 <= i < slot ==> occupied[i]
      {
        slot := slot + 1;
      }
      if slot == 4 {
        AllOccupied(Order(), occupied[..]);
        return None;
      }
      occupied[slot] := true;
      EnqueueReady(slot);
      count := count + 1;
      AdmitConsistent(old(occupied[..]), old(Order()), slot);
      assert Order() == old(Order()) + [slot] && occupied[..] == old(occupied[..])[slot := true];
      return Some(slot);
    }

    /** The scheduling half of `yield_now`: None when the task is alone, otherwise
        the task switched from and the task switched to. */
    method PickNext() returns (pair: Option<(int, int)>)
      requires Valid()
      modifies this`readyHead, this`readyLen, this`current, ready, turns
      ensures Valid() && Order() == Rotate(old(Order()))
      ensures pair.None? <==> old(|Order()|) == 1
      ensures pair.None? ==> turns[..] == old(turns[..])
      ensures pair.Some? ==>
        && pair.value == (old(Order())[0], old(Order())[1]) && pair.value.0 != pair.value.1
        && 0 <= pair.value.0 < 4 && 0 <= pair.value.1 < 4
        && turns[..] == old(turns[..])[pair.value.1 := (old(turns[..])[pair.value.1] + 1) % 0x1_0000_0000]
    {
      hide Consistent, NoDuplicates, Ring;
      ghost var order := Order();
      RotateConsistent(occupied[..], order);
      PickedDistinct(occupied[..], order);
      var running := current;
      var next := RotateQueue();
      if next == running {
        return None;
      }
      current := next;
      turns[next] := (turns[next] + 1) % 0x1_0000_0000;
      assert Order() == Rotate(order);
      return Some((running, next));
    }

    /** Queues the running task and takes the queue's head. */
    method RotateQueue() returns (next: int)
      requires Shaped() && readyLen < 4
      modifies this`readyHead, this`readyLen, ready
      ensures Shaped() && [next] + Queue() == Rotate(old(Order()))
    {
      hide Ring;
      EnqueueReady(current);
      assert Queue() == Rotate(old(Order()));
      var head := DequeueReady();
      next := head.value;
    }
  }

  /** Turn counters after `n` yields: what each task had plus what it gained, modulo 2^32. */
  ghost function Credited(turns: seq<int>, order: seq<int>, n: nat): (r: seq<int>)
    requires |turns| == 4 && order != []
    ensures |r| == 4
  {
    seq(4, id requires 0 <= id < 4 => (turns[id] + Gains(order, n, id)) % 0x1_0000_0000)
  }

  lemma CreditedNone(turns: seq<int>, order: seq<int>)
    requires |turns| == 4 && order != [] && forall i :: 0 <= i < 4 ==> 0 <= turns[i] < 0x1_0000_0000
    ensures Credited(turns, order, 0) == turns
  {
  }

  lemma CreditedStep(turns: seq<int>, order: seq<int>, n: nat, next: int)
    requires |turns| == 4 && order != [] && next == RotateBy(order, n + 1)[0] && 0 <= next < 4
    ensures Credited(turns, order, n + 1) == Credited(turns, order, n)[next := (Credited(turns, order, n)[next] + 1) % 0x1_0000_0000]
  {
    WrapStep(turns[next] + Gains(order, n, next));
  }

  /** `n` yields in a row of a machine with at least two tasks. */
  method YieldMany(sched: Scheduler, n: nat)
    requires sched.Valid() && |sched.Order()| >= 2
    modifies sched, sched.ready, sched.turns
    ensures sched.Valid() && sched.Order() == RotateBy(old(sched.Order()), n)
    ensures sched.turns[..] == Credited(old(sched.turns[..]), old(sched.Order()), n)
  {
    hide Consistent, Ring, Credited, NoDuplicates;
    ghost var order, base := sched.Order(), sched.turns[..];
    if n == 0 {
      CreditedNone(base, order);
      return;
    }
    YieldMany(sched, n - 1);
    var pair := sched.PickNext();
    CreditedStep(base, order, n - 1, pair.value.1);
  }

  lemma WrapStep(n: int)
    ensures (n % 0x1_0000_0000 + 1) % 0x1_0000_0000 == (n + 1) % 0x1_0000_0000
  {
  }

  /** The queue's head differs from the running task exactly when there is another task. */
  lemma PickedDistinct(occupied: seq<bool>, order: seq<int>)
    requires |occupied| == 4 && Consistent(occupied, order) && order != []
    ensures Rotate(order)[0] == order[0] <==> |order| == 1
    ensures |order| == 1 ==> Rotate(order) == order
    ensures 0 <= order[0] < 4 && 0 <= Rotate(order)[0] < 4
  {
  }

  lemma AllOccupied(order: seq<int>, occupied: seq<bool>)
    requires |occupied| == 4 && Consistent(occupied, order) && forall i :: 0 <= i < 4 ==> occupied[i]
    ensures |order| >= 4
  {
    assert occupied[0] && occupied[1] && occupied[2] && occupied[3];
    var a :| 0 <= a < |order| && order[a] == 0;
    var b :| 0 <= b < |order| && order[b] == 1;
    var c :| 0 <= c < |order| && order[c] == 2;
    var d :| 0 <= d < |order| && order[d] == 3;
  }

  lemma AdmitConsistent(occupied: seq<bool>, order: seq<int>, slot: int)
    requires |occupied| == 4 && Consistent(occupied, order) && 0 <= slot < 4 && !occupied[slot]
    ensures Consistent(occupied[slot := true], order + [slot]) && slot !in order && |order| < 4
  {
    Pigeonhole(order, occupied);
    assert slot !in order;
    assert (order + [slot])[|order|] == slot;
  }

  lemma RotateConsistent(occupied: seq<bool>, order: seq<int>)
    requires Consistent(occupied, order) && order != []
    ensures Consistent(occupied, Rotate(order))
  {
    var r := Rotate(order);
    assert forall i :: 0 <= i < |order| - 1 ==> r[i] == order[i + 1];
    assert r[|order| - 1] == order[0];
    forall id | id in order ensures id in r {
      var i :| 0 <= i < |order| && order[i] == id;
      assert i > 0 ==> r[i - 1] == id;
    }
  }
}
