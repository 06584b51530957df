/** Round-robin order as a value: rotations of a list of distinct tasks. */
module RoundRobin {
  import opened Sequences

  /** One yield: the running task (first) goes to the back. */
  function Rotate(order: seq<int>): seq<int>
    requires order != []
  {
    order[1..] + [order[0]]
  }

  ghost function RotateBy(order: seq<int>, n: nat): (r: seq<int>)
    requires order != []
    ensures |r| == |order|
  {
    if n == 0 then order else Rotate(RotateBy(order, n - 1))
  }

  /** How often `task` is switched to during `n` yields. */
  ghost function Gains(order: seq<int>, n: nat, task: int): nat
    requires order != []
  {
    if n == 0 then 0
    else Gains(order, n - 1, task) + if RotateBy(order, n)[0] == task then 1 else 0
  }

  /** After `n` yields some number `q` of rounds is complete and the tasks at
      positions 1..r have run once more than the others. */
  lemma {:induction false} GainsExact(order: seq<int>, n: nat) returns (q: nat, r: nat)
    requires order != [] && NoDuplicates(order)
    ensures r < |order| && n == q * |order| + r
    ensures RotateBy(order, n) == order[r..] + order[..r]
    ensures forall p :: 0 <= p < |order| ==> Gains(order, n, order[p]) == q + if 1 <= p <= r then 1 else 0
  {
    if n == 0 {
      q, r := 0, 0;
    } else {
      q, r := GainsExact(order, n - 1);
      var head := RotateBy(order, n)[0];
      if r + 1 < |order| {
        assert RotateBy(order, n) == order[r + 1..] + order[..r + 1];
        assert head == order[r + 1];
        r := r + 1;
      } else {
        assert RotateBy(order, n) == order;
        assert head == order[0];
        assert (q + 1) * |order| == q * |order| + |order|;
        q, r := q + 1, 0;
      }
    }
  }

  /** Exact fairness: in any window of yields, turns gained differ by at most one. */
  lemma Fair(order: seq<int>, n: nat, a: int, b: int)
    requires order != [] && NoDuplicates(order) && a in order && b in order
    ensures Gains(order, n, a) <= Gains(order, n, b) + 1
  {
    var q, r := GainsExact(order, n);
    var i :| 0 <= i < |order| && order[i] == a;
    var j :| 0 <= j < |order| && order[j] == b;
  }

  lemma {:induction false} FirstRound(order: seq<int>, n: nat)
    requires n < |order|
    ensures RotateBy(order, n) == order[n..] + order[..n]
  {
    if n > 0 {
      FirstRound(order, n - 1);
    }
  }

  /** The task at ready position `p` runs at exactly the (p + 1)-th yield, not earlier. */
  lemma RunsInTurn(order: seq<int>, p: nat, n: nat)
    requires NoDuplicates(order) && p + 1 < |order| && n <= p + 1
    ensures RotateBy(order, n)[0] == order[p + 1] <==> n == p + 1
  {
    FirstRound(order, n);
  }
}
