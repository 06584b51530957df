/** Sequences without repetition, and the queue a ring buffer stands for. */
module Sequences {

  ghost predicate NoDuplicates(s: seq<int>) {
    forall i, j :: 0 <= i < j < |s| ==> s[i] != s[j]
  }

  /** Slot of a ring of `n` slots that lies `i` places after `head`. */
  function Place(n: int, head: int, i: int): (p: int)
    requires 0 <= head < n && 0 <= i <= n
    ensures 0 <= p < n
  {
    if head + i < n then head + i else head + i - n
  }

  /** The `len` slots from `head` on, in order. */
  ghost function Ring<T>(slots: seq<T>, head: int, len: int): (q: seq<T>)
    requires 0 <= head < |slots| && 0 <= len <= |slots|
    ensures |q| == len
  {
    seq(len, i requires 0 <= i < len => slots[Place(|slots|, head, i)])
  }

  /** Writing the slot after the last one appends to the queue. */
  lemma RingPush<T>(slots: seq<T>, head: int, len: int, x: T)
    requires 0 <= head < |slots| && 0 <= len < |slots|
    ensures Ring(slots[Place(|slots|, head, len) := x], head, len + 1) == Ring(slots, head, len) + [x]
  {
    var pushed := slots[Place(|slots|, head, len) := x];
    forall i | 0 <= i < len ensures Ring(pushed, head, len + 1)[i] == Ring(slots, head, len)[i] {
      assert Place(|slots|, head, i) != Place(|slots|, head, len);
    }
  }

  /** Advancing the head removes the first element of the queue. */
  lemma RingPop<T>(slots: seq<T>, head: int, len: int)
    requires 0 <= head < |slots| && 0 < len <= |slots|
    ensures Ring(slots, head, len)[0] == slots[head]
    ensures Ring(slots, Place(|slots|, head, 1), len - 1) == Ring(slots, head, len)[1..]
  {
    forall i | 0 <= i < len - 1
      ensures Ring(slots, Place(|slots|, head, 1), len - 1)[i] == Ring(slots, head, len)[1..][i]
    {
      PlaceShift(|slots|, head, i);
    }
  }

  /** Going one place further from either end is the same slot. */
  lemma PlaceShift(n: int, head: int, i: int)
    requires 0 <= head < n && 0 <= i < n
    ensures Place(n, Place(n, head, 1), i) == Place(n, head, i + 1) == Place(n, Place(n, head, i), 1)
  {
  }
}
