/** The fixed-size ring buffer of key events, against a plain sequence. */
module InputQueue {
  import opened Machine
  import opened Sequences

  const CAPACITY: int := 64
  const U32_MAX: int := 0xFFFF_FFFF

  datatype KeyEvent = Char(c: char) | Enter | Backspace

  /** What a push leaves in the queue: a full queue refuses the newest event. */
  function Pushed<T>(q: seq<T>, e: T): seq<T> {
    if |q| == CAPACITY then q else q + [e]
  }

  function Popped<T>(q: seq<T>): seq<T> {
    if |q| == 0 then q else q[1..]
  }

  function SaturatingIncrement(n: int): int {
    if n == U32_MAX then n else n + 1
  }

  lemma NextSlot(i: int)
    requires 0 <= i < 64
    ensures (i + 1) % 64 == Place(64, i, 1)
  {
  }

  class Queue {
    const buf: array<KeyEvent>
    var head: int
    var tail: int
    var len: int
    var dropped: int

    ghost predicate Valid()
      reads this
    {
      && buf.Length == 64 && 0 <= tail < 64 && 0 <= len <= 64 && head == Place(64, tail, len)
      && 0 <= dropped <= U32_MAX
    }

    /** What `Pop` will return, in that order. `tail` is where it reads, `head` where `Push` writes. */
    ghost function Contents(): seq<KeyEvent>
      requires Valid()
      reads this, buf
    {
      Ring(buf[..], tail, len)
    }

    constructor ()
      ensures Valid() && fresh(buf) && Contents() == [] && dropped == 0
    {
      buf := new KeyEvent[64](_ => Char('\0'));
      head, tail, len, dropped := 0, 0, 0, 0;
    }

    method Push(e: KeyEvent) returns (accepted: bool)
      requires Valid()
      modifies this, buf
      ensures Valid() && Contents() == Pushed(old(Contents()), e)
      ensures accepted <==> |old(Contents())| < 64
      ensures dropped == if accepted || old(dropped) == 0xffff_ffff then old(dropped) else old(dropped) + 1
    {
      if len == CAPACITY {
        dropped := SaturatingIncrement(dropped);
        return false;
      }
      RingPush(buf[..], tail, len, e);
      PlaceShift(64, tail, len);
      buf[head] := e;
      assert buf[..] == old(buf[..])[head := e];
      NextSlot(head);
      head := (head + 1) % 64;
      len := len + 1;
      return true;
    }

    method Pop() returns (e: Option<KeyEvent>)
      requires Valid()
      modifies this
      ensures Valid() && Contents() == Popped(old(Contents())) && dropped == old(dropped)
      ensures e == if old(Contents()) == [] then None else Some(old(Contents())[0])
    {
      if len == 0 {
        return None;
      }
      RingPop(buf[..], tail, len);
      PlaceShift(64, tail, len - 1);
      e := Some(buf[tail]);
      NextSlot(tail);
      tail := (tail + 1) % 64;
      len := len - 1;
    }
  }
}
