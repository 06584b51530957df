/** The 32-bit machine the kernel runs on: words, addresses and physical memory. */
module Machine {

  datatype Option<+T> = None | Some(value: T)

  const ADDRESS_SPACE: int := 0x1_0000_0000

  /** A value of a 32-bit register or memory word. */
  type Word = w: int | 0 <= w < 0x1_0000_0000

  /** `cells[a]` is the word stored at byte address `a`. */
  type Cells = seq<Word>

  predicate Populated(cells: Cells) {
    |cells| == ADDRESS_SPACE
  }

  // ---------- Alignment ----------

  /** `a` is zero, `k`, `2k`, `3k`, ... */
  predicate Multiple(k: int, a: int)
    requires 0 < k
    decreases a
  {
    a == 0 || (k <= a && Multiple(k, a - k))
  }

  lemma {:induction false} MultipleMod(k: int, a: int)
    requires k == 4 || k == 8
    ensures Multiple(k, a) <==> 0 <= a && a % k == 0
    decreases a
  {
    if k <= a { MultipleMod(k, a - k); }
  }

  lemma {:induction false} MultipleSum(k: int, a: int, b: int)
    requires 0 < k && Multiple(k, a) && Multiple(k, b)
    ensures Multiple(k, a + b)
    decreases a
  {
    if k <= a { MultipleSum(k, a - k, b); }
  }

  lemma {:induction false} MultipleDifference(k: int, a: int, b: int)
    requires 0 < k && Multiple(k, a) && Multiple(k, b) && b <= a
    ensures Multiple(k, a - b)
    decreases a
  {
    if k <= b { MultipleDifference(k, a - k, b - k); }
  }

  lemma {:induction false} MultipleCoarser(a: int)
    requires Multiple(8, a)
    ensures Multiple(4, a) && Multiple(4, a + 4)
    decreases a
  {
    if 8 <= a { MultipleCoarser(a - 8); }
  }

  lemma {:induction false} MultipleOf4(n: int)
    requires 0 <= n
    ensures Multiple(4, 4 * n)
    decreases n
  {
    if 0 < n { MultipleOf4(n - 1); }
  }

  lemma {:induction false} MultipleOf8(n: int)
    requires 0 <= n
    ensures Multiple(8, 8 * n)
    decreases n
  {
    if 0 < n { MultipleOf8(n - 1); }
  }

  /** Physical memory. Every access is to an aligned word, so two accesses touch
      common bytes only when their addresses are equal. */
  class Ram {
    var cells: Cells

    ghost predicate Valid()
      reads this
    {
      Populated(cells)
    }

    function Read(a: int): (w: Word)
      requires 0 <= a < ADDRESS_SPACE && Multiple(4, a) && Valid()
      reads this
    {
      cells[a]
    }

    method Write(a: int, w: Word)
      requires 0 <= a < ADDRESS_SPACE && Multiple(4, a) && Valid()
      modifies this
      ensures Valid() && cells == old(cells)[a := w]
    {
      cells := cells[a := w];
    }
  }
}
