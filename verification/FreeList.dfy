/** The heap's free list as a value: address-ordered blocks, how they sit in
    memory, and how they relate to the set of live blocks. */
module FreeList {
  import opened Machine

  const ALIGN: int := 8
  const HEADER_SIZE: int := 8

  datatype Block = Block(addr: int, size: int) {
    function End(): int { addr + size }
  }

  /** Live blocks: block address to whole size, header included. */
  type Live = map<int, int>

  // ---------- Addresses covered by free and by live blocks ----------

  ghost predicate Holds(blocks: seq<Block>, x: int) {
    exists b :: b in blocks && b.addr <= x < b.End()
  }

  ghost predicate InLive(live: Live, x: int) {
    exists a :: a in live && a <= x < a + live[a]
  }

  /** `n` contiguous bytes at `a`, none of them in a live block. */
  ghost predicate Vacant(live: Live, a: int, n: int) {
    forall x :: a <= x < a + n ==> !InLive(live, x)
  }

  predicate Fits(b: Block, lo: int, hi: int) {
    lo <= b.addr && b.End() <= hi && HEADER_SIZE <= b.size
  }

  /** Address order with a non-empty space between neighbours: no two blocks touch. */
  ghost predicate Ordered(blocks: seq<Block>, lo: int, hi: int) {
    && (forall i :: 0 <= i < |blocks| ==> Fits(blocks[i], lo, hi))
    && (forall i, j :: 0 <= i < j < |blocks| ==> blocks[i].End() < blocks[j].addr)
  }

  ghost predicate LiveOk(live: Live, lo: int, hi: int) {
    && (forall a :: a in live ==> Fits(Block(a, live[a]), lo, hi) && live[a] > HEADER_SIZE)
    && (forall a, b :: a in live && b in live && a < b ==> a + live[a] <= b)
  }

  /** `free` lists, in address order, exactly the maximal runs of bytes of
      `[lo, hi)` that no live block covers. */
  ghost predicate Gaps(free: seq<Block>, live: Live, lo: int, hi: int) {
    && Ordered(free, lo, hi)
    && (forall x :: lo <= x < hi ==> (Holds(free, x) <==> !InLive(live, x)))
  }

  // ---------- Canonicity ----------

  lemma HoldsTail(blocks: seq<Block>, lo: int, hi: int, x: int)
    requires Ordered(blocks, lo, hi) && blocks != []
    ensures Holds(blocks[1..], x) <==> Holds(blocks, x) && x >= blocks[0].End()
  {
    assert blocks == [blocks[0]] + blocks[1..];
    forall b | b in blocks[1..]
      ensures b.addr > blocks[0].End()
    {
      var i :| 0 <= i < |blocks[1..]| && blocks[1..][i] == b;
      assert blocks[i + 1] == b;
    }
  }

  lemma HoldsSome(f: seq<Block>, lo: int, hi: int)
    requires Ordered(f, lo, hi)
    ensures f != [] ==> Holds(f, f[0].addr)
  {
    assert f != [] ==> f[0] in f;
  }

  lemma HeadBelow(f: seq<Block>, g: seq<Block>, lo: int, hi: int)
    requires Ordered(f, lo, hi) && Ordered(g, lo, hi) && f != [] && g != []
    requires forall x :: Holds(g, x) ==> Holds(f, x)
    ensures f[0].addr <= g[0].addr
  {
    assert g[0] in g && Holds(g, g[0].addr);
    var b :| b in f && b.addr <= g[0].addr < b.End();
    var i :| 0 <= i < |f| && f[i] == b;
  }

  lemma HeadWithin(f: seq<Block>, g: seq<Block>, lo: int, hi: int)
    requires Ordered(f, lo, hi) && Ordered(g, lo, hi) && f != [] && g != []
    requires forall x :: Holds(f, x) ==> Holds(g, x)
    requires f[0].addr == g[0].addr
    ensures f[0].End() <= g[0].End()
  {
    var e := g[0].End();
    assert !Holds(g, e);
    assert f[0] in f;
    assert f[0].addr <= e < f[0].End() ==> Holds(f, e);
  }

  lemma TailsAgree(f: seq<Block>, g: seq<Block>, lo: int, hi: int, x: int)
    requires Ordered(f, lo, hi) && Ordered(g, lo, hi) && f != [] && g != [] && f[0] == g[0]
    requires Holds(f, x) <==> Holds(g, x)
    ensures Holds(f[1..], x) <==> Holds(g[1..], x)
  {
    HoldsTail(f, lo, hi, x);
    HoldsTail(g, lo, hi, x);
  }

  /** An ordered list of blocks that do not touch is determined by the bytes it covers. */
  lemma {:induction false} OrderedUnique(f: seq<Block>, g: seq<Block>, lo: int, hi: int)
    requires Ordered(f, lo, hi) && Ordered(g, lo, hi)
    requires forall x :: Holds(f, x) <==> Holds(g, x)
    ensures f == g
  {
    if f == [] || g == [] {
      HoldsSome(f, lo, hi);
      HoldsSome(g, lo, hi);
    } else {
      assert f[0] == g[0] by {
        HeadBelow(f, g, lo, hi);
        HeadBelow(g, f, lo, hi);
        HeadWithin(f, g, lo, hi);
        HeadWithin(g, f, lo, hi);
      }
      assert f[1..] == g[1..] by {
        forall x ensures Holds(f[1..], x) <==> Holds(g[1..], x) { TailsAgree(f, g, lo, hi, x); }
        OrderedUnique(f[1..], g[1..], lo, hi);
      }
      assert f == [f[0]] + f[1..];
    }
  }

  /** The free list is a function of the live set alone. */
  lemma GapsUnique(f: seq<Block>, g: seq<Block>, live: Live, lo: int, hi: int)
    requires Gaps(f, live, lo, hi) && Gaps(g, live, lo, hi)
    ensures f == g
  {
    forall x ensures Holds(f, x) <==> Holds(g, x) {
      if lo <= x < hi {} else { assert !Holds(f, x) && !Holds(g, x); }
    }
    OrderedUnique(f, g, lo, hi);
  }

  lemma WholeHeapGaps(lo: int, hi: int)
    requires lo + HEADER_SIZE <= hi
    ensures Gaps([Block(lo, hi - lo)], map[], lo, hi)
  {
    var whole := [Block(lo, hi - lo)];
    forall x | lo <= x < hi ensures Holds(whole, x) && !InLive(map[], x) {
      assert whole[0] in whole;
    }
  }

  /** With nothing live, the list is the whole heap as one block. */
  lemma EmptyHeapIsOneBlock(free: seq<Block>, lo: int, hi: int)
    requires Gaps(free, map[], lo, hi)
    requires lo + HEADER_SIZE <= hi
    ensures free == [Block(lo, hi - lo)] && Total(free) == hi - lo
  {
    WholeHeapGaps(lo, hi);
    GapsUnique(free, [Block(lo, hi - lo)], map[], lo, hi);
  }

  // ---------- Where a request fits ----------

  /** A vacant run lies inside one free block, because blocks never touch. */
  lemma RunInsideBlock(free: seq<Block>, live: Live, lo: int, hi: int, a: int, n: int) returns (i: int)
    requires Gaps(free, live, lo, hi)
    requires lo <= a && 0 < n && a + n <= hi && Vacant(live, a, n)
    ensures 0 <= i < |free| && free[i].addr <= a && a + n <= free[i].End()
  {
    assert Holds(free, a);
    var b :| b in free && b.addr <= a < b.End();
    i :| 0 <= i < |free| && free[i] == b;
    if b.End() < a + n {
      assert Holds(free, b.End()) by { assert !InLive(live, b.End()); }
    }
  }

  lemma BlockIsVacant(free: seq<Block>, live: Live, lo: int, hi: int, i: int, n: int)
    requires Gaps(free, live, lo, hi) && 0 <= i < |free| && n <= free[i].size
    ensures Vacant(live, free[i].addr, n)
  {
    forall x | free[i].addr <= x < free[i].addr + n ensures !InLive(live, x) {
      assert free[i] in free;
      assert Holds(free, x);
    }
  }

  /** First fit by definition: scan addresses upwards for `n` vacant bytes. */
  ghost function FirstFit(live: Live, lo: int, hi: int, n: int): (r: int)
    requires 0 < n
    ensures r == hi || (lo <= r && r + n <= hi && Vacant(live, r, n))
    ensures forall a :: lo <= a < r && a + n <= hi ==> !Vacant(live, a, n)
    decreases hi - lo
  {
    if lo + n > hi then hi
    else if Vacant(live, lo, n) then lo
    else FirstFit(live, lo + 1, hi, n)
  }

  /** The first list block large enough starts at the first fit. */
  lemma FirstBlockIsFirstFit(free: seq<Block>, live: Live, lo: int, hi: int, n: int, i: int)
    requires Gaps(free, live, lo, hi) && 0 < n
    requires 0 <= i < |free| && n <= free[i].size
    requires forall j :: 0 <= j < i ==> free[j].size < n
    ensures FirstFit(live, lo, hi, n) == free[i].addr
  {
    BlockIsVacant(free, live, lo, hi, i, n);
    assert free[i] in free;
    var a := FirstFit(live, lo, hi, n);
    if a != free[i].addr {
      assert a < free[i].addr;
      var j := RunInsideBlock(free, live, lo, hi, a, n);
      assert false;
    }
  }

  lemma NoBlockNoFit(free: seq<Block>, live: Live, lo: int, hi: int, n: int)
    requires Gaps(free, live, lo, hi) && 0 < n
    requires forall j :: 0 <= j < |free| ==> free[j].size < n
    ensures FirstFit(live, lo, hi, n) == hi
  {
    var a := FirstFit(live, lo, hi, n);
    if a != hi {
      var j := RunInsideBlock(free, live, lo, hi, a, n);
      assert false;
    }
  }

  // ---------- Replacing a stretch of the list ----------

  function Splice(free: seq<Block>, i: int, j: int, mid: seq<Block>): seq<Block>
    requires 0 <= i <= j <= |free|
  {
    free[..i] + mid + free[j..]
  }

  /** `mid` stays clear of the blocks before position `i` and from position `j` on. */
  ghost predicate Clears(free: seq<Block>, i: int, j: int, mid: seq<Block>)
    requires 0 <= i <= j <= |free|
  {
    && (i > 0 ==> forall b :: b in mid ==> free[i - 1].End() < b.addr)
    && (j < |free| ==> forall b :: b in mid ==> b.End() < free[j].addr)
    && (mid == [] && 0 < i && j < |free| ==> free[i - 1].End() < free[j].addr)
  }

  lemma SpliceOrdered(free: seq<Block>, i: int, j: int, mid: seq<Block>, lo: int, hi: int)
    requires Ordered(free, lo, hi) && Ordered(mid, lo, hi)
    requires 0 <= i <= j <= |free| && |mid| <= 1 && Clears(free, i, j, mid)
    ensures Ordered(Splice(free, i, j, mid), lo, hi)
  {
    var s := Splice(free, i, j, mid);
    forall p | 0 <= p < |s| ensures Fits(s[p], lo, hi) {
      SpliceAt(free, i, j, mid, p);
    }
    forall p, q | 0 <= p < q < |s| ensures s[p].End() < s[q].addr {
      SpliceAt(free, i, j, mid, p);
      SpliceAt(free, i, j, mid, q);
      SplicePair(free, i, j, mid, lo, hi, p, q);
    }
  }

  lemma SpliceAt(free: seq<Block>, i: int, j: int, mid: seq<Block>, p: int)
    requires 0 <= i <= j <= |free| && 0 <= p < |Splice(free, i, j, mid)|
    ensures Splice(free, i, j, mid)[p] ==
            if p < i then free[p] else if p < i + |mid| then mid[p - i] else free[p + j - i - |mid|]
  {
  }

  lemma SplicePair(free: seq<Block>, i: int, j: int, mid: seq<Block>, lo: int, hi: int, p: int, q: int)
    requires Ordered(free, lo, hi) && Ordered(mid, lo, hi)
    requires 0 <= i <= j <= |free| && |mid| <= 1 && Clears(free, i, j, mid)
    requires 0 <= p < q < i + |mid| + |free| - j
    ensures (if p < i then free[p] else if p < i + |mid| then mid[p - i] else free[p + j - i - |mid|]).End() <
            (if q < i then free[q] else if q < i + |mid| then mid[q - i] else free[q + j - i - |mid|]).addr
  {
    assert p < i ==> free[p].End() <= free[i - 1].End();
    assert i + |mid| <= q ==> free[j].addr <= free[q + j - i - |mid|].addr;
    assert |mid| == 1 ==> mid[0] in mid;
  }

  lemma SpliceHolds(free: seq<Block>, i: int, j: int, mid: seq<Block>, x: int)
    requires 0 <= i <= j <= |free|
    ensures Holds(Splice(free, i, j, mid), x) <==> Holds(free[..i], x) || Holds(mid, x) || Holds(free[j..], x)
    ensures Holds(free, x) <==> Holds(free[..i], x) || Holds(free[i..j], x) || Holds(free[j..], x)
  {
    assert free == free[..i] + free[i..j] + free[j..];
  }

  /** Blocks on either side of a stretch share no byte with it. */
  lemma StretchDisjoint(free: seq<Block>, i: int, j: int, lo: int, hi: int, x: int)
    requires Ordered(free, lo, hi) && 0 <= i <= j <= |free|
    ensures Holds(free[i..j], x) ==> !Holds(free[..i], x) && !Holds(free[j..], x)
  {
    if Holds(free[i..j], x) {
      var b :| b in free[i..j] && b.addr <= x < b.End();
      var p :| i <= p < j && free[p] == b;
      assert forall c :: c in free[..i] ==> c.End() < b.addr;
      assert forall c :: c in free[j..] ==> b.End() < c.addr;
    }
  }

  lemma CarveCovers(free: seq<Block>, live: Live, lo: int, hi: int, i: int, n: int, mid: seq<Block>, x: int)
    requires Gaps(free, live, lo, hi) && 0 <= i < |free| && free[i].addr !in live
    requires 0 < n <= free[i].size && lo <= x < hi
    requires mid == if n == free[i].size then [] else [Block(free[i].addr + n, free[i].size - n)]
    ensures Holds(Splice(free, i, i + 1, mid), x) <==> !InLive(live[free[i].addr := n], x)
  {
    var b := free[i];
    SpliceHolds(free, i, i + 1, mid, x);
    StretchDisjoint(free, i, i + 1, lo, hi, x);
    assert free[i..i + 1] == [b];
    assert Holds([b], x) <==> b.addr <= x < b.End() by { assert [b][0] in [b]; }
    assert Holds(mid, x) <==> b.addr + n <= x < b.End() by { assert mid != [] ==> mid[0] in mid; }
    LiveAdded(live, b.addr, n, x);
  }

  /** A free block and a live block share no byte. */
  lemma FreeLiveDisjoint(free: seq<Block>, live: Live, lo: int, hi: int, i: int, a: int)
    requires Gaps(free, live, lo, hi) && LiveOk(live, lo, hi) && 0 <= i < |free| && a in live
    ensures a + live[a] <= free[i].addr || free[i].End() <= a
  {
    var x := if a <= free[i].addr then free[i].addr else a;
    assert free[i] in free;
    assert free[i].addr <= x < free[i].End() ==> Holds(free, x);
    assert a <= x < a + live[a] ==> InLive(live, x);
  }

  /** Carving `n` bytes off the front of block `i` and making them live. */
  lemma CarveGaps(free: seq<Block>, live: Live, lo: int, hi: int, i: int, n: int, mid: seq<Block>)
    requires Gaps(free, live, lo, hi) && LiveOk(live, lo, hi)
    requires 0 <= i < |free| && HEADER_SIZE < n && (n == free[i].size || n + HEADER_SIZE <= free[i].size)
    requires mid == if n == free[i].size then [] else [Block(free[i].addr + n, free[i].size - n)]
    ensures free[i].addr !in live
    ensures Gaps(Splice(free, i, i + 1, mid), live[free[i].addr := n], lo, hi)
    ensures LiveOk(live[free[i].addr := n], lo, hi)
  {
    forall a | a in live ensures a + live[a] <= free[i].addr || free[i].End() <= a {
      FreeLiveDisjoint(free, live, lo, hi, i, a);
    }
    assert free[i].addr !in live;
    var free' := Splice(free, i, i + 1, mid);
    assert Ordered(free', lo, hi) by { SpliceOrdered(free, i, i + 1, mid, lo, hi); }
    var live' := live[free[i].addr := n];
    forall x | lo <= x < hi ensures Holds(free', x) <==> !InLive(live', x) {
      CarveCovers(free, live, lo, hi, i, n, mid, x);
    }
  }

  lemma LiveAdded(live: Live, a: int, n: int, x: int)
    requires a !in live
    ensures InLive(live[a := n], x) <==> InLive(live, x) || a <= x < a + n
  {
    var live' := live[a := n];
    if InLive(live, x) {
      var c :| c in live && c <= x < c + live[c];
      assert c in live' && live'[c] == live[c];
    }
    if a <= x < a + n {
      assert a in live' && live'[a] == n;
    }
  }

  lemma LiveRemoved(live: Live, lo: int, hi: int, a: int, x: int)
    requires LiveOk(live, lo, hi) && a in live
    ensures InLive(live - {a}, x) <==> InLive(live, x) && !(a <= x < a + live[a])
  {
    var live' := live - {a};
    if InLive(live', x) {
      var c :| c in live' && c <= x < c + live'[c];
      assert c in live && c != a;
    }
    if InLive(live, x) && !(a <= x < a + live[a]) {
      var c :| c in live && c <= x < c + live[c];
      assert c in live';
    }
  }

  /** Giving a live block back and merging it with the free blocks it touches. */
  lemma ReleaseGaps(free: seq<Block>, live: Live, lo: int, hi: int, a: int, i: int, j: int, m: Block)
    requires Gaps(free, live, lo, hi) && LiveOk(live, lo, hi) && a in live
    requires 0 <= i <= j <= |free| && Fits(m, lo, hi) && Clears(free, i, j, [m])
    requires forall x :: m.addr <= x < m.End() <==> a <= x < a + live[a] || Holds(free[i..j], x)
    ensures Gaps(Splice(free, i, j, [m]), live - {a}, lo, hi)
    ensures LiveOk(live - {a}, lo, hi)
  {
    var free' := Splice(free, i, j, [m]);
    SpliceOrdered(free, i, j, [m], lo, hi);
    forall x | lo <= x < hi ensures Holds(free', x) <==> !InLive(live - {a}, x) {
      SpliceHolds(free, i, j, [m], x);
      assert Holds([m], x) <==> m.addr <= x < m.End() by { assert [m][0] in [m]; }
      LiveRemoved(live, lo, hi, a, x);
    }
  }

  // ---------- Sizes ----------

  function Total(blocks: seq<Block>): int {
    if blocks == [] then 0 else blocks[0].size + Total(blocks[1..])
  }

  lemma {:induction false} TotalConcat(s: seq<Block>, t: seq<Block>)
    ensures Total(s + t) == Total(s) + Total(t)
  {
    if s == [] {
      assert s + t == t;
    } else {
      assert (s + t)[1..] == s[1..] + t;
      TotalConcat(s[1..], t);
    }
  }

  lemma SpliceTotal(free: seq<Block>, i: int, j: int, mid: seq<Block>)
    requires 0 <= i <= j <= |free|
    ensures Total(Splice(free, i, j, mid)) == Total(free) - Total(free[i..j]) + Total(mid)
  {
    assert free == free[..i] + free[i..j] + free[j..];
    TotalConcat(free[..i], free[i..j]);
    TotalConcat(free[..i] + free[i..j], free[j..]);
    TotalConcat(free[..i], mid);
    TotalConcat(free[..i] + mid, free[j..]);
  }

  lemma CarveTotal(free: seq<Block>, i: int, n: int, mid: seq<Block>)
    requires 0 <= i < |free|
    requires mid == if n == free[i].size then [] else [Block(free[i].addr + n, free[i].size - n)]
    ensures Total(Splice(free, i, i + 1, mid)) == Total(free) - n
  {
    SpliceTotal(free, i, i + 1, mid);
    assert free[i..i + 1] == [free[i]];
  }

  lemma {:induction false} TotalBounded(blocks: seq<Block>, lo: int, hi: int)
    requires Ordered(blocks, lo, hi) && lo <= hi
    ensures 0 <= Total(blocks) <= hi - lo
  {
    if blocks != [] {
      var rest := blocks[1..];
      assert blocks[0] in blocks;
      assert forall i :: 0 <= i < |rest| ==> rest[i] == blocks[i + 1];
      TotalBounded(rest, blocks[0].End(), hi);
    }
  }

  // ---------- The list in memory ----------

  function HeadOf(blocks: seq<Block>, tail: int): int {
    if blocks == [] then tail else blocks[0].addr
  }

  predicate Header(cells: Cells, b: Block, next: int) {
    && 0 <= b.addr && b.addr + 4 < |cells|
    && cells[b.addr] == b.size && cells[b.addr + 4] == next
  }

  /** Address of the block after position `i`. */
  function After(blocks: seq<Block>, i: int, tail: int): int
    requires 0 <= i < |blocks|
  {
    if i + 1 < |blocks| then blocks[i + 1].addr else tail
  }

  /** Each block's header holds its size and the address of the block after it;
      the last one points at `tail`. */
  ghost predicate Linked(cells: Cells, blocks: seq<Block>, tail: int) {
    forall i {:trigger After(blocks, i, tail)} :: 0 <= i < |blocks| ==> Header(cells, blocks[i], After(blocks, i, tail))
  }

  /** Rewriting a stretch of the list: headers outside positions `i..j` stay,
      except that the block before position `i` gets the new successor. */
  lemma SpliceLinked(before: Cells, after: Cells, free: seq<Block>, i: int, j: int, mid: seq<Block>)
    requires Linked(before, free, 0) && 0 <= i <= j <= |free|
    requires forall k {:trigger After(free, k, 0)} ::
      0 <= k < i - 1 || j <= k < |free| ==> Header(after, free[k], After(free, k, 0))
    requires 0 < i ==> Header(after, free[i - 1], HeadOf(mid + free[j..], 0))
    requires Linked(after, mid, HeadOf(free[j..], 0))
    ensures Linked(after, Splice(free, i, j, mid), 0)
  {
    var s := Splice(free, i, j, mid);
    forall p | 0 <= p < |s| ensures Header(after, s[p], After(s, p, 0)) {
      if p < i {
        assert s[p] == free[p];
        assert p == i - 1 ==> s[i..] == mid + free[j..];
        assert p < i - 1 ==> Header(after, free[p], After(free, p, 0));
      } else if p < i + |mid| {
        assert s[p] == mid[p - i] && s[i + |mid|..] == free[j..];
        assert Header(after, mid[p - i], After(mid, p - i, HeadOf(free[j..], 0)));
      } else {
        var q := p - i - |mid| + j;
        assert s[p] == free[q] && Header(after, free[q], After(free, q, 0));
      }
    }
  }

  // ---------- Alignment ----------

  predicate Aligned(b: Block) {
    Multiple(ALIGN, b.addr) && Multiple(ALIGN, b.size)
  }

  predicate AllAligned(blocks: seq<Block>) {
    blocks == [] || (Aligned(blocks[0]) && AllAligned(blocks[1..]))
  }

  lemma {:induction false} AlignedAt(blocks: seq<Block>, i: int)
    requires AllAligned(blocks) && 0 <= i < |blocks|
    ensures Aligned(blocks[i])
  {
    if i > 0 { AlignedAt(blocks[1..], i - 1); }
  }

  lemma {:induction false} AlignedConcat(s: seq<Block>, t: seq<Block>)
    ensures AllAligned(s + t) <==> AllAligned(s) && AllAligned(t)
  {
    if s == [] {
      assert s + t == t;
    } else {
      assert (s + t)[1..] == s[1..] + t;
      AlignedConcat(s[1..], t);
    }
  }

  lemma AlignedSplice(free: seq<Block>, i: int, j: int, mid: seq<Block>)
    requires AllAligned(free) && AllAligned(mid) && 0 <= i <= j <= |free|
    ensures AllAligned(Splice(free, i, j, mid))
  {
    assert free == free[..i] + free[i..j] + free[j..];
    AlignedConcat(free[..i] + free[i..j], free[j..]);
    AlignedConcat(free[..i], free[i..j]);
    AlignedConcat(free[..i], mid);
    AlignedConcat(free[..i] + mid, free[j..]);
  }

  /** Cutting an aligned number of bytes off block `i` keeps everything aligned. */
  lemma CutAligned(free: seq<Block>, live: Live, i: int, n: int, mid: seq<Block>)
    requires AllAligned(free) && LiveAligned(live) && 0 <= i < |free| && n <= free[i].size && Multiple(ALIGN, n)
    requires mid == if n == free[i].size then [] else [Block(free[i].addr + n, free[i].size - n)]
    ensures Multiple(ALIGN, free[i].addr) && Multiple(ALIGN, free[i].addr + n)
    ensures n < free[i].size ==> n + HEADER_SIZE <= free[i].size
    ensures AllAligned(Splice(free, i, i + 1, mid)) && LiveAligned(live[free[i].addr := n])
  {
    AlignedAt(free, i);
    MultipleSum(ALIGN, free[i].addr, n);
    MultipleDifference(ALIGN, free[i].size, n);
    AlignedSplice(free, i, i + 1, mid);
  }

  ghost predicate LiveAligned(live: Live) {
    forall a :: a in live ==> Aligned(Block(a, live[a]))
  }

  // ---------- The heap invariant ----------

  /** Everything the allocator relies on between calls: the list in memory is
      exactly the gaps between live blocks, and live headers hold their sizes. */
  ghost predicate HeapInv(cells: Cells, head: int, free: seq<Block>, live: Live, lo: int, hi: int) {
    && 0 < lo <= hi < ADDRESS_SPACE
    && Populated(cells)
    && Gaps(free, live, lo, hi) && LiveOk(live, lo, hi)
    && head == HeadOf(free, 0) && Linked(cells, free, 0)
    && (forall a :: a in live ==> cells[a] == live[a])
  }

  lemma InitInv(before: Cells, lo: int, hi: int)
    requires Populated(before) && 0 < lo && lo + HEADER_SIZE <= hi < ADDRESS_SPACE
    ensures HeapInv(before[lo := hi - lo][lo + 4 := 0], lo, [Block(lo, hi - lo)], map[], lo, hi)
    ensures Total([Block(lo, hi - lo)]) == hi - lo
  {
    WholeHeapGaps(lo, hi);
  }

  /** What memory looks like once positions `i..j` of the list became `mid`:
      only bytes of `[a, e)` and the preceding link changed. */
  ghost predicate Edited(before: Cells, after: Cells, free: seq<Block>, i: int, j: int, mid: seq<Block>, a: int, e: int)
    requires 0 <= i <= j <= |free| && Populated(before)
    requires 0 < i ==> 0 <= free[i - 1].addr < ADDRESS_SPACE - 4
  {
    && Populated(after)
    && (forall x :: 0 <= x < ADDRESS_SPACE && !(a <= x < e) && !(0 < i && x == free[i - 1].addr + 4) ==>
          after[x] == before[x])
    && (0 < i ==> after[free[i - 1].addr + 4] == HeadOf(mid + free[j..], 0))
    && (mid != [] ==> Header(after, mid[0], HeadOf(free[j..], 0)))
  }

  /** An edit confined to bytes outside the other free blocks keeps the list linked. */
  lemma EditedLinked(before: Cells, after: Cells, free: seq<Block>, i: int, j: int, mid: seq<Block>, a: int, e: int,
                     lo: int, hi: int)
    requires Ordered(free, lo, hi) && 0 < lo && hi < ADDRESS_SPACE && Populated(before) && Linked(before, free, 0)
    requires 0 <= i <= j <= |free| && |mid| <= 1 && Edited(before, after, free, i, j, mid, a, e)
    requires 0 < i ==> free[i - 1].End() <= a
    requires j < |free| ==> e <= free[j].addr
    ensures Linked(after, Splice(free, i, j, mid), 0)
  {
    assert forall k :: 0 <= k < i ==> free[k].End() <= free[i - 1].End();
    assert forall k :: j <= k < |free| ==> free[j].addr <= free[k].addr;
    forall k | 0 <= k < i - 1 || j <= k < |free| ensures Header(after, free[k], After(free, k, 0)) {
      assert Header(before, free[k], After(free, k, 0));
      assert 0 < i ==> free[i - 1].End() < free[k].addr || free[k].End() < free[i - 1].addr;
    }
    if 0 < i {
      assert Header(before, free[i - 1], After(free, i - 1, 0));
    }
    SpliceLinked(before, after, free, i, j, mid);
  }

  lemma EditedKeepsLive(before: Cells, after: Cells, free: seq<Block>, live: Live, lo: int, hi: int,
                        i: int, j: int, mid: seq<Block>, a: int, e: int, c: int)
    requires Gaps(free, live, lo, hi) && LiveOk(live, lo, hi) && 0 < lo && hi < ADDRESS_SPACE && Populated(before)
    requires 0 <= i <= j <= |free| && Edited(before, after, free, i, j, mid, a, e)
    requires c in live && !(a <= c < e)
    ensures after[c] == before[c]
  {
    if 0 < i { FreeLiveDisjoint(free, live, lo, hi, i - 1, c); }
  }

  /** The bytes an allocation from block `i` may write: that block and the link before it. */
  predicate CarveTouches(free: seq<Block>, i: int, x: int)
    requires 0 <= i < |free|
  {
    free[i].addr <= x < free[i].End() || (0 < i && x == free[i - 1].addr + 4)
  }

  /** Allocation: block `i` loses its first `n` bytes to a new live block. */
  lemma CarveInv(before: Cells, after: Cells, head: int, free: seq<Block>, live: Live, lo: int, hi: int,
                 i: int, n: int, next: int, newNext: int) returns (free': seq<Block>)
    requires HeapInv(before, head, free, live, lo, hi) && AllAligned(free) && LiveAligned(live)
    requires 0 <= i < |free| && HEADER_SIZE < n <= free[i].size && Multiple(ALIGN, n)
    requires Header(before, free[i], next)
    requires newNext == if n == free[i].size then next else free[i].addr + n
    requires Populated(after)
    requires forall x :: 0 <= x < ADDRESS_SPACE && !CarveTouches(free, i, x) ==> after[x] == before[x]
    requires 0 < i ==> after[free[i - 1].addr + 4] == newNext
    requires n < free[i].size ==> Header(after, Block(newNext, free[i].size - n), next)
    requires after[free[i].addr] == n
    ensures HeapInv(after, if i == 0 then newNext else head, free', live[free[i].addr := n], lo, hi)
    ensures AllAligned(free') && LiveAligned(live[free[i].addr := n])
    ensures free[i].addr !in live && Total(free') == Total(free) - n
  {
    hide AllAligned, LiveAligned, Multiple, Total, Holds, InLive, Linked, Header, Edited;
    var mid := if n == free[i].size then [] else [Block(free[i].addr + n, free[i].size - n)];
    free' := Splice(free, i, i + 1, mid);
    CutAligned(free, live, i, n, mid);
    CarveGaps(free, live, lo, hi, i, n, mid);
    CarveEdited(before, after, free, lo, hi, i, n, next, newNext, mid);
    EditedLinked(before, after, free, i, i + 1, mid, free[i].addr, free[i].End(), lo, hi);
    CarveTotal(free, i, n, mid);
    forall a | a in live ensures after[a] == live[a] {
      FreeLiveDisjoint(free, live, lo, hi, i, a);
      EditedKeepsLive(before, after, free, live, lo, hi, i, i + 1, mid, free[i].addr, free[i].End(), a);
    }
  }

  lemma CarveEdited(before: Cells, after: Cells, free: seq<Block>, lo: int, hi: int,
                    i: int, n: int, next: int, newNext: int, mid: seq<Block>)
    requires Ordered(free, lo, hi) && 0 < lo && hi < ADDRESS_SPACE && Linked(before, free, 0)
    requires Populated(before) && Populated(after) && 0 <= i < |free| && HEADER_SIZE < n <= free[i].size
    requires Header(before, free[i], next)
    requires newNext == if n == free[i].size then next else free[i].addr + n
    requires mid == if n == free[i].size then [] else [Block(free[i].addr + n, free[i].size - n)]
    requires forall x :: 0 <= x < ADDRESS_SPACE && !CarveTouches(free, i, x) ==> after[x] == before[x]
    requires 0 < i ==> after[free[i - 1].addr + 4] == newNext
    requires n < free[i].size ==> Header(after, Block(newNext, free[i].size - n), next)
    ensures Edited(before, after, free, i, i + 1, mid, free[i].addr, free[i].End())
    ensures next == After(free, i, 0)
  {
    assert Header(before, free[i], After(free, i, 0));
  }

  lemma CarveOnlyFree(free: seq<Block>, live: Live, lo: int, hi: int, i: int, x: int)
    requires Gaps(free, live, lo, hi) && 0 <= i < |free| && !Holds(free, x)
    ensures !CarveTouches(free, i, x)
  {
    assert free[i] in free && (0 < i ==> free[i - 1] in free);
  }

  // ---------- Giving a block back ----------

  /** Position `k` splits the free list around the live block at `a`. */
  ghost predicate SplitsAt(free: seq<Block>, a: int, k: int) {
    && 0 <= k <= |free|
    && (forall q :: 0 <= q < k ==> free[q].addr < a)
    && (k < |free| ==> a <= free[k].addr)
  }

  predicate JoinsLeft(free: seq<Block>, a: int, k: int)
    requires 0 <= k <= |free|
  {
    0 < k && free[k - 1].End() == a
  }

  predicate JoinsRight(free: seq<Block>, e: int, k: int)
    requires 0 <= k <= |free|
  {
    k < |free| && e == free[k].addr
  }

  /** The block that results from freeing `b` at position `k`. */
  function Merged(free: seq<Block>, b: Block, k: int): Block
    requires 0 <= k <= |free|
  {
    var size := if JoinsRight(free, b.End(), k) then b.size + free[k].size else b.size;
    if JoinsLeft(free, b.addr, k) then Block(free[k - 1].addr, free[k - 1].size + size) else Block(b.addr, size)
  }

  lemma SplitBounds(free: seq<Block>, live: Live, lo: int, hi: int, a: int, k: int)
    requires Gaps(free, live, lo, hi) && LiveOk(live, lo, hi) && a in live && SplitsAt(free, a, k)
    ensures 0 < k ==> lo <= free[k - 1].addr && free[k - 1].addr + HEADER_SIZE <= free[k - 1].End() <= a
    ensures k < |free| ==> a + live[a] <= free[k].addr && HEADER_SIZE <= free[k].size && free[k].End() <= hi
    ensures lo <= a && HEADER_SIZE < live[a] && a + live[a] <= hi
    ensures 1 < k ==> free[k - 2].End() < free[k - 1].addr
    ensures k + 1 < |free| ==> free[k].End() < free[k + 1].addr
  {
    if 0 < k { FreeLiveDisjoint(free, live, lo, hi, k - 1, a); }
    if k < |free| { FreeLiveDisjoint(free, live, lo, hi, k, a); }
  }

  lemma MergedCovers(free: seq<Block>, b: Block, k: int, i: int, j: int, x: int)
    requires 0 <= k <= |free| && 0 < b.size
    requires i == (if JoinsLeft(free, b.addr, k) then k - 1 else k)
    requires j == (if JoinsRight(free, b.End(), k) then k + 1 else k)
    requires 0 < k ==> 0 < free[k - 1].size
    requires k < |free| ==> 0 < free[k].size
    ensures var m := Merged(free, b, k); m.addr <= x < m.End() <==> b.addr <= x < b.End() || Holds(free[i..j], x)
  {
    var left, right := free[i..k], free[k..j];
    assert free[i..j] == left + right;
    assert Holds(free[i..j], x) <==> Holds(left, x) || Holds(right, x);
    assert Holds(left, x) <==> i < k && free[k - 1].addr <= x < free[k - 1].End() by {
      assert i < k ==> left == [free[k - 1]] && left[0] in left;
    }
    assert Holds(right, x) <==> k < j && free[k].addr <= x < free[k].End() by {
      assert k < j ==> right == [free[k]] && right[0] in right;
    }
  }

  lemma MergedGaps(free: seq<Block>, live: Live, lo: int, hi: int, a: int, k: int, i: int, j: int)
    requires Gaps(free, live, lo, hi) && LiveOk(live, lo, hi) && a in live && SplitsAt(free, a, k)
    requires i == (if JoinsLeft(free, a, k) then k - 1 else k)
    requires j == (if JoinsRight(free, a + live[a], k) then k + 1 else k)
    ensures var m := Merged(free, Block(a, live[a]), k);
      && Gaps(Splice(free, i, j, [m]), live - {a}, lo, hi) && LiveOk(live - {a}, lo, hi)
      && Total(Splice(free, i, j, [m])) == Total(free) + live[a]
  {
    var b := Block(a, live[a]);
    var m := Merged(free, b, k);
    SplitBounds(free, live, lo, hi, a, k);
    forall x ensures m.addr <= x < m.End() <==> a <= x < a + live[a] || Holds(free[i..j], x) {
      MergedCovers(free, b, k, i, j, x);
    }
    ReleaseGaps(free, live, lo, hi, a, i, j, m);
    MergedTotal(free, b, k, i, j);
  }

  lemma OneTotal(blocks: seq<Block>, a: int, b: int)
    requires 0 <= a <= b <= |blocks| && b <= a + 1
    ensures Total(blocks[a..b]) == if a < b then blocks[a].size else 0
  {
    assert a < b ==> blocks[a..b] == [blocks[a]];
  }

  lemma MergedTotal(free: seq<Block>, b: Block, k: int, i: int, j: int)
    requires 0 <= k <= |free|
    requires i == (if JoinsLeft(free, b.addr, k) then k - 1 else k)
    requires j == (if JoinsRight(free, b.End(), k) then k + 1 else k)
    ensures Total(Splice(free, i, j, [Merged(free, b, k)])) == Total(free) + b.size
  {
    hide Splice, Total;
    var m := Merged(free, b, k);
    SpliceTotal(free, i, j, [m]);
    OneTotal([m], 0, 1);
    assert [m][0..1] == [m];
    assert free[i..j] == free[i..k] + free[k..j];
    TotalConcat(free[i..k], free[k..j]);
    OneTotal(free, i, k);
    OneTotal(free, k, j);
  }

  lemma MergedIsAligned(free: seq<Block>, b: Block, k: int)
    requires AllAligned(free) && Aligned(b) && 0 <= k <= |free|
    ensures Aligned(Merged(free, b, k))
  {
    hide Multiple, AllAligned;
    var size := b.size;
    if JoinsRight(free, b.End(), k) {
      AlignedAt(free, k);
      MultipleSum(ALIGN, size, free[k].size);
      size := size + free[k].size;
    }
    if JoinsLeft(free, b.addr, k) {
      AlignedAt(free, k - 1);
      MultipleSum(ALIGN, free[k - 1].size, size);
    }
  }

  lemma MergedAligned(free: seq<Block>, live: Live, a: int, k: int, i: int, j: int)
    requires AllAligned(free) && LiveAligned(live) && a in live
    requires 0 <= k <= |free| && 0 <= i <= j <= |free|
    ensures LiveAligned(live - {a})
    ensures AllAligned(Splice(free, i, j, [Merged(free, Block(a, live[a]), k)]))
  {
    assert LiveAligned(live - {a}) by { hide Multiple; }
    var m := Merged(free, Block(a, live[a]), k);
    assert Aligned(Block(a, live[a]));
    MergedIsAligned(free, Block(a, live[a]), k);
    assert AllAligned([m]) by { hide Multiple; }
    hide *;
    AlignedSplice(free, i, j, [m]);
  }

  /** The bytes a free of the block at `a` may write: that block and the header before it. */
  predicate ReleaseTouches(free: seq<Block>, a: int, size: int, k: int, x: int)
    requires 0 <= k <= |free|
  {
    a <= x < a + size || (0 < k && (x == free[k - 1].addr + 4 || (JoinsLeft(free, a, k) && x == free[k - 1].addr)))
  }

  /** Deallocation: the live block at `a` becomes part of the free block it merges into. */
  lemma ReleaseInv(before: Cells, after: Cells, head: int, free: seq<Block>, live: Live, lo: int, hi: int,
                   a: int, k: int, next: int) returns (free': seq<Block>)
    requires HeapInv(before, head, free, live, lo, hi) && AllAligned(free) && LiveAligned(live)
    requires a in live && SplitsAt(free, a, k) && Populated(after)
    requires next == HeadOf(free[if JoinsRight(free, a + live[a], k) then k + 1 else k..], 0)
    requires forall x :: 0 <= x < ADDRESS_SPACE && !ReleaseTouches(free, a, live[a], k, x) ==> after[x] == before[x]
    requires Header(after, Merged(free, Block(a, live[a]), k), next)
    requires 0 < k && !JoinsLeft(free, a, k) ==> after[free[k - 1].addr + 4] == a
    ensures HeapInv(after, if k == 0 then a else head, free', live - {a}, lo, hi)
    ensures AllAligned(free') && LiveAligned(live - {a}) && Total(free') == Total(free) + live[a]
    ensures forall x :: a <= x < a + live[a] ==> Holds(free', x)
    ensures forall x :: 0 <= x < ADDRESS_SPACE && !Holds(free', x) ==> after[x] == before[x]
  {
    var b := Block(a, live[a]);
    var i := if JoinsLeft(free, a, k) then k - 1 else k;
    var j := if JoinsRight(free, b.End(), k) then k + 1 else k;
    var m := Merged(free, b, k);
    free' := Splice(free, i, j, [m]);
    MergedGaps(free, live, lo, hi, a, k, i, j);
    MergedAligned(free, live, a, k, i, j);
    SplitBounds(free, live, lo, hi, a, k);
    ReleaseLinked(before, after, free, live, lo, hi, a, k, i, j, next);
    forall c | c in live - {a} ensures after[c] == live[c] {
      ReleaseKeepsLive(before, after, free, live, lo, hi, a, k, c);
    }
    forall x | a <= x < a + live[a] ensures Holds(free', x) {
      LiveRemoved(live, lo, hi, a, x);
    }
    forall x | 0 <= x < ADDRESS_SPACE && !Holds(free', x) ensures after[x] == before[x] {
      ReleaseOnlyFree(free, live, lo, hi, a, k, i, j, x);
    }
  }

  lemma LinkedAt(cells: Cells, free: seq<Block>, k: int)
    requires Linked(cells, free, 0) && 0 <= k < |free|
    ensures Header(cells, free[k], After(free, k, 0))
  {
    assert Header(cells, free[k], After(free, k, 0));
  }

  lemma ReleaseEdited(before: Cells, after: Cells, free: seq<Block>, live: Live, lo: int, hi: int,
                      a: int, k: int, i: int, j: int, next: int)
    requires Gaps(free, live, lo, hi) && LiveOk(live, lo, hi) && 0 < lo && hi < ADDRESS_SPACE
    requires Populated(before) && Populated(after) && Linked(before, free, 0)
    requires a in live && SplitsAt(free, a, k)
    requires i == (if JoinsLeft(free, a, k) then k - 1 else k)
    requires j == (if JoinsRight(free, a + live[a], k) then k + 1 else k)
    requires next == HeadOf(free[j..], 0)
    requires forall x :: 0 <= x < ADDRESS_SPACE && !ReleaseTouches(free, a, live[a], k, x) ==> after[x] == before[x]
    requires Header(after, Merged(free, Block(a, live[a]), k), next)
    requires 0 < k && !JoinsLeft(free, a, k) ==> after[free[k - 1].addr + 4] == a
    ensures var m := Merged(free, Block(a, live[a]), k);
      (0 < i ==> 0 <= free[i - 1].addr < ADDRESS_SPACE - 4) && Edited(before, after, free, i, j, [m], m.addr, m.End())
  {
    hide LiveOk, Linked, Holds, InLive, Vacant, ReleaseTouches;
    var m := Merged(free, Block(a, live[a]), k);
    SplitBounds(free, live, lo, hi, a, k);
    if 1 < k {
      LinkedAt(before, free, k - 2);
      ReleaseSparesEarlier(free, live, lo, hi, a, k);
    }
    assert ([m] + free[j..])[0] == m;
    forall x | 0 <= x < ADDRESS_SPACE && !(m.addr <= x < m.End()) && !(0 < i && x == free[i - 1].addr + 4)
      ensures after[x] == before[x]
    {
      ReleaseOutside(free, live, lo, hi, a, k, i, x);
    }
  }

  /** A block two places back keeps its link when the freed block joins its neighbour. */
  lemma ReleaseSparesEarlier(free: seq<Block>, live: Live, lo: int, hi: int, a: int, k: int)
    requires Gaps(free, live, lo, hi) && LiveOk(live, lo, hi) && a in live && SplitsAt(free, a, k) && 1 < k
    ensures !ReleaseTouches(free, a, live[a], k, free[k - 2].addr + 4)
  {
    hide Holds, InLive, Vacant;
    SplitBounds(free, live, lo, hi, a, k);
  }

  lemma ReleaseOutside(free: seq<Block>, live: Live, lo: int, hi: int, a: int, k: int, i: int, x: int)
    requires Gaps(free, live, lo, hi) && LiveOk(live, lo, hi) && a in live && SplitsAt(free, a, k)
    requires i == (if JoinsLeft(free, a, k) then k - 1 else k)
    requires var m := Merged(free, Block(a, live[a]), k); !(m.addr <= x < m.End())
    requires !(0 < i && x == free[i - 1].addr + 4)
    ensures !ReleaseTouches(free, a, live[a], k, x)
  {
    hide Holds, InLive, Vacant;
    SplitBounds(free, live, lo, hi, a, k);
  }

  lemma ReleaseLinked(before: Cells, after: Cells, free: seq<Block>, live: Live, lo: int, hi: int,
                      a: int, k: int, i: int, j: int, next: int)
    requires Gaps(free, live, lo, hi) && LiveOk(live, lo, hi) && 0 < lo && hi < ADDRESS_SPACE
    requires Populated(before) && Populated(after) && Linked(before, free, 0)
    requires a in live && SplitsAt(free, a, k)
    requires i == (if JoinsLeft(free, a, k) then k - 1 else k)
    requires j == (if JoinsRight(free, a + live[a], k) then k + 1 else k)
    requires next == HeadOf(free[j..], 0)
    requires forall x :: 0 <= x < ADDRESS_SPACE && !ReleaseTouches(free, a, live[a], k, x) ==> after[x] == before[x]
    requires Header(after, Merged(free, Block(a, live[a]), k), next)
    requires 0 < k && !JoinsLeft(free, a, k) ==> after[free[k - 1].addr + 4] == a
    ensures Linked(after, Splice(free, i, j, [Merged(free, Block(a, live[a]), k)]), 0)
  {
    var m := Merged(free, Block(a, live[a]), k);
    ReleaseEdited(before, after, free, live, lo, hi, a, k, i, j, next);
    SplitBounds(free, live, lo, hi, a, k);
    hide Edited, Linked, Header, Holds, InLive, ReleaseTouches;
    EditedLinked(before, after, free, i, j, [m], m.addr, m.End(), lo, hi);
  }

  lemma ReleaseKeepsLive(before: Cells, after: Cells, free: seq<Block>, live: Live, lo: int, hi: int,
                         a: int, k: int, c: int)
    requires Gaps(free, live, lo, hi) && LiveOk(live, lo, hi) && 0 < lo && hi < ADDRESS_SPACE
    requires Populated(before) && Populated(after) && a in live && SplitsAt(free, a, k)
    requires forall x :: 0 <= x < ADDRESS_SPACE && !ReleaseTouches(free, a, live[a], k, x) ==> after[x] == before[x]
    requires c in live && c != a
    ensures after[c] == before[c]
  {
    if 0 < k { FreeLiveDisjoint(free, live, lo, hi, k - 1, c); }
    assert !ReleaseTouches(free, a, live[a], k, c);
  }

  lemma ReleaseOnlyFree(free: seq<Block>, live: Live, lo: int, hi: int, a: int, k: int, i: int, j: int, x: int)
    requires Gaps(free, live, lo, hi) && LiveOk(live, lo, hi) && a in live && SplitsAt(free, a, k)
    requires i == (if JoinsLeft(free, a, k) then k - 1 else k)
    requires j == (if JoinsRight(free, a + live[a], k) then k + 1 else k)
    requires !Holds(Splice(free, i, j, [Merged(free, Block(a, live[a]), k)]), x)
    ensures !ReleaseTouches(free, a, live[a], k, x)
  {
    var m := Merged(free, Block(a, live[a]), k);
    SplitBounds(free, live, lo, hi, a, k);
    SpliceHolds(free, i, j, [m], x);
    assert [m][0] in [m];
    assert 0 < i ==> free[..i][i - 1] in free[..i];
  }

  /** A word of some live block other than its size field. */
  ghost predicate InBody(live: Live, x: int) {
    exists a :: a in live && a + 4 <= x < a + live[a]
  }

  /** Clients that write only behind the size fields of live blocks (or outside the heap) can
      neither break the free list nor change a size that a later free reads. */
  lemma ClientWritesKeepHeap(before: Cells, after: Cells, head: int, free: seq<Block>, live: Live, lo: int, hi: int)
    requires HeapInv(before, head, free, live, lo, hi) && Populated(after)
    requires forall x :: lo <= x < hi && !InBody(live, x) ==> after[x] == before[x]
    ensures HeapInv(after, head, free, live, lo, hi)
  {
    forall i | 0 <= i < |free| ensures Header(after, free[i], After(free, i, 0)) {
      forall a | a in live ensures a + live[a] <= free[i].addr || free[i].End() <= a {
        FreeLiveDisjoint(free, live, lo, hi, i, a);
      }
      assert !InBody(live, free[i].addr) && !InBody(live, free[i].addr + 4);
    }
    forall a | a in live ensures after[a] == live[a] {
      assert !InBody(live, a);
    }
  }
}
