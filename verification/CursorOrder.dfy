/** The order in which the bump cursor yields frames, and when it repeats one. */
module CursorOrder {
  import opened Frames
  import opened Sequences

  /** The unreserved frames of `lo .. hi`, ascending. */
  ghost function Unreserved(pool: Pool, lo: int, hi: int): (s: seq<int>)
    ensures forall i :: i in s <==> lo <= i < hi && !Reserved(pool, i)
    decreases hi - lo
  {
    if lo >= hi then []
    else (if Reserved(pool, lo) then [] else [lo]) + Unreserved(pool, lo + 1, hi)
  }

  /** What the cursor at frame `f` of region `c` still has to yield. */
  ghost function Ahead(pool: Pool, c: int, f: int): seq<int>
    requires 0 <= c
    decreases |pool.regions| - c
  {
    if c >= |pool.regions| then []
    else Unreserved(pool, f, pool.regions[c].end) + Ahead(pool, c + 1, EnterRegion(pool, c + 1, 0))
  }

  /** Everything a new cursor yields. */
  ghost function YieldOrder(pool: Pool): seq<int> {
    Ahead(pool, 0, EnterRegion(pool, 0, 0))
  }

  lemma AheadStep(pool: Pool, c: int, f: int)
    requires 0 <= c < |pool.regions|
    ensures f < pool.regions[c].end ==>
      Ahead(pool, c, f) == (if Reserved(pool, f) then [] else [f]) + Ahead(pool, c, f + 1)
    ensures f >= pool.regions[c].end ==> Ahead(pool, c, f) == Ahead(pool, c + 1, EnterRegion(pool, c + 1, f))
  {
    if f < pool.regions[c].end {
      var rest := Ahead(pool, c + 1, EnterRegion(pool, c + 1, 0));
      var here := if Reserved(pool, f) then [] else [f];
      assert here + Unreserved(pool, f + 1, pool.regions[c].end) + rest
          == here + (Unreserved(pool, f + 1, pool.regions[c].end) + rest);
    }
  }

  lemma AheadEnd(pool: Pool, f: int)
    ensures Ahead(pool, |pool.regions|, f) == []
  {
  }

  lemma {:induction false} UnreservedOnce(pool: Pool, lo: int, hi: int)
    ensures NoDuplicates(Unreserved(pool, lo, hi))
    decreases hi - lo
  {
    if lo < hi {
      UnreservedOnce(pool, lo + 1, hi);
      var rest := Unreserved(pool, lo + 1, hi);
      assert forall k :: 0 <= k < |rest| ==> rest[k] in rest;
    }
  }

  /** Frame `i` is still to come exactly when some region from `c` on holds it unreserved. */
  lemma {:induction false} AheadHolds(pool: Pool, c: int, i: int)
    requires 0 <= c <= |pool.regions|
    ensures i in Ahead(pool, c, EnterRegion(pool, c, 0)) <==>
      !Reserved(pool, i) && exists r :: c <= r && InRegion(pool, r, i)
    decreases |pool.regions| - c
  {
    if c < |pool.regions| {
      AheadHolds(pool, c + 1, i);
      assert InRegion(pool, c, i) <==> pool.regions[c].start <= i < pool.regions[c].end;
    }
  }

  lemma ConcatOnce(s: seq<int>, t: seq<int>)
    ensures NoDuplicates(s + t) <==> NoDuplicates(s) && NoDuplicates(t) && forall i :: i in s ==> i !in t
  {
    var st := s + t;
    assert forall k :: 0 <= k < |s| ==> st[k] == s[k];
    assert forall k :: 0 <= k < |t| ==> st[|s| + k] == t[k];
    if NoDuplicates(st) {
      forall i | i in s ensures i !in t {
        var k :| 0 <= k < |s| && s[k] == i;
        assert st[k] == i && forall l :: 0 <= l < |t| ==> t[l] == st[|s| + l];
      }
    }
    if NoDuplicates(s) && NoDuplicates(t) && forall i :: i in s ==> i !in t {
      forall k, l | 0 <= k < l < |st| ensures st[k] != st[l] {
        assert k < |s| ==> st[k] in s;
        assert l >= |s| ==> st[l] in t && st[l] == t[l - |s|];
        assert k >= |s| ==> st[k] == t[k - |s|];
      }
    }
  }

  /** No allocatable frame lies in two regions from `c` on. */
  ghost predicate DisjointFrom(pool: Pool, c: int) {
    forall r, s, i :: c <= r < s && InRegion(pool, r, i) && InRegion(pool, s, i) ==> Reserved(pool, i)
  }

  lemma {:induction false} AheadOnce(pool: Pool, c: int)
    requires 0 <= c <= |pool.regions|
    ensures NoDuplicates(Ahead(pool, c, EnterRegion(pool, c, 0))) <==> DisjointFrom(pool, c)
    decreases |pool.regions| - c
  {
    if c < |pool.regions| {
      var here, rest := Unreserved(pool, pool.regions[c].start, pool.regions[c].end),
        Ahead(pool, c + 1, EnterRegion(pool, c + 1, 0));
      AheadOnce(pool, c + 1);
      UnreservedOnce(pool, pool.regions[c].start, pool.regions[c].end);
      ConcatOnce(here, rest);
      forall i ensures i in here <==> InRegion(pool, c, i) && !Reserved(pool, i) {}
      forall i ensures i in rest <==> !Reserved(pool, i) && exists r :: c < r && InRegion(pool, r, i) {
        AheadHolds(pool, c + 1, i);
      }
      DisjointSplit(pool, c);
    }
  }

  lemma DisjointSplit(pool: Pool, c: int)
    ensures DisjointFrom(pool, c) <==>
      && DisjointFrom(pool, c + 1)
      && forall s, i :: c < s && InRegion(pool, c, i) && InRegion(pool, s, i) ==> Reserved(pool, i)
  {
  }

  /** The cursor never yields a frame twice exactly when no allocatable frame lies in two regions. */
  lemma YieldsOnce(pool: Pool)
    ensures NoDuplicates(YieldOrder(pool)) <==> Disjoint(pool)
  {
    AheadOnce(pool, 0);
    if DisjointFrom(pool, 0) {
      forall r, s, i | InRegion(pool, r, i) && InRegion(pool, s, i) && !Reserved(pool, i) ensures r == s {
        assert r < s || s < r || r == s;
      }
    }
  }

  /** The cursor yields exactly the allocatable frames. */
  lemma YieldsAll(pool: Pool, i: int)
    ensures i in YieldOrder(pool) <==> Managed(pool, i)
  {
    AheadHolds(pool, 0, i);
  }
}
