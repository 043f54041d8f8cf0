/** Consequences of well-formedness: the free blocks are a function of the set of free frames. */
module BuddyTheory {
  import opened Bits
  import opened BuddySpec

  /** A naturally aligned run of 2^k free frames. */
  ghost predicate FreeRun(fa: seq<int>, i: nat, k: nat) {
    Aligned(i, k) && i + Pow2(k) <= |fa| && forall f: nat :: InBlock(i, k, f) ==> IsFree(fa, f)
  }

  /** The block twice the size that encloses block i of order k. */
  function Parent(i: nat, k: nat): nat
    requires Aligned(i, k)
  {
    XorIsOtherHalf(i, k);
    if Aligned(i, k + 1) then i else i - Pow2(k)
  }

  /** A free run that no larger free run encloses. */
  ghost predicate MaximalRun(fa: seq<int>, i: nat, k: nat) {
    k <= MAX_ORDER && FreeRun(fa, i, k) && (k < MAX_ORDER ==> !FreeRun(fa, Parent(i, k), k + 1))
  }

  lemma HeadIsRun(fa: seq<int>, i: nat, k: nat)
    requires WF(fa, 0, 0) && Head(fa, 0, 0, i, k)
    ensures FreeRun(fa, i, k)
  {
  }

  lemma HeadsDisjoint(fa: seq<int>, i: nat, k: nat, j: nat, m: nat)
    requires WF(fa, 0, 0) && Head(fa, 0, 0, i, k) && Head(fa, 0, 0, j, m) && j <= i < j + Pow2(m)
    ensures i == j && k == m
  {
  }

  lemma BlockStart(fa: seq<int>, j: nat, m: nat)
    requires WF(fa, 0, 0) && Head(fa, 0, 0, j, m)
    ensures Aligned(j, m) && j + Pow2(m) <= |fa|
  {
    assert WholeBlock(fa, 0, 0, j, m);
  }

  /** Every aligned run of free frames lies inside a single free block. */
  lemma {:induction false} RunInsideBlock(fa: seq<int>, i: nat, k: nat) returns (j: nat, m: nat)
    requires WF(fa, 0, 0) && FreeRun(fa, i, k) && k <= MAX_ORDER
    ensures Head(fa, 0, 0, j, m) && k <= m && j <= i && i + Pow2(k) <= j + Pow2(m)
    decreases k
  {
    if k == 0 {
      j, m := FrameInBlock(fa, i);
    } else {
      var h := k - 1;
      HalfRuns(fa, i, h);
      var other := BuddyOf(i, h);
      hide WF, FreeRun, BuddyOf;
      j, m := RunInsideBlock(fa, i, h);
      BlockStart(fa, j, m);
      if m == h {
        // The lower half is a block of its own, so the upper half cannot be one.
        SameBlock(fa, i, j, h);
        j, m := RunInsideBlock(fa, other, h);
        BlockStart(fa, j, m);
        OtherHalf(fa, i, h, j, m);
      }
      Nested(i, k, j, m);
    }
  }

  lemma FrameInBlock(fa: seq<int>, i: nat) returns (j: nat, m: nat)
    requires WF(fa, 0, 0) && FreeRun(fa, i, 0)
    ensures Head(fa, 0, 0, j, m) && j <= i && i + 1 <= j + Pow2(m)
  {
    assert InBlock(i, 0, i);
    assert FrameOk(fa, 0, 0, i);
    if fa[i] == FREE_PART {
      j, m :| Covers(fa, 0, 0, j, m, i);
    } else {
      j, m := i, fa[i];
    }
  }

  /** The two halves of a free run. */
  lemma HalfRuns(fa: seq<int>, i: nat, h: nat)
    requires FreeRun(fa, i, h + 1)
    ensures Aligned(i, h + 1) && Aligned(i, h) && BuddyOf(i, h) == i + Pow2(h) && Pow2(h + 1) == 2 * Pow2(h)
    ensures FreeRun(fa, i, h) && FreeRun(fa, i + Pow2(h), h)
  {
    AlignedWeaken(i, h, h + 1);
    XorIsOtherHalf(i, h);
    var other, k := i + Pow2(h), h + 1;
    assert forall f: nat :: InBlock(i, h, f) ==> InBlock(i, k, f);
    assert forall f: nat :: InBlock(other, h, f) ==> InBlock(i, k, f);
  }

  lemma SameBlock(fa: seq<int>, i: nat, j: nat, h: nat)
    requires Head(fa, 0, 0, j, h) && j <= i && i + Pow2(h) <= j + Pow2(h)
    ensures i == j
  {
  }

  /** Buddies are not both free, so the block of the upper half is larger than the half. */
  lemma OtherHalf(fa: seq<int>, i: nat, h: nat, j: nat, m: nat)
    requires WF(fa, 0, 0) && Head(fa, 0, 0, i, h) && h < MAX_ORDER && Head(fa, 0, 0, j, m) && h <= m
    requires var other := BuddyOf(i, h); j <= other && other + Pow2(h) <= j + Pow2(m)
    ensures m >= h + 1
  {
    assert !Head(fa, 0, 0, BuddyOf(i, h), h);
  }

  lemma RunPart(fa: seq<int>, j: nat, m: nat, i: nat, k: nat)
    requires WF(fa, 0, 0) && Head(fa, 0, 0, j, m)
    requires Aligned(i, k) && j <= i && i + Pow2(k) <= j + Pow2(m)
    ensures FreeRun(fa, i, k)
  {
  }

  /** No free run encloses a free block. */
  lemma BlockIsMaximal(fa: seq<int>, i: nat, k: nat)
    requires WF(fa, 0, 0) && Head(fa, 0, 0, i, k)
    ensures MaximalRun(fa, i, k)
  {
    hide WF, FreeRun, Xor;
    HeadIsRun(fa, i, k);
    RunStart(fa, i, k);
    XorIsOtherHalf(i, k);
    if k < MAX_ORDER && FreeRun(fa, Parent(i, k), k + 1) {
      var j, m := RunInsideBlock(fa, Parent(i, k), k + 1);
      HeadsDisjoint(fa, i, k, j, m);
    }
  }

  lemma RunStart(fa: seq<int>, i: nat, k: nat)
    requires FreeRun(fa, i, k)
    ensures Aligned(i, k) && i + Pow2(k) <= |fa|
  {
  }

  /** A run that no other encloses is a free block. */
  lemma MaximalIsBlock(fa: seq<int>, i: nat, k: nat)
    requires WF(fa, 0, 0) && MaximalRun(fa, i, k)
    ensures Head(fa, 0, 0, i, k)
  {
    hide WF, FreeRun, Xor, Aligned;
    var j, m := RunInsideBlock(fa, i, k);
    BlockStart(fa, j, m);
    RunStart(fa, i, k);
    if m == k {
      Nested(j, m, i, k);
    } else {
      ParentAligned(i, k);
      Nested(Parent(i, k), k + 1, j, m);
      RunPart(fa, j, m, Parent(i, k), k + 1);
      assert false;
    }
  }

  lemma ParentAligned(i: nat, k: nat)
    requires Aligned(i, k)
    ensures Aligned(Parent(i, k), k + 1) && Parent(i, k) <= i < Parent(i, k) + Pow2(k + 1)
  {
    XorIsOtherHalf(i, k);
  }

  /** The free blocks of a well-formed state are exactly the maximal runs of free frames. */
  lemma BlocksAreMaximalRuns(fa: seq<int>, i: nat, k: nat)
    requires WF(fa, 0, 0)
    ensures Head(fa, 0, 0, i, k) <==> MaximalRun(fa, i, k)
  {
    hide WF, MaximalRun;
    if Head(fa, 0, 0, i, k) {
      BlockIsMaximal(fa, i, k);
    }
    if MaximalRun(fa, i, k) {
      MaximalIsBlock(fa, i, k);
    }
  }

  ghost predicate SameFree(fa: seq<int>, fb: seq<int>) {
    |fa| == |fb| && forall f: nat :: f < |fa| ==> (IsFree(fa, f) <==> IsFree(fb, f))
  }

  /** Two well-formed states with the same free frames have the same entries on all of them. */
  lemma FreeFramesDetermineBlocks(fa: seq<int>, fb: seq<int>)
    requires WF(fa, 0, 0) && WF(fb, 0, 0) && SameFree(fa, fb)
    ensures forall f: nat :: IsFree(fa, f) ==> fa[f] == fb[f]
    ensures forall i: nat, k: nat :: Head(fa, 0, 0, i, k) <==> Head(fb, 0, 0, i, k)
  {
    forall i: nat, k: nat
      ensures Head(fa, 0, 0, i, k) <==> Head(fb, 0, 0, i, k)
    {
      BlocksAreMaximalRuns(fa, i, k);
      BlocksAreMaximalRuns(fb, i, k);
      SameFreeSameRuns(fa, fb, i, k);
    }
    forall f: nat | IsFree(fa, f)
      ensures fa[f] == fb[f]
    {
      assert FrameOk(fa, 0, 0, f) && FrameOk(fb, 0, 0, f);
      assert IsFree(fb, f);
      if IsOrder(fa[f]) {
        assert Head(fa, 0, 0, f, fa[f]);
      } else if IsOrder(fb[f]) {
        assert Head(fb, 0, 0, f, fb[f]);
      }
    }
  }

  lemma SameFreeSameRuns(fa: seq<int>, fb: seq<int>, i: nat, k: nat)
    requires SameFree(fa, fb)
    ensures MaximalRun(fa, i, k) <==> MaximalRun(fb, i, k)
  {
  }

  lemma SameFreeSameRun(fa: seq<int>, fb: seq<int>, i: nat, k: nat)
    requires SameFree(fa, fb)
    ensures FreeRun(fa, i, k) <==> FreeRun(fb, i, k)
  {
  }

  /** Outside block idx, allocated frames keep their tags and free frames stay free. */
  ghost predicate KeptOutside(fa: seq<int>, fb: seq<int>, idx: nat, order: nat) {
    && |fb| == |fa|
    && forall f: nat :: f < |fa| && !InBlock(idx, order, f) ==>
         (IsFree(fa, f) <==> IsFree(fb, f)) && (!IsFree(fa, f) ==> fb[f] == fa[f])
  }

  /** A free run has become an allocated block. */
  ghost predicate Taken(fa: seq<int>, fb: seq<int>, idx: nat, order: nat) {
    && FreeRun(fa, idx, order) && KeptOutside(fa, fb, idx, order)
    && forall f: nat :: InBlock(idx, order, f) ==> fb[f] == Tag(idx, order)
  }

  /** An allocated block has become free. */
  ghost predicate Released(fa: seq<int>, fb: seq<int>, idx: nat, order: nat) {
    LiveIn(fa, 0, 0, idx, order, idx) && KeptOutside(fa, fb, idx, order) && FreeRun(fb, idx, order)
  }

  /** Freeing a block right after allocating it restores every entry of frame_array. */
  lemma AllocFreeRestores(fa: seq<int>, fb: seq<int>, fc: seq<int>, idx: nat, order: nat)
    requires WF(fa, 0, 0) && WF(fc, 0, 0)
    requires Taken(fa, fb, idx, order) && Released(fb, fc, idx, order)
    ensures fc == fa
  {
    forall f: nat | f < |fa|
      ensures IsFree(fa, f) <==> IsFree(fc, f)
      ensures !IsFree(fa, f) ==> fa[f] == fc[f]
    {
      assert InBlock(idx, order, f) || !InBlock(idx, order, f);
    }
    FreeFramesDetermineBlocks(fa, fc);
  }

  /** Freeing a block and allocating the same frames again also restores every entry. */
  lemma FreeAllocRestores(fa: seq<int>, fb: seq<int>, fc: seq<int>, idx: nat, order: nat)
    requires WF(fa, 0, 0) && WF(fc, 0, 0)
    requires Released(fa, fb, idx, order) && Taken(fb, fc, idx, order)
    ensures fc == fa
  {
    forall f: nat | f < |fa|
      ensures IsFree(fa, f) <==> IsFree(fc, f)
      ensures !IsFree(fa, f) ==> fa[f] == fc[f]
    {
      assert InBlock(idx, order, f) || !InBlock(idx, order, f);
    }
    FreeFramesDetermineBlocks(fa, fc);
  }

  /** An order is exhausted exactly when no free block of that order or larger exists. */
  lemma NoBlockMeansNoRun(fa: seq<int>, order: nat)
    requires WF(fa, 0, 0) && order <= MAX_ORDER
    ensures (exists i: nat, k: nat :: order <= k && Head(fa, 0, 0, i, k)) <==> (exists i: nat :: FreeRun(fa, i, order))
  {
    if i: nat, k: nat :| order <= k && Head(fa, 0, 0, i, k) {
      HeadIsRun(fa, i, k);
      AlignedWeaken(i, order, k);
      Pow2Monotone(order, k);
      assert forall f: nat :: InBlock(i, order, f) ==> InBlock(i, k, f);
      assert FreeRun(fa, i, order);
    }
    if i: nat :| FreeRun(fa, i, order) {
      var j, m := RunInsideBlock(fa, i, order);
    }
  }

  /** The allocated blocks after an allocation are those before it and the new one. */
  lemma TakenLive(fa: seq<int>, fb: seq<int>, idx: nat, order: nat, h: nat, k: nat, f: nat)
    requires |fa| <= MAX_PAGES && order <= MAX_ORDER && Taken(fa, fb, idx, order)
    ensures LiveIn(fb, 0, 0, h, k, f) <==>
              LiveIn(fa, 0, 0, h, k, f) || (h == idx && k == order && InBlock(idx, order, f))
  {
    TagRoundTrip(idx, order);
    if LiveIn(fb, 0, 0, h, k, f) && !(h == idx && k == order) {
      TagRoundTrip(h, k);
      forall g: nat | InBlock(h, k, g)
        ensures fa[g] == Tag(h, k)
      {
        assert fb[g] == Tag(h, k);
        assert !InBlock(idx, order, g);
      }
    }
    if LiveIn(fa, 0, 0, h, k, f) {
      forall g: nat | InBlock(h, k, g)
        ensures fb[g] == Tag(h, k)
      {
        assert fa[g] == Tag(h, k);
        assert !IsFree(fa, g);
      }
      assert InBlock(h, k, f);
    }
  }

  /** The allocated blocks after a block is released are those before it except that block. */
  lemma ReleasedLive(fa: seq<int>, fb: seq<int>, idx: nat, order: nat, h: nat, k: nat, f: nat)
    requires |fa| <= MAX_PAGES && Released(fa, fb, idx, order)
    ensures LiveIn(fb, 0, 0, h, k, f) <==> LiveIn(fa, 0, 0, h, k, f) && !(h == idx && k == order)
  {
    TagRoundTrip(idx, order);
    if LiveIn(fb, 0, 0, h, k, f) {
      forall g: nat | InBlock(h, k, g)
        ensures fa[g] == Tag(h, k) && !InBlock(idx, order, g)
      {
        assert fb[g] == Tag(h, k);
        assert !IsFree(fb, g);
      }
      assert InBlock(h, k, f) && InBlock(h, k, h);
      assert InBlock(idx, order, idx);
    }
    if LiveIn(fa, 0, 0, h, k, f) && !(h == idx && k == order) {
      LiveDisjoint(fa, idx, order, idx, h, k, f);
      forall g: nat | InBlock(h, k, g)
        ensures fb[g] == Tag(h, k)
      {
        assert fa[g] == Tag(h, k);
        assert !IsFree(fa, g);
        assert !InBlock(idx, order, g);
      }
      assert InBlock(h, k, f);
    }
  }
}
