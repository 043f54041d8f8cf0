/**
 What the values of `frame_array` mean, as predicates on the sequence of its values.
 `lo..hi` is a hole: a range of frames whose entries are in the middle of being rewritten and
 carry no meaning. A settled allocator has an empty hole.
 */
module BuddySpec {
  import opened Bits

  const MAX_ORDER: nat := 16
  const FREE_PART: int := -1
  const ALLOC_BIT: int := 0x4000_0000
  /** Two gibibytes of four-kibibyte pages: the limit buddy_init puts on the managed memory. */
  const MAX_PAGES: nat := 0x8_0000

  /** ALLOC_TAG: the three fields occupy disjoint bits. */
  function Tag(idx: nat, order: nat): int {
    ALLOC_BIT + idx * 256 + order
  }

  /** GET_ALLOC_ORDER */
  function TagOrder(v: int): nat {
    v % 256
  }

  /** GET_ALLOC_IDX */
  function TagIdx(v: int): nat {
    (v / 256) % 0x40_0000
  }

  lemma TagRoundTrip(idx: nat, order: nat)
    requires idx < 0x40_0000 && order < 256
    ensures TagIdx(Tag(idx, order)) == idx && TagOrder(Tag(idx, order)) == order
  {
  }

  function BuddyOf(idx: nat, order: nat): nat {
    Xor(idx, Pow2(order))
  }

  predicate IsOrder(v: int) {
    0 <= v <= MAX_ORDER
  }

  predicate IsFree(fa: seq<int>, f: nat) {
    f < |fa| && fa[f] < ALLOC_BIT
  }

  ghost function FreeFrames(fa: seq<int>): set<nat> {
    set f: nat | f < |fa| && IsFree(fa, f)
  }

  predicate InBlock(idx: nat, order: nat, f: nat) {
    idx <= f < idx + Pow2(order)
  }

  /** Frame i heads a free block of order k outside the hole. */
  ghost predicate Head(fa: seq<int>, lo: nat, hi: nat, i: nat, k: nat) {
    i < |fa| && !(lo <= i < hi) && fa[i] == k && k <= MAX_ORDER
  }

  /** The block headed by i is in range, naturally aligned and marked throughout. */
  ghost predicate WholeBlock(fa: seq<int>, lo: nat, hi: nat, i: nat, k: nat) {
    && Aligned(i, k)
    && i + Pow2(k) <= |fa|
    && (i + Pow2(k) <= lo || hi <= i)
    && forall f :: i < f < i + Pow2(k) ==> fa[f] == FREE_PART
  }

  ghost predicate Covers(fa: seq<int>, lo: nat, hi: nat, i: nat, k: nat, f: nat) {
    Head(fa, lo, hi, i, k) && i <= f < i + Pow2(k)
  }

  /** Frame f belongs to the allocated block [h, h + 2^k), every frame of which carries the same tag. */
  ghost predicate LiveIn(fa: seq<int>, lo: nat, hi: nat, h: nat, k: nat, f: nat) {
    && f < |fa| && fa[f] == Tag(h, k)
    && k <= MAX_ORDER && Aligned(h, k)
    && h <= f < h + Pow2(k) <= |fa|
    && (h + Pow2(k) <= lo || hi <= h)
    && forall g :: h <= g < h + Pow2(k) ==> fa[g] == Tag(h, k)
  }

  ghost predicate FrameOk(fa: seq<int>, lo: nat, hi: nat, f: nat)
    requires f < |fa|
  {
    || IsOrder(fa[f])
    || (fa[f] == FREE_PART && exists i: nat, k: nat :: Covers(fa, lo, hi, i, k, f))
    || exists h: nat, k: nat :: LiveIn(fa, lo, hi, h, k, f)
  }

  /** No two buddies of the same order below the maximum are both free. */
  ghost predicate NoBuddies(fa: seq<int>, lo: nat, hi: nat) {
    forall i: nat, k: nat :: Head(fa, lo, hi, i, k) && k < MAX_ORDER ==> !Head(fa, lo, hi, BuddyOf(i, k), k)
  }

  ghost predicate WF(fa: seq<int>, lo: nat, hi: nat) {
    && lo <= hi <= |fa| <= MAX_PAGES
    && (forall i: nat, k: nat :: Head(fa, lo, hi, i, k) ==> WholeBlock(fa, lo, hi, i, k))
    && (forall f :: 0 <= f < |fa| && !(lo <= f < hi) ==> FrameOk(fa, lo, hi, f))
    && NoBuddies(fa, lo, hi)
  }

  /** block_push's effect on frame_array. */
  ghost function Push(fa: seq<int>, idx: nat, order: nat): (r: seq<int>)
    requires idx + Pow2(order) <= |fa|
    ensures |r| == |fa|
  {
    seq(|fa|, f requires 0 <= f < |fa| =>
      if f == idx then order else if idx < f < idx + Pow2(order) then FREE_PART else fa[f])
  }

  /** The tags that buddy_alloc writes. */
  ghost function Fill(fa: seq<int>, idx: nat, order: nat): (r: seq<int>)
    requires idx + Pow2(order) <= |fa|
    ensures |r| == |fa|
  {
    seq(|fa|, f requires 0 <= f < |fa| => if idx <= f < idx + Pow2(order) then Tag(idx, order) else fa[f])
  }

  /** The new hole is what is left of the old one when the block at one of its ends is taken out. */
  predicate Shrinks(lo: nat, hi: nat, idx: nat, order: nat, lo': nat, hi': nat) {
    && lo <= idx && idx + Pow2(order) <= hi
    && ((lo' == lo && hi' == idx && idx + Pow2(order) == hi) || (idx == lo && lo' == idx + Pow2(order) && hi' == hi))
  }

  lemma PushHeads(fa: seq<int>, lo: nat, hi: nat, idx: nat, order: nat, lo': nat, hi': nat)
    requires WF(fa, lo, hi) && order <= MAX_ORDER && Aligned(idx, order) && Shrinks(lo, hi, idx, order, lo', hi')
    ensures forall i: nat, k: nat :: Head(Push(fa, idx, order), lo', hi', i, k) <==>
              Head(fa, lo, hi, i, k) || (i == idx && k == order)
    ensures forall i: nat, k: nat :: Head(Push(fa, idx, order), lo', hi', i, k) ==>
              WholeBlock(Push(fa, idx, order), lo', hi', i, k)
  {
  }

  /** Writing a free block into one end of the hole keeps everything well formed. */
  lemma PushWF(fa: seq<int>, lo: nat, hi: nat, idx: nat, order: nat, lo': nat, hi': nat)
    requires WF(fa, lo, hi) && order <= MAX_ORDER && Aligned(idx, order) && Shrinks(lo, hi, idx, order, lo', hi')
    requires order < MAX_ORDER ==> !Head(fa, lo, hi, BuddyOf(idx, order), order)
    ensures WF(Push(fa, idx, order), lo', hi')
    ensures forall i: nat, k: nat :: Head(Push(fa, idx, order), lo', hi', i, k) <==>
              Head(fa, lo, hi, i, k) || (i == idx && k == order)
  {
    var fb := Push(fa, idx, order);
    PushHeads(fa, lo, hi, idx, order, lo', hi');
    assert Head(fb, lo', hi', idx, order);
    forall f | 0 <= f < |fb| && !(lo' <= f < hi')
      ensures FrameOk(fb, lo', hi', f)
    {
      if idx <= f < idx + Pow2(order) {
        assert Covers(fb, lo', hi', idx, order, f);
      } else {
        FrameOkKept(fa, lo, hi, fb, lo', hi', f);
      }
    }
    forall i: nat, k: nat | Head(fb, lo', hi', i, k) && k < MAX_ORDER
      ensures !Head(fb, lo', hi', BuddyOf(i, k), k)
    {
      assert Aligned(i, k) by { assert WholeBlock(fb, lo', hi', i, k); }
      BuddyIsInvolution(i, k);
    }
  }

  /** What a frame outside both holes is, is decided by entries outside both holes. */
  lemma FrameOkKept(fa: seq<int>, lo: nat, hi: nat, fb: seq<int>, lo': nat, hi': nat, f: nat)
    requires |fa| == |fb| && f < |fa| && FrameOk(fa, lo, hi, f)
    requires forall g :: 0 <= g < |fa| && !(lo <= g < hi) ==> fa[g] == fb[g]
    requires lo <= lo' <= hi' <= hi
    requires !(lo <= f < hi)
    ensures FrameOk(fb, lo', hi', f)
  {
    if fa[f] == FREE_PART && exists i: nat, k: nat :: Covers(fa, lo, hi, i, k, f) {
      var i: nat, k: nat :| Covers(fa, lo, hi, i, k, f);
      assert Covers(fb, lo', hi', i, k, f);
    } else if exists h: nat, k: nat :: LiveIn(fa, lo, hi, h, k, f) {
      var h: nat, k: nat :| LiveIn(fa, lo, hi, h, k, f);
      assert LiveIn(fb, lo', hi', h, k, f);
    }
  }

  /** The entries in the hole do not matter. */
  lemma HoleIrrelevant(fa: seq<int>, fb: seq<int>, lo: nat, hi: nat)
    requires WF(fa, lo, hi) && |fa| == |fb|
    requires forall f :: 0 <= f < |fa| && !(lo <= f < hi) ==> fa[f] == fb[f]
    ensures WF(fb, lo, hi)
    ensures forall i: nat, k: nat :: Head(fb, lo, hi, i, k) <==> Head(fa, lo, hi, i, k)
  {
    forall i: nat, k: nat | Head(fb, lo, hi, i, k)
      ensures WholeBlock(fb, lo, hi, i, k) && (k < MAX_ORDER ==> !Head(fb, lo, hi, BuddyOf(i, k), k))
    {
      assert Head(fa, lo, hi, i, k);
      assert WholeBlock(fa, lo, hi, i, k);
    }
    forall f | 0 <= f < |fa| && !(lo <= f < hi)
      ensures FrameOk(fb, lo, hi, f)
    {
      FrameOkKept(fa, lo, hi, fb, lo, hi, f);
    }
  }

  lemma BuddyIsInvolution(i: nat, k: nat)
    requires Aligned(i, k)
    ensures Aligned(BuddyOf(i, k), k) && BuddyOf(BuddyOf(i, k), k) == i && BuddyOf(i, k) != i
  {
    XorIsOtherHalf(i, k);
    XorIsOtherHalf(BuddyOf(i, k), k);
    LowerHalf(i, k);
  }

  lemma {:induction false} LowerHalf(i: nat, k: nat)
    requires Aligned(i, k)
    ensures Aligned(i, k + 1) ==> !Aligned(i + Pow2(k), k + 1)
  {
    if k > 0 {
      LowerHalf(i / 2, k - 1);
      assert (i + Pow2(k)) / 2 == i / 2 + Pow2(k - 1);
    }
  }

  /** An empty hole may be placed anywhere. */
  lemma CloseHole(fa: seq<int>, at: nat)
    requires WF(fa, at, at)
    ensures WF(fa, 0, 0)
    ensures forall i: nat, k: nat :: Head(fa, 0, 0, i, k) <==> Head(fa, at, at, i, k)
  {
    forall i: nat, k: nat | Head(fa, 0, 0, i, k)
      ensures WholeBlock(fa, 0, 0, i, k) && (k < MAX_ORDER ==> !Head(fa, 0, 0, BuddyOf(i, k), k))
    {
      assert Head(fa, at, at, i, k);
      assert WholeBlock(fa, at, at, i, k);
    }
    forall f | 0 <= f < |fa|
      ensures FrameOk(fa, 0, 0, f)
    {
      assert FrameOk(fa, at, at, f);
      if fa[f] == FREE_PART {
        var i: nat, k: nat :| Covers(fa, at, at, i, k, f);
        assert Covers(fa, 0, 0, i, k, f);
      } else if !IsOrder(fa[f]) {
        var h: nat, k: nat :| LiveIn(fa, at, at, h, k, f);
        assert LiveIn(fa, 0, 0, h, k, f);
      }
    }
  }

  /** The new hole is the old one together with an adjacent block, or just the block if the old one is empty. */
  predicate Grows(lo: nat, hi: nat, idx: nat, order: nat, lo': nat, hi': nat) {
    || (lo == hi == 0 && lo' == idx && hi' == idx + Pow2(order))
    || (lo == idx + Pow2(order) && lo' == idx && hi' == hi)
    || (hi == idx && lo' == lo && hi' == idx + Pow2(order))
  }

  lemma AbsorbHeads(fa: seq<int>, lo: nat, hi: nat, idx: nat, order: nat, lo': nat, hi': nat)
    requires WF(fa, lo, hi) && Head(fa, lo, hi, idx, order) && Grows(lo, hi, idx, order, lo', hi')
    ensures forall i: nat, k: nat :: Head(fa, lo', hi', i, k) <==> Head(fa, lo, hi, i, k) && i != idx
    ensures forall i: nat, k: nat :: Head(fa, lo', hi', i, k) ==> WholeBlock(fa, lo', hi', i, k)
  {
  }

  /** A free block that leaves its list becomes part of the hole. */
  lemma AbsorbHead(fa: seq<int>, lo: nat, hi: nat, idx: nat, order: nat, lo': nat, hi': nat)
    requires WF(fa, lo, hi) && Head(fa, lo, hi, idx, order) && Grows(lo, hi, idx, order, lo', hi')
    ensures WF(fa, lo', hi')
    ensures forall i: nat, k: nat :: Head(fa, lo', hi', i, k) <==> Head(fa, lo, hi, i, k) && i != idx
  {
    assert WholeBlock(fa, lo, hi, idx, order);
    AbsorbHeads(fa, lo, hi, idx, order, lo', hi');
    forall f | 0 <= f < |fa| && !(lo' <= f < hi')
      ensures FrameOk(fa, lo', hi', f)
    {
      assert FrameOk(fa, lo, hi, f);
      if fa[f] == FREE_PART {
        var i: nat, k: nat :| Covers(fa, lo, hi, i, k, f);
        assert Covers(fa, lo', hi', i, k, f);
      } else if !IsOrder(fa[f]) {
        var h: nat, k: nat :| LiveIn(fa, lo, hi, h, k, f);
        LiveAvoids(fa, lo, hi, idx, order, h, k, f);
        assert LiveIn(fa, lo', hi', h, k, f);
      }
    }
  }

  /** A free block and an allocated block share no frame. */
  lemma LiveAvoids(fa: seq<int>, lo: nat, hi: nat, idx: nat, order: nat, h: nat, k: nat, f: nat)
    requires Head(fa, lo, hi, idx, order) && WholeBlock(fa, lo, hi, idx, order)
    requires LiveIn(fa, lo, hi, h, k, f)
    ensures h + Pow2(k) <= idx || idx + Pow2(order) <= h
  {
    var g := if h <= idx then idx else h;
    assert h <= g < h + Pow2(k) ==> fa[g] == Tag(h, k);
    assert idx <= g < idx + Pow2(order) ==> fa[g] < ALLOC_BIT;
  }

  /** The block being freed becomes the hole. */
  lemma AbsorbLive(fa: seq<int>, idx: nat, order: nat)
    requires WF(fa, 0, 0) && LiveIn(fa, 0, 0, idx, order, idx)
    ensures WF(fa, idx, idx + Pow2(order))
    ensures forall i: nat, k: nat :: Head(fa, idx, idx + Pow2(order), i, k) <==> Head(fa, 0, 0, i, k)
  {
    var hi := idx + Pow2(order);
    forall i: nat, k: nat | Head(fa, 0, 0, i, k)
      ensures Head(fa, idx, hi, i, k) && WholeBlock(fa, idx, hi, i, k)
    {
      assert WholeBlock(fa, 0, 0, i, k);
      LiveAvoids(fa, 0, 0, i, k, idx, order, idx);
    }
    forall f | 0 <= f < |fa| && !(idx <= f < hi)
      ensures FrameOk(fa, idx, hi, f)
    {
      assert FrameOk(fa, 0, 0, f);
      if fa[f] == FREE_PART {
        var i: nat, k: nat :| Covers(fa, 0, 0, i, k, f);
        assert Covers(fa, idx, hi, i, k, f);
      } else if !IsOrder(fa[f]) {
        var h: nat, k: nat :| LiveIn(fa, 0, 0, h, k, f);
        LiveDisjoint(fa, idx, order, idx, h, k, f);
        assert LiveIn(fa, idx, hi, h, k, f);
      }
    }
  }

  /** Allocated blocks that share a frame are the same block. */
  lemma LiveDisjoint(fa: seq<int>, idx: nat, order: nat, e: nat, h: nat, k: nat, f: nat)
    requires |fa| <= MAX_PAGES
    requires LiveIn(fa, 0, 0, idx, order, e) && LiveIn(fa, 0, 0, h, k, f)
    ensures (h == idx && k == order) || h + Pow2(k) <= idx || idx + Pow2(order) <= h
  {
    TagRoundTrip(idx, order);
    TagRoundTrip(h, k);
    var g := if h <= idx then idx else h;
    assert h <= g < h + Pow2(k) ==> fa[g] == Tag(h, k);
    assert idx <= g < idx + Pow2(order) ==> fa[g] == Tag(idx, order);
  }

  /** Marking the hole as one allocated block closes it. */
  lemma FillWF(fa: seq<int>, idx: nat, order: nat)
    requires WF(fa, idx, idx + Pow2(order)) && order <= MAX_ORDER && Aligned(idx, order)
    ensures WF(Fill(fa, idx, order), 0, 0)
    ensures forall i: nat, k: nat :: Head(Fill(fa, idx, order), 0, 0, i, k) <==> Head(fa, idx, idx + Pow2(order), i, k)
  {
    var hi := idx + Pow2(order);
    var fb := Fill(fa, idx, order);
    forall i: nat, k: nat | Head(fb, 0, 0, i, k)
      ensures Head(fa, idx, hi, i, k) && WholeBlock(fb, 0, 0, i, k)
    {
      assert fb[i] == if idx <= i < hi then Tag(idx, order) else fa[i];
      assert Head(fa, idx, hi, i, k);
      assert WholeBlock(fa, idx, hi, i, k);
    }
    forall f | 0 <= f < |fb|
      ensures FrameOk(fb, 0, 0, f)
    {
      if idx <= f < hi {
        assert LiveIn(fb, 0, 0, idx, order, f);
      } else {
        assert FrameOk(fa, idx, hi, f);
        if fa[f] == FREE_PART {
          var i: nat, k: nat :| Covers(fa, idx, hi, i, k, f);
          assert Covers(fb, 0, 0, i, k, f);
        } else if !IsOrder(fa[f]) {
          var h: nat, k: nat :| LiveIn(fa, idx, hi, h, k, f);
          assert LiveIn(fb, 0, 0, h, k, f);
        }
      }
    }
  }
}
