/** What allocating and releasing a block mean to those who hold blocks. */
module BuddyPages {
  import opened Bits
  import opened BuddySpec
  import opened BuddyTheory
  import opened BuddyAllocator

  /** Frame h is the first of an allocated block of order k. */
  ghost predicate Live(fa: seq<int>, h: nat, k: nat) {
    LiveIn(fa, 0, 0, h, k, h)
  }

  /** Frame f is an allocated block of one page. */
  ghost predicate LivePage(fa: seq<int>, f: nat) {
    Live(fa, f, 0)
  }

  /** Allocated blocks stay allocated, but for those that begin in `gone`. */
  ghost predicate KeepsLive(fa: seq<int>, fb: seq<int>, gone: set<nat>) {
    forall h: nat, k: nat :: Live(fa, h, k) && h !in gone ==> Live(fb, h, k)
  }

  lemma KeepsLiveRefl(fa: seq<int>)
    ensures KeepsLive(fa, fa, {})
  {
  }

  lemma KeepsLiveMore(fa: seq<int>, fb: seq<int>, gone: set<nat>, gone': set<nat>)
    requires KeepsLive(fa, fb, gone) && gone <= gone'
    ensures KeepsLive(fa, fb, gone')
  {
    hide Live;
  }

  ghost function BlockFrames(h: nat, k: nat): set<nat> {
    set f: nat | f < h + Pow2(k) && InBlock(h, k, f)
  }

  lemma InBlockFrames(h: nat, k: nat, f: nat)
    ensures f in BlockFrames(h, k) <==> InBlock(h, k, f)
  {
  }

  lemma OneFrame(f: nat)
    ensures BlockFrames(f, 0) == {f}
  {
    assert Pow2(0) == 1;
  }

  predicate InRange(lo: nat, n: nat, f: nat) {
    lo <= f < lo + n
  }

  ghost function Range(lo: nat, n: nat): set<nat> {
    set f: nat | f < lo + n && InRange(lo, n, f)
  }

  lemma {:induction false} RangeSize(lo: nat, n: nat)
    ensures |Range(lo, n)| == n
  {
    if n > 0 {
      RangeSize(lo, n - 1);
      assert Range(lo, n) == Range(lo, n - 1) + {lo + n - 1};
    } else {
      assert Range(lo, n) == {};
    }
  }

  lemma BlockSize(h: nat, k: nat)
    ensures |BlockFrames(h, k)| == Pow2(k)
  {
    RangeSize(h, Pow2(k));
    assert BlockFrames(h, k) == Range(h, Pow2(k));
  }

  /** A block that is handed out was free and is allocated; all other blocks stay as they are. */
  lemma TakenBlock(fa: seq<int>, fb: seq<int>, h: nat, k: nat)
    requires |fa| <= MAX_PAGES && k <= MAX_ORDER && Taken(fa, fb, h, k)
    ensures |fb| == |fa| && BlockFrames(h, k) <= FreeFrames(fa)
    ensures FreeFrames(fb) == FreeFrames(fa) - BlockFrames(h, k)
    ensures Live(fb, h, k) && KeepsLive(fa, fb, {})
  {
    hide LiveIn;
    forall f: nat
      ensures f in BlockFrames(h, k) ==> f in FreeFrames(fa)
      ensures f in FreeFrames(fb) <==> f in FreeFrames(fa) && f !in BlockFrames(h, k)
    {
      InBlockFrames(h, k, f);
    }
    TakenLive(fa, fb, h, k, h, k, h);
    assert InBlock(h, k, h);
    forall i: nat, m: nat | Live(fa, i, m)
      ensures Live(fb, i, m)
    {
      TakenLive(fa, fb, h, k, i, m, i);
    }
  }

  /** A block that is released is free; all other blocks stay as they are. */
  lemma ReleasedBlock(fa: seq<int>, fb: seq<int>, h: nat, k: nat)
    requires |fa| <= MAX_PAGES && Released(fa, fb, h, k)
    ensures |fb| == |fa| && FreeFrames(fb) == FreeFrames(fa) + BlockFrames(h, k)
    ensures KeepsLive(fa, fb, {h})
  {
    hide LiveIn;
    forall f: nat
      ensures f in FreeFrames(fb) <==> f in FreeFrames(fa) || f in BlockFrames(h, k)
    {
      InBlockFrames(h, k, f);
    }
    forall i: nat, m: nat | Live(fa, i, m) && i != h
      ensures Live(fb, i, m)
    {
      ReleasedLive(fa, fb, h, k, i, m, i);
    }
  }

  lemma LiveFrames(fa: seq<int>, h: nat, k: nat)
    requires Live(fa, h, k)
    ensures h in BlockFrames(h, k) && BlockFrames(h, k) !! FreeFrames(fa)
    ensures forall f :: f in BlockFrames(h, k) ==> f < |fa| && fa[f] == Tag(h, k)
  {
  }

  /** Different blocks have no frame in common. */
  lemma LiveApart(fa: seq<int>, h: nat, k: nat, i: nat, m: nat)
    requires |fa| <= MAX_PAGES && Live(fa, h, k) && Live(fa, i, m)
    ensures h == i ==> k == m
    ensures h != i ==> BlockFrames(h, k) !! BlockFrames(i, m)
    ensures h < i ==> h + Pow2(k) <= i
  {
    LiveDisjoint(fa, h, k, h, i, m, i);
    TagRoundTrip(h, k);
    TagRoundTrip(i, m);
  }

  lemma OnePage(order: nat)
    requires FitsOrder(PagesFor(PAGE_SIZE), order)
    ensures order == 0
  {
    assert PagesFor(PAGE_SIZE) == 1;
    assert Pow2(0) == 1;
  }

  lemma SinglePageRuns(fa: seq<int>)
    ensures (exists i: nat :: FreeRun(fa, i, 0)) <==> FreeFrames(fa) != {}
  {
    if f :| f in FreeFrames(fa) {
      assert FreeRun(fa, f, 0);
    }
    if i: nat :| FreeRun(fa, i, 0) {
      assert InBlock(i, 0, i);
      assert i in FreeFrames(fa);
    }
  }

  lemma TakenPage(fa: seq<int>, fb: seq<int>, f: nat)
    requires |fa| <= MAX_PAGES && Taken(fa, fb, f, 0)
    ensures f < |fa| == |fb| && f in FreeFrames(fa) && FreeFrames(fb) == FreeFrames(fa) - {f}
    ensures LivePage(fb, f) && KeepsLive(fa, fb, {})
  {
    TakenBlock(fa, fb, f, 0);
    OneFrame(f);
    assert f in BlockFrames(f, 0);
  }

  lemma ReleasedPage(fa: seq<int>, fb: seq<int>, f: nat)
    requires |fa| <= MAX_PAGES && Released(fa, fb, f, 0)
    ensures |fb| == |fa| && FreeFrames(fb) == FreeFrames(fa) + {f}
    ensures KeepsLive(fa, fb, {f})
  {
    ReleasedBlock(fa, fb, f, 0);
    OneFrame(f);
  }

  lemma SameFreeFramesSameBlocks(fa: seq<int>, fb: seq<int>)
    requires WF(fa, 0, 0) && WF(fb, 0, 0) && |fa| == |fb| && FreeFrames(fa) == FreeFrames(fb)
    ensures forall i: nat, k: nat :: Head(fa, 0, 0, i, k) <==> Head(fb, 0, 0, i, k)
  {
    hide WF, Head;
    forall f: nat | f < |fa|
      ensures IsFree(fa, f) <==> IsFree(fb, f)
    {
      assert f in FreeFrames(fa) <==> f in FreeFrames(fb);
    }
    FreeFramesDetermineBlocks(fa, fb);
  }
}
