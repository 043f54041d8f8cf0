/** Whole runs of the page-frame allocator: any number of allocations and releases, in any order. */
module BuddyRuns {
  import opened BuddySpec
  import opened BuddyTheory

  datatype Block = Block(idx: nat, order: nat)

  /** A successful buddy_alloc, or a buddy_free that drops the last reference. */
  datatype Step = Take(b: Block) | Release(b: Block)

  ghost predicate StepOk(fa: seq<int>, s: Step, fb: seq<int>) {
    match s
    case Take(b) => b.order <= MAX_ORDER && Taken(fa, fb, b.idx, b.order)
    case Release(b) => Released(fa, fb, b.idx, b.order)
  }

  /** The blocks handed out and not yet given back. */
  ghost function Held(steps: seq<Step>): set<Block> {
    if steps == [] then {}
    else
      var last := steps[|steps| - 1];
      var held := Held(steps[..|steps| - 1]);
      if last.Take? then held + {last.b} else held - {last.b}
  }

  /** A run from the first state to the last, in which clients give back only what they hold. */
  ghost predicate Run(states: seq<seq<int>>, steps: seq<Step>) {
    && |states| == |steps| + 1
    && (forall i :: 0 <= i < |states| ==> WF(states[i], 0, 0))
    && (forall i :: 0 <= i < |steps| ==> StepOk(states[i], steps[i], states[i + 1]))
    && (forall i :: 0 <= i < |steps| && steps[i].Release? ==> steps[i].b in Held(steps[..i]))
  }

  /** Frame f lies in a block of the set. */
  ghost predicate InSome(blocks: set<Block>, f: nat) {
    exists b :: b in blocks && InBlock(b.idx, b.order, f)
  }

  /** What relates the state at boot, the state now and the blocks held now. */
  ghost predicate Account(boot: seq<int>, now: seq<int>, held: set<Block>) {
    && |now| == |boot|
    && (forall b :: b in held ==> LiveIn(now, 0, 0, b.idx, b.order, b.idx))
    && (forall f: nat :: IsFree(boot, f) <==> IsFree(now, f) || InSome(held, f))
    && (forall f: nat :: f < |boot| && !IsFree(boot, f) ==> now[f] == boot[f])
  }

  lemma LiveNotFree(fa: seq<int>, b: Block, f: nat)
    requires LiveIn(fa, 0, 0, b.idx, b.order, b.idx) && InBlock(b.idx, b.order, f)
    ensures f < |fa| && fa[f] == Tag(b.idx, b.order) && !IsFree(fa, f)
  {
  }

  lemma AccountTake(boot: seq<int>, fa: seq<int>, fb: seq<int>, held: set<Block>, b: Block)
    requires |boot| <= MAX_PAGES && Account(boot, fa, held) && StepOk(fa, Take(b), fb)
    ensures Account(boot, fb, held + {b}) && b !in held
  {
    hide LiveIn;
    if b in held {
      LiveNotFree(fa, b, b.idx);
    }
    forall c | c in held + {b}
      ensures LiveIn(fb, 0, 0, c.idx, c.order, c.idx)
    {
      TakenLive(fa, fb, b.idx, b.order, c.idx, c.order, c.idx);
    }
    forall f: nat
      ensures IsFree(boot, f) <==> IsFree(fb, f) || InSome(held + {b}, f)
      ensures f < |boot| && !IsFree(boot, f) ==> fb[f] == boot[f]
    {
      assert InSome(held + {b}, f) <==> InSome(held, f) || InBlock(b.idx, b.order, f);
      if c :| c in held && InBlock(c.idx, c.order, f) {
        LiveNotFree(fa, c, f);
      }
    }
  }

  lemma AccountRelease(boot: seq<int>, fa: seq<int>, fb: seq<int>, held: set<Block>, b: Block)
    requires |boot| <= MAX_PAGES && Account(boot, fa, held) && StepOk(fa, Release(b), fb) && b in held
    ensures Account(boot, fb, held - {b})
  {
    hide LiveIn;
    forall c | c in held - {b}
      ensures LiveIn(fb, 0, 0, c.idx, c.order, c.idx)
    {
      ReleasedLive(fa, fb, b.idx, b.order, c.idx, c.order, c.idx);
    }
    forall f: nat
      ensures IsFree(boot, f) <==> IsFree(fb, f) || InSome(held - {b}, f)
      ensures f < |boot| && !IsFree(boot, f) ==> fb[f] == boot[f]
    {
      assert InSome(held, f) <==> InSome(held - {b}, f) || InBlock(b.idx, b.order, f);
      if InBlock(b.idx, b.order, f) {
        LiveNotFree(fa, b, f);
      }
    }
  }

  /** Free frames and held blocks account for exactly the frames free at boot, at every point of every run. */
  lemma {:induction false} RunAccount(states: seq<seq<int>>, steps: seq<Step>)
    requires Run(states, steps)
    ensures Account(states[0], states[|steps|], Held(steps))
  {
    hide WF, StepOk, Account;
    if steps == [] {
      AccountStart(states[0]);
    } else {
      var n := |steps| - 1;
      RunPrefix(states, steps);
      RunAccount(states[..|states| - 1], steps[..n]);
      assert StepOk(states[n], steps[n], states[n + 1]);
      if steps[n].Take? {
        AccountTake(states[0], states[n], states[n + 1], Held(steps[..n]), steps[n].b);
      } else {
        AccountRelease(states[0], states[n], states[n + 1], Held(steps[..n]), steps[n].b);
      }
    }
  }

  lemma AccountStart(boot: seq<int>)
    ensures Account(boot, boot, {})
  {
  }

  lemma RunPrefix(states: seq<seq<int>>, steps: seq<Step>)
    requires Run(states, steps) && steps != []
    ensures Run(states[..|states| - 1], steps[..|steps| - 1])
            && states[..|states| - 1][|steps| - 1] == states[|steps| - 1]
    ensures |states[0]| <= MAX_PAGES
  {
    hide StepOk;
    var n := |steps| - 1;
    forall i | 0 <= i < n
      ensures steps[..n][..i] == steps[..i]
    {
    }
    assert WF(states[0], 0, 0);
    hide WF;
  }

  /** Blocks held at the same time do not overlap, and none contains a frame reserved at boot. */
  lemma HeldBlocksDisjoint(states: seq<seq<int>>, steps: seq<Step>, b: Block, c: Block, f: nat)
    requires Run(states, steps) && b in Held(steps) && InBlock(b.idx, b.order, f)
    ensures IsFree(states[0], f)
    ensures c in Held(steps) && InBlock(c.idx, c.order, f) ==> b == c
  {
    RunAccount(states, steps);
    var now := states[|steps|];
    LiveNotFree(now, b, f);
    assert InSome(Held(steps), f);
    if c in Held(steps) && InBlock(c.idx, c.order, f) {
      LiveNotFree(now, c, f);
      TagRoundTrip(b.idx, b.order);
      TagRoundTrip(c.idx, c.order);
    }
  }

  /** When everything has been given back, in whatever order, every entry of frame_array is as it was at boot. */
  lemma BackToBoot(states: seq<seq<int>>, steps: seq<Step>)
    requires Run(states, steps) && Held(steps) == {}
    ensures states[|steps|] == states[0]
  {
    RunAccount(states, steps);
    FreeFramesDetermineBlocks(states[0], states[|steps|]);
  }

  /** Free blocks, held blocks and frames reserved at boot partition memory, so their sizes add up. */
  lemma FramesAddUp(states: seq<seq<int>>, steps: seq<Step>)
    requires Run(states, steps)
    ensures |FreeFrames(states[0])| == |FreeFrames(states[|steps|])| + |HeldFrames(states[0], Held(steps))|
    ensures FreeFrames(states[|steps|]) !! HeldFrames(states[0], Held(steps))
  {
    RunAccount(states, steps);
    var boot, now, held := FreeFrames(states[0]), FreeFrames(states[|steps|]), HeldFrames(states[0], Held(steps));
    forall f | f in held
      ensures f !in now
    {
      var b :| b in Held(steps) && InBlock(b.idx, b.order, f);
      LiveNotFree(states[|steps|], b, f);
    }
    assert boot == now + held by {
      forall f: nat
        ensures f in boot <==> f in now || f in held
      {
      }
    }
  }

  ghost function HeldFrames(boot: seq<int>, held: set<Block>): set<nat> {
    set f: nat | f < |boot| && InSome(held, f)
  }

  /** A frame is either in exactly one free block or in exactly one allocated block. */
  lemma EveryFrameInOneBlock(fa: seq<int>, f: nat) returns (b: Block)
    requires WF(fa, 0, 0) && f < |fa|
    ensures IsFree(fa, f) <==> Covers(fa, 0, 0, b.idx, b.order, f)
    ensures !IsFree(fa, f) <==> LiveIn(fa, 0, 0, b.idx, b.order, f)
    ensures forall c: Block :: Covers(fa, 0, 0, c.idx, c.order, f) || LiveIn(fa, 0, 0, c.idx, c.order, f) ==> c == b
  {
    assert FrameOk(fa, 0, 0, f);
    if h: nat, k: nat :| LiveIn(fa, 0, 0, h, k, f) {
      b := Block(h, k);
    } else if IsOrder(fa[f]) {
      b := Block(f, fa[f]);
      assert Head(fa, 0, 0, f, fa[f]);
      assert Bits.Pow2(fa[f]) >= 1;
    } else {
      var i: nat, k: nat :| Covers(fa, 0, 0, i, k, f);
      b := Block(i, k);
    }
    assert Covers(fa, 0, 0, b.idx, b.order, f) || LiveIn(fa, 0, 0, b.idx, b.order, f);
    forall c: Block | Covers(fa, 0, 0, c.idx, c.order, f) || LiveIn(fa, 0, 0, c.idx, c.order, f)
      ensures c == b
    {
      OneBlock(fa, f, b, c);
    }
  }

  lemma OneBlock(fa: seq<int>, f: nat, b: Block, c: Block)
    requires WF(fa, 0, 0) && f < |fa|
    requires Covers(fa, 0, 0, b.idx, b.order, f) || LiveIn(fa, 0, 0, b.idx, b.order, f)
    requires Covers(fa, 0, 0, c.idx, c.order, f) || LiveIn(fa, 0, 0, c.idx, c.order, f)
    ensures c == b
  {
    TagRoundTrip(b.idx, b.order);
    TagRoundTrip(c.idx, c.order);
    if Covers(fa, 0, 0, b.idx, b.order, f) && Covers(fa, 0, 0, c.idx, c.order, f) {
      assert WholeBlock(fa, 0, 0, b.idx, b.order) && WholeBlock(fa, 0, 0, c.idx, c.order);
    }
  }
}
