/** What kmalloc holds and hands out: chunks cut from pages, and whole blocks. */
module KmallocSpec {
  import opened Bits
  import opened BuddySpec
  import opened BuddyTheory
  import opened BuddyAllocator
  import opened BuddyPages

  const NUM_POOLS: nat := 8
  const POOL_SIZES: seq<nat> := [16, 32, 64, 128, 256, 512, 1024, 2048]

  function PoolSize(i: nat): (size: nat)
    requires i < NUM_POOLS
    ensures 16 <= size <= 2048
  {
    POOL_SIZES[i]
  }

  /** The smallest pool whose chunks hold `size` bytes. */
  function PoolFor(size: nat): (i: nat)
    requires size <= 2048
    ensures i < NUM_POOLS && size <= PoolSize(i) && forall j: nat :: j < i ==> PoolSize(j) < size
  {
    if size <= 16 then 0
    else if size <= 32 then 1
    else if size <= 64 then 2
    else if size <= 128 then 3
    else if size <= 256 then 4
    else if size <= 512 then 5
    else if size <= 1024 then 6
    else 7
  }

  /** The page an address lies in, counted from the first managed one. */
  function PageIdx(base: nat, a: nat): nat
    requires base <= a
  {
    (a - base) / PAGE_SIZE
  }

  /** Address a is where a chunk of pool i begins, in a page that belongs to that pool. */
  predicate IsChunk(base: nat, pool: seq<int>, i: nat, a: nat) {
    && i < NUM_POOLS && base <= a && PageIdx(base, a) < |pool| && pool[PageIdx(base, a)] == i
    && (a - base) % PAGE_SIZE % PoolSize(i) == 0
  }

  /** The embedded list that starts at h, link by link. */
  ghost predicate Chain(link: map<nat, nat>, h: nat, s: seq<nat>)
    decreases |s|
  {
    if s == [] then h == NULL else h == s[0] && h in link && Chain(link, link[h], s[1..])
  }

  ghost predicate NoDup(s: seq<nat>) {
    forall i, j :: 0 <= i < j < |s| ==> s[i] != s[j]
  }

  /** Every chunk of every pool page is either handed out or exactly once on the free list of its own pool. */
  ghost predicate PoolsOk(base: nat, pool: seq<int>, chunks: seq<seq<nat>>, live: set<nat>) {
    && |chunks| == NUM_POOLS
    && (forall i: nat :: i < NUM_POOLS ==> NoDup(chunks[i]))
    && (forall i: nat, a: nat :: i < NUM_POOLS && a in chunks[i] ==> IsChunk(base, pool, i, a))
    && (forall a :: a in live ==> exists i: nat :: IsChunk(base, pool, i, a))
    && (forall i: nat, a: nat :: IsChunk(base, pool, i, a) ==> (a in live <==> a !in chunks[i]))
  }

  ghost predicate Chained(link: map<nat, nat>, head: seq<nat>, chunks: seq<seq<nat>>) {
    |head| == |chunks| == NUM_POOLS && forall i: nat :: i < NUM_POOLS ==> Chain(link, head[i], chunks[i])
  }

  /** A page carries a pool number only while it is allocated, as a block of one page. */
  ghost predicate PoolPages(fa: seq<int>, pool: seq<int>) {
    |pool| == |fa| && forall f: nat :: f < |pool| ==> -1 <= pool[f] < NUM_POOLS && (pool[f] >= 0 ==> LivePage(fa, f))
  }

  /**
   What kmalloc knows: page_pool_idx, the free lists, the chunks handed out, and the large blocks with their orders.
   */
  datatype Heap = Heap(pool: seq<int>, chunks: seq<seq<nat>>, live: set<nat>, large: map<nat, nat>)

  /** The pointers that are handed out. */
  ghost function Held(base: nat, h: Heap): set<nat> {
    h.live + (set f | f in h.large :: PageAddr(base, f))
  }

  /** The address of a page. */
  function PageAddr(base: nat, f: nat): nat {
    base + f * PAGE_SIZE
  }

  ghost predicate InLarge(large: map<nat, nat>, f: nat) {
    exists i :: i in large && InBlock(i, large[i], f)
  }

  /** The frames that kmalloc has taken: pages of pools, and blocks handed out whole. */
  ghost function Frames(h: Heap): set<nat> {
    set f: nat | f < |h.pool| && (h.pool[f] >= 0 || InLarge(h.large, f))
  }

  /** Large blocks are allocated, have one reference, and belong to no pool. */
  ghost predicate LargeOk(fa: seq<int>, refs: seq<int>, h: Heap) {
    forall f :: f in h.large ==>
      Live(fa, f, h.large[f]) && f < |h.pool| && h.pool[f] == -1 && f < |refs| && refs[f] == 1
  }

  ghost predicate HeapOk(base: nat, fa: seq<int>, refs: seq<int>, h: Heap) {
    && |fa| <= MAX_PAGES && PoolPages(fa, h.pool) && LargeOk(fa, refs, h)
    && PoolsOk(base, h.pool, h.chunks, h.live)
  }

  /** The state of the page-frame allocator as kmalloc sees it, and its own. */
  datatype State = State(heap: Heap, free: set<nat>, refs: seq<int>, fa: seq<int>)

  /** Frames have come out of the free ones; no block is disturbed, and no other count. */
  ghost predicate Took(s: State, s': State) {
    && Frames(s.heap) <= Frames(s'.heap) && Frames(s'.heap) - Frames(s.heap) <= s.free
    && s'.free == s.free - (Frames(s'.heap) - Frames(s.heap))
    && KeepsLive(s.fa, s'.fa, {}) && |s'.fa| == |s.fa| && |s'.refs| == |s.refs|
    && forall f :: 0 <= f < |s.refs| && f !in Frames(s'.heap) - Frames(s.heap) ==> s'.refs[f] == s.refs[f]
  }

  /** Frames have gone back to the free ones; no other block is disturbed, and no other count. */
  ghost predicate Gave(s: State, s': State) {
    && Frames(s'.heap) <= Frames(s.heap)
    && s'.free == s.free + (Frames(s.heap) - Frames(s'.heap))
    && KeepsLive(s.fa, s'.fa, Frames(s.heap) - Frames(s'.heap)) && |s'.fa| == |s.fa| && |s'.refs| == |s.refs|
    && forall f :: 0 <= f < |s.refs| && f !in Frames(s.heap) - Frames(s'.heap) ==> s'.refs[f] == s.refs[f]
  }

  lemma MultipleMod(k: nat, n: nat)
    requires n > 0
    ensures k * n % n == 0
  {
    var q, r := k * n / n, k * n % n;
    assert (k - q) * n == r;
    if k - q >= 1 {
      MultipleLe(1, k - q, n);
    }
    if q - k >= 1 {
      MultipleLe(1, q - k, n);
    }
  }

  lemma MultipleLe(a: nat, b: nat, n: nat)
    requires a <= b
    ensures a * n <= b * n
  {
  }

  lemma ModMultiple(a: nat, n: nat)
    requires n > 0 && a % n == 0
    ensures a == a / n * n
  {
  }

  lemma MultipleStep(k: nat, m: nat, n: nat)
    requires n > 0 && k * n < m * n
    ensures k < m && k * n + n <= m * n
  {
    if k >= m {
      MultipleLe(m, k, n);
    }
    MultipleLe(k + 1, m, n);
    assert (k + 1) * n == k * n + n;
  }

  /** A pool's chunks fill its pages. */
  lemma ChunkCount(i: nat)
    requires i < NUM_POOLS
    ensures PAGE_SIZE == PAGE_SIZE / PoolSize(i) * PoolSize(i)
  {
  }

  /** Chunks do not overlap and do not cross page boundaries, so neither do any two chunks in use. */
  lemma ChunksDisjoint(base: nat, pool: seq<int>, i: nat, a: nat, j: nat, b: nat)
    requires IsChunk(base, pool, i, a) && IsChunk(base, pool, j, b) && a < b
    ensures a + PoolSize(i) <= b
    ensures (a - base) % PAGE_SIZE + PoolSize(i) <= PAGE_SIZE
  {
    var n, x := PoolSize(i), (a - base) % PAGE_SIZE;
    ModMultiple(x, n);
    ChunkCount(i);
    MultipleStep(x / n, PAGE_SIZE / n, n);
    if PageIdx(base, a) == PageIdx(base, b) {
      var y := (b - base) % PAGE_SIZE;
      ModMultiple(y, n);
      MultipleStep(x / n, y / n, n);
    }
  }

  lemma {:induction false} ChainFrame(link: map<nat, nat>, link': map<nat, nat>, h: nat, s: seq<nat>)
    requires Chain(link, h, s)
    requires forall a :: a in s && a in link ==> a in link' && link'[a] == link[a]
    ensures Chain(link', h, s)
    decreases |s|
  {
    if s != [] {
      ChainFrame(link, link', link[h], s[1..]);
    }
  }

  lemma PopOk(base: nat, pool: seq<int>, chunks: seq<seq<nat>>, live: set<nat>, i: nat)
    requires PoolsOk(base, pool, chunks, live) && i < NUM_POOLS && chunks[i] != []
    ensures PoolsOk(base, pool, chunks[i := chunks[i][1..]], live + {chunks[i][0]})
    ensures IsChunk(base, pool, i, chunks[i][0]) && chunks[i][0] !in live
  {
  }

  lemma PushOk(base: nat, pool: seq<int>, chunks: seq<seq<nat>>, live: set<nat>, i: nat, a: nat)
    requires PoolsOk(base, pool, chunks, live) && i < NUM_POOLS && a in live && IsChunk(base, pool, i, a)
    ensures PoolsOk(base, pool, chunks[i := [a] + chunks[i]], live - {a})
  {
  }

  /** The free list of a freshly sliced page: n chunks, the last one first. */
  ghost function Sliced(page: nat, size: nat, n: nat): seq<nat> {
    if n == 0 then [] else [page + (n - 1) * size] + Sliced(page, size, n - 1)
  }

  /** Address a is one of the first n multiples of `size` from `page` on. */
  predicate InSlices(page: nat, size: nat, n: nat, a: nat)
    requires size > 0
  {
    page <= a < page + n * size && (a - page) % size == 0
  }

  lemma InMoreSlices(page: nat, size: nat, n: nat, a: nat)
    requires size > 0 && n > 0
    ensures InSlices(page, size, n, a) <==> InSlices(page, size, n - 1, a) || a == page + (n - 1) * size
  {
    assert n * size == (n - 1) * size + size;
    MultipleMod(n - 1, size);
    if InSlices(page, size, n, a) {
      var q := (a - page) / size;
      ModMultiple(a - page, size);
      MultipleStep(q, n, size);
      if q < n - 1 {
        MultipleLe(q + 1, n - 1, size);
        assert (q + 1) * size == q * size + size;
      }
    }
  }

  lemma {:induction false} SlicedContents(page: nat, size: nat, n: nat)
    requires size > 0
    ensures NoDup(Sliced(page, size, n))
    ensures forall a: nat :: a in Sliced(page, size, n) <==> InSlices(page, size, n, a)
  {
    if n > 0 {
      SlicedContents(page, size, n - 1);
      var first, rest := page + (n - 1) * size, Sliced(page, size, n - 1);
      assert Sliced(page, size, n) == [first] + rest;
      assert first !in rest;
      hide InSlices;
      forall a: nat
        ensures a in [first] + rest <==> InSlices(page, size, n, a)
      {
        InMoreSlices(page, size, n, a);
      }
    }
  }

  lemma SlicedChunks(base: nat, pool: seq<int>, i: nat, pg: nat, a: nat)
    requires i < NUM_POOLS && pg < |pool|
    ensures a in Sliced(base + pg * PAGE_SIZE, PoolSize(i), PAGE_SIZE / PoolSize(i)) <==>
            IsChunk(base, pool[pg := i], i, a) && PageIdx(base, a) == pg
  {
    var page := base + pg * PAGE_SIZE;
    SlicedContents(page, PoolSize(i), PAGE_SIZE / PoolSize(i));
    ChunkCount(i);
    if base <= a && PageIdx(base, a) == pg {
      assert (a - base) % PAGE_SIZE == a - page;
    }
  }

  /** A fresh page becomes chunks of pool i. */
  lemma RefillOk(base: nat, pool: seq<int>, chunks: seq<seq<nat>>, live: set<nat>, i: nat, pg: nat)
    requires PoolsOk(base, pool, chunks, live) && i < NUM_POOLS && chunks[i] == [] && pg < |pool| && pool[pg] == -1
    ensures PoolsOk(base, pool[pg := i],
            chunks[i := Sliced(base + pg * PAGE_SIZE, PoolSize(i), PAGE_SIZE / PoolSize(i))], live)
  {
    var pool', fresh' := pool[pg := i], Sliced(base + pg * PAGE_SIZE, PoolSize(i), PAGE_SIZE / PoolSize(i));
    var chunks' := chunks[i := fresh'];
    SlicedContents(base + pg * PAGE_SIZE, PoolSize(i), PAGE_SIZE / PoolSize(i));
    forall j: nat, a: nat
      ensures IsChunk(base, pool', j, a) <==> IsChunk(base, pool, j, a) || (j == i && a in fresh')
      ensures a in fresh' ==> !IsChunk(base, pool, j, a)
    {
      SlicedChunks(base, pool, i, pg, a);
    }
    hide IsChunk;
    forall a | a in live
      ensures exists j: nat :: IsChunk(base, pool', j, a)
    {
      var j: nat :| IsChunk(base, pool, j, a);
      assert IsChunk(base, pool', j, a);
    }
  }

  /** Chunks do not lie in pages that belong to no pool. */
  lemma OutsidePage(base: nat, pool: seq<int>, chunks: seq<seq<nat>>, live: set<nat>, pg: nat)
    requires PoolsOk(base, pool, chunks, live) && pg < |pool| && pool[pg] == -1
    ensures forall j: nat, a: nat :: j < NUM_POOLS && a in chunks[j] ==>
              !(base + pg * PAGE_SIZE <= a < base + pg * PAGE_SIZE + PAGE_SIZE)
  {
  }

  lemma SlicedSome(page: nat, i: nat)
    requires i < NUM_POOLS
    ensures Sliced(page, PoolSize(i), PAGE_SIZE / PoolSize(i)) != []
  {
  }

  /** The list of a pool is empty exactly when its head is null. */
  lemma HeadTest(base: nat, pool: seq<int>, link: map<nat, nat>, head: seq<nat>, chunks: seq<seq<nat>>, live: set<nat>,
                 i: nat)
    requires 0 < base && PoolsOk(base, pool, chunks, live) && Chained(link, head, chunks) && i < NUM_POOLS
    ensures head[i] == NULL <==> chunks[i] == []
    ensures chunks[i] != [] ==> head[i] == chunks[i][0] && head[i] in link && Chain(link, link[head[i]], chunks[i][1..])
  {
    assert Chain(link, head[i], chunks[i]);
    if chunks[i] != [] {
      assert IsChunk(base, pool, i, chunks[i][0]);
    }
  }

  /** Rounding an address down to a page boundary finds its page. */
  lemma PageBase(base: nat, a: nat)
    requires base % PAGE_SIZE == 0 && base <= a
    ensures base <= a / PAGE_SIZE * PAGE_SIZE && PageIdx(base, a / PAGE_SIZE * PAGE_SIZE) == PageIdx(base, a)
  {
  }

  lemma PoolPageLive(fa: seq<int>, refs: seq<int>, h: Heap, base: nat, f: nat)
    requires HeapOk(base, fa, refs, h) && f in Frames(h)
    ensures f < |fa| && f !in FreeFrames(fa)
  {
    hide PoolsOk;
    if h.pool[f] >= 0 {
      LiveFrames(fa, f, 0);
    } else {
      var i :| i in h.large && InBlock(i, h.large[i], f);
      LiveFrames(fa, i, h.large[i]);
      InBlockFrames(i, h.large[i], f);
    }
  }

  /** No frame that kmalloc has taken is free. */
  lemma FramesNotFree(base: nat, fa: seq<int>, refs: seq<int>, h: Heap)
    requires HeapOk(base, fa, refs, h)
    ensures Frames(h) !! FreeFrames(fa) && forall f :: f in Frames(h) ==> f < |fa|
  {
    hide HeapOk, Frames;
    forall f | f in Frames(h)
      ensures f < |fa| && f !in FreeFrames(fa)
    {
      PoolPageLive(fa, refs, h, base, f);
    }
  }

  /** Block h of order k belongs to no pool and to no other large block if its first frame does not. */
  lemma BlockOutside(base: nat, fa: seq<int>, refs: seq<int>, heap: Heap, h: nat, k: nat, f: nat)
    requires HeapOk(base, fa, refs, heap) && Live(fa, h, k) && f in BlockFrames(h, k)
    requires h < |heap.pool| && heap.pool[h] == -1
    ensures f < |heap.pool| && heap.pool[f] == -1
    ensures forall i :: i in heap.large && InBlock(i, heap.large[i], f) ==> i == h
  {
    hide PoolsOk;
    LiveFrames(fa, h, k);
    if heap.pool[f] >= 0 {
      LiveApart(fa, h, k, f, 0);
      OneFrame(f);
    }
    forall i | i in heap.large && InBlock(i, heap.large[i], f)
      ensures i == h
    {
      LiveApart(fa, h, k, i, heap.large[i]);
      InBlockFrames(i, heap.large[i], f);
    }
  }

  /** What kmalloc holds is not disturbed by what happens to other blocks. */
  lemma HeapKept(base: nat, fa: seq<int>, fb: seq<int>, refs: seq<int>, refs': seq<int>, h: Heap, gone: set<nat>)
    requires HeapOk(base, fa, refs, h) && |fb| == |fa| && |refs'| == |refs|
    requires KeepsLive(fa, fb, gone) && gone !! Frames(h)
    requires forall f: nat :: f in Frames(h) && f < |refs| ==> refs'[f] == refs[f]
    ensures HeapOk(base, fb, refs', h)
  {
    hide PoolsOk;
    forall f | f in h.large
      ensures f in Frames(h)
    {
      LiveFrames(fa, f, h.large[f]);
      assert InBlock(f, h.large[f], f);
    }
    hide Live;
  }

  lemma FramesWithPage(h: Heap, i: nat, pg: nat, chunks: seq<seq<nat>>)
    requires pg < |h.pool|
    ensures Frames(h.(pool := h.pool[pg := i], chunks := chunks)) == Frames(h) + {pg}
  {
    hide InLarge;
  }

  lemma FramesWithBlock(h: Heap, f: nat, k: nat)
    requires f !in h.large && forall g :: g in BlockFrames(f, k) ==> g < |h.pool|
    ensures Frames(h.(large := h.large[f := k])) == Frames(h) + BlockFrames(f, k)
  {
    var large := h.large[f := k];
    forall g: nat
      ensures InLarge(large, g) <==> InLarge(h.large, g) || g in BlockFrames(f, k)
    {
      InBlockFrames(f, k, g);
      if i :| i in h.large && InBlock(i, h.large[i], g) {
        assert i in large && InBlock(i, large[i], g);
      }
      if InBlock(f, k, g) {
        assert f in large && InBlock(f, large[f], g);
      }
    }
    hide InLarge;
  }

  /** Pool i has got page pg. */
  lemma PageAdded(base: nat, s: State, s': State, i: nat, pg: nat, chunks: seq<seq<nat>>)
    requires HeapOk(base, s.fa, s.refs, s.heap) && i < NUM_POOLS && s.free == FreeFrames(s.fa)
    requires pg in s.free && s'.free == s.free - {pg} && |s'.fa| == |s.fa| && LivePage(s'.fa, pg)
    requires KeepsLive(s.fa, s'.fa, {}) && pg < |s.refs| && s'.refs == s.refs[pg := 1]
    requires pg < |s.heap.pool| && s'.heap == s.heap.(pool := s.heap.pool[pg := i], chunks := chunks)
    ensures PoolPages(s'.fa, s'.heap.pool) && LargeOk(s'.fa, s'.refs, s'.heap)
    ensures s.heap.pool[pg] == -1 && Frames(s'.heap) == Frames(s.heap) + {pg} && pg !in Frames(s.heap) && Took(s, s')
  {
    FramesNotFree(base, s.fa, s.refs, s.heap);
    FramesWithPage(s.heap, i, pg, chunks);
    HeapKept(base, s.fa, s'.fa, s.refs, s'.refs, s.heap, {});
    hide PoolsOk, Live, KeepsLive;
    assert pg !in Frames(s.heap);
    forall f | f in s.heap.large
      ensures f != pg
    {
      LargeInFrames(base, s.fa, s.refs, s.heap, f);
    }
  }

  lemma LargeInFrames(base: nat, fa: seq<int>, refs: seq<int>, h: Heap, f: nat)
    requires HeapOk(base, fa, refs, h) && f in h.large
    ensures BlockFrames(f, h.large[f]) <= Frames(h) && f in BlockFrames(f, h.large[f])
  {
    hide PoolsOk;
    LiveFrames(fa, f, h.large[f]);
    forall g | g in BlockFrames(f, h.large[f])
      ensures g in Frames(h)
    {
      InBlockFrames(f, h.large[f], g);
    }
  }

  /** A block that was free has been handed out. */
  lemma BlockAdded(base: nat, s: State, s': State, f: nat, k: nat)
    requires HeapOk(base, s.fa, s.refs, s.heap) && s.free == FreeFrames(s.fa) && |s.refs| == |s.fa| && k <= MAX_ORDER
    requires Taken(s.fa, s'.fa, f, k) && s'.free == FreeFrames(s'.fa) && s'.refs == RefsSet(s.refs, f, k)
    requires s'.heap == s.heap.(large := s.heap.large[f := k])
    ensures HeapOk(base, s'.fa, s'.refs, s'.heap) && f !in s.heap.large && BlockFrames(f, k) !! Frames(s.heap)
    ensures Frames(s'.heap) == Frames(s.heap) + BlockFrames(f, k) && Took(s, s')
  {
    hide PoolsOk, Live, KeepsLive, Taken, Frames;
    TakenBlock(s.fa, s'.fa, f, k);
    LiveFrames(s'.fa, f, k);
    FramesNotFree(base, s.fa, s.refs, s.heap);
    if f in s.heap.large {
      LargeInFrames(base, s.fa, s.refs, s.heap, f);
    }
    FramesWithBlock(s.heap, f, k);
    RefsOfBlock(s.refs, f, k);
    HeapKept(base, s.fa, s'.fa, s.refs, s'.refs, s.heap, {});
    NotInPool(s.heap, f);
  }

  lemma NotInPool(h: Heap, f: nat)
    requires f < |h.pool| && h.pool[f] >= -1 && f !in Frames(h)
    ensures h.pool[f] == -1
  {
  }

  lemma RefsOfBlock(refs: seq<int>, f: nat, k: nat)
    ensures |RefsSet(refs, f, k)| == |refs|
    ensures forall g: nat :: g < |refs| ==> RefsSet(refs, f, k)[g] == if g in BlockFrames(f, k) then 1 else refs[g]
  {
    forall g: nat
      ensures g in BlockFrames(f, k) <==> InBlock(f, k, g)
    {
      InBlockFrames(f, k, g);
    }
  }

  /** A large block has been given back. */
  lemma BlockRemoved(base: nat, s: State, s': State, f: nat)
    requires HeapOk(base, s.fa, s.refs, s.heap) && s.free == FreeFrames(s.fa) && f in s.heap.large
    requires Released(s.fa, s'.fa, f, s.heap.large[f]) && s'.free == FreeFrames(s'.fa)
    requires f < |s.refs| && s'.refs == s.refs[f := s.refs[f] - 1]
    requires s'.heap == s.heap.(large := s.heap.large - {f})
    ensures HeapOk(base, s'.fa, s'.refs, s'.heap) && f in Frames(s.heap)
    ensures Frames(s'.heap) == Frames(s.heap) - BlockFrames(f, s.heap.large[f]) && Gave(s, s')
  {
    var k := s.heap.large[f];
    hide PoolsOk, Live, KeepsLive, Released, Frames, LargeOk, PoolPages, FreeFrames, BlockFrames;
    ReleasedBlock(s.fa, s'.fa, f, k);
    LargeInFrames(base, s.fa, s.refs, s.heap, f);
    FramesWithoutBlock(base, s.fa, s.refs, s.heap, f);
    KeepsLiveMore(s.fa, s'.fa, {f}, BlockFrames(f, k));
    HeapKept(base, s.fa, s'.fa, s.refs, s'.refs, s'.heap, {f});
  }

  lemma FramesWithoutBlock(base: nat, fa: seq<int>, refs: seq<int>, h: Heap, f: nat)
    requires HeapOk(base, fa, refs, h) && f in h.large
    ensures Frames(h.(large := h.large - {f})) == Frames(h) - BlockFrames(f, h.large[f])
    ensures HeapOk(base, fa, refs, h.(large := h.large - {f}))
  {
    var h', k := h.(large := h.large - {f}), h.large[f];
    assert LargeOk(fa, refs, h');
    forall g: nat
      ensures g in BlockFrames(f, k) ==> g < |h.pool| && h.pool[g] == -1
      ensures InLarge(h.large, g) <==> InLarge(h'.large, g) || g in BlockFrames(f, k)
      ensures g in BlockFrames(f, k) ==> !InLarge(h'.large, g)
    {
      if g in BlockFrames(f, k) {
        BlockOutside(base, fa, refs, h, f, k, g);
      }
      InBlockFrames(f, k, g);
      if i :| i in h.large && i != f && InBlock(i, h.large[i], g) {
        assert i in h'.large && InBlock(i, h'.large[i], g);
      }
    }
    hide InLarge, HeapOk, LargeOk;
  }

  /** Address a is where some chunk begins. */
  predicate IsSomeChunk(base: nat, pool: seq<int>, a: nat) {
    && base <= a && PageIdx(base, a) < |pool| && 0 <= pool[PageIdx(base, a)] < NUM_POOLS
    && IsChunk(base, pool, pool[PageIdx(base, a)], a)
  }

  /** How many bytes belong to a pointer that is handed out. */
  ghost function SizeAt(base: nat, h: Heap, p: nat): nat {
    if IsSomeChunk(base, h.pool, p) then PoolSize(h.pool[PageIdx(base, p)])
    else if base <= p && PageIdx(base, p) in h.large then Pow2(h.large[PageIdx(base, p)]) * PAGE_SIZE
    else 0
  }

  lemma ChunkSize(base: nat, h: Heap, i: nat, p: nat)
    requires IsChunk(base, h.pool, i, p)
    ensures SizeAt(base, h, p) == PoolSize(i)
  {
  }

  lemma PageOf(base: nat, f: nat)
    ensures PageIdx(base, PageAddr(base, f)) == f
  {
  }

  /** A pointer that is handed out is a chunk or the start of a large block, and not both. */
  lemma HeldKinds(base: nat, fa: seq<int>, refs: seq<int>, h: Heap, p: nat)
    requires HeapOk(base, fa, refs, h) && p in Held(base, h)
    ensures base <= p && PageIdx(base, p) < |h.pool|
    ensures p in h.live <==> IsSomeChunk(base, h.pool, p)
    ensures p in h.live <==> h.pool[PageIdx(base, p)] >= 0
    ensures p !in h.live ==> p == PageAddr(base, PageIdx(base, p)) && PageIdx(base, p) in h.large
  {
    if p in h.live {
      hide PoolPages, LargeOk;
      var i: nat :| IsChunk(base, h.pool, i, p);
    } else {
      hide PoolsOk, PoolPages, IsChunk;
      var f :| f in h.large && p == PageAddr(base, f);
      PageOf(base, f);
    }
  }

  lemma ChunkInPage(base: nat, pool: seq<int>, i: nat, a: nat)
    requires IsChunk(base, pool, i, a)
    ensures a + PoolSize(i) <= base + (PageIdx(base, a) + 1) * PAGE_SIZE
  {
    var n, x := PoolSize(i), (a - base) % PAGE_SIZE;
    ModMultiple(x, n);
    ChunkCount(i);
    MultipleStep(x / n, PAGE_SIZE / n, n);
  }

  /** The bytes of a pointer that is handed out lie in frames that kmalloc has taken. */
  lemma HeldInside(base: nat, fa: seq<int>, refs: seq<int>, h: Heap, p: nat, a: nat)
    requires HeapOk(base, fa, refs, h) && p in Held(base, h) && p <= a < p + SizeAt(base, h, p)
    ensures PageIdx(base, a) in Frames(h)
  {
    HeldKinds(base, fa, refs, h, p);
    var f := PageIdx(base, p);
    if p in h.live {
      ChunkInPage(base, h.pool, h.pool[f], p);
      assert PageIdx(base, a) == f;
    } else {
      hide PoolsOk;
      LargeInFrames(base, fa, refs, h, f);
      InBlockFrames(f, h.large[f], PageIdx(base, a));
    }
  }

  /** No two pointers that are handed out share a byte. */
  lemma HeldApart(base: nat, fa: seq<int>, refs: seq<int>, h: Heap, p: nat, q: nat)
    requires HeapOk(base, fa, refs, h) && p in Held(base, h) && q in Held(base, h) && p < q
    ensures p + SizeAt(base, h, p) <= q
  {
    HeldKinds(base, fa, refs, h, p);
    HeldKinds(base, fa, refs, h, q);
    var f, g := PageIdx(base, p), PageIdx(base, q);
    if p in h.live && q in h.live {
      ChunksDisjoint(base, h.pool, h.pool[f], p, h.pool[g], q);
    } else if p in h.live {
      ChunkInPage(base, h.pool, h.pool[f], p);
    } else if q in h.live {
      BlockEndsBefore(base, fa, refs, h, f, g);
    } else {
      hide PoolsOk, PoolPages;
      LiveApart(fa, f, h.large[f], g, h.large[g]);
    }
  }

  lemma BlockEndsBefore(base: nat, fa: seq<int>, refs: seq<int>, h: Heap, f: nat, g: nat)
    requires HeapOk(base, fa, refs, h) && f in h.large && f <= g < |h.pool| && h.pool[g] >= 0
    ensures f + Pow2(h.large[f]) <= g
  {
    if g < f + Pow2(h.large[f]) {
      InBlockFrames(f, h.large[f], g);
      BlockOutside(base, fa, refs, h, f, h.large[f], g);
    }
  }

  /** A pointer that is given back is no longer held; all others are. */
  lemma HeldWithout(base: nat, fa: seq<int>, refs: seq<int>, h: Heap, p: nat)
    requires HeapOk(base, fa, refs, h) && p in Held(base, h)
    ensures p in h.live ==> Held(base, h.(live := h.live - {p})) == Held(base, h) - {p}
    ensures p !in h.live ==> base <= p && Held(base, h.(large := h.large - {PageIdx(base, p)})) == Held(base, h) - {p}
  {
    hide HeapOk, IsSomeChunk;
    HeldKinds(base, fa, refs, h, p);
    forall f | f in h.large
      ensures PageAddr(base, f) in Held(base, h) && PageAddr(base, f) !in h.live
      ensures PageAddr(base, f) == p ==> f == PageIdx(base, p)
    {
      LargeNotLive(base, fa, refs, h, f);
      PageOf(base, f);
    }
    hide PageAddr, PageIdx;
  }

  lemma LargeNotLive(base: nat, fa: seq<int>, refs: seq<int>, h: Heap, f: nat)
    requires HeapOk(base, fa, refs, h) && f in h.large
    ensures PageAddr(base, f) in Held(base, h) && PageAddr(base, f) !in h.live
  {
    var p := PageAddr(base, f);
    assert p in Held(base, h);
    PageOf(base, f);
    HeldKinds(base, fa, refs, h, p);
    hide PoolsOk, PoolPages;
  }

  lemma BlockSizeAt(base: nat, fa: seq<int>, refs: seq<int>, h: Heap, f: nat)
    requires HeapOk(base, fa, refs, h) && f in h.large
    ensures SizeAt(base, h, PageAddr(base, f)) == Pow2(h.large[f]) * PAGE_SIZE
  {
    var p := PageAddr(base, f);
    assert p in Held(base, h);
    LargeNotLive(base, fa, refs, h, f);
    HeldKinds(base, fa, refs, h, p);
    PageOf(base, f);
    hide PoolsOk, PoolPages, LargeOk, IsSomeChunk;
  }

  lemma LargeIsLive(base: nat, fa: seq<int>, refs: seq<int>, h: Heap, f: nat)
    requires HeapOk(base, fa, refs, h) && f in h.large
    ensures LiveIn(fa, 0, 0, f, h.large[f], f) && f < |refs| && refs[f] == 1 && |fa| <= MAX_PAGES
  {
    hide PoolPages, PoolsOk;
  }

  lemma HeldWith(base: nat, h: Heap, f: nat, k: nat)
    ensures Held(base, h.(large := h.large[f := k])) == Held(base, h) + {PageAddr(base, f)}
  {
    hide PageAddr;
    var h' := h.(large := h.large[f := k]);
    assert forall g :: g in h'.large <==> g in h.large || g == f;
    assert f in h'.large;
  }

  /** The list of pool i is empty. */
  predicate Empty(h: Heap, i: nat) {
    i < |h.chunks| && h.chunks[i] == []
  }

  /** kmalloc can serve the request: from its pool, from a free page, or with a block of the page-frame allocator. */
  ghost predicate CanServe(s: State, size: nat) {
    && size > 0
    && if size <= 2048 then !Empty(s.heap, PoolFor(size)) || s.free != {} else CanPlace(s.fa, size)
  }

  /** The page-frame allocator has a block of the order that the size asks for. */
  ghost predicate CanPlace(fa: seq<int>, size: nat) {
    exists k: nat :: k <= MAX_ORDER && FitsOrder(PagesFor(size), k) && HasRun(fa, k)
  }

  ghost predicate HasRun(fa: seq<int>, k: nat) {
    exists f: nat :: FreeRun(fa, f, k)
  }

  lemma PlaceByOrder(fa: seq<int>, size: nat, order: nat)
    requires FitsOrder(PagesFor(size), order)
    ensures CanPlace(fa, size) <==> order <= MAX_ORDER && HasRun(fa, order)
  {
    forall k: nat | FitsOrder(PagesFor(size), k)
      ensures k == order
    {
      FitsOnce(PagesFor(size), k, order);
    }
    hide FitsOrder, HasRun;
  }

  lemma FitsOnce(pages: nat, j: nat, k: nat)
    requires FitsOrder(pages, j) && FitsOrder(pages, k)
    ensures j == k
  {
  }

  /** The head of a list has been handed out. */
  ghost predicate Popped(h: Heap, h': Heap, i: nat, p: nat) {
    && i < |h.chunks| && h.chunks[i] != [] && p == h.chunks[i][0]
    && h' == h.(chunks := h.chunks[i := h.chunks[i][1..]], live := h.live + {p})
  }

  /** A free page has been cut into chunks for a pool whose list was empty. */
  ghost predicate Refilled(base: nat, s: State, s': State, i: nat, pg: nat) {
    && Empty(s.heap, i) && i < NUM_POOLS && pg in s.free && pg < |s.heap.pool| && s'.free == s.free - {pg}
    && s'.heap == s.heap.(pool := s.heap.pool[pg := i],
                          chunks := s.heap.chunks[i :=
                            Sliced(PageAddr(base, pg), PoolSize(i), PAGE_SIZE / PoolSize(i))])
  }

  /** A pointer for a request of `size` bytes has been handed out. */
  ghost predicate Granted(base: nat, s: State, s': State, size: nat, p: nat) {
    && p !in Held(base, s.heap) && Held(base, s'.heap) == Held(base, s.heap) + {p}
    && if size > 2048 then GrantedBlock(base, s, s', size, p)
       else if !Empty(s.heap, PoolFor(size))
         then Popped(s.heap, s'.heap, PoolFor(size), p) && s'.fa == s.fa && s'.refs == s.refs
       else exists m: State, pg: nat ::
           Refilled(base, s, m, PoolFor(size), pg) && Popped(m.heap, s'.heap, PoolFor(size), p)
  }

  ghost predicate GrantedBlock(base: nat, s: State, s': State, size: nat, p: nat) {
    exists f: nat, k: nat ::
      && FitsOrder(PagesFor(size), k) && p == PageAddr(base, f) && f !in s.heap.large && Taken(s.fa, s'.fa, f, k)
      && s'.heap == s.heap.(large := s.heap.large[f := k])
  }

  /** A pointer has gone back to where it came from: a chunk to the list of its pool, a block to the free frames. */
  ghost predicate Returned(base: nat, s: State, s': State, p: nat) {
    && p in Held(base, s.heap) && Held(base, s'.heap) == Held(base, s.heap) - {p}
    && if p in s.heap.live then ReturnedChunk(base, s, s', p)
       else
         && base <= p && PageIdx(base, p) in s.heap.large
         && s'.heap == s.heap.(large := s.heap.large - {PageIdx(base, p)})
         && Released(s.fa, s'.fa, PageIdx(base, p), s.heap.large[PageIdx(base, p)])
  }

  ghost predicate ReturnedChunk(base: nat, s: State, s': State, p: nat) {
    exists i: nat ::
      && IsChunk(base, s.heap.pool, i, p) && i < |s.heap.chunks|
      && s' == s.(heap := s.heap.(chunks := s.heap.chunks[i := [p] + s.heap.chunks[i]], live := s.heap.live - {p}))
  }

  lemma TookRefl(s: State)
    ensures Took(s, s)
  {
    KeepsLiveRefl(s.fa);
  }

  lemma TookSameFrames(s: State, s': State, chunks: seq<seq<nat>>, live: set<nat>)
    requires Took(s, s')
    ensures Took(s, s'.(heap := s'.heap.(chunks := chunks, live := live)))
  {
    hide InLarge, KeepsLive;
  }

  lemma GaveChunk(s: State, chunks: seq<seq<nat>>, live: set<nat>)
    ensures Gave(s, s.(heap := s.heap.(chunks := chunks, live := live)))
  {
    hide InLarge;
    KeepsLiveRefl(s.fa);
  }

  lemma LiveHeld(base: nat, h: Heap, p: nat)
    requires p in h.live
    ensures p in Held(base, h)
  {
  }

  /** Which pointers are held does not depend on the free lists. */
  lemma HeldByKinds(base: nat, h: Heap, h': Heap)
    requires h.live == h'.live && h.large == h'.large
    ensures Held(base, h) == Held(base, h')
  {
  }

  lemma HeldMore(base: nat, h: Heap, h': Heap, p: nat)
    requires h'.live == h.live + {p} && h'.large == h.large
    ensures Held(base, h') == Held(base, h) + {p}
  {
  }

  /** A pointer is handed out for at least one byte. */
  lemma HeldSize(base: nat, fa: seq<int>, refs: seq<int>, h: Heap, p: nat)
    requires HeapOk(base, fa, refs, h) && p in Held(base, h)
    ensures SizeAt(base, h, p) > 0
  {
    HeldKinds(base, fa, refs, h, p);
  }

  lemma HeldNotNull(base: nat, fa: seq<int>, refs: seq<int>, h: Heap, p: nat)
    requires HeapOk(base, fa, refs, h) && p in Held(base, h) && 0 < base
    ensures p != NULL
  {
    HeldKinds(base, fa, refs, h, p);
  }

  /** What a return does to the books. */
  lemma ReturnedFacts(base: nat, s: State, s': State, p: nat)
    requires Returned(base, s, s', p)
    ensures s'.heap.pool == s.heap.pool && Held(base, s'.heap) == Held(base, s.heap) - {p}
    ensures p in s.heap.live ==> s'.heap.live == s.heap.live - {p} && s'.heap.large == s.heap.large
    ensures p !in s.heap.live ==>
              base <= p && s'.heap.live == s.heap.live && s'.heap.large == s.heap.large - {PageIdx(base, p)}
  {
    hide Held, Released;
    if p in s.heap.live {
      var i: nat :| IsChunk(base, s.heap.pool, i, p) && i < |s.heap.chunks|
        && s' == s.(heap := s.heap.(chunks := s.heap.chunks[i := [p] + s.heap.chunks[i]], live := s.heap.live - {p}));
    }
  }

  /** What a grant does to the books. */
  lemma GrantedFacts(base: nat, s: State, s': State, size: nat, p: nat)
    requires Granted(base, s, s', size, p)
    ensures p !in Held(base, s.heap) && Held(base, s'.heap) == Held(base, s.heap) + {p}
    ensures s.heap.live <= s'.heap.live
    ensures forall f :: f in s.heap.large ==> f in s'.heap.large && s'.heap.large[f] == s.heap.large[f]
    ensures |s'.heap.pool| == |s.heap.pool|
    ensures forall f: nat :: f < |s.heap.pool| && f !in s.free ==> s'.heap.pool[f] == s.heap.pool[f]
  {
    hide Held, Taken, FitsOrder, Sliced;
    if size <= 2048 && Empty(s.heap, PoolFor(size)) {
      var m: State, pg: nat :| Refilled(base, s, m, PoolFor(size), pg) && Popped(m.heap, s'.heap, PoolFor(size), p);
    }
  }
}
