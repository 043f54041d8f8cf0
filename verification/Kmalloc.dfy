/** The chunk pools of kmalloc.c on top of the page-frame allocator. */
module KmallocPools {
  import opened BuddySpec
  import opened BuddyTheory
  import opened BuddyAllocator
  import opened BuddyPages
  import opened KmallocSpec

  class Pools {
    const buddy: Buddy
    /** pools[i].free_list */
    var head: seq<nat>
    /** The `next` field of the chunk at each address. */
    var link: map<nat, nat>
    /** page_pool_idx */
    var pagePool: seq<int>

    /** The contents of the free lists, the chunks handed out, and the large blocks handed out with their orders. */
    ghost var chunks: seq<seq<nat>>
    ghost var live: set<nat>
    ghost var large: map<nat, nat>

    ghost function Contents(): Heap
      reads this
    {
      Heap(pagePool, chunks, live, large)
    }

    ghost function Now(): State
      reads this, buddy.frameArray, buddy.refCount
    {
      State(Contents(), FreeFrames(buddy.frameArray[..]), buddy.refCount[..], buddy.frameArray[..])
    }

    /** Whatever the embedded lists look like. */
    ghost predicate Ready()
      reads this, buddy, buddy.frameArray, buddy.refCount, buddy.nodes.prev, buddy.nodes.next
    {
      && this !in buddy.Repr && buddy.Valid() && buddy.base % PAGE_SIZE == 0
      && HeapOk(buddy.base, buddy.frameArray[..], buddy.refCount[..], Contents())
    }

    ghost predicate Valid()
      reads this, buddy, buddy.frameArray, buddy.refCount, buddy.nodes.prev, buddy.nodes.next
    {
      Ready() && Chained(link, head, chunks)
    }

    lemma Bounds()
      requires Ready()
      ensures buddy.Valid() && this !in buddy.Repr && 0 < buddy.base
      ensures |pagePool| == buddy.total == |buddy.frameArray[..]| == |buddy.refCount[..]| <= MAX_PAGES
              && |chunks| == NUM_POOLS
      ensures buddy.Repr == {buddy, buddy.frameArray, buddy.refCount, buddy.nodes.prev, buddy.nodes.next}
    {
      buddy.Bounds();
    }

    /** Eight empty pools; block `first` of the page-frame allocator holds page_pool_idx. */
    constructor (buddy: Buddy, ghost first: nat, ghost order: nat)
      requires buddy.Valid() && buddy.base % PAGE_SIZE == 0
      requires Live(buddy.frameArray[..], first, order) && first < buddy.total && buddy.refCount[first] == 1
      ensures Valid() && this.buddy == buddy
      ensures Contents() == Heap(seq(buddy.total, _ => -1), seq(NUM_POOLS, _ => []), {}, map[first := order])
    {
      hide Buddy.Valid, Live;
      buddy.Bounds();
      this.buddy := buddy;
      head := seq(NUM_POOLS, _ => NULL);
      chunks := seq(NUM_POOLS, _ => []);
      link := map[];
      live, large := {}, map[first := order];
      pagePool := seq(buddy.total, _ => -1);
    }

    /** find_pool */
    method FindPool(size: nat) returns (i: int)
      ensures i == -1 <==> size > 2048
      ensures i != -1 ==> 0 <= i < NUM_POOLS && size <= PoolSize(i) && forall j: nat :: j < i ==> PoolSize(j) < size
    {
      i := 0;
      while i < NUM_POOLS
        invariant 0 <= i <= NUM_POOLS
        invariant forall j: nat :: j < i ==> PoolSize(j) < size
      {
        if size <= PoolSize(i) {
          return;
        }
        i := i + 1;
      }
      assert PoolSize(7) < size;
      i := -1;
    }

    /** Put one chunk at the front of the list of pool i. */
    method PushChunk(i: nat, node: nat)
      requires Chained(link, head, chunks) && i < NUM_POOLS
      requires forall j: nat :: j < NUM_POOLS ==> node !in chunks[j]
      modifies this`head, this`link, this`chunks
      ensures Chained(link, head, chunks) && chunks == old(chunks)[i := [node] + old(chunks)[i]]
    {
      link := link[node := head[i]];
      head := head[i := node];
      forall j: nat | j < NUM_POOLS
        ensures Chain(link, old(head)[j], chunks[j])
      {
        ChainFrame(old(link), link, old(head)[j], chunks[j]);
      }
      assert ([node] + chunks[i])[1..] == chunks[i];
      chunks := chunks[i := [node] + chunks[i]];
    }

    /** Slice a page into chunks for pool i. */
    method Slice(i: nat, page: nat)
      requires Chained(link, head, chunks) && i < NUM_POOLS && chunks[i] == []
      requires forall j: nat, a: nat :: j < NUM_POOLS && a in chunks[j] ==> !(page <= a < page + PAGE_SIZE)
      modifies this`head, this`link, this`chunks
      ensures Chained(link, head, chunks)
      ensures chunks == old(chunks)[i := Sliced(page, PoolSize(i), PAGE_SIZE / PoolSize(i))]
    {
      var size := PoolSize(i);
      var n := PAGE_SIZE / size;
      ChunkCount(i);
      var k := 0;
      while k < n
        invariant k <= n && Chained(link, head, chunks)
        invariant chunks == old(chunks)[i := Sliced(page, size, k)]
      {
        SlicedContents(page, size, k);
        assert k * size < n * size by {
          assert (n - k) * size > 0;
        }
        PushChunk(i, page + k * size);
        k := k + 1;
      }
    }

    /** kmalloc: a fresh page for pool i, whose list is empty; false when no page is free. */
    method Refill(i: nat) returns (ok: bool)
      requires Valid() && i < NUM_POOLS && chunks[i] == []
      modifies this`head, this`link, this`chunks, this`pagePool, buddy.Repr
      ensures Valid() && (ok <==> old(Now()).free != {})
      ensures !ok ==> Now() == old(Now())
      ensures ok ==> chunks[i] != [] && Took(old(Now()), Now())
      ensures ok ==> exists pg: nat :: Refilled(buddy.base, old(Now()), Now(), i, pg)
    {
      hide Buddy.Valid, Taken, Live, KeepsLive, FitsOrder, SmallestAdequate, IsChunk, FreeRun, FreeFrames, Took;
      hide PoolPages, LargeOk, Frames, Held;
      ghost var was := Now();
      Bounds();
      var page, idx, order := buddy.Alloc(PAGE_SIZE);
      OnePage(order);
      SinglePageRuns(was.fa);
      if page == NULL {
        return false;
      }
      TakenPage(was.fa, buddy.frameArray[..], idx);
      buddy.Bounds();
      var pg := PageIdx(buddy.base, page);
      PageOf(buddy.base, idx);
      RefillPage(i, pg, was);
      ok := true;
    }

    /** The part of a refill after the page has been taken. */
    method RefillPage(i: nat, pg: nat, ghost was: State)
      requires this !in buddy.Repr && buddy.Valid() && buddy.base % PAGE_SIZE == 0 && Chained(link, head, chunks)
      requires HeapOk(buddy.base, was.fa, was.refs, was.heap) && was.heap == Contents()
               && was.free == FreeFrames(was.fa)
      requires i < NUM_POOLS && chunks[i] == [] && pg in was.free && Now().free == was.free - {pg}
      requires |was.fa| == buddy.total && LivePage(buddy.frameArray[..], pg) && pg < |was.refs|
      requires KeepsLive(was.fa, buddy.frameArray[..], {}) && buddy.refCount[..] == was.refs[pg := 1]
      modifies this`head, this`link, this`chunks, this`pagePool
      ensures Valid() && chunks[i] != [] && Took(was, Now()) && Refilled(buddy.base, was, Now(), i, pg)
    {
      hide Buddy.Valid, LivePage, KeepsLive, IsChunk, FreeFrames, Took, Frames, LargeOk, PoolPages, PoolsOk;
      buddy.Bounds();
      PageFree(was, pg);
      PoolsIn(was);
      OutsidePage(buddy.base, pagePool, chunks, live, pg);
      RefillOk(buddy.base, pagePool, chunks, live, i, pg);
      ghost var fresh' := chunks[i := Sliced(PageAddr(buddy.base, pg), PoolSize(i), PAGE_SIZE / PoolSize(i))];
      PageAdded(buddy.base, was, Now().(heap := was.heap.(pool := pagePool[pg := i], chunks := fresh')), i, pg, fresh');
      pagePool := pagePool[pg := i];
      Slice(i, PageAddr(buddy.base, pg));
      SlicedSome(PageAddr(buddy.base, pg), i);
    }

    lemma PoolsIn(s: State)
      requires HeapOk(buddy.base, s.fa, s.refs, s.heap)
      ensures PoolsOk(buddy.base, s.heap.pool, s.heap.chunks, s.heap.live) && |s.heap.chunks| == NUM_POOLS
      ensures |s.heap.pool| == |s.fa| <= MAX_PAGES
    {
    }

    lemma PageFree(s: State, pg: nat)
      requires HeapOk(buddy.base, s.fa, s.refs, s.heap) && s.free == FreeFrames(s.fa) && pg in s.free
      ensures pg < |s.heap.pool| && s.heap.pool[pg] == -1
    {
      hide PoolsOk;
      FramesNotFree(buddy.base, s.fa, s.refs, s.heap);
      NotInPool(s.heap, pg);
    }

    /** kmalloc */
    method Kmalloc(size: nat) returns (ret: nat)
      requires Valid()
      modifies this, buddy.Repr
      ensures Valid() && (ret == NULL <==> !CanServe(old(Now()), size))
      ensures ret == NULL ==> Now() == old(Now())
      ensures ret != NULL ==> Took(old(Now()), Now()) && Granted(buddy.base, old(Now()), Now(), size, ret)
      ensures ret != NULL ==> size <= SizeAt(buddy.base, Contents(), ret)
    {
      ret := NULL;
      if size == 0 {
        return;
      }
      var pidx := FindPool(size);
      if pidx < 0 {
        ret := AllocLarge(size);
      } else {
        ret := AllocChunk(pidx, size);
      }
    }

    /** kmalloc, large requests: delegate to the page-frame allocator. */
    method AllocLarge(size: nat) returns (ret: nat)
      requires Valid() && size > 2048
      modifies this`pagePool, this`large, buddy.Repr
      ensures Valid() && (ret == NULL <==> !CanServe(old(Now()), size))
      ensures ret == NULL ==> Now() == old(Now())
      ensures ret != NULL ==> Took(old(Now()), Now()) && Granted(buddy.base, old(Now()), Now(), size, ret)
      ensures ret != NULL ==> size <= SizeAt(buddy.base, Contents(), ret)
    {
      hide Buddy.Valid, FitsOrder, SmallestAdequate, FreeRun, FreeFrames, Live, KeepsLive, Taken, Chained, Took, Frames;
      hide PoolsOk, PoolPages, LargeOk, Held, RefsSet;
      ghost var was := Now();
      Bounds();
      var ptr, idx, order := buddy.Alloc(size);
      PlaceByOrder(was.fa, size, order);
      ret := ptr;
      if ptr != NULL {
        var pages := (size + PAGE_SIZE - 1) / PAGE_SIZE;
        PageOf(buddy.base, idx);
        var first := PageIdx(buddy.base, ptr);
        buddy.Bounds();
        ghost var now := Now().(heap := was.heap.(large := large[idx := order]));
        BlockAdded(buddy.base, was, now, idx, order);
        BlockPages(was, now, idx, order, size);
        MarkLarge(first, pages);
        HeldWith(buddy.base, was.heap, idx, order);
        BlockNotHeld(was, idx, order);
        large := large[idx := order];
        BlockSizeAt(buddy.base, buddy.frameArray[..], buddy.refCount[..], Contents(), idx);
        assert Now() == now;
        assert GrantedBlock(buddy.base, was, now, size, ptr);
      }
    }

    /** Mark the pages of a large block as such; they are already. */
    method MarkLarge(first: nat, pages: nat)
      requires first + pages <= |pagePool| && forall f: nat :: first <= f < first + pages ==> pagePool[f] == -1
      modifies this`pagePool
      ensures pagePool == old(pagePool)
    {
      var i := 0;
      while i < pages
        invariant pagePool == old(pagePool)
      {
        pagePool := pagePool[first + i := -1];
        i := i + 1;
      }
    }

    /** The pages of a block just handed out belong to no pool. */
    lemma BlockPages(s: State, s': State, f: nat, k: nat, size: nat)
      requires HeapOk(buddy.base, s.fa, s.refs, s.heap) && s.free == FreeFrames(s.fa)
      requires Taken(s.fa, s'.fa, f, k) && k <= MAX_ORDER && FitsOrder(PagesFor(size), k)
      ensures f + PagesFor(size) <= |s.heap.pool|
      ensures forall g: nat :: f <= g < f + PagesFor(size) ==> s.heap.pool[g] == -1
    {
      hide PoolsOk, Taken, LargeOk;
      TakenBlock(s.fa, s'.fa, f, k);
      LiveFrames(s'.fa, f, k);
      forall g: nat | f <= g < f + PagesFor(size)
        ensures g < |s.heap.pool| && s.heap.pool[g] == -1
      {
        InBlockFrames(f, k, g);
        PageFree(s, g);
      }
    }

    lemma BlockNotHeld(s: State, f: nat, k: nat)
      requires HeapOk(buddy.base, s.fa, s.refs, s.heap) && BlockFrames(f, k) !! Frames(s.heap)
      ensures PageAddr(buddy.base, f) !in Held(buddy.base, s.heap)
    {
      hide HeapOk, Frames, Held;
      var p := PageAddr(buddy.base, f);
      if p in Held(buddy.base, s.heap) {
        HeldSize(buddy.base, s.fa, s.refs, s.heap, p);
        HeldInside(buddy.base, s.fa, s.refs, s.heap, p, p);
        PageOf(buddy.base, f);
        InBlockFrames(f, k, f);
      }
    }

    /** kmalloc, small requests: pop a chunk, refilling the pool first if its list is empty. */
    method AllocChunk(i: nat, ghost size: nat) returns (ret: nat)
      requires Valid() && 0 < size <= 2048 && i == PoolFor(size)
      modifies this, buddy.Repr
      ensures Valid() && (ret == NULL <==> !CanServe(old(Now()), size))
      ensures ret == NULL ==> Now() == old(Now())
      ensures ret != NULL ==> Took(old(Now()), Now()) && Granted(buddy.base, old(Now()), Now(), size, ret)
      ensures ret != NULL ==> size <= SizeAt(buddy.base, Contents(), ret)
    {
      hide Buddy.Valid, FreeFrames, PoolPages, LargeOk, IsChunk, Live, KeepsLive, Took, Held, Frames;
      ghost var was := Now();
      Bounds();
      HeadTest(buddy.base, pagePool, link, head, chunks, live, i);
      if head[i] == NULL {
        var ok := Refill(i);
        if !ok {
          return NULL;
        }
        ghost var mid, pg: nat :| mid == Now() && Refilled(buddy.base, was, mid, i, pg);
        HeldByKinds(buddy.base, was.heap, mid.heap);
        ret := Pop(i);
        TookSameFrames(was, mid, chunks, live);
        HeldMore(buddy.base, was.heap, Contents(), ret);
        assert Refilled(buddy.base, was, mid, i, pg) && Popped(mid.heap, Contents(), i, ret);
      } else {
        TookRefl(was);
        ret := Pop(i);
        TookSameFrames(was, was, chunks, live);
        HeldMore(buddy.base, was.heap, Contents(), ret);
      }
      ChunkSize(buddy.base, Contents(), i, ret);
    }

    /** Take the head of a list that is not empty. */
    method Pop(i: nat) returns (ret: nat)
      requires Valid() && i < NUM_POOLS && chunks[i] != []
      modifies this`head, this`chunks, this`live
      ensures Valid() && ret != NULL && ret !in old(live) && Popped(old(Contents()), Contents(), i, ret)
      ensures ret !in Held(buddy.base, old(Contents())) && IsChunk(buddy.base, pagePool, i, ret)
    {
      hide Buddy.Valid, FreeFrames, PoolPages, IsChunk, Held;
      Bounds();
      ret := head[i];
      assert chunks[i][0] in chunks[i];
      HeadTest(buddy.base, pagePool, link, head, chunks, live, i);
      PopOk(buddy.base, pagePool, chunks, live, i);
      ChunkNotLarge(ret, i);
      head := head[i := link[ret]];
      live := live + {ret};
      chunks := chunks[i := chunks[i][1..]];
    }

    lemma ChunkNotLarge(p: nat, i: nat)
      requires Ready() && IsChunk(buddy.base, pagePool, i, p) && p !in live
      ensures p !in Held(buddy.base, Contents())
    {
      if p in Held(buddy.base, Contents()) {
        HeldKinds(buddy.base, buddy.frameArray[..], buddy.refCount[..], Contents(), p);
      }
    }

    /** kfree */
    method Kfree(ptr: nat)
      requires Valid() && (ptr == NULL || ptr in Held(buddy.base, Contents()))
      modifies this, buddy.Repr
      ensures Valid() && (ptr == NULL ==> Now() == old(Now()))
      ensures ptr != NULL ==> Gave(old(Now()), Now()) && Returned(buddy.base, old(Now()), Now(), ptr)
    {
      if ptr == NULL {
        return;
      }
      hide Buddy.Valid, FreeFrames, Live, KeepsLive, Gave, Held, Frames, Chained, PoolsOk, PoolPages, LargeOk, IsChunk;
      ghost var was := Now();
      Bounds();
      HeldKinds(buddy.base, was.fa, was.refs, was.heap, ptr);
      HeldWithout(buddy.base, was.fa, was.refs, was.heap, ptr);
      var pageBase := ptr / PAGE_SIZE * PAGE_SIZE;
      PageBase(buddy.base, ptr);
      var pidx := pagePool[PageIdx(buddy.base, pageBase)];
      if pidx < 0 {
        FreeLarge(ptr);
      } else {
        FreeChunk(pidx, ptr);
      }
    }

    /** kfree of a large block. */
    method FreeLarge(ptr: nat)
      requires Valid() && ptr in Held(buddy.base, Contents()) && ptr !in live
      modifies this`large, buddy.Repr
      ensures Valid() && Gave(old(Now()), Now()) && Returned(buddy.base, old(Now()), Now(), ptr)
    {
      hide Buddy.Valid, FreeFrames, KeepsLive, Gave, Held, Frames, Chained, Released, HeapOk;
      ghost var was := Now();
      Bounds();
      HeldKinds(buddy.base, was.fa, was.refs, was.heap, ptr);
      HeldWithout(buddy.base, was.fa, was.refs, was.heap, ptr);
      ghost var f := PageIdx(buddy.base, ptr);
      LargeIsLive(buddy.base, was.fa, was.refs, was.heap, f);
      TagRoundTrip(f, large[f]);
      assert buddy.LiveBlock(f, large[f]);
      buddy.Free(ptr);
      buddy.Bounds();
      BlockRemoved(buddy.base, was, Now().(heap := was.heap.(large := large - {f})), f);
      large := large - {f};
    }

    /** kfree of a chunk of pool i. */
    method FreeChunk(i: nat, ptr: nat)
      requires Valid() && ptr in live && i < NUM_POOLS && IsChunk(buddy.base, pagePool, i, ptr)
      modifies this`head, this`link, this`chunks, this`live
      ensures Valid() && Gave(old(Now()), Now()) && Returned(buddy.base, old(Now()), Now(), ptr)
    {
      hide Buddy.Valid, FreeFrames, Gave, Frames, Held;
      ghost var was := Now();
      Bounds();
      LiveHeld(buddy.base, was.heap, ptr);
      HeldWithout(buddy.base, was.fa, was.refs, was.heap, ptr);
      PushOk(buddy.base, pagePool, chunks, live, i, ptr);
      PushChunk(i, ptr);
      live := live - {ptr};
      GaveChunk(was, chunks, live);
      HeldByKinds(buddy.base, Contents(), was.heap.(live := live));
      assert ReturnedChunk(buddy.base, was, Now(), ptr);
    }

    /**
     Whatever has been handed out, in any order, no two pointers share a byte, and none shares one with a frame outside.
     */
    lemma HandedOutApart(p: nat, q: nat, a: nat)
      requires Valid() && p in Held(buddy.base, Contents()) && q in Held(buddy.base, Contents())
      ensures p < q ==> p + SizeAt(buddy.base, Contents(), p) <= q
      ensures p <= a < p + SizeAt(buddy.base, Contents(), p) ==> PageIdx(buddy.base, a) in Frames(Contents())
    {
      hide HeapOk;
      if p < q {
        HeldApart(buddy.base, buddy.frameArray[..], buddy.refCount[..], Contents(), p, q);
      }
      if p <= a < p + SizeAt(buddy.base, Contents(), p) {
        HeldInside(buddy.base, buddy.frameArray[..], buddy.refCount[..], Contents(), p, a);
      }
    }
  }

  /** kmalloc_init: null when there is no block for page_pool_idx, which the code then uses nevertheless. */
  method KmallocInit(buddy: Buddy) returns (pools: Pools?)
    requires buddy.Valid() && buddy.base % PAGE_SIZE == 0
    modifies buddy.Repr
    ensures pools == null <==> buddy.total == 0 || !CanPlace(old(buddy.frameArray[..]), buddy.total)
    ensures pools != null ==>
              && pools.Valid() && pools.buddy == buddy && pools.live == {} && fresh(pools)
              && pools.chunks == seq(NUM_POOLS, _ => []) && pools.pagePool == seq(buddy.total, _ => -1)
              && exists f: nat, k: nat :: k <= MAX_ORDER && FitsOrder(PagesFor(buddy.total), k)
                   && pools.large == map[f := k] && Taken(old(buddy.frameArray[..]), buddy.frameArray[..], f, k)
  {
    hide Buddy.Valid, FitsOrder, SmallestAdequate, FreeRun, Taken, KeepsLive, Live;
    ghost var fa := buddy.frameArray[..];
    buddy.Bounds();
    var p, first, order := buddy.Alloc(buddy.total);
    buddy.Bounds();
    if buddy.total > 0 {
      PlaceByOrder(fa, buddy.total, order);
    }
    if p == NULL {
      return null;
    }
    TakenBlock(fa, buddy.frameArray[..], first, order);
    LiveFrames(buddy.frameArray[..], first, order);
    InBlockFrames(first, order, first);
    pools := new Pools(buddy, first, order);
  }
}
