/** What the kernel's requests for its own structures take from the free frames, and when they can be met. */
module Supply {
  import opened BuddySpec
  import opened BuddyTheory
  import opened BuddyAllocator
  import opened BuddyPages
  import opened KmallocSpec
  import opened Machine

  /** The bytes that kmalloc is asked for: a task structure, a kernel stack, an area. */
  const TASK_SIZE: nat := 736
  const STACK_SIZE: nat := 4096
  const VMA_SIZE: nat := 48
  /** The pool that areas come from, and how many of them a page holds. */
  const VMA_POOL: nat := 2
  const VMAS_PER_PAGE: nat := 64

  /** The pages that a request of up to one page takes. */
  function Spare(h: Heap, size: nat): (n: nat)
    ensures n <= 1 && (size > 2048 ==> n == 1)
  {
    if size > 2048 || Empty(h, PoolFor(size)) then 1 else 0
  }

  /** A request of up to one page can be met unless it takes a page and none is free. */
  lemma Servable(w: World, size: nat)
    requires 0 < size <= PAGE_SIZE && w.s.free == FreeFrames(w.s.fa)
    ensures CanServe(Heaped(w), size) <==> Spare(w.h, size) == 0 || w.s.free != {}
  {
    if size > 2048 {
      assert PagesFor(size) == 1;
      SinglePageRuns(w.s.fa);
      OnePage(0);
      PlaceByOrder(w.s.fa, size, 0);
    }
  }

  lemma {:induction false} SlicedLength(page: nat, size: nat, n: nat)
    ensures |Sliced(page, size, n)| == n
  {
    if n > 0 {
      SlicedLength(page, size, n - 1);
    }
  }

  /** The lists of chunks after a request: one chunk less, of a fresh page if there was none. */
  ghost predicate Drawn(h: Heap, h': Heap, size: nat) {
    && |h'.chunks| == |h.chunks|
    && if size > 2048 then h'.chunks == h.chunks else
         var i := PoolFor(size);
         && (forall j: nat :: j < |h.chunks| && j != i ==> h'.chunks[j] == h.chunks[j])
         && (i < |h.chunks| ==>
               |h'.chunks[i]| == (if h.chunks[i] == [] then PAGE_SIZE / PoolSize(i) else |h.chunks[i]|) - 1)
  }

  lemma PoppedFrames(h: Heap, h': Heap, i: nat, p: nat)
    requires Popped(h, h', i, p)
    ensures Frames(h') == Frames(h)
  {
    hide InLarge;
  }

  lemma PageTaken(base: nat, w: World, w': World, i: nat, p: nat, m: State, pg: nat)
    requires Took(Heaped(w), Heaped(w')) && Parted(w)
    requires Refilled(base, Heaped(w), m, i, pg) && Popped(m.heap, w'.h, i, p)
    ensures w'.s.free == w.s.free - {pg} && pg in w.s.free
    ensures |w'.h.chunks| == |w.h.chunks| && |w'.h.chunks[i]| == PAGE_SIZE / PoolSize(i) - 1
    ensures forall j: nat :: j < |w.h.chunks| && j != i ==> w'.h.chunks[j] == w.h.chunks[j]
  {
    hide InLarge, KeepsLive, Frames;
    var fresh' := Sliced(PageAddr(base, pg), PoolSize(i), PAGE_SIZE / PoolSize(i));
    SlicedLength(PageAddr(base, pg), PoolSize(i), PAGE_SIZE / PoolSize(i));
    PoppedFrames(m.heap, w'.h, i, p);
    FramesWithPage(w.h, i, pg, w.h.chunks[i := fresh']);
  }

  lemma StackTaken(base: nat, w: World, w': World, size: nat, p: nat)
    requires 2048 < size <= PAGE_SIZE && |w.s.fa| <= MAX_PAGES && Granted(base, Heaped(w), Heaped(w'), size, p)
    requires w.s.free == FreeFrames(w.s.fa) && w'.s.free == FreeFrames(w'.s.fa)
    ensures |w'.s.free| == |w.s.free| - 1 && w'.h.chunks == w.h.chunks
  {
    hide Held, FreeFrames, Taken, FitsOrder;
    var s, s' := Heaped(w), Heaped(w');
    var f: nat, k: nat :| FitsOrder(PagesFor(size), k) && p == PageAddr(base, f) && f !in s.heap.large
      && Taken(s.fa, s'.fa, f, k) && s'.heap == s.heap.(large := s.heap.large[f := k]);
    assert PagesFor(size) == PagesFor(PAGE_SIZE);
    OnePage(k);
    TakenPage(s.fa, s'.fa, f);
  }

  lemma ChunkTaken(base: nat, w: World, w': World, size: nat, p: nat)
    requires size <= 2048 && Parted(w) && Granted(base, Heaped(w), Heaped(w'), size, p) && Took(Heaped(w), Heaped(w'))
    ensures |w'.s.free| == |w.s.free| - Spare(w.h, size) && Drawn(w.h, w'.h, size)
  {
    hide Held, InLarge, KeepsLive, Frames, Sliced, GrantedBlock;
    var s, s', i := Heaped(w), Heaped(w'), PoolFor(size);
    if Empty(s.heap, i) {
      var m: State, pg: nat :| Refilled(base, s, m, i, pg) && Popped(m.heap, s'.heap, i, p);
      PageTaken(base, w, w', i, p, m, pg);
    } else {
      PoppedFrames(s.heap, s'.heap, i, p);
      assert s'.free == s.free;
    }
  }

  /** What a request of up to one page takes. */
  lemma SpareUsed(base: nat, w: World, w': World, size: nat, p: nat)
    requires 0 < size <= PAGE_SIZE && Allocated(base, w, w', size, p) && Parted(w) && |w.s.fa| <= MAX_PAGES
    requires w.s.free == FreeFrames(w.s.fa) && w'.s.free == FreeFrames(w'.s.fa)
    ensures |w'.s.free| == |w.s.free| - Spare(w.h, size) && Drawn(w.h, w'.h, size)
  {
    hide Took, Granted, Parted, FreeFrames, PoolFor;
    if size > 2048 {
      StackTaken(base, w, w', size, p);
    } else {
      ChunkTaken(base, w, w', size, p);
    }
  }

  /** How many chunks are in the list that areas come from. */
  ghost function List(h: Heap): nat {
    if VMA_POOL < |h.chunks| then |h.chunks[VMA_POOL]| else 0
  }

  /** How many more areas kmalloc could hand out. */
  ghost function Room(w: World): nat {
    List(w.h) + VMAS_PER_PAGE * |w.s.free|
  }

  /** How many more areas there will be room for once a task has been created. */
  ghost function RoomAfterCreate(w: World): nat
    requires |w.s.free| >= Spare(w.h, TASK_SIZE) + 2
  {
    Room(w) - VMAS_PER_PAGE * (Spare(w.h, TASK_SIZE) + 2)
  }

  /** How many of n requests are met. */
  function Given(room: nat, n: nat): (r: nat)
    ensures r <= n && r <= room
  {
    if n <= room then n else room
  }

  /** Of `free` pages and `chunks` chunks in the list, how many pages are left after n areas have been handed out. */
  function FreeAfter(chunks: nat, free: nat, n: nat): nat {
    var pages := if n <= chunks then 0 else (n - chunks + VMAS_PER_PAGE - 1) / VMAS_PER_PAGE;
    if pages <= free then free - pages else 0
  }

  /** An area has been handed out. */
  ghost predicate Served(w: World, w': World) {
    Room(w') == Room(w) - 1 && |w'.s.free| == |w.s.free| - Spare(w.h, VMA_SIZE)
  }

  lemma AreaServed(base: nat, w: World, w': World, p: nat)
    requires Allocated(base, w, w', VMA_SIZE, p) && Parted(w) && |w.s.fa| <= MAX_PAGES
    requires w.s.free == FreeFrames(w.s.fa) && w'.s.free == FreeFrames(w'.s.fa) && |w.h.chunks| == NUM_POOLS
    ensures Served(w, w') && |w'.h.chunks| == NUM_POOLS
  {
    hide Allocated, FreeFrames, Parted;
    SpareUsed(base, w, w', VMA_SIZE, p);
    assert PAGE_SIZE / PoolSize(VMA_POOL) == VMAS_PER_PAGE;
  }

  lemma AreaServable(w: World)
    requires w.s.free == FreeFrames(w.s.fa) && |w.h.chunks| == NUM_POOLS
    ensures CanServe(Heaped(w), VMA_SIZE) <==> Room(w) > 0
  {
    hide FreeFrames, CanServe;
    Servable(w, VMA_SIZE);
  }

  /** The pages that are left once a task with n areas has been created. */
  ghost function PagesAfterCreate(w: World, n: nat): nat
    requires |w.s.free| >= Spare(w.h, TASK_SIZE) + 2
  {
    FreeAfter(List(w.h), |w.s.free| - Spare(w.h, TASK_SIZE) - 2, n)
  }

  lemma FreeAfterNone(w: World)
    ensures FreeAfter(List(w.h), |w.s.free|, 0) == |w.s.free|
  {
  }

  /** From i to i + 1 areas. */
  lemma FreeAfterNext(w: World, w1: World, w2: World, i: nat)
    requires Room(w1) == Room(w) - i && Served(w1, w2) && |w1.s.free| == FreeAfter(List(w.h), |w.s.free|, i)
    ensures |w2.s.free| == FreeAfter(List(w.h), |w.s.free|, i + 1) && Room(w2) == Room(w) - (i + 1)
  {
  }
}
