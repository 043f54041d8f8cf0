/**
 From power-on to the first threads: the allocators, the address spaces and the run queue over the memory there is.
 */
module Bringup {
  import opened Bits
  import opened BuddySpec
  import opened BuddyTheory
  import opened BuddyAllocator
  import opened BuddyPages
  import opened KmallocSpec
  import opened KmallocPools
  import opened Sv39
  import opened Vm
  import opened Machine
  import opened AddressSpace
  import opened Accounting
  import opened Supply
  import opened RunQueue
  import opened Tasks
  import opened Borders
  import opened Process
  import opened Boot
  import Isolation
  import Setup

  /** The bytes of a timer event. */
  const EVENT_SIZE: nat := 32

  /** The frames of memory that no registered region touches. */
  ghost function Unreserved(p: Setup.Platform, regions: seq<Region>): set<nat> {
    set f: nat | f < Setup.MemorySize(p) / PAGE_SIZE && !Reserved(regions, Setup.KernelPage(p, f))
  }

  /** An aligned run of frames of the set has room for so many pages. */
  ghost predicate HasBlock(free: set<nat>, pages: nat) {
    exists k: nat :: k <= MAX_ORDER && FitsOrder(pages, k) && HasAligned(free, k)
  }

  ghost predicate HasAligned(free: set<nat>, k: nat) {
    exists i: nat :: AlignedIn(free, i, k)
  }

  ghost predicate AlignedIn(free: set<nat>, i: nat, k: nat) {
    Aligned(i, k) && forall f: nat :: InBlock(i, k, f) ==> f in free
  }

  /** page_pool_idx takes the whole pages of one byte for each frame. */
  function MapPages(p: Setup.Platform): nat {
    PagesFor(Setup.MemorySize(p) / PAGE_SIZE)
  }

  /**
   Nothing has been asked of the kernel yet, and the free frames are those of the set without one block for n pages.
   */
  ghost predicate AtRest(K: Kernel, free: set<nat>, n: nat)
    reads K, K.sched, K.m.Repr
  {
    && K.Valid() && K.tasks == map[] && K.nrThreads == 0 && K.sched.ring == [] && K.history == []
    && K.start.all == free && K.start.others == {} && K.m.Wired()
    && K.m.Now().h.chunks == seq(NUM_POOLS, _ => [])
    && exists k: nat :: FitsOrder(n, k) && |K.m.Now().s.free| + Pow2(k) == |free|
  }

  /** kmalloc, the address spaces and the run queue over the page-frame allocator. */
  method Assemble(buddy: Buddy, kernelDir: Table) returns (K: Kernel?)
    requires buddy.Valid() && buddy.base % PAGE_SIZE == 0
    modifies buddy.Repr
    ensures K != null <==> 0 < buddy.total && HasBlock(FreeFrames(old(buddy.frameArray[..])), PagesFor(buddy.total))
    ensures K != null ==> AtRest(K, FreeFrames(old(buddy.frameArray[..])), PagesFor(buddy.total))
    ensures K != null ==> fresh(K) && fresh(K.sched) && fresh(K.m.Repr - buddy.Repr)
  {
    hide Buddy.Valid, Pools.Valid, Memory.Valid, Machine.Valid, Scheduler.Valid, Kernel.Valid, Frames, FreeFrames;
    hide Taken, HasBlock, FitsOrder;
    ghost var fa := buddy.frameArray[..];
    buddy.Bounds();
    K := null;
    var m := Allocators(buddy, kernelDir);
    if m != null {
      var sched := new Scheduler();
      K := new Kernel(m, sched);
    }
  }

  /** Null exactly without a block for page_pool_idx. */
  method Allocators(buddy: Buddy, kernelDir: Table) returns (m: Machine?)
    requires buddy.Valid() && buddy.base % PAGE_SIZE == 0
    modifies buddy.Repr
    ensures m != null <==> 0 < buddy.total && HasBlock(FreeFrames(old(buddy.frameArray[..])), PagesFor(buddy.total))
    ensures m != null ==>
              && m.Valid() && m.Wired() && m.mem.own == map[] && m.mem.maps == map[]
              && m.Now().s.free + Frames(m.Now().h) == FreeFrames(old(buddy.frameArray[..]))
              && m.Now().h.chunks == seq(NUM_POOLS, _ => [])
              && exists k: nat :: FitsOrder(PagesFor(buddy.total), k)
                   && |m.Now().s.free| + Pow2(k) == |FreeFrames(old(buddy.frameArray[..]))|
    ensures m != null ==> fresh(m.Repr - buddy.Repr)
  {
    hide Buddy.Valid, Pools.Ready, Memory.Valid, Frames, FreeFrames, Taken, CanPlace, Parted, FitsOrder, HasBlock;
    m := null;
    ghost var fa := buddy.frameArray[..];
    buddy.Bounds();
    PlaceByFrames(fa, buddy.total);
    var pools := KmallocInit(buddy);
    if pools == null {
      return;
    }
    pools.Bounds();
    buddy.Bounds();
    ghost var f: nat, k: nat :|
      k <= MAX_ORDER && FitsOrder(PagesFor(buddy.total), k) && pools.large == map[f := k]
      && Taken(fa, buddy.frameArray[..], f, k);
    FirstBlock(pools.Contents(), fa, buddy.frameArray[..], f, k);
    var mem := new Memory(buddy, kernelDir);
    m := new Machine(mem, pools);
  }

  /** Whether a block can be had is a matter of the free frames alone. */
  lemma PlaceByFrames(fa: seq<int>, size: nat)
    ensures CanPlace(fa, size) <==> HasBlock(FreeFrames(fa), PagesFor(size))
  {
    hide FitsOrder;
    forall k: nat
      ensures HasRun(fa, k) <==> HasAligned(FreeFrames(fa), k)
    {
      if i: nat :| FreeRun(fa, i, k) {
        assert AlignedIn(FreeFrames(fa), i, k);
      }
      if i: nat :| AlignedIn(FreeFrames(fa), i, k) {
        assert InBlock(i, k, i + (Pow2(k) - 1));
        assert FreeRun(fa, i, k);
      }
    }
  }

  /** The block of page_pool_idx came out of the free frames. */
  lemma FirstBlock(h: Heap, fa: seq<int>, fb: seq<int>, f: nat, k: nat)
    requires h.large == map[f := k] && Taken(fa, fb, f, k) && |fa| <= MAX_PAGES && k <= MAX_ORDER
    requires |h.pool| == |fa| && forall g: nat :: g < |fa| ==> h.pool[g] == -1
    ensures FreeFrames(fb) + Frames(h) == FreeFrames(fa)
    ensures |FreeFrames(fb)| + Pow2(k) == |FreeFrames(fa)|
  {
    TakenBlock(fa, fb, f, k);
    BlockSize(f, k);
    forall g: nat
      ensures g in Frames(h) <==> g in BlockFrames(f, k)
    {
      InBlockFrames(f, k, g);
      if InBlock(f, k, g) {
        assert f in h.large && InBlock(f, h.large[f], g);
        assert g in FreeFrames(fa);
      }
    }
  }

  /** Where the arrays of the allocator are placed on this machine. */
  ghost predicate ArraysAt(p: Setup.Platform, early: seq<Region>, i: nat, j: nat)
    requires p.text <= p.end
  {
    Placed(Setup.Registered(p, early), Setup.BaseOf(p), Setup.MemorySize(p) / PAGE_SIZE, i, j)
  }

  /** The frames that are free in the end, if the arrays lie at pages i and j. */
  ghost function FreeAtBoot(p: Setup.Platform, early: seq<Region>, i: nat, j: nat): set<nat>
    requires p.text <= p.end
  {
    Unreserved(p, Setup.Finally(p, early, i, j))
  }

  /** What main needs on the way to its first thread: entries of the table, and memory for the arrays and the map. */
  ghost predicate CanStart(p: Setup.Platform, early: seq<Region>)
    requires p.text <= p.end
  {
    && Setup.HasEntries(p, early) && 0 < Setup.MemorySize(p) / PAGE_SIZE
    && exists i: nat, j: nat :: ArraysAt(p, early, i, j) && HasBlock(FreeAtBoot(p, early, i, j), MapPages(p))
  }

  /** There is only one place for each of the arrays. */
  lemma OnePlaceForArrays(p: Setup.Platform, early: seq<Region>, i: nat, j: nat, i': nat, j': nat)
    requires p.text <= p.end && ArraysAt(p, early, i, j) && ArraysAt(p, early, i', j')
    ensures i == i' && j == j'
  {
    hide Setup.Registered, Register, FirstRun;
    var regions, base, total := Setup.Registered(p, early), Setup.BaseOf(p), Setup.MemorySize(p) / PAGE_SIZE;
    FirstRunIsUnique(regions, base, total, ArrayPages(total), i, i');
    FirstRunIsUnique(Register(regions, [ArrayAt(base, total, i)]), base, total, ArrayPages(total), j, j');
  }

  /**
   main, up to kmalloc_init: the frames that tasks and kmalloc will share are exactly those that nothing registered
   touches, the arrays at pages i and j included. Null exactly where something is missing on the way; the code does not
   stop there.
   */
  method StartKernel(p: Setup.Platform, early: seq<Region>, kernelDir: Table)
    returns (K: Kernel?, ghost i: nat, ghost j: nat)
    requires p.text <= p.end && |early| <= MAX_RESERVED_REGIONS && Setup.MemoryStart(p) % PAGE_SIZE == 0
    ensures K != null <==> CanStart(p, early)
    ensures K != null ==> ArraysAt(p, early, i, j) && AtRest(K, FreeAtBoot(p, early, i, j), MapPages(p))
    ensures K != null ==> fresh(K) && fresh(K.sched) && fresh(K.m.Repr)
  {
    hide Buddy.Valid, AtRest, Reserved, Register, FreeFrames, Unreserved, HasBlock, Setup.Registered, Placed;
    hide Setup.Finally, Setup.HasEntries;
    K, i, j := null, 0, 0;
    var table, buddy := Setup.BuddyInit(p, early);
    if buddy == null {
      return;
    }
    i, j :| Placed(Setup.Registered(p, early), table.base, table.total, i, j)
            && table.regions == Setup.Finally(p, early, i, j);
    buddy.Bounds();
    BootFrames(p, table.regions, buddy.frameArray[..], buddy.total);
    BaseAligned(p);
    assert ArraysAt(p, early, i, j);
    OnlyThere(p, early, i, j);
    K := Assemble(buddy, kernelDir);
  }

  lemma OnlyThere(p: Setup.Platform, early: seq<Region>, i: nat, j: nat)
    requires p.text <= p.end && ArraysAt(p, early, i, j) && Setup.HasEntries(p, early)
    ensures CanStart(p, early) <==>
              0 < Setup.MemorySize(p) / PAGE_SIZE && HasBlock(FreeAtBoot(p, early, i, j), MapPages(p))
  {
    hide ArraysAt, FreeAtBoot, HasBlock, Setup.HasEntries;
    forall i': nat, j': nat | ArraysAt(p, early, i', j')
      ensures i' == i && j' == j
    {
      OnePlaceForArrays(p, early, i, j, i', j');
    }
  }

  lemma BaseAligned(p: Setup.Platform)
    requires Setup.MemoryStart(p) % PAGE_SIZE == 0
    ensures Setup.BaseOf(p) % PAGE_SIZE == 0
  {
  }

  lemma BootFrames(p: Setup.Platform, regions: seq<Region>, fa: seq<int>, total: nat)
    requires |fa| == total == Setup.MemorySize(p) / PAGE_SIZE
    requires forall f: nat :: f < total ==> (IsFree(fa, f) <==> !Reserved(regions, Setup.KernelPage(p, f)))
    ensures FreeFrames(fa) == Unreserved(p, regions)
  {
    hide Reserved, Setup.KernelPage;
  }

  /** The frames that the first timer event and the threads of idle and shell take. */
  const FIRST_FRAMES: nat := 6

  /** Two kernel threads, idle and shell. */
  ghost predicate Threads(K: Kernel)
    reads K, K.sched, K.m.Repr
  {
    && K.Valid() && K.nrThreads == 2 && K.sched.ring == [0, 1] && K.tasks.Keys == {0, 1}
    && K.tasks[0].vmas == [] && K.tasks[1].vmas == []
    && K.tasks[0].state == Running && K.tasks[1].state == Running
    && K.history == [Isolation.Started(0, [], 0), Isolation.Started(1, [], 0)]
  }

  /** core_timer_enable: the first timer event. */
  method FirstEvent(K: Kernel, ghost free: set<nat>, ghost n: nat) returns (event: nat)
    requires AtRest(K, free, n) && |K.m.Now().s.free| >= 1
    modifies K`start, K.m.Repr
    ensures K.Valid() && K.m.Wired() && event != NULL && K.start == old(K.start).(others := {event})
    ensures |K.m.Now().s.free| == |old(K.m.Now()).s.free| - 1
    ensures Spare(K.m.Now().h, TASK_SIZE) == 1 && |K.m.Now().h.chunks| == NUM_POOLS
  {
    hide Kernel.Structured, Machine.Valid, Machine.Now, Scheduler.Valid, Queued, Sound, Spare, KeptSince, Confined;
    hide Allocated, Drawn, Isolation.Replay, Seen, HeapOk, Parted, FreeFrames, CanServe, HasPointer, Rest;
    K.Parts();
    K.Back();
    ghost var w := K.m.Now();
    EmptyPools(w.h);
    Servable(w, EVENT_SIZE);
    event := K.Kmalloc(EVENT_SIZE);
    K.Parts();
    K.Back();
    SpareUsed(K.start.base, w, K.m.Now(), EVENT_SIZE, event);
    AfterEvent(w.h, K.m.Now().h);
    assert {} + {event} == {event};
  }

  /** The idle thread comes first. */
  method StartIdle(K: Kernel, ghost free: set<nat>, ghost n: nat) returns (event: nat)
    requires AtRest(K, free, n) && |K.m.Now().s.free| >= 4
    modifies K`start, K`tasks, K`records, K`nrThreads, K`history, K.sched, K.m.Repr
    ensures K.Valid() && K.m.Wired() && event != NULL && K.start == old(K.start).(others := {event})
    ensures K.nrThreads == 1 && K.sched.ring == [0] && K.history == [Isolation.Started(0, [], 0)]
    ensures K.tasks.Keys == {0} && K.tasks[0].vmas == [] && K.tasks[0].state == Running
    ensures |K.m.Now().s.free| == |old(K.m.Now()).s.free| - 4 && Spare(K.m.Now().h, TASK_SIZE) == 0
  {
    hide AtRest, Kernel.Valid, Machine.Now, Spare, KeptSince, Confined, Fresh, Drawn, Isolation.Replay;
    Opening(K, free, n);
    event := FirstEvent(K, free, n);
    ghost var w1 := K.m.Now();
    Ready(K);
    var _ := K.KernelThread();
    AfterThread(w1.h, K.m.Now().h);
    Ready(K);
  }

  lemma Opening(K: Kernel, free: set<nat>, n: nat)
    requires AtRest(K, free, n)
    ensures K.Valid() && K.m.Wired() && K !in K.m.Repr && K.sched !in K.m.Repr
    ensures K.tasks == map[] && K.nrThreads == 0 && K.sched.ring == [] && K.history == []
  {
    hide Kernel.Valid;
    Ready(K);
  }

  /** main, from the core timer to the shell; the code checks none of what the threads are made of. */
  method StartThreads(K: Kernel, ghost free: set<nat>, ghost n: nat) returns (event: nat)
    requires AtRest(K, free, n) && |K.m.Now().s.free| >= FIRST_FRAMES
    modifies K`start, K`tasks, K`records, K`nrThreads, K`history, K.sched, K.m.Repr
    ensures Threads(K) && event != NULL && K.start == old(K.start).(others := {event}) && K.m.Wired()
    ensures |K.m.Now().s.free| == |old(K.m.Now()).s.free| - FIRST_FRAMES
  {
    hide AtRest, Kernel.Valid, Machine.Now, Spare, KeptSince, Confined, Fresh, Drawn, Isolation.Replay;
    Opening(K, free, n);
    event := StartIdle(K, free, n);
    Ready(K);
    var _ := K.KernelThread();
    Ready(K);
  }

  lemma Ready(K: Kernel)
    requires K.Valid()
    ensures K.m.Wired() && K !in K.m.Repr && K.sched !in K.m.Repr
  {
    K.Parts();
  }

  lemma EmptyPools(h: Heap)
    requires h.chunks == seq(NUM_POOLS, _ => [])
    ensures Spare(h, EVENT_SIZE) == 1 && Spare(h, TASK_SIZE) == 1
  {
  }

  lemma AfterEvent(h: Heap, h': Heap)
    requires Drawn(h, h', EVENT_SIZE) && h.chunks == seq(NUM_POOLS, _ => [])
    ensures Spare(h', TASK_SIZE) == 1
  {
    assert PoolFor(TASK_SIZE) == 6 && PoolFor(EVENT_SIZE) == 1;
  }

  lemma AfterThread(h: Heap, h': Heap)
    requires Drawn(h, h', TASK_SIZE) && Spare(h, TASK_SIZE) == 1 && |h.chunks| == NUM_POOLS
    ensures Spare(h', TASK_SIZE) == 0
  {
    assert PoolFor(TASK_SIZE) == 6 && PAGE_SIZE / PoolSize(6) == 4;
  }

  /** From power-on to the shell, if memory has room for what the code takes without asking. */
  method PowerOn(p: Setup.Platform, early: seq<Region>, kernelDir: Table)
    returns (K: Kernel?, ghost i: nat, ghost j: nat)
    requires p.text <= p.end && |early| <= MAX_RESERVED_REGIONS && Setup.MemoryStart(p) % PAGE_SIZE == 0
    requires forall i: nat, j: nat, k: nat :: ArraysAt(p, early, i, j) && FitsOrder(MapPages(p), k) ==>
               |FreeAtBoot(p, early, i, j)| >= Pow2(k) + FIRST_FRAMES
    ensures K != null <==> CanStart(p, early)
    ensures K != null ==> Threads(K) && ArraysAt(p, early, i, j) && K.start.all == FreeAtBoot(p, early, i, j)
  {
    hide AtRest, Threads, ArraysAt, FreeAtBoot, CanStart, FitsOrder;
    K, i, j := StartKernel(p, early, kernelDir);
    if K != null {
      RoomForThreads(K, p, early, i, j);
      var _ := StartThreads(K, FreeAtBoot(p, early, i, j), MapPages(p));
    }
  }

  lemma RoomForThreads(K: Kernel, p: Setup.Platform, early: seq<Region>, i: nat, j: nat)
    requires p.text <= p.end && AtRest(K, FreeAtBoot(p, early, i, j), MapPages(p)) && ArraysAt(p, early, i, j)
    requires forall i: nat, j: nat, k: nat :: ArraysAt(p, early, i, j) && FitsOrder(MapPages(p), k) ==>
               |FreeAtBoot(p, early, i, j)| >= Pow2(k) + FIRST_FRAMES
    ensures K.m.Wired() && |K.m.Now().s.free| >= FIRST_FRAMES && K.start.all == FreeAtBoot(p, early, i, j)
  {
    hide Kernel.Valid, ArraysAt, FreeAtBoot, FitsOrder;
  }
}
