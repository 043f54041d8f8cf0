/** What holds in every reachable state of the kernel, and what a process leaves behind when it is gone. */
module Lifetime {
  import opened Basics
  import opened BuddySpec
  import opened BuddyPages
  import opened KmallocSpec
  import opened Sv39
  import opened PageTree
  import opened Cow
  import opened Vm
  import opened Machine
  import opened AddressSpace
  import opened Accounting
  import opened Supply
  import opened RunQueue
  import opened Tasks
  import opened Borders
  import opened Process
  import Isolation

  /** What the layers below say about a state. */
  lemma Layers(K: Kernel)
    requires K.Intact()
    ensures K.m.Wired() && K.start.base == K.m.mem.buddy.base && Booted(K.start, K.boot, K.m.mem.buddy.total)
    ensures Tree(K.m.mem.table, K.m.Now().s.own) && Refines(K.m.mem.table, K.m.Now().s.own, K.m.Now().s.maps)
    ensures CowInv(K.m.Now().s.maps, K.m.Now().s.own, K.m.Now().s.refs) && Parted(K.m.Now())
    ensures HeapOk(K.start.base, K.m.Now().s.fa, K.m.Now().s.refs, K.m.Now().h)
    ensures WF(K.m.Now().s.fa, 0, 0) && |K.m.Now().s.fa| == |K.boot| && K.m.Now().s.free == FreeFrames(K.m.Now().s.fa)
    ensures Kept(K.Books(), K.m.Now(), K.start) && Queued(K.sched.ring, K.Books(), K.nrThreads)
  {
    hide Memory.Valid, Kept, Queued, Parted, HeapOk;
    K.m.Sides();
    K.m.Blocks();
    K.m.mem.Unpack();
  }

  /** Every frame in use is used by a task: it is a table of the task's tree, or a page that is mapped in it. */
  lemma UsedBySomeone(K: Kernel, f: nat) returns (p: nat)
    requires K.Intact() && f in K.m.Now().s.own
    ensures p in K.tasks && UsedIn(K.m.Now().s, f, K.tasks[p].pgd)
    ensures K.m.Now().s.own[f] != User ==>
              forall q :: q in K.tasks && UsedIn(K.m.Now().s, f, K.tasks[q].pgd) ==> q == p
  {
    Layers(K);
    hide Kernel.Intact, Machine.Valid, Tree, Refines, CowInv, HeapOk, Kept, UsedIn, Queued, Parted, WF;
    p := TaskUsing(K.Books(), K.m.mem.table, K.m.Now(), K.start, f);
  }

  lemma TaskUsing(k: Kern, tab: seq<Table>, w: World, c: Start, f: nat) returns (p: nat)
    requires Kept(k, w, c) && Tree(tab, w.s.own) && Refines(tab, w.s.own, w.s.maps)
             && CowInv(w.s.maps, w.s.own, w.s.refs)
    requires f in w.s.own
    ensures p in k.tasks && UsedIn(w.s, f, k.tasks[p].pgd)
    ensures w.s.own[f] != User ==> forall q :: q in k.tasks && UsedIn(w.s, f, k.tasks[q].pgd) ==> q == p
  {
    hide Tree, Refines, CowInv, Owned;
    var r := UsedByTree(tab, w.s, f);
    p := TreeOfTask(k.tasks, w, c, r);
  }

  /**
   The count of a user frame is the number of entries that point to it, no such frame is free, and a writable
   entry has its frame to itself.
   */
  lemma CountsAreExact(K: Kernel)
    requires K.Intact()
    ensures var s := K.m.Now().s;
            && (forall f: nat :: Is(s.own, f, User) ==>
                 f < |s.refs| && s.refs[f] == |Users(s.maps, f)| >= 1 && f !in s.free)
            && (forall x :: x in s.maps ==> Is(s.own, s.maps[x].ppn, User))
            && (forall x, y :: x in s.maps && y in s.maps && x != y && s.maps[x].write ==>
                 s.maps[x].ppn != s.maps[y].ppn)
  {
    Layers(K);
    var s := K.m.Now().s;
    hide Kernel.Intact, Machine.Valid, Tree, Refines, HeapOk, Owned;
    forall x, y | x in s.maps && y in s.maps && x != y && s.maps[x].write
      ensures s.maps[x].ppn != s.maps[y].ppn
    {
      WriterIsSole(s.maps, s.own, s.refs, x, y);
    }
  }

  /** Each frame that was free or with kmalloc at the start is in one hand: free, in use by a task, or with kmalloc. */
  lemma EveryFrameInOneHand(K: Kernel)
    requires K.Intact()
    ensures K.start.all == FreeFrames(K.boot) + Frames(K.start.first)
    ensures K.m.Now().s.free + K.m.Now().s.own.Keys + Frames(K.m.Now().h) == K.start.all
    ensures K.m.Now().s.free !! K.m.Now().s.own.Keys !! Frames(K.m.Now().h)
  {
    Layers(K);
    hide Kernel.Intact, Machine.Valid, Tree, Refines, CowInv, HeapOk, Owned, Frames, FreeFrames, WF;
  }

  /** No byte that kmalloc has handed out lies in a page table, in a user page or in a free frame. */
  lemma KmallocOnItsOwn(K: Kernel, x: nat, a: nat)
    requires K.Intact() && x in Held(K.start.base, K.m.Now().h)
    requires x <= a < x + SizeAt(K.start.base, K.m.Now().h, x)
    ensures K.start.base <= a && PageIdx(K.start.base, a) !in K.m.Now().s.own
            && PageIdx(K.start.base, a) !in K.m.Now().s.free
  {
    Layers(K);
    hide Kernel.Intact, Machine.Valid, Tree, Refines, CowInv, Kept, WF, SizeAt, Frames;
    var w := K.m.Now();
    HeldKinds(K.start.base, w.s.fa, w.s.refs, w.h, x);
    HeldInside(K.start.base, w.s.fa, w.s.refs, w.h, x, a);
  }

  /** What kmalloc has handed out belongs to tasks or to the rest of the kernel, and to one of the two only. */
  lemma HeldByTasks(K: Kernel)
    requires K.Intact()
    ensures forall x :: x in Held(K.start.base, K.m.Now().h) <==> x in Rest(K.start) || HasPointer(K.records, x)
    ensures forall x :: HasPointer(K.records, x) ==> x !in Rest(K.start)
    ensures K.start.others !! Held(K.start.base, K.start.first)
  {
    Layers(K);
    hide Kernel.Intact, Machine.Valid, Tree, Refines, CowInv, HeapOk, WF, Accounted, Queued, Parted;
    HeldBy(K.records, K.start, K.m.Now().h);
  }

  lemma HeldBy(records: map<nat, Record>, c: Start, h: Heap)
    requires Owned(records, c, h, {})
    ensures forall x :: x in Held(c.base, h) <==> x in Rest(c) || HasPointer(records, x)
    ensures forall x :: HasPointer(records, x) ==> x !in Rest(c)
    ensures c.others !! Held(c.base, c.first)
  {
    hide Held, KeptSince, Pointers, NoDup, Rest;
  }

  lemma PointersDiffer(records: map<nat, Record>, c: Start, h: Heap, p: nat, i: nat, q: nat, j: nat)
    requires Owned(records, c, h, {}) && p in records && q in records
    requires i < |Pointers(records[p])| && j < |Pointers(records[q])| && (p != q || i != j)
    ensures var x, y := Pointers(records[p])[i], Pointers(records[q])[j];
            x != y && x in Held(c.base, h) && y in Held(c.base, h)
  {
    hide Held, KeptSince, Pointers;
    var x, y := Pointers(records[p])[i], Pointers(records[q])[j];
    assert x in Pointers(records[p]) && y in Pointers(records[q]);
    assert HasPointer(records, x) && HasPointer(records, y);
    if p == q {
      assert NoDup(Pointers(records[p]));
    }
  }

  /** The structures, stacks and areas of tasks lie apart from each other. */
  lemma StructuresApart(K: Kernel, p: nat, i: nat, q: nat, j: nat)
    requires K.Intact() && p in K.tasks && q in K.tasks && p in K.records && q in K.records
    requires i < |Pointers(K.records[p])| && j < |Pointers(K.records[q])| && (p != q || i != j)
    ensures var base, h, x, y := K.start.base, K.m.Now().h, Pointers(K.records[p])[i], Pointers(K.records[q])[j];
            x + SizeAt(base, h, x) <= y || y + SizeAt(base, h, y) <= x
  {
    Layers(K);
    var w, x, y := K.m.Now(), Pointers(K.records[p])[i], Pointers(K.records[q])[j];
    hide Kernel.Intact, Machine.Valid, Tree, Refines, CowInv, HeapOk, WF, Held, Accounted, Pointers, SizeAt, NoDup;
    hide Queued;
    PointersDiffer(K.records, K.start, w.h, p, i, q, j);
    if x < y {
      HeldApart(K.start.base, w.s.fa, w.s.refs, w.h, x, y);
    } else {
      HeldApart(K.start.base, w.s.fa, w.s.refs, w.h, y, x);
    }
  }

  /** What holds between operations, in terms of the layers below. */
  ghost predicate Settled(k: Kern, w: World, c: Start) {
    && Kept(k, w, c) && k.records.Keys == k.tasks.Keys && Parted(w) && CowInv(w.s.maps, w.s.own, w.s.refs)
    && HeapOk(c.base, w.s.fa, w.s.refs, w.h) && WF(w.s.fa, 0, 0) && w.s.free == FreeFrames(w.s.fa)
    && (forall f: nat, r: nat :: f in w.s.own && InTree(w.s.own[f], f, r) ==> Is(w.s.own, r, Root))
    && (forall x :: x in w.s.maps ==> x.vpn < USER_PAGES && Is(w.s.own, x.root, Root))
  }

  /** Every state between operations is settled, even if pages of some process lie in no area. */
  lemma Below(K: Kernel)
    requires K.Intact()
    ensures K.m.Wired() && Settled(K.Books(), K.m.Now(), K.start) && |K.m.Now().s.fa| == |K.boot|
    ensures Queued(K.sched.ring, K.Books(), K.nrThreads)
  {
    Layers(K);
    TablesInTrees(K.m);
    hide Kernel.Intact, Machine.Valid, Tree, CowInv, HeapOk, WF, Kept, Parted, Refines;
  }

  lemma TablesInTrees(m: Machine)
    requires m.Valid()
    ensures m.Wired()
    ensures forall f: nat, r: nat :: f in m.Now().s.own && InTree(m.Now().s.own[f], f, r) ==> Is(m.Now().s.own, r, Root)
    ensures forall x :: x in m.Now().s.maps ==> x.vpn < USER_PAGES && Is(m.Now().s.own, x.root, Root)
  {
    m.Mapped();
    m.Sides();
    forall f: nat, r: nat | f in m.mem.own && InTree(m.mem.own[f], f, r)
      ensures Is(m.mem.own, r, Root)
    {
      m.mem.RootOf(f);
    }
  }

  lemma Orderly(K: Kernel)
    requires K.Structured()
    ensures K.m.Wired() && Settled(K.Books(), K.m.Now(), K.start) && |K.m.Now().s.fa| == |K.boot|
    ensures Queued(K.sched.ring, K.Books(), K.nrThreads)
    ensures forall q :: q in Seen(K.Books(), K.m.Now()) <==> q in K.tasks
  {
    hide Kernel.Structured, Kernel.Intact, Settled, Queued, View;
    K.IsIntact();
    Below(K);
  }

  ghost predicate SameCounts(own: map<nat, Role>, refs: seq<int>, refs': seq<int>) {
    forall f :: f in own ==> f < |refs| && f < |refs'| && refs'[f] == refs[f]
  }

  /** Counts follow from who maps what. */
  lemma SameUsersSameCounts(s: Snap, s': Snap)
    requires CowInv(s.maps, s.own, s.refs) && CowInv(s'.maps, s'.own, s'.refs)
    requires s'.maps.Keys == s.maps.Keys && forall x :: x in s.maps ==> s'.maps[x].ppn == s.maps[x].ppn
    requires forall f :: f in s'.own ==> f in s.own && s'.own[f] == s.own[f]
    requires forall f :: f in s.own && f !in s'.own ==> s.own[f] == User
    ensures s'.own == s.own && SameCounts(s.own, s.refs, s'.refs)
  {
    forall f | f in s.own
      ensures Users(s'.maps, f) == Users(s.maps, f) && f in s'.own
    {
      if x :| x in Users(s.maps, f) {
        assert Is(s'.own, s'.maps[x].ppn, User);
      }
    }
  }

  /** With the same tasks and the same trees, the pages that are mapped are the same. */
  lemma SameTasksSamePages(k: Kern, w: World, k': Kern, w': World, c: Start)
    requires Settled(k, w, c) && Settled(k', w', c) && k'.tasks.Keys == k.tasks.Keys
    requires forall q :: q in k.tasks ==> Untouched(k, w, k', w', q)
    ensures w'.s.maps.Keys == w.s.maps.Keys
    ensures forall x :: x in w.s.maps ==> Weaker(w.s.maps[x], w'.s.maps[x])
  {
    hide Owned, Parted, CowInv, HeapOk, WF, FreeFrames, InTree;
    forall x: Slot
      ensures x in w.s.maps <==> x in w'.s.maps
      ensures x in w.s.maps ==> Weaker(w.s.maps[x], w'.s.maps[x])
    {
      assert x == Slot(x.root, x.vpn);
      if x in w.s.maps {
        var q :| q in k.tasks && k.tasks[q].pgd == x.root;
        assert Untouched(k, w, k', w', q);
      }
      if x in w'.s.maps {
        var q :| q in k'.tasks && k'.tasks[q].pgd == x.root;
        assert Untouched(k, w, k', w', q);
      }
    }
  }

  /** Every table belongs to the tree of a task. */
  lemma TaskOfTable(k: Kern, w: World, c: Start, f: nat) returns (q: nat)
    requires Settled(k, w, c) && f in w.s.own && w.s.own[f] != User
    ensures q in k.tasks && InTree(w.s.own[f], f, k.tasks[q].pgd)
  {
    hide Owned, Parted, CowInv, HeapOk, WF, FreeFrames, Frames;
    var r := match w.s.own[f]
      case Pmd(r, _) => r
      case Pt(r, _, _) => r
      case _ => f;
    assert InTree(w.s.own[f], f, r);
    assert Is(w.s.own, r, Root);
    assert HasRoot(k.tasks, r);
    q :| q in k.tasks && k.tasks[q].pgd == r;
  }

  /** With the same tasks and the same trees, the tables are the same. */
  lemma SameTasksSameTables(k: Kern, w: World, k': Kern, w': World, c: Start)
    requires Settled(k, w, c) && Settled(k', w', c) && k'.tasks.Keys == k.tasks.Keys
    requires forall q :: q in k.tasks ==> Untouched(k, w, k', w', q)
    ensures forall f :: f in w.s.own && w.s.own[f] != User ==> f in w'.s.own && w'.s.own[f] == w.s.own[f]
    ensures forall f :: f in w'.s.own && w'.s.own[f] != User ==> f in w.s.own && w'.s.own[f] == w.s.own[f]
  {
    hide Settled, InTree, Pointers;
    forall f | f in w.s.own && w.s.own[f] != User
      ensures f in w'.s.own && w'.s.own[f] == w.s.own[f]
    {
      var q := TaskOfTable(k, w, c, f);
      assert Untouched(k, w, k', w', q);
    }
    forall f | f in w'.s.own && w'.s.own[f] != User
      ensures f in w.s.own && w'.s.own[f] == w.s.own[f]
    {
      var q := TaskOfTable(k', w', c, f);
      assert q in k.tasks && Untouched(k, w, k', w', q);
    }
  }

  /** The same pages, so the same user frames. */
  lemma SamePagesSameUsers(s: Snap, s': Snap)
    requires CowInv(s.maps, s.own, s.refs) && CowInv(s'.maps, s'.own, s'.refs)
    requires s'.maps.Keys == s.maps.Keys && forall x :: x in s.maps ==> s'.maps[x].ppn == s.maps[x].ppn
    ensures forall f :: f in s'.own && s'.own[f] == User ==> f in s.own && s.own[f] == User
  {
    forall f | f in s'.own && s'.own[f] == User
      ensures f in s.own && s.own[f] == User
    {
      assert |Users(s'.maps, f)| >= 1;
      var x :| x in Users(s'.maps, f);
      assert x in s.maps && Is(s.own, s.maps[x].ppn, User);
    }
  }

  lemma CountsOf(k: Kern, w: World, c: Start)
    requires Settled(k, w, c)
    ensures CowInv(w.s.maps, w.s.own, w.s.refs)
  {
    hide Kept, Parted, HeapOk, WF, FreeFrames, InTree, CowInv;
  }

  /** And so are the frames in use, and their counts. */
  lemma SameTasksSameFrames(k: Kern, w: World, k': Kern, w': World, c: Start)
    requires Settled(k, w, c) && Settled(k', w', c) && k'.tasks.Keys == k.tasks.Keys
    requires forall q :: q in k.tasks ==> Untouched(k, w, k', w', q)
    ensures w'.s.own == w.s.own && SameCounts(w.s.own, w.s.refs, w'.s.refs) && w'.s.maps.Keys == w.s.maps.Keys
    ensures forall x :: x in w.s.maps ==> Weaker(w.s.maps[x], w'.s.maps[x])
  {
    hide Settled, Untouched, CowInv, SameCounts;
    CountsOf(k, w, c);
    CountsOf(k', w', c);
    SameTasksSamePages(k, w, k', w', c);
    SameTasksSameTables(k, w, k', w', c);
    assert forall x :: x in w.s.maps ==> w'.s.maps[x].ppn == w.s.maps[x].ppn;
    SamePagesSameUsers(w.s, w'.s);
    SameUsersSameCounts(w.s, w'.s);
  }

  lemma HeldAgain(records: map<nat, Record>, records': map<nat, Record>, c: Start, h: Heap, h': Heap)
    requires Owned(records, c, h, {}) && Owned(records', c, h', {}) && records'.Keys == records.Keys
    requires forall q :: q in records ==> Pointers(records'[q]) == Pointers(records[q])
    ensures Held(c.base, h') == Held(c.base, h)
  {
    hide KeptSince, Held, Pointers, NoDup, Rest;
    forall x
      ensures HasPointer(records', x) <==> HasPointer(records, x)
    {
      if q :| q in records' && x in Pointers(records'[q]) {
        assert q in records && x in Pointers(records[q]);
      }
      if q :| q in records && x in Pointers(records[q]) {
        assert q in records' && x in Pointers(records'[q]);
      }
    }
  }

  /** All is as it was, but that entries may be read-only and that pools may have taken pages. */
  ghost predicate Restored(w: World, w': World) {
    && w'.s.own == w.s.own && SameCounts(w.s.own, w.s.refs, w'.s.refs) && w'.s.maps.Keys == w.s.maps.Keys
    && (forall x :: x in w.s.maps ==> Weaker(w.s.maps[x], w'.s.maps[x]))
    && w'.h.live == w.h.live && w'.h.large == w.h.large
    && w'.s.free == w.s.free - PagesSince(w.h, w'.h) && PagesSince(w.h, w'.h) <= w.s.free
    && (PagesSince(w.h, w'.h) == {} ==>
          w'.s.free == w.s.free && forall i: nat, k: nat :: Head(w'.s.fa, 0, 0, i, k) <==> Head(w.s.fa, 0, 0, i, k))
  }

  /** The same tasks with the same trees and pointers: the free frames follow. */
  lemma SameTasksSameFree(k: Kern, w: World, k': Kern, w': World, c: Start)
    requires Settled(k, w, c) && Settled(k', w', c) && k'.tasks.Keys == k.tasks.Keys
    requires KeptSince(w.h, w'.h) && w'.s.own == w.s.own
    requires forall q :: q in k.records ==> q in k'.records && Pointers(k'.records[q]) == Pointers(k.records[q])
    ensures w'.h.live == w.h.live && w'.h.large == w.h.large
    ensures w'.s.free == w.s.free - PagesSince(w.h, w'.h) && PagesSince(w.h, w'.h) <= w.s.free
  {
    hide CowInv, HeapOk, WF, Parted, FreeFrames, InTree, Owned, Accounted, Pointers, Held, KeptSince;
    assert k'.records.Keys == k.records.Keys;
    HeldAgain(k.records, k'.records, c, w.h, w'.h);
    SameHeldSameBlocks(c.base, w.h, w'.s.fa, w'.s.refs, w'.h);
    FreeByOthers(k.tasks, k'.tasks, w, w', c);
  }

  /** If the tasks of one state are those of another, and all of them were left alone in between, nothing has leaked. */
  lemma Conserved(k: Kern, w: World, k': Kern, w': World, c: Start)
    requires Settled(k, w, c) && Settled(k', w', c) && k'.tasks.Keys == k.tasks.Keys && |w'.s.fa| == |w.s.fa|
    requires Confined(c.base, k, w, k', w', {}, {})
    ensures Restored(w, w')
  {
    hide Settled, Untouched, KeptBut, KeptSince, Pointers, PointersOf, SameCounts, Head;
    KeptAll(c.base, w.h, w'.h);
    NoPointers(k.records);
    assert KeptSince(w.h, w'.h);
    assert forall q :: q in k.tasks ==> Untouched(k, w, k', w', q);
    hide Confined;
    LeftAlone(k, w, k', w', c);
    SameTasksSameFrames(k, w, k', w', c);
    SameTasksSameFree(k, w, k', w', c);
    if PagesSince(w.h, w'.h) == {} {
      SameBlocks(k, w, k', w', c);
    }
  }

  lemma LeftAlone(k: Kern, w: World, k': Kern, w': World, c: Start)
    requires Settled(k, w, c) && forall q :: q in k.tasks ==> Untouched(k, w, k', w', q)
    ensures forall q :: q in k.records ==> q in k'.records && Pointers(k'.records[q]) == Pointers(k.records[q])
  {
    hide Kept, CowInv, HeapOk, WF, Parted, FreeFrames, InTree, Pointers, SameTree;
    forall q | q in k.records
      ensures q in k'.records && Pointers(k'.records[q]) == Pointers(k.records[q])
    {
      assert q in k.records.Keys && q in k.tasks && Untouched(k, w, k', w', q);
    }
  }

  lemma SameBlocks(k: Kern, w: World, k': Kern, w': World, c: Start)
    requires Settled(k, w, c) && Settled(k', w', c) && w'.s.free == w.s.free && |w'.s.fa| == |w.s.fa|
    ensures forall i: nat, n: nat :: Head(w'.s.fa, 0, 0, i, n) <==> Head(w.s.fa, 0, 0, i, n)
  {
    hide Kept, CowInv, HeapOk, WF, Parted, FreeFrames, InTree, Head;
    SameFreeFramesSameBlocks(w'.s.fa, w.s.fa);
  }

  /** A state between operations, and what happened from one to the next: who acted, and what others gave to kmalloc. */
  datatype Moment = Moment(k: Kern, w: World, c: Start)
  datatype Act = Act(actors: set<nat>, back: set<nat>)

  ghost predicate IsRun(run: seq<Moment>, acts: seq<Act>) {
    && |run| == |acts| + 1
    && (forall i :: 0 <= i < |run| ==> Settled(run[i].k, run[i].w, run[i].c))
    && (forall i :: 0 <= i < |acts| ==> Follows(run[i], run[i + 1], acts[i]))
  }

  ghost predicate Follows(m: Moment, m': Moment, a: Act) {
    && m'.c == m.c.(others := m'.c.others) && a.back <= m.c.others && m.c.others - a.back <= m'.c.others
    && |m'.w.s.fa| == |m.w.s.fa| && Confined(m.c.base, m.k, m.w, m'.k, m'.w, a.actors, a.back)
  }

  /**
   The tasks of the first moment do nothing to user memory, as those without areas cannot by any access, and the rest of
   the kernel keeps what it had then.
   */
  ghost predicate Bystanders(m: Moment, acts: seq<Act>) {
    forall i :: 0 <= i < |acts| ==> acts[i].actors !! m.k.tasks.Keys && acts[i].back !! Rest(m.c)
  }

  /** Over any run, whoever does not act keeps what it had. */
  lemma {:induction false} RunConfined(run: seq<Moment>, acts: seq<Act>, n: nat)
    requires IsRun(run, acts) && n < |run| && Bystanders(run[0], acts)
    ensures Confined(run[0].c.base, run[0].k, run[0].w, run[n].k, run[n].w, {}, {})
    ensures run[n].c == run[0].c.(others := run[n].c.others) && run[0].c.others <= run[n].c.others
    ensures |run[n].w.s.fa| == |run[0].w.s.fa|
    decreases n
  {
    hide Confined, Kept, CowInv, HeapOk, WF, Parted, FreeFrames, InTree;
    var m := run[0];
    if n == 0 {
      NoChange(m.c, m.k, m.w);
    } else {
      RunConfined(run, acts, n - 1);
      assert Follows(run[n - 1], run[n - 1 + 1], acts[n - 1]) && Settled(run[n - 1].k, run[n - 1].w, run[n - 1].c);
      StillTheirs(m.c, run[n - 1].c, run[n].c, acts[n - 1].back);
      RunStep(m, run[n - 1], run[n], acts[n - 1]);
    }
  }

  lemma StillTheirs(c: Start, c': Start, c'': Start, back: set<nat>)
    requires c.others <= c'.others && back !! Rest(c) && c'.others - back <= c''.others
    ensures c.others <= c''.others
  {
    hide Held;
    forall x | x in c.others
      ensures x in c''.others
    {
      assert x in Rest(c);
    }
  }

  lemma RunStep(m: Moment, m1: Moment, m2: Moment, a: Act)
    requires Settled(m.k, m.w, m.c) && Settled(m1.k, m1.w, m1.c) && Follows(m1, m2, a)
    requires m1.c == m.c.(others := m1.c.others) && m.c.others <= m1.c.others
    requires a.actors !! m.k.tasks.Keys && a.back !! Rest(m.c)
    requires Confined(m.c.base, m.k, m.w, m1.k, m1.w, {}, {})
    ensures Confined(m.c.base, m.k, m.w, m2.k, m2.w, {}, {})
  {
    hide Confined, Owned, Accounted, CowInv, HeapOk, WF, Parted, FreeFrames, InTree, Rest;
    ConfinedNext(m.c, m.k, m.w, m1.c, m1.k, m1.w, m2.k, m2.w, a.actors, a.back);
  }

  /**
   Over any run, whoever comes, does whatever and goes again: when only the tasks of the first moment are left, and the
   rest of the kernel has what it had then, the same frames are in use with the same counts, kmalloc has handed out the
   same, and the free frames are the same but for the pages that pools have taken; without these, so are the blocks.
   */
  lemma NothingLeaks(run: seq<Moment>, acts: seq<Act>)
    requires IsRun(run, acts) && Bystanders(run[0], acts)
    requires run[|acts|].k.tasks.Keys == run[0].k.tasks.Keys && run[|acts|].c.others == run[0].c.others
    ensures Restored(run[0].w, run[|acts|].w)
  {
    RunConfined(run, acts, |acts|);
    var m, m' := run[0], run[|acts|];
    hide Confined, Settled, Restored;
    Conserved(m.k, m.w, m'.k, m'.w, m.c);
  }

  /** A task without children exits: nothing of what was before the moment m is touched. */
  method Exit(K: Kernel, child: nat, ghost m: Moment)
    requires K.Valid() && child in K.tasks && Abandoned(K.records, child) == K.records
    requires Settled(m.k, m.w, m.c) && m.c == K.start
    requires Confined(m.c.base, m.k, m.w, K.Books(), K.m.Now(), {}, {})
    modifies K`tasks, K`records
    ensures K.Valid() && K.tasks == old(K.tasks)[child := old(K.tasks)[child].(state := Zombie)]
    ensures K.records == old(K.records)
    ensures Confined(m.c.base, m.k, m.w, K.Books(), K.m.Now(), {}, {})
  {
    hide Kernel.Structured, Machine.Valid, Machine.Now, Scheduler.Valid, Sound, Queued, Seen, IsNext, Abandoned;
    hide Isolation.Replay, Settled, Confined;
    Orderly(K);
    ghost var m0 := Moment(K.Books(), K.m.Now(), K.start);
    var _, _ := K.ThreadExit(child);
    Orderly(K);
    Later(m, m0, Moment(K.Books(), K.m.Now(), K.start), {});
  }

  /**
   A task that came after the moment m, whatever it has done since, exits and is reaped; its children are gone, and with
   it everybody is who came later. Then all is as it was at that moment.
   */
  method ExitAndReap(K: Kernel, child: nat, ghost m: Moment)
    requires K.Valid() && child in K.tasks && Abandoned(K.records, child) == K.records
    requires Settled(m.k, m.w, m.c) && m.c == K.start && |m.w.s.fa| == |K.m.Now().s.fa|
    requires child !in m.k.tasks && K.tasks.Keys == m.k.tasks.Keys + {child}
    requires Confined(m.c.base, m.k, m.w, K.Books(), K.m.Now(), {}, {})
    modifies K`tasks, K`records, K`history, K.sched, K.m.Repr
    ensures K.Valid() && child in old(K.records)
    ensures K.tasks == old(K.tasks) - {child} && K.records == old(K.records) - {child}
    ensures forall i: nat :: i < |old(K.sched.ring)| && old(K.sched.ring)[i] == child ==>
              K.sched.ring == Without(old(K.sched.ring), i)
    ensures TornDown(old(K.m.Now()).s, K.m.Now().s, old(K.tasks)[child].pgd)
    ensures K.history == old(K.history) + [Isolation.Reaped(child)]
    ensures Restored(m.w, K.m.Now())
  {
    hide Kernel.Structured, Machine.Valid, Machine.Now, Scheduler.Valid, Sound, Queued, Seen, KeptBut, TornDown;
    hide Isolation.Replay, IsNext, Elements, Pointers, Abandoned, Settled, Confined, Restored;
    Orderly(K);
    Exit(K, child, m);
    Orderly(K);
    ghost var m1 := Moment(K.Books(), K.m.Now(), K.start);
    K.Reap(child);
    assert K.tasks == old(K.tasks) - {child} && K.start == m.c;
    Orderly(K);
    ghost var m2 := Moment(K.Books(), K.m.Now(), K.start);
    Later(m, m1, m2, {child});
    Conserved(m.k, m.w, m2.k, m2.w, m.c);
  }

  /** One more step without the rest of the kernel. */
  lemma Later(m: Moment, m1: Moment, m2: Moment, actors: set<nat>)
    requires Settled(m.k, m.w, m.c) && Settled(m1.k, m1.w, m1.c) && m1.c == m.c && m2.c == m.c
    requires actors !! m.k.tasks.Keys && Confined(m.c.base, m.k, m.w, m1.k, m1.w, {}, {})
    requires Confined(m.c.base, m1.k, m1.w, m2.k, m2.w, actors, {}) && |m2.w.s.fa| == |m1.w.s.fa|
    ensures Confined(m.c.base, m.k, m.w, m2.k, m2.w, {}, {})
  {
    hide Settled, Confined, Rest;
    assert m.c.others - {} == m.c.others;
    RunStep(m, m1, m2, Act(actors, {}));
  }

  /** What fork has done, as far as it matters to a child that goes again. */
  ghost predicate Born(k: Kern, w: World, k': Kern, w': World, p: nat, child: nat) {
    && p in k.tasks && child in k'.tasks && child !in k.tasks && child !in k.records && child in k'.records
    && k' == Kern(k.tasks[child := k'.tasks[child]], k.records[child := k'.records[child]])
    && (k'.records[child].ppid == p || k'.records[child].ppid == 0)
    && exists n: nat :: Forked(w.s.maps, w'.s.maps, k.tasks[p].pgd, k'.tasks[child].pgd, n)
  }

  method BearChild(K: Kernel, p: nat) returns (ret: int)
    requires K.Valid() && p in K.tasks && |K.m.Now().s.free| >= Spare(K.m.Now().h, TASK_SIZE) + 2
    modifies K`tasks, K`records, K`nrThreads, K`history, K.sched, K.m.Repr
    ensures K.Valid() && K.nrThreads == old(K.nrThreads) + 1
    ensures Born(old(K.Books()), old(K.m.Now()), K.Books(), K.m.Now(), p, old(K.nrThreads))
    ensures K.sched.ring == Enqueued(old(K.sched.ring), old(K.nrThreads))
    ensures exists e :: Isolation.Subject(e) == old(K.nrThreads) && K.history == old(K.history) + [e]
    ensures Confined(K.start.base, old(K.Books()), old(K.m.Now()), K.Books(), K.m.Now(), {}, {})
  {
    hide Kernel.Structured, Machine.Valid, Machine.Now, Scheduler.Valid, Sound, Queued, Seen, Confined, PartCopy;
    hide Sprouted, KeptSince, Forked, PagesAfterCreate, Isolation.Replay, Tables, RoomAfterCreate, Given, Spare;
    K.Parts();
    NewToTheBooks(K.sched.ring, K.Books(), K.nrThreads);
    ret := K.Fork(p);
    ghost var e := K.history[|old(K.history)|];
    assert Isolation.Subject(e) == old(K.nrThreads) && K.history == old(K.history) + [e];
  }

  lemma NewToTheBooks(ring: seq<nat>, k: Kern, n: nat)
    requires Queued(ring, k, n)
    ensures n !in k.tasks && n !in k.records
  {
  }

  /** When the child is gone, nobody else has become an orphan by it. */
  lemma ChildGone(ring: seq<nat>, k: Kern, w: World, k': Kern, w': World, p: nat, child: nat)
    requires Queued(ring, k, child) && Born(k, w, k', w', p, child)
    ensures Kern(k'.tasks - {child}, k'.records - {child}) == k && Abandoned(k'.records, child) == k'.records
    ensures ring != [] && Without(Enqueued(ring, child), 1) == ring && Enqueued(ring, child)[1] == child
    ensures child in k'.tasks && child !in k.tasks && k'.tasks.Keys == k.tasks.Keys + {child}
  {
    hide Forked;
    assert p < child;
  }

  /** Only the parent's pages have become read-only. */
  lemma OnlyParents(k: Kern, w: World, k': Kern, w': World, w'': World, c: Start, p: nat, child: nat)
    requires Settled(k', w', c)
    requires Born(k, w, k', w', p, child) && TornDown(w'.s, w''.s, k'.tasks[child].pgd)
    ensures forall x :: x in w''.s.maps && x.root != k.tasks[p].pgd ==> x in w.s.maps && w''.s.maps[x] == w.s.maps[x]
  {
    hide InTree, Kept, Parted, CowInv, HeapOk, WF, FreeFrames;
  }

  /**
   A process forks, and its child exits and is reaped, whether the fork succeeded or not: all that is left is that pages
   of the parent are read-only and that pools may have taken pages.
   */
  method ForkAndReap(K: Kernel, p: nat) returns (ret: int)
    requires K.Valid() && p in K.tasks && |K.m.Now().s.free| >= Spare(K.m.Now().h, TASK_SIZE) + 2
    modifies K`tasks, K`records, K`nrThreads, K`history, K.sched, K.m.Repr
    ensures K.Valid() && K.tasks == old(K.tasks) && K.records == old(K.records) && K.sched.ring == old(K.sched.ring)
    ensures Seen(K.Books(), K.m.Now()) == old(Seen(K.Books(), K.m.Now()))
    ensures Restored(old(K.m.Now()), K.m.Now())
    ensures forall x :: x in K.m.Now().s.maps && x.root != old(K.tasks)[p].pgd ==>
              x in old(K.m.Now()).s.maps && K.m.Now().s.maps[x] == old(K.m.Now()).s.maps[x]
  {
    hide Kernel.Structured, Machine.Valid, Machine.Now, Scheduler.Valid, Sound, Queued, Seen, Settled, Restored;
    hide TornDown, Isolation.Replay, Abandoned, Enqueued, Spare, Confined, Born;
    ghost var child := K.nrThreads;
    Orderly(K);
    ghost var w, k, ring, past := K.m.Now(), K.Books(), K.sched.ring, K.history;
    ghost var m := Moment(k, w, K.start);
    ret := BearChild(K, p);
    assert K.start == m.c;
    Orderly(K);
    ghost var w1, k1 := K.m.Now(), K.Books();
    ghost var e :| Isolation.Subject(e) == child && K.history == past + [e];
    ChildGone(ring, k, w, k1, w1, p, child);
    ExitAndReap(K, K.nrThreads - 1, m);
    assert K.Books() == k;
    OnlyParents(k, w, k1, w1, K.m.Now(), m.c, p, child);
    Orderly(K);
    Isolation.BirthAndDeath(past, e, child);
  }
}
