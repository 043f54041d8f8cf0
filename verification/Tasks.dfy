/** What the operations of the kernel do to the tasks, their memory and their books, as relations between states. */
module Tasks {
  import opened Basics
  import opened BuddySpec
  import opened BuddyAllocator
  import opened BuddyPages
  import opened KmallocSpec
  import opened Sv39
  import opened PageTree
  import opened Cow
  import opened Vm
  import opened Fork
  import opened Machine
  import opened AddressSpace
  import opened Mmap
  import opened Accounting
  import opened Steps
  import opened Supply
  import opened RunQueue
  import Isolation

  /** What the page-fault branch of trap_handler does in the end. */
  datatype Outcome = Resumed | Killed | Halted

  /** What a round of do_waitpid comes to. */
  datatype WaitResult = NoSuchTask | Gone | NotYet

  /** The area's own permission bits, as the fault handler tests them. */
  predicate Permits(prot: VmProt, access: Access) {
    match access
    case Fetch => prot.exec
    case Load => prot.read
    case Store => prot.write
  }

  /** Every task is in the run queue, has an identifier and a parent below n, and a pointer for each of its areas. */
  ghost predicate Queued(ring: seq<nat>, k: Kern, n: nat) {
    && (forall p :: p in ring <==> p in k.tasks) && k.records.Keys == k.tasks.Keys
    && forall p :: p in k.tasks ==> p < n && k.records[p].ppid < n && |k.records[p].areas| == |k.tasks[p].vmas|
  }

  function Joined<T>(list: seq<T>, x: T, first: bool): (r: seq<T>)
    ensures |r| == |list| + 1
  {
    if first then [x] + list else list + [x]
  }

  lemma QueuedArea(ring: seq<nat>, k: Kern, n: nat, p: nat, t: Task, x: nat, first: bool)
    requires Queued(ring, k, n) && p in k.tasks && |t.vmas| == |k.tasks[p].vmas| + 1
    ensures p in k.records
    ensures Queued(ring, Kern(k.tasks[p := t],
            k.records[p := k.records[p].(areas := Joined(k.records[p].areas, x, first))]), n)
  {
  }

  lemma TakenSpaces(base: nat, w: World, w': World, size: nat, p: nat)
    requires Allocated(base, w, w', size, p)
    ensures SameSpaces(w.s, w'.s)
  {
    hide Took, Granted;
  }

  lemma JoinArea(k: Kern, w: World, c: Start, p: nat, x: nat, first: bool)
    requires Sound(k, w, c, {x}) && p in k.records
    ensures var k' := k.(records := k.records[p := k.records[p].(areas := Joined(k.records[p].areas, x, first))]);
            Sound(k', w, c, {}) && Seen(k', w) == Seen(k, w)
  {
    hide SpacesOk, Accounted, Owned, Views;
    AreaStep(k.records, c, w.h, p, x, Joined(k.records[p].areas, x, first));
  }

  lemma ViewSpaces(t: Task, s: Snap, s': Snap)
    requires SameSpaces(s, s')
    ensures View(t, s'.maps, s'.bytes) == View(t, s.maps, s.bytes)
  {
  }

  lemma SeenAt(k: Kern, w: World, p: nat)
    requires p in k.tasks
    ensures Seen(k, w) == Seen(k, w)[p := View(k.tasks[p], w.s.maps, w.s.bytes)]
  {
    hide View;
  }

  lemma Unchanged(w: World)
    ensures SameSpaces(w.s, w.s) && KeptSince(w.h, w.h)
  {
  }

  lemma QueuedNew(ring: seq<nat>, k: Kern, n: nat)
    requires Queued(ring, k, n)
    ensures n !in ring && n !in k.tasks && n !in k.records
    ensures forall t: Task, r: Record :: |r.areas| == |t.vmas| && r.ppid == 0 ==>
              Queued(Enqueued(ring, n), Kern(k.tasks[n := t], k.records[n := r]), n + 1)
  {
    forall p
      ensures p in Enqueued(ring, n) <==> p in ring || p == n
    {
      if ring != [] {
        assert ring == [ring[0]] + ring[1..];
      }
    }
  }

  /** The areas of a program, one joined to the other. */
  lemma AreaByArea(file: seq<byte>, code: Vma, stack: Vma)
    requires |file| < 0x1_0000_0000 && stack == StackArea()
    requires code == Vma(0, PagesFor(|file|) * PAGE_SIZE, CODE_PROT, file)
    ensures Joined([], code, true) == ProgramAreas(file, 1) && ProgramAreas(file, 0) == []
    ensures Joined(ProgramAreas(file, 1), stack, true) == ProgramAreas(file, 2)
    ensures VmasOk(Joined([], code, true)) && VmasOk(Joined([], stack, true))
    ensures VmasOk(Joined(ProgramAreas(file, 1), stack, true))
  {
    ProgramAreasOk(file, 1);
    ProgramAreasOk(file, 2);
    StackOk();
    assert [code] + [] == [code] && [stack] + [code] == [stack, code];
  }

  /** The ring with one more thread behind its head. */
  ghost function Enqueued(ring: seq<nat>, p: nat): seq<nat> {
    if ring == [] then [p] else [ring[0], p] + ring[1..]
  }

  /** The trees, the mapped pages and the contents of memory are the same. */
  ghost predicate SameSpaces(s: Snap, s': Snap) {
    s'.own == s.own && s'.maps == s.maps && s'.bytes == s.bytes
  }

  /** There is a new root with nothing below it; all else in the trees is what it was. */
  ghost predicate Fresh(s: Snap, s': Snap, root: nat) {
    root !in s.own && s'.own == s.own[root := Root] && s'.maps == s.maps && forall v: nat :: Slot(root, v) !in s.maps
  }

  /** The list of pool i is as long as it was. */
  ghost predicate SameList(h: Heap, h': Heap, i: nat) {
    |h'.chunks| == |h.chunks| && i < |h.chunks| && |h'.chunks[i]| == |h.chunks[i]|
  }

  lemma SpacesSame(s: Snap, s': Snap)
    requires SameSpaces(s, s')
    ensures s'.own == s.own && s'.maps == s.maps && s'.bytes == s.bytes
    ensures forall t: Snap :: SameSpaces(s', t) ==> SameSpaces(s, t)
  {
  }

  lemma FreshSlots(s: Snap, s': Snap, root: nat)
    requires Fresh(s, s', root)
    ensures s'.maps == s.maps && forall v: nat :: Slot(root, v) !in s'.maps
  {
  }

  lemma FreshSame(s: Snap, s': Snap, s'': Snap, root: nat)
    requires Fresh(s, s', root) && SameSpaces(s', s'')
    ensures Fresh(s, s'', root)
  {
  }

  lemma OneServed(w: World, w': World)
    requires Served(w, w')
    ensures Room(w') == Room(w) - 1
  {
  }

  lemma CreatedRoom(w: World, w': World)
    requires SameList(w.h, w'.h, VMA_POOL) && |w'.s.free| == |w.s.free| - Spare(w.h, TASK_SIZE) - 2
    ensures Room(w') == RoomAfterCreate(w)
    ensures forall n: nat :: FreeAfter(List(w'.h), |w'.s.free|, n) == PagesAfterCreate(w, n)
  {
  }

  /** The structure of a task has room for a task_struct, and its stack for 4 KiB. */
  ghost predicate Roomy(base: nat, h: Heap, r: Record) {
    736 <= SizeAt(base, h, r.node) && 4096 <= SizeAt(base, h, r.stack)
  }

  /** The list has one more node, with room for a vm_area_struct. */
  ghost predicate MoreNodes(base: nat, h: Heap, was: seq<nat>, areas: seq<nat>, first: bool) {
    exists x: nat :: areas == Joined(was, x, first) && 48 <= SizeAt(base, h, x)
  }

  /** A chunk that kmalloc has handed out keeps its size. */
  lemma SizeKept(base: nat, w: World, w': World, p: nat)
    requires KeptSince(w.h, w'.h) && TASK_SIZE <= SizeAt(base, w.h, p)
    requires HeapOk(base, w'.s.fa, w'.s.refs, w'.h)
    ensures TASK_SIZE <= SizeAt(base, w'.h, p)
  {
  }

  lemma ParentStep(k: Kern, w: World, c: Start, p: nat, parent: nat)
    requires Sound(k, w, c, {}) && p in k.records
    ensures var k' := k.(records := k.records[p := k.records[p].(ppid := parent)]);
            Sound(k', w, c, {}) && Seen(k', w) == Seen(k, w)
  {
    hide SpacesOk, Accounted, Owned, Views;
    SamePointers(k.records, k.records[p := k.records[p].(ppid := parent)], c, w.h, {});
  }

  lemma BelowNr(ring: seq<nat>, k: Kern, n: nat, p: nat)
    requires Queued(ring, k, n) && p in k.tasks
    ensures p < n
  {
  }

  lemma QueuedParent(ring: seq<nat>, k: Kern, n: nat, p: nat, parent: nat)
    requires Queued(ring, k, n) && p in k.tasks && parent < n
    ensures p in k.records && Queued(ring, k.(records := k.records[p := k.records[p].(ppid := parent)]), n)
  {
  }

  /** One tree has been replaced by a fresh root; of the other frames, some may be free now. */
  ghost predicate Moved(w: World, w': World, oldRoot: nat, root: nat) {
    && root in w.s.free && root != oldRoot && Is(w'.s.own, root, Root)
       && w'.s.maps == Cut(w.s.maps, oldRoot, 0, USER_PAGES)
    && (forall f :: f in w'.s.own && f != root ==> f in w.s.own && w'.s.own[f] == w.s.own[f])
    && (forall f :: f in w'.s.own ==> !InTree(w'.s.own[f], f, oldRoot))
    && (forall f :: f in w.s.own && f !in w'.s.own ==> w.s.own[f] == User || InTree(w.s.own[f], f, oldRoot))
  }

  /** One tree is gone: its pages are no longer mapped, its tables and the frames that it alone used are in no use. */
  ghost predicate TornDown(s: Snap, s': Snap, root: nat) {
    && s'.maps == Cut(s.maps, root, 0, USER_PAGES) && s'.bytes == s.bytes
    && (forall f :: f in s'.own ==> f in s.own && s'.own[f] == s.own[f] && !InTree(s'.own[f], f, root))
    && (forall f :: f in s.own && f !in s'.own ==> s.own[f] == User || InTree(s.own[f], f, root))
  }

  lemma RootOf(k: Kern, w: World, c: Start, p: nat)
    requires Sound(k, w, c, {}) && p in k.tasks
    ensures Is(w.s.own, k.tasks[p].pgd, Root)
  {
  }

  lemma StillRoot(w: World, w': World, root: nat, r: nat)
    requires Rooted(w, w', root) && Is(w.s.own, r, Root)
    ensures Is(w'.s.own, r, Root) && r != root
  {
    HookedFacts(w.s, w'.s, root, Root);
  }

  lemma ExecMoved(w: World, w1: World, w2: World, root: nat, oldRoot: nat)
    requires Rooted(w, w1, root) && Is(w.s.own, oldRoot, Root) && Shrunk(w1.s, w2.s, oldRoot) && w2.h == w1.h
    requires w2.s.maps == Cut(w1.s.maps, oldRoot, 0, USER_PAGES)
    requires forall f :: f in w2.s.own ==> !InTree(w2.s.own[f], f, oldRoot)
    ensures Moved(w, w2, oldRoot, root) && oldRoot in w2.s.free && w2.h == w.h
  {
    hide Cut, KeepsLive, Extended;
    HookedFacts(w.s, w1.s, root, Root);
    InTreeRoot(oldRoot);
  }

  /** The new root is paid for by the old one. */
  lemma MovedFree(w: World, w1: World, w2: World, root: nat, oldRoot: nat)
    requires Parted(w) && Rooted(w, w1, root) && Is(w.s.own, oldRoot, Root) && Shrunk(w1.s, w2.s, oldRoot)
    requires forall f :: f in w2.s.own ==> !InTree(w2.s.own[f], f, oldRoot)
    ensures |w2.s.free| >= |w.s.free|
  {
    HookedFacts(w.s, w1.s, root, Root);
    InTreeRoot(oldRoot);
    SubsetSize(w.s.free - {root} + {oldRoot}, w2.s.free);
  }

  lemma MovedSame(w: World, w1: World, w2: World, oldRoot: nat, root: nat)
    requires Moved(w, w1, oldRoot, root) && SameSpaces(w1.s, w2.s)
    ensures Moved(w, w2, oldRoot, root)
  {
    hide Cut, InTree;
  }

  lemma DropAreas(k: Kern, w: World, c: Start, p: nat)
    requires Sound(k, w, c, {}) && p in k.records
    ensures NoDup(k.records[p].areas)
    ensures var k' := k.(records := k.records[p := k.records[p].(areas := [])]);
            Sound(k', w, c, Elements(k.records[p].areas)) && Seen(k', w) == Seen(k, w)
  {
    hide SpacesOk, Accounted, Views, Held, KeptSince;
    AreasNoDup(k.records[p]);
    hide Owned, Distinct, NoDup, Elements;
    ReleaseAreas(k.records, c, w.h, p);
  }

  lemma AreasNoDup(r: Record)
    requires NoDup(Pointers(r))
    ensures NoDup(r.areas)
  {
    var s := Pointers(r);
    assert forall i :: 0 <= i < |r.areas| ==> s[i + 2] == r.areas[i];
  }

  lemma ElementsSplit(r: Record)
    requires NoDup(Pointers(r))
    ensures NoDup(r.areas) && Elements(r.areas) <= Elements(Pointers(r))
    ensures Elements(r.areas) + {r.stack} + {r.node} == Elements(Pointers(r))
    ensures r.stack in Elements(Pointers(r)) - Elements(r.areas)
    ensures r.node in Elements(Pointers(r)) - Elements(r.areas) - {r.stack}
    ensures Elements(Pointers(r)) - Elements(r.areas) - {r.stack} - {r.node} == {}
  {
    AreasNoDup(r);
    PointersSplit(r);
    var s := Pointers(r);
    assert forall i :: 0 <= i < |r.areas| ==> s[i + 2] == r.areas[i];
    assert s[0] != s[1];
  }

  lemma EnoughRoom(w: World)
    requires w.s.free != {}
    ensures Given(Room(w), 2) == 2 && FreeAfter(List(w.h), |w.s.free|, 2) >= |w.s.free| - 1
  {
    assert |w.s.free| >= 1;
  }

  lemma KeptSinceBut(base: nat, h: Heap, h': Heap, h'': Heap, gone: set<nat>)
    requires KeptBut(base, h, h', gone) && KeptSince(h', h'')
    ensures KeptBut(base, h, h'', gone)
  {
    hide PageAddr;
  }

  /** The pages and tables of a task, and what it has from kmalloc, are no longer its own. */
  lemma ReapAll(k: Kern, w: World, w': World, c: Start, p: nat)
    requires Sound(k, w, c, {}) && p in k.tasks && p in k.records && w'.h == w.h && Shrunk(w.s, w'.s, k.tasks[p].pgd)
    requires w'.s.maps == Cut(w.s.maps, k.tasks[p].pgd, 0, USER_PAGES)
    requires forall f :: f in w'.s.own ==> !InTree(w'.s.own[f], f, k.tasks[p].pgd)
    ensures var k' := Kern(k.tasks - {p}, k.records - {p});
            Sound(k', w', c, Elements(Pointers(k.records[p]))) && Seen(k', w') == Seen(k, w) - {p}
    ensures NoDup(Pointers(k.records[p]))
  {
    hide SpacesOk, Accounted, Shrunk, Cut, InTree, Held, KeptSince, NoDup, Pointers, Views;
    assert NoDup(Pointers(k.records[p]));
    hide Owned, Elements;
    ReapStep(k, w, w', c, p);
    ReleaseStep(k.records, c, w.h, p);
  }

  lemma ReapTornDown(s: Snap, s': Snap, root: nat)
    requires Shrunk(s, s', root) && s'.maps == Cut(s.maps, root, 0, USER_PAGES)
    requires forall f :: f in s'.own ==> !InTree(s'.own[f], f, root)
    ensures TornDown(s, s', root)
  {
    hide Cut, KeepsLive;
  }

  lemma SameTornDown(s: Snap, s': Snap, s'': Snap, root: nat)
    requires TornDown(s, s', root) && SameSpaces(s', s'')
    ensures TornDown(s, s'', root)
  {
    hide Cut, InTree;
  }

  lemma QueuedVacant(ring: seq<nat>, k: Kern, n: nat, p: nat)
    requires Queued(ring, k, n) && p in k.tasks
    ensures p in k.records
    ensures forall t: Task :: t.vmas == [] ==>
              Queued(ring, Kern(k.tasks[p := t], k.records[p := k.records[p].(areas := [])]), n)
  {
  }

  lemma QueuedGone(ring: seq<nat>, k: Kern, n: nat, p: nat, i: nat)
    requires Queued(ring, k, n) && i < |ring| && ring[i] == p && forall j :: 0 <= j < |ring| && ring[j] == p ==> j == i
    ensures p in k.records && Queued(Without(ring, i), Kern(k.tasks - {p}, k.records - {p}), n)
  {
    var t := Without(ring, i);
    forall q
      ensures q in t <==> q in ring && q != p
    {
      if q in ring && q != p {
        var j :| 0 <= j < |ring| && ring[j] == q;
        assert t[if j < i then j else j - 1] == q;
      }
    }
  }

  lemma InQueue(ring: seq<nat>, k: Kern, n: nat, p: nat)
    requires Queued(ring, k, n) && p in k.tasks
    ensures p in ring && p in k.records
  {
  }

  lemma AreasOf(k: Kern, w: World, c: Start, p: nat)
    requires Sound(k, w, c, {}) && p in k.tasks
    ensures VmasOk(k.tasks[p].vmas)
  {
    SpaceOf(k.tasks, w.s.own, w.s.maps, p);
  }

  lemma AreasPrefix(list: seq<Vma>, n: nat, i: nat)
    requires VmasOk(list) && n <= i < |list|
    ensures VmasOk(Joined(list[..n], list[i], false))
    ensures n == i ==> Joined(list[..n], list[i], false) == list[..n + 1]
  {
  }

  /** Before the first area has been handed out. */
  lemma FirstOf(k: Kern, w: World, ring: seq<nat>, n: nat, p: nat)
    requires Queued(ring, k, n) && p in k.tasks
    ensures SameSpaces(w.s, w.s) && KeptSince(w.h, w.h) && p in k.records
    ensures |w.s.free| == FreeAfter(List(w.h), |w.s.free|, 0)
    ensures Seen(k, w) == Seen(k, w)[p := View(k.tasks[p], w.s.maps, w.s.bytes)]
  {
    SeenAt(k, w, p);
  }

  /** There is one more tree; all that was in use is used as before, and no memory that is in use has changed. */
  ghost predicate Sprouted(s: Snap, s': Snap, root: nat) {
    && root !in s.own && Is(s'.own, root, Root)
    && (forall f :: f in s.own ==> f in s'.own && s'.own[f] == s.own[f])
    && (forall f :: f in s'.own && f !in s.own ==> InTree(s'.own[f], f, root))
  }

  lemma RootsApart(k: Kern, w: World, c: Start, p: nat, q: nat)
    requires Sound(k, w, c, {}) && p in k.tasks && q in k.tasks && p != q
    ensures k.tasks[p].pgd != k.tasks[q].pgd
  {
  }

  /** The new tree has no table but its root, and the tables of another are those it had. */
  lemma FreshTree(s: Snap, s': Snap, root: nat, other: nat)
    requires Fresh(s, s', root) && forall f: nat, r: nat :: f in s.own && InTree(s.own[f], f, r) ==> r in s.own
    ensures forall f :: f in s'.own && f != root ==> !InTree(s'.own[f], f, root)
    ensures AllBelow(Tables(s'.own), other) == AllBelow(Tables(s.own), other)
    ensures forall frames: nat, n: nat :: StopsAt(Tables(s'.own), other, frames, n) <==>
              StopsAt(Tables(s.own), other, frames, n)
  {
    TablesAdd(s.own, root, Root);
    StopsAlike(Tables(s.own), Tables(s'.own), other);
    hide Tables, InTree, StopsAt;
  }

  lemma StopsAlike(t: set<Role>, t': set<Role>, parent: nat)
    requires t' == t + {Root}
    ensures forall frames: nat, n: nat :: StopsAt(t', parent, frames, n) <==> StopsAt(t, parent, frames, n)
  {
    forall frames: nat, a: nat, b: nat
      ensures Stop(t', parent, frames, a, b) <==> Stop(t, parent, frames, a, b)
    {
      assert Below(t', parent, a, a, 0) == Below(t, parent, a, a, 0);
      assert Below(t', parent, a + 1, a, b) == Below(t, parent, a + 1, a, b);
    }
    hide Stop;
  }

  /** Unless all areas are copied, no page is left. */
  lemma AreasGiven(w: World, n: nat)
    requires |w.s.free| >= Spare(w.h, TASK_SIZE) + 2
    ensures var m := Given(RoomAfterCreate(w), n);
            PagesAfterCreate(w, m) == PagesAfterCreate(w, n) && (m < n ==> PagesAfterCreate(w, n) == 0)
  {
  }

  lemma ForkSprouted(s: Snap, s1: Snap, s2: Snap, root: nat)
    requires Fresh(s, s1, root) && ForkGrown(s1, s2, root)
    ensures Sprouted(s, s2, root) && s1.maps == s.maps
  {
    hide KeepsPages, KeepsLive;
    InTreeRoot(root);
  }

  lemma OtherSeen<K, V>(m0: map<K, V>, m1: map<K, V>, p: K, c: K)
    requires c in m1 && m1 == m0[c := m1[c]] && p in m1 && p != c
    ensures p in m0 && m0[p] == m1[p]
  {
  }

  lemma SeenPut<K, V>(m0: map<K, V>, m1: map<K, V>, m2: map<K, V>, c: K)
    requires c in m1 && c in m2 && m1 == m0[c := m1[c]] && m2 == m1[c := m2[c]]
    ensures m2 == m0[c := m2[c]]
  {
  }

  /** The children of p have no parent any more. */
  function Abandoned(records: map<nat, Record>, p: nat): map<nat, Record> {
    map q | q in records :: WithoutParent(records[q], p)
  }

  function WithoutParent(r: Record, p: nat): Record {
    if r.ppid == p then r.(ppid := 0) else r
  }

  /** Whoever had p as parent has none, everybody else has the parent it had, and nothing else is different. */
  ghost predicate Orphaned(was: map<nat, Record>, r: map<nat, Record>, p: nat) {
    && r.Keys == was.Keys
    && (forall q :: q in was && was[q].ppid == p ==> r[q].ppid == 0)
    && (forall q :: q in was && was[q].ppid != p ==> r[q].ppid == was[q].ppid)
    && (forall q :: q in was ==>
          r[q].node == was[q].node && r[q].stack == was[q].stack && r[q].areas == was[q].areas)
  }

  /** The loop of thread_exit, once around the run queue. */
  method WithoutChildren(sched: Scheduler, records: map<nat, Record>, p: nat) returns (r: map<nat, Record>)
    requires sched.Valid() && forall q :: q in sched.ring <==> q in records
    ensures r == Abandoned(records, p) && Orphaned(records, r, p)
  {
    hide Orphaned;
    r := records;
    ghost var ring := sched.ring;
    if sched.queue == None {
      AllVisited(records, r, ring, p);
      return;
    }
    var curr := sched.queue.value;
    ghost var at := 0;
    while true
      invariant at < |ring| && curr == ring[at] && r.Keys == records.Keys
      invariant sched.Valid() && Visited(records, r, ring, at, p)
      decreases |ring| - at
    {
      ghost var was := r;
      if r[curr].ppid == p {
        r := r[curr := r[curr].(ppid := 0)];
      }
      VisitedNext(sched, records, was, r, at, p);
      sched.Around(at);
      curr := sched.next[curr];
      if curr == sched.queue.value {
        break;
      }
      at := at + 1;
    }
    AllVisited(records, r, ring, p);
  }

  /** The first n tasks of the ring have been looked at. */
  ghost predicate Visited(was: map<nat, Record>, r: map<nat, Record>, ring: seq<nat>, n: nat, p: nat) {
    && r.Keys == was.Keys && (forall i :: 0 <= i < |ring| ==> ring[i] in was)
    && forall i :: 0 <= i < |ring| ==> r[ring[i]] == if i < n then WithoutParent(was[ring[i]], p) else was[ring[i]]
  }

  lemma VisitedNext(sched: Scheduler, records: map<nat, Record>, was: map<nat, Record>, r: map<nat, Record>, n: nat,
                    p: nat)
    requires sched.Valid() && n < |sched.ring| && Visited(records, was, sched.ring, n, p) && sched.ring[n] in was
    requires r == was[sched.ring[n] := WithoutParent(was[sched.ring[n]], p)]
    ensures Visited(records, r, sched.ring, n + 1, p)
  {
  }

  lemma AllVisited(was: map<nat, Record>, r: map<nat, Record>, ring: seq<nat>, p: nat)
    requires Visited(was, r, ring, |ring|, p) && forall q :: q in was ==> q in ring
    ensures r == Abandoned(was, p) && Orphaned(was, r, p)
  {
    forall q | q in was
      ensures r[q] == WithoutParent(was[q], p)
    {
      var i :| 0 <= i < |ring| && ring[i] == q;
    }
  }

  lemma AbandonStep(k: Kern, w: World, c: Start, p: nat)
    requires Sound(k, w, c, {})
    ensures var k' := k.(records := Abandoned(k.records, p));
            Sound(k', w, c, {}) && Seen(k', w) == Seen(k, w)
  {
    hide SpacesOk, Accounted, Owned, Views;
    SamePointers(k.records, Abandoned(k.records, p), c, w.h, {});
  }

  lemma QueuedAbandoned(ring: seq<nat>, k: Kern, n: nat, p: nat)
    requires Queued(ring, k, n)
    ensures Queued(ring, k.(records := Abandoned(k.records, p)), n)
  {
  }

  lemma QueuedState(ring: seq<nat>, k: Kern, n: nat, p: nat, state: TaskState)
    requires Queued(ring, k, n) && p in k.tasks
    ensures Queued(ring, k.(tasks := k.tasks[p := k.tasks[p].(state := state)]), n)
  {
  }

  function Runnable(tasks: map<nat, Task>): set<nat> {
    set p | p in tasks && tasks[p].state == Running
  }

  /** The zombies without a parent. */
  function Orphans(k: Kern): set<nat> {
    set p | p in k.tasks && p in k.records && k.tasks[p].state == Zombie && k.records[p].ppid == 0
  }

  lemma SeenOf(k: Kern, w: World, p: nat)
    requires p in k.tasks
    ensures p in Seen(k, w)
  {
  }

  /** The page is present, and no other entry points to its frame. */
  ghost predicate Sole(s: Snap, x: Slot) {
    x in s.maps && s.maps[x].ppn < |s.refs| && s.refs[s.maps[x].ppn] == 1
  }

  /** The byte at the offset of an address in a frame. */
  ghost predicate HasByte(bytes: seq<Page>, f: nat, va: nat, b: byte) {
    f < |bytes| && bytes[f][va % 4096] == b
  }

  /** No frame is free, or there are enough for page v and the tables it needs. */
  ghost predicate HasFrames(s: Snap, root: nat, v: nat) {
    s.free == {} || |s.free| >= 1 + |Missing(s.own, root, v, 1)|
  }

  /** If the fault handler has to fill a page, then none is free, or it finds enough. */
  ghost predicate CanFill(s: Snap, t: Task, va: nat, cause: Access) {
    var area := Find(t.vmas, va);
    Slot(t.pgd, va / PAGE_SIZE) !in s.maps && area.Some? && Permits(area.value.prot, cause) ==>
      HasFrames(s, t.pgd, va / PAGE_SIZE)
  }

  /** An absent page has become present, with a frame that was free and what its area permits. */
  ghost predicate OnePageMore(s: Snap, s': Snap, x: Slot, prot: VmProt) {
    && x !in s.maps && x in s'.maps && s'.maps == s.maps[x := s'.maps[x]] && s'.maps[x].ppn in s.free
    && s'.maps[x] == LeafEntry(s'.maps[x].ppn, PageProt(prot))
  }

  /** The page is present and allows the access; if it was present before, it has only gained write permission. */
  ghost predicate Opened(s: Snap, s': Snap, x: Slot, cause: Access) {
    && x in s'.maps && Allows(s'.maps[x], cause) && s'.maps == s.maps[x := s'.maps[x]]
    && (x in s.maps ==> cause == Store && s'.maps[x] == s.maps[x].(write := true, ppn := s'.maps[x].ppn))
  }

  /** What holds of the page and the area of an address. */
  lemma FaultFacts(k: Kern, w: World, c: Start, p: nat, va: nat)
    requires Sound(k, w, c, {}) && p in k.tasks
    ensures var t, v := k.tasks[p], va / PAGE_SIZE;
            && Is(w.s.own, t.pgd, Root) && Find(t.vmas, va) == Find(t.vmas, v * PAGE_SIZE)
            && (Find(t.vmas, va).Some? ==> v < USER_PAGES)
            && (Slot(t.pgd, v) in w.s.maps ==>
                  Find(t.vmas, va).Some? && Matches(w.s.maps[Slot(t.pgd, v)], Find(t.vmas, va).value.prot))
  {
    SpaceOf(k.tasks, w.s.own, w.s.maps, p);
    InArea(k.tasks[p], w.s.maps, va);
  }

  /** A task without areas has no page. */
  lemma NoAreas(k: Kern, w: World, c: Start, p: nat, va: nat)
    requires Sound(k, w, c, {}) && p in k.tasks && k.tasks[p].vmas == []
    ensures Find(k.tasks[p].vmas, va) == None && Slot(k.tasks[p].pgd, va / PAGE_SIZE) !in w.s.maps
  {
    FaultFacts(k, w, c, p, va);
    hide Sound;
  }

  /** A user access succeeds: the entry allows it, or the fault handler can see to it. */
  ghost predicate Reachable(s: Snap, t: Task, va: nat, access: Access) {
    var x, area := Slot(t.pgd, va / PAGE_SIZE), Find(t.vmas, va);
    || (x in s.maps && Allows(s.maps[x], access))
    || (area.Some? && Permits(area.value.prot, access) && (s.free != {} || Sole(s, x)))
  }

  lemma LoadReaches(k: Kern, w: World, c: Start, p: nat, va: nat, access: Access)
    requires Sound(k, w, c, {}) && p in k.tasks && access != Store
    ensures var t := k.tasks[p];
            var x, area := Slot(t.pgd, va / PAGE_SIZE), Find(t.vmas, va);
            Reachable(w.s, t, va, access) <==>
              area.Some? && var prot := area.value.prot;
              if access == Fetch then prot.exec && (x in w.s.maps || w.s.free != {})
              else if x in w.s.maps then prot.read || prot.write else prot.read && w.s.free != {}
  {
    FaultFacts(k, w, c, p, va);
    hide Find, Sound;
  }

  lemma StoreReaches(k: Kern, w: World, c: Start, p: nat, va: nat)
    requires Sound(k, w, c, {}) && p in k.tasks
    ensures var t := k.tasks[p];
            var x, area := Slot(t.pgd, va / PAGE_SIZE), Find(t.vmas, va);
            (x in w.s.maps && w.s.maps[x].write ==> Sole(w.s, x)) ==>
              (Reachable(w.s, t, va, Store) <==>
                 area.Some? && area.value.prot.write && (w.s.free != {} || Sole(w.s, x)))
  {
    FaultFacts(k, w, c, p, va);
    hide Find, Sound;
  }

  lemma PrivateAllows(s: Snap, s': Snap, x: Slot, prot: VmProt)
    requires Private(s, s', x) && Matches(s.maps[x], prot) && prot.write
    ensures x in s'.maps && Allows(s'.maps[x], Store) && s'.maps == s.maps[x := s'.maps[x]]
    ensures s'.maps[x] == s.maps[x].(write := true, ppn := s'.maps[x].ppn)
  {
    hide Grew, SameRoots;
  }

  lemma FilledAllows(s: Snap, s': Snap, x: Slot, prot: VmProt, cause: Access)
    requires OnePageMore(s, s', x, prot) && Permits(prot, cause)
    ensures x in s'.maps && Allows(s'.maps[x], cause) && s'.maps == s.maps[x := s'.maps[x]] && x !in s.maps
  {
  }

  lemma NoPagesBeyond(w: World)
    requires Backing(w)
    ensures forall x :: x in w.s.maps ==> x.vpn < USER_PAGES
  {
  }

  lemma InMem(w: World, x: Slot)
    requires Backing(w) && x in w.s.maps
    ensures w.s.maps[x].ppn < |w.s.bytes| && x.vpn < USER_PAGES
  {
  }

  /** Every task has a tree of its own, and nothing is lost. */
  ghost predicate Kept(k: Kern, w: World, c: Start) {
    && (forall p :: p in k.tasks ==> Is(w.s.own, k.tasks[p].pgd, Root))
    && (forall p, q :: p in k.tasks && q in k.tasks && p != q ==> k.tasks[p].pgd != k.tasks[q].pgd)
    && Accounted(k.tasks, w, c) && Owned(k.records, c, w.h, {})
  }

  lemma SoundKept(k: Kern, w: World, c: Start)
    requires Sound(k, w, c, {})
    ensures Kept(k, w, c)
  {
    hide Accounted, Owned;
  }

  /** The frames for n pages from v on, with the tables they need. */
  ghost function PagesCost(s: Snap, root: nat, v: nat, n: nat): nat {
    n + |Missing(s.own, root, v, n)|
  }

  /** There are enough frames for n pages and their tables, or they run out just when a page is asked for. */
  ghost predicate CanPopulate(s: Snap, root: nat, v: nat, n: nat) {
    |s.free| >= PagesCost(s, root, v, n) || exists i: nat :: i < n && |s.free| == PagesCost(s, root, v, i)
  }

  /** Pages v to v + n of one tree are newly mapped with the permissions given; everything else is as it was. */
  ghost predicate PagesFilled(was: map<Slot, Pte>, maps: map<Slot, Pte>, root: nat, v: nat, n: nat, prot: VmProt) {
    && (forall s :: s in maps <==> s in was || (s.root == root && v <= s.vpn < v + n))
    && (forall s :: s in was ==> maps[s] == was[s] && !(s.root == root && v <= s.vpn < v + n))
    && (forall s :: s in maps && s !in was ==> maps[s] == LeafEntry(maps[s].ppn, PageProt(prot)))
  }

  /** How far do_mmap gets: short of frames it stops at a page; otherwise the area's node decides. */
  ghost predicate MmapDone(w: World, root: nat, v: nat, pages: nat, done: nat, ok: bool) {
    if |w.s.free| < PagesCost(w.s, root, v, pages)
    then !ok && done < pages && |w.s.free| == PagesCost(w.s, root, v, done)
    else done == pages && (ok <==> List(w.h) > 0 || |w.s.free| > PagesCost(w.s, root, v, pages))
  }

  /** With three free frames, two pages where no table is yet: one page is made, and the call fails. */
  lemma MmapCanStopHalfway(w: World)
    requires w.s.own == map[0 := Root] && w.s.free == {1, 2, 3}
    ensures CanPopulate(w.s, 0, MMAP_BASE / PAGE_SIZE, 2) && MmapDone(w, 0, MMAP_BASE / PAGE_SIZE, 2, 1, false)
  {
    hide Vpn2, Vpn1, Needed, Missing, Tables, PagesCost;
    var v := MMAP_BASE / PAGE_SIZE;
    OnlyRoot(w.s, v);
    CostGrows(w.s, 0, v, 1, 2);
  }

  lemma OnlyRoot(s: Snap, v: nat)
    requires s.own == map[0 := Root] && s.free == {1, 2, 3}
    ensures PagesCost(s, 0, v, 1) == 3 && |s.free| == 3
  {
    hide Vpn2, Vpn1, Needed, Missing;
    forall r | r in Tables(s.own)
      ensures r == Root
    {
      var f :| f in s.own && s.own[f] == r;
    }
    hide Tables;
    MissingOne(s.own, 0, v);
    assert |{1, 2, 3}| == 3;
  }

  lemma CostGrows(s: Snap, root: nat, v: nat, i: nat, n: nat)
    requires i <= n
    ensures PagesCost(s, root, v, i) <= PagesCost(s, root, v, n)
            && (i < n ==> PagesCost(s, root, v, i) < PagesCost(s, root, v, n))
  {
    hide Missing;
    MissingGrows(s.own, root, v, i, n);
  }

  lemma PopulateStart(s: Snap, root: nat, v: nat, prot: VmProt)
    ensures PagesCost(s, root, v, 0) == 0 && Tables(s.own) == Tables(s.own) + Needed(root, v, 0)
    ensures PagesFilled(s.maps, s.maps, root, v, 0, prot)
  {
    hide Missing, Needed, Tables;
    MissingNone(s.own, root, v);
  }

  lemma NothingToPopulate(s: Snap, root: nat, v: nat)
    ensures CanPopulate(s, root, v, 0)
  {
    MissingNone(s.own, root, v);
  }

  /** Before page v + i is made there are frames for it, or there is none. */
  lemma PopulateRoom(s: Snap, s': Snap, root: nat, v: nat, i: nat, n: nat, page: nat)
    requires i < n && page == v + i && CanPopulate(s, root, v, n) && |s'.free| == |s.free| - PagesCost(s, root, v, i)
    requires Tables(s'.own) == Tables(s.own) + Needed(root, v, i)
    ensures HasFrames(s', root, page)
  {
    hide Missing, Needed, Tables;
    MissingNext(s.own, s'.own, root, v, i, n);
    CostGrows(s, root, v, i + 1, n);
    if |s.free| < PagesCost(s, root, v, n) {
      var j: nat :| j < n && |s.free| == PagesCost(s, root, v, j);
      if j <= i {
        CostGrows(s, root, v, j, i);
      } else {
        CostGrows(s, root, v, i + 1, j);
      }
    }
  }

  lemma TooFew(s: Snap, root: nat, v: nat, i: nat, n: nat)
    requires i < n && |s.free| == PagesCost(s, root, v, i)
    ensures |s.free| < PagesCost(s, root, v, n)
  {
    CostGrows(s, root, v, i, n);
  }

  lemma FilledFresh(was: map<Slot, Pte>, maps: map<Slot, Pte>, root: nat, v: nat, n: nat, page: nat, prot: VmProt)
    requires PagesFilled(was, maps, root, v, n, prot) && page == v + n && Slot(root, page) !in was
    ensures Slot(root, page) !in maps
  {
  }

  lemma FilledNext(was: map<Slot, Pte>, maps: map<Slot, Pte>, maps': map<Slot, Pte>, root: nat, v: nat, n: nat,
                   page: nat, prot: VmProt)
    requires PagesFilled(was, maps, root, v, n, prot) && page == v + n && Slot(root, page) !in was
    requires Slot(root, page) in maps'
             && maps'[Slot(root, page)] == LeafEntry(maps'[Slot(root, page)].ppn, PageProt(prot))
    requires maps' == maps[Slot(root, page) := maps'[Slot(root, page)]]
    ensures PagesFilled(was, maps', root, v, n + 1, prot)
  {
    forall s: Slot
      ensures s == Slot(root, page) <==> s.root == root && s.vpn == page
    {
    }
  }

  lemma PopulateNext(s: Snap, s1: Snap, s2: Snap, root: nat, v: nat, i: nat, n: nat, page: nat, prot: VmProt)
    requires i < n && page == v + i && |s1.free| == |s.free| - PagesCost(s, root, v, i)
    requires Tables(s1.own) == Tables(s.own) + Needed(root, v, i) && Slot(root, page) !in s.maps
    requires PagesFilled(s.maps, s1.maps, root, v, i, prot) && OnePageMore(s1, s2, Slot(root, page), prot)
    requires |s2.free| == |s1.free| - 1 - |Missing(s1.own, root, page, 1)|
    requires Tables(s2.own) == Tables(s1.own) + Needed(root, page, 1)
    ensures |s2.free| == |s.free| - PagesCost(s, root, v, i + 1)
    ensures Tables(s2.own) == Tables(s.own) + Needed(root, v, i + 1)
    ensures PagesFilled(s.maps, s2.maps, root, v, i + 1, prot)
  {
    hide Missing, Needed, Tables, PagesFilled;
    MissingNext(s.own, s1.own, root, v, i, n);
    FilledNext(s.maps, s1.maps, s2.maps, root, v, i, page, prot);
  }

  lemma ZeroFill(vmas: seq<Vma>, v: nat, area: Vma)
    requires VmasOk(vmas) && Find(vmas, v * PAGE_SIZE) == Some(area) && area.file == []
    ensures IsFilePage(vmas, v, ZeroPage)
  {
    hide IsFilePage, VmasOk;
    FillIsFilePage(vmas, v);
    hide Find;
    assert FillFor(area, v) == ZeroPage;
  }

  /** The frames and the list of areas there are decide whether do_mmap can leave pages in no area. */
  ghost predicate NoPagesAstray(w: World, root: nat, v: nat, pages: nat) {
    || pages == 0 || w.s.free == {} || |w.s.free| > PagesCost(w.s, root, v, pages)
    || (|w.s.free| == PagesCost(w.s, root, v, pages) && List(w.h) > 0)
  }

  lemma AstrayBefore(w: World, root: nat, v: nat, pages: nat, done: nat, ok: bool)
    requires MmapDone(w, root, v, pages, done, ok)
    ensures NoPagesAstray(w, root, v, pages) <==> ok || done == 0
  {
    MissingNone(w.s.own, root, v);
  }

  /** The pages that do_mmap populates. */
  function PagesToMake(size: nat, anonymous: bool, populate: bool): nat {
    if anonymous && populate then size / PAGE_SIZE else 0
  }

  /** What do_mmap has done with the place x it has found: `done` pages made, and the area unless it returns -1. */
  ghost predicate MappedAt(w: World, s': Snap, root: nat, prot: VmProt, pages: nat, x: nat, done: nat, ret: int) {
    && MmapDone(w, root, x / PAGE_SIZE, pages, done, ret != -1) && (ret != -1 ==> ret == x)
    && PagesFilled(w.s.maps, s'.maps, root, x / PAGE_SIZE, done, prot)
  }

  /** There is room for the range at x, below the end of the user half. */
  /** Every page with one of the bytes is present with the permissions asked for, and other pages are as they were. */
  ghost predicate Prefilled(was: map<Slot, Pte>, maps: map<Slot, Pte>, root: nat, start: nat, length: nat,
                            prot: VmProt) {
    && (forall v: nat :: start <= v * 4096 < start + length ==>
          Slot(root, v) in maps && Slot(root, v) !in was && Grants(maps[Slot(root, v)], prot))
    && (forall s :: s in was ==> s in maps && maps[s] == was[s])
    && (forall s :: s in maps && s !in was ==> s.root == root && start <= s.vpn * 4096 < start + length)
  }

  ghost predicate Grants(e: Pte, prot: VmProt) {
    && e.valid && e.user && !e.global && e.accessed && e.dirty
    && e.read == (prot.read || prot.write) && e.write == prot.write && e.exec == prot.exec
  }

  /** What populating comes to: all pages of the request, or none at all. */
  lemma AllOrNone(w: World, s': Snap, root: nat, prot: VmProt, length: nat, anonymous: bool, populate: bool, x: nat,
                  done: nat, ret: int)
    requires MappedAt(w, s', root, prot, PagesToMake(RoundUp(length), anonymous, populate), x, done, ret)
    requires x % PAGE_SIZE == 0
    ensures ret != -1 && anonymous && populate ==> Prefilled(w.s.maps, s'.maps, root, ret, length, prot)
    ensures !(anonymous && populate) ==> s'.maps == w.s.maps
  {
    hide PagesCost, List;
    if !(anonymous && populate) {
      assert done == 0;
    }
  }

  ghost predicate HasPlace(vmas: seq<Vma>, hint: nat, size: nat, x: nat) {
    x >= hint && PageAligned(x) && x + size <= USER_END && Fits(vmas, x, size)
  }

  ghost predicate IsNewArea(vmas: seq<Vma>, a: Vma) {
    VmasOk([a] + vmas) && a.file == [] && a.start < a.end
  }

  lemma FoundArea(vmas: seq<Vma>, hint: nat, length: nat, x: nat, prot: VmProt)
    requires VmasOk(vmas) && length > 0 && FirstFit(vmas, hint, RoundUp(length), x)
    requires exists y: nat :: HasPlace(vmas, hint, RoundUp(length), y)
    ensures IsNewArea(vmas, Vma(x, x + RoundUp(length), prot, [])) && x % PAGE_SIZE == 0
  {
    hide VmasOk, Fits;
    var y: nat :| HasPlace(vmas, hint, RoundUp(length), y);
    assert x <= y;
    FittingArea(vmas, Vma(x, x + RoundUp(length), prot, []));
  }

  /** The list with the new area is in order, and shows zeros there; none of its pages is present. */
  lemma NewAreaFacts(k: Kern, w: World, c: Start, p: nat, a: Vma, pages: nat)
    requires Sound(k, w, c, {}) && p in k.tasks && IsNewArea(k.tasks[p].vmas, a)
             && pages <= (a.end - a.start) / PAGE_SIZE
    ensures var k' := k.(tasks := k.tasks[p := k.tasks[p].(vmas := [a] + k.tasks[p].vmas)]);
            && Sound(k', w, c, {}) && p in Seen(k, w) && a.start <= a.end && a.file == []
            && Seen(k', w) == Seen(k, w)[p := Isolation.AddZeros(Seen(k, w)[p], a.start, a.end - a.start)]
    ensures a.start / PAGE_SIZE + pages <= USER_PAGES
    ensures forall v: nat :: a.start / PAGE_SIZE <= v < a.start / PAGE_SIZE + pages ==>
              Slot(k.tasks[p].pgd, v) !in w.s.maps && Find([a] + k.tasks[p].vmas, v * PAGE_SIZE) == Some(a)
  {
    AreaAdded(k, w, c, p, a);
    AreaPages(a, k.tasks[p].vmas);
    hide Sound, Seen, VmasOk, Isolation.AddZeros, Holds;
  }

  /** The whole pages of an area. */
  lemma AreaPages(a: Vma, vmas: seq<Vma>)
    requires a.start <= a.end && VmasOk([a] + vmas)
    ensures a.start / PAGE_SIZE + (a.end - a.start) / PAGE_SIZE <= USER_PAGES
    ensures forall v: nat :: a.start / PAGE_SIZE <= v < a.start / PAGE_SIZE + (a.end - a.start) / PAGE_SIZE ==>
              Holds(a, v * PAGE_SIZE)
  {
    assert ([a] + vmas)[0] == a;
    assert PageAligned(a.start) && PageAligned(a.end) && a.end <= USER_END;
  }

  /** Room for an area after so many frames have gone. */
  lemma RoomLeft(w: World, w': World, cost: nat)
    requires w'.h == w.h && |w'.s.free| == |w.s.free| - cost
    ensures Room(w') > 0 <==> List(w.h) > 0 || |w.s.free| > cost
  {
  }

  lemma SpoiledKept(k: Kern, w: World, c: Start, p: nat, vmas: seq<Vma>)
    requires p in k.tasks && Sound(k.(tasks := k.tasks[p := k.tasks[p].(vmas := vmas)]), w, c, {})
    ensures Kept(k, w, c)
  {
    var tasks' := k.tasks[p := k.tasks[p].(vmas := vmas)];
    hide Owned, Frames, SpaceOk;
    forall r: nat | Is(w.s.own, r, Root)
      ensures HasRoot(k.tasks, r)
    {
      assert HasRoot(tasks', r);
      var q :| q in tasks' && tasks'[q].pgd == r;
      assert k.tasks[q].pgd == r;
    }
    forall q | q in k.tasks
      ensures tasks'[q].pgd == k.tasks[q].pgd && Is(w.s.own, k.tasks[q].pgd, Root)
    {
      assert q in tasks';
    }
  }

  lemma SpoiledSeen(k: Kern, w: World, w': World, p: nat, a: Vma)
    requires p in k.tasks
    requires var k' := k.(tasks := k.tasks[p := k.tasks[p].(vmas := [a] + k.tasks[p].vmas)]);
             Seen(k', w') == Seen(k', w)
    requires VmasOk([a] + k.tasks[p].vmas)
    ensures Seen(k, w') == Seen(k, w)
  {
    var t, t' := k.tasks[p], k.tasks[p].(vmas := [a] + k.tasks[p].vmas);
    forall q | q in k.tasks
      ensures View(k.tasks[q], w'.s.maps, w'.s.bytes) == View(k.tasks[q], w.s.maps, w.s.bytes)
    {
      ViewsAt(k.tasks[p := t'], w.s.maps, w.s.bytes, q);
      ViewsAt(k.tasks[p := t'], w'.s.maps, w'.s.bytes, q);
      if q == p {
        NarrowView(t, a, w.s, w'.s);
      }
    }
    hide View;
  }

  /** What a task sees in its other areas does not depend on one more that meets none of them. */
  lemma NarrowView(t: Task, a: Vma, s: Snap, s': Snap)
    requires VmasOk([a] + t.vmas)
    requires var t' := t.(vmas := [a] + t.vmas); View(t', s'.maps, s'.bytes) == View(t', s.maps, s.bytes)
    ensures View(t, s'.maps, s'.bytes) == View(t, s.maps, s.bytes)
  {
    var t' := t.(vmas := [a] + t.vmas);
    forall va: nat | Find(t.vmas, va).Some?
      ensures ByteAt(t, s'.maps, s'.bytes, va) == ByteAt(t, s.maps, s.bytes, va)
    {
      FindPrepended(a, t.vmas, va);
      NotInBoth(a, t.vmas, va);
      assert va in View(t', s.maps, s.bytes) && va in View(t', s'.maps, s'.bytes);
      assert View(t', s.maps, s.bytes)[va] == View(t', s'.maps, s'.bytes)[va];
    }
  }

  lemma NotInBoth(a: Vma, vmas: seq<Vma>, va: nat)
    requires VmasOk([a] + vmas) && Find(vmas, va).Some?
    ensures !Holds(a, va)
  {
    FindHolds(vmas, va);
    var i :| 0 <= i < |vmas| && vmas[i] == Find(vmas, va).value;
    assert Separate(([a] + vmas)[0], ([a] + vmas)[i + 1]);
  }

  lemma SpoiledPage(k: Kern, w: World, w': World, c: Start, p: nat, a: Vma, done: nat)
    requires p in k.tasks && IsNewArea(k.tasks[p].vmas, a) && 0 < done <= (a.end - a.start) / PAGE_SIZE
    requires PagesFilled(w.s.maps, w'.s.maps, k.tasks[p].pgd, a.start / PAGE_SIZE, done, a.prot)
    ensures !Sound(k, w', c, {})
  {
    var t, v := k.tasks[p], a.start / PAGE_SIZE;
    AreaPages(a, t.vmas);
    assert Slot(t.pgd, v) in w'.s.maps;
    if Find(t.vmas, v * PAGE_SIZE).Some? {
      NotInBoth(a, t.vmas, v * PAGE_SIZE);
    }
    assert !SpaceOk(t, w'.s.maps);
  }

  lemma SameMaps(was: map<Slot, Pte>, maps: map<Slot, Pte>, root: nat, v: nat, n: nat, prot: VmProt)
    requires PagesFilled(was, maps, root, v, n, prot)
    ensures maps == was <==> n == 0
  {
    if n > 0 {
      assert Slot(root, v) in maps;
      assert Slot(root, v) !in was;
    }
  }

  /** Pages of an area that has not come about: nothing is lost and nobody sees them, but they lie in no area. */
  lemma Spoiled(k: Kern, w: World, w': World, c: Start, p: nat, a: Vma, done: nat)
    requires Sound(k, w, c, {}) && p in k.tasks && IsNewArea(k.tasks[p].vmas, a)
    requires var k' := k.(tasks := k.tasks[p := k.tasks[p].(vmas := [a] + k.tasks[p].vmas)]);
             Sound(k', w', c, {}) && Seen(k', w') == Seen(k', w)
    requires PagesFilled(w.s.maps, w'.s.maps, k.tasks[p].pgd, a.start / PAGE_SIZE, done, a.prot)
    requires done <= (a.end - a.start) / PAGE_SIZE
    ensures Kept(k, w', c) && Seen(k, w') == Seen(k, w)
    ensures done > 0 ==> !Sound(k, w', c, {})
  {
    var k' := k.(tasks := k.tasks[p := k.tasks[p].(vmas := [a] + k.tasks[p].vmas)]);
    SpoiledKept(k, w', c, p, [a] + k.tasks[p].vmas);
    SpoiledSeen(k, w, w', p, a);
    if done > 0 {
      SpoiledPage(k, w, w', c, p, a, done);
    }
  }

  /** frame_array before there were tasks: all frames that were not with kmalloc were free. */
  ghost predicate Booted(c: Start, boot: seq<int>, total: nat) {
    |boot| == total && WF(boot, 0, 0) && FreeFrames(boot) + Frames(c.first) == c.all
      && FreeFrames(boot) !! Frames(c.first)
  }

  /** What a child sees, however far its creation has got. */
  lemma PartialSeen(k: Kern, w: World, w': World, p: nat, child: nat, pages: nat)
    requires Backing(w) && p in k.tasks && child in k.tasks && k.tasks[child].vmas <= k.tasks[p].vmas
    requires ForkGrown(w.s, w'.s, k.tasks[child].pgd)
    requires Forked(w.s.maps, w'.s.maps, k.tasks[p].pgd, k.tasks[child].pgd, pages)
    ensures p in Seen(k, w) && child in Seen(k, w')
    ensures Seen(k, w')[child] == PartCopy(Seen(k, w)[p], k.tasks[child].vmas, pages)
  {
    hide View, PartCopy, Forked, Grew, ForkGrown;
    ForkGrownGrew(w.s, w'.s, k.tasks[child].pgd);
    GrownPages(w, w'.s);
    PartialChild(k.tasks[p], k.tasks[child], w.s.maps, w'.s.maps, w.s.bytes, w'.s.bytes, pages);
  }

  lemma NothingToSee(t: Task, s: Snap)
    requires t.vmas == []
    ensures View(t, s.maps, s.bytes) == Isolation.Image([], 0)
  {
  }

  lemma StillBooted(c: Start, c': Start, boot: seq<int>, total: nat)
    requires Booted(c, boot, total) && c' == c.(others := c'.others)
    ensures Booted(c', boot, total)
  {
    hide WF, FreeFrames, Frames;
  }

  /** The rest of the kernel has got a pointer. */
  lemma OthersMore(k: Kern, w: World, c: Start, x: nat)
    requires Sound(k, w, c, {x})
    ensures Sound(k, w, c.(others := c.others + {x}), {})
  {
    OthersTake(k.records, c, w.h, x);
    hide Owned, SpacesOk, Frames, HasRoot;
  }

  /** The rest of the kernel is about to give a pointer back. */
  lemma OthersLess(k: Kern, w: World, c: Start, x: nat)
    requires Sound(k, w, c, {}) && x in c.others
    ensures Sound(k, w, c.(others := c.others - {x}), {x})
  {
    OthersGive(k.records, c, w.h, x);
    hide Owned, SpacesOk, Frames, HasRoot;
  }

  lemma NoTasks(c: Start, w: World)
    requires w.s.own == map[] && w.s.maps == map[] && c.first == w.h && c.all == w.s.free + Frames(w.h)
             && c.others == {}
    ensures Sound(Kern(map[], map[]), w, c, {})
    ensures Seen(Kern(map[], map[]), w) == map[]
  {
    hide Frames, Held;
    assert w.s.own.Keys == {};
  }

  lemma ExtraHeld(k: Kern, w: World, c: Start, extra: set<nat>, p: nat)
    requires Sound(k, w, c, extra) && p in extra
    ensures p in Held(c.base, w.h)
  {
    hide SpacesOk, Accounted, Distinct, KeptSince, Held;
  }

  lemma FreedSpaces(base: nat, w: World, w': World, p: nat)
    requires Freed(base, w, w', p)
    ensures SameSpaces(w.s, w'.s) && w.s.free <= w'.s.free
  {
    hide Frames, KeepsLive, Returned;
  }

  lemma ElementsTo(list: seq<nat>, i: nat)
    requires NoDup(list) && i <= |list|
    ensures Elements([]) == {} && list[..0] == []
    ensures i < |list| ==> list[i] in Elements(list) && list[i] !in Elements(list[..i])
    ensures i < |list| ==> Elements(list[..i + 1]) == Elements(list[..i]) + {list[i]}
  {
    if i < |list| {
      assert list[..i + 1] == list[..i] + [list[i]];
    }
  }

  lemma RootUsed(w: World, w': World, root: nat)
    requires Rooted(w, w', root)
    ensures |w'.s.free| == |w.s.free| - 1 && w'.h == w.h
  {
    HookedFacts(w.s, w'.s, root, Root);
  }

  /** What thread_create leaves. */
  lemma Created(base: nat, w0: World, w1: World, w2: World, w3: World, node: nat, t: Task, stack: nat)
    requires Allocated(base, w0, w1, TASK_SIZE, node) && Rooted(w1, w2, t.pgd)
             && Allocated(base, w2, w3, STACK_SIZE, stack)
    requires KeptSince(w0.h, w1.h) && KeptSince(w2.h, w3.h) && |w0.h.chunks| == NUM_POOLS
    requires Drawn(w0.h, w1.h, TASK_SIZE) && Drawn(w2.h, w3.h, STACK_SIZE)
    ensures Fresh(w0.s, w3.s, t.pgd) && SameList(w0.h, w3.h, VMA_POOL) && KeptSince(w0.h, w3.h)
    ensures Drawn(w0.h, w3.h, TASK_SIZE)
    ensures View(t, w3.s.maps, w3.s.bytes) == View(t, w2.s.maps, w2.s.bytes)
  {
    hide Took, Granted, Extended, KeptSince;
    HookedFacts(w1.s, w2.s, t.pgd, Root);
    KeptTransitive(w0.h, w2.h, w3.h);
  }

  /** A new task takes its pointers. */
  lemma RecordTask(k: Kern, w: World, c: Start, p: nat, r: Record)
    requires Sound(k, w, c, {r.node} + {r.stack}) && r.node != r.stack && r.areas == [] && p !in k.records
    ensures Sound(k.(records := k.records[p := r]), w, c, {})
    ensures Seen(k.(records := k.records[p := r]), w) == Seen(k, w)
  {
    hide SpacesOk, Accounted, Owned, Views;
    assert Elements(Pointers(r)) == {r.node} + {r.stack};
    RecordStep(k.records, c, w.h, p, r);
  }
}
