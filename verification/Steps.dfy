/**
 What each step of the machine does to the tasks: their areas stay in order, and what they see is what it should be.
 */
module Steps {
  import opened Basics
  import opened BuddyAllocator
  import opened BuddyPages
  import opened KmallocSpec
  import opened Sv39
  import opened PageTree
  import opened Cow
  import opened Vm
  import opened Fork
  import opened Machine
  import opened AddressSpace
  import opened Accounting
  import Isolation

  /** Mapped pages have frames in memory, and those are not free. */
  ghost predicate Backing(w: World) {
    InMemory(w.s.maps, w.s.bytes) && forall x :: x in w.s.maps ==>
      x.vpn < USER_PAGES && Is(w.s.own, x.root, Root) && w.s.maps[x].ppn in w.s.own && w.s.maps[x].ppn !in w.s.free
  }

  lemma GrownPages(w: World, s': Snap)
    requires Backing(w) && Grew(w.s, s')
    ensures |s'.bytes| == |w.s.bytes| && forall x :: x in w.s.maps ==>
              s'.bytes[w.s.maps[x].ppn] == w.s.bytes[w.s.maps[x].ppn]
    ensures forall f :: f in w.s.own ==> f in s'.own && s'.own[f] == w.s.own[f]
  {
    hide KeepsLive;
  }

  lemma AccountedGrown(tasks: map<nat, Task>, tasks': map<nat, Task>, w: World, w': World, c: Start)
    requires Accounted(tasks, w, c) && Grew(w.s, w'.s) && w'.h == w.h
    requires forall p :: p in tasks ==> HasRoot(tasks', tasks[p].pgd)
    requires forall r: nat :: Is(w'.s.own, r, Root) && !Is(w.s.own, r, Root) ==> HasRoot(tasks', r)
    ensures Accounted(tasks', w', c)
  {
    hide KeepsLive, KeepsPages, Frames;
    forall r: nat | Is(w.s.own, r, Root)
      ensures HasRoot(tasks', r)
    {
      assert HasRoot(tasks, r);
      var p :| p in tasks && tasks[p].pgd == r;
    }
  }

  lemma SameTrees(tasks: map<nat, Task>, tasks': map<nat, Task>)
    requires forall p :: p in tasks ==> p in tasks' && tasks'[p].pgd == tasks[p].pgd
    ensures forall p :: p in tasks ==> HasRoot(tasks', tasks[p].pgd)
  {
    forall p | p in tasks
      ensures HasRoot(tasks', tasks[p].pgd)
    {
      assert tasks'[p].pgd == tasks[p].pgd;
    }
  }

  /** A task may get any state and, as long as nothing of it is present, any areas. */
  lemma TaskStep(k: Kern, w: World, c: Start, extra: set<nat>, p: nat, t: Task)
    requires Sound(k, w, c, extra) && p in k.tasks && t.pgd == k.tasks[p].pgd
    requires t.vmas == k.tasks[p].vmas || (VmasOk(t.vmas) && forall v: nat :: Slot(t.pgd, v) !in w.s.maps)
    ensures Sound(k.(tasks := k.tasks[p := t]), w, c, extra)
    ensures t.vmas == k.tasks[p].vmas ==> Seen(k.(tasks := k.tasks[p := t]), w) == Seen(k, w)
    ensures Seen(k.(tasks := k.tasks[p := t]), w) == Seen(k, w)[p := View(t, w.s.maps, w.s.bytes)]
  {
    hide Accounted, Owned, VmasOk, View, Views, SpacesOk, Grew, HasRoot;
    var tasks' := k.tasks[p := t];
    SameTrees(k.tasks, tasks');
    GrewRefl(w.s);
    AccountedGrown(k.tasks, tasks', w, w, c);
    TaskSpaces(k.tasks, w, p, t);
    ViewsPut(k.tasks, tasks', w.s.maps, w.s.bytes, w.s.maps, w.s.bytes, p);
    if t.vmas == k.tasks[p].vmas {
      ViewOfState(k.tasks[p], t.state, w.s.maps, w.s.bytes);
      assert t == k.tasks[p].(state := t.state);
      ViewsAt(k.tasks, w.s.maps, w.s.bytes, p);
    }
  }

  lemma TaskSpaces(tasks: map<nat, Task>, w: World, p: nat, t: Task)
    requires SpacesOk(tasks, w.s.own, w.s.maps) && p in tasks && t.pgd == tasks[p].pgd
    requires t.vmas == tasks[p].vmas || (VmasOk(t.vmas) && forall v: nat :: Slot(t.pgd, v) !in w.s.maps)
    ensures SpacesOk(tasks[p := t], w.s.own, w.s.maps)
  {
    hide VmasOk, Find, Matches;
    assert SpaceOk(tasks[p], w.s.maps);
    assert SpaceOk(t, w.s.maps);
    hide SpaceOk;
  }

  lemma EmptySpace(t: Task, maps: map<Slot, Pte>)
    requires t.vmas == [] && forall v: nat :: Slot(t.pgd, v) !in maps
    ensures SpaceOk(t, maps)
  {
  }

  lemma BackingMemory(w: World)
    requires Backing(w)
    ensures InMemory(w.s.maps, w.s.bytes)
  {
  }

  /** A new task with a fresh root and no areas. */
  lemma RootStep(k: Kern, w: World, w': World, c: Start, extra: set<nat>, p: nat, t: Task)
    requires Sound(k, w, c, extra) && Backing(w) && Rooted(w, w', t.pgd) && p !in k.tasks && t.vmas == []
    ensures Sound(k.(tasks := k.tasks[p := t]), w', c, extra)
    ensures Seen(k.(tasks := k.tasks[p := t]), w') == Seen(k, w)[p := View(t, w'.s.maps, w'.s.bytes)]
  {
    hide Accounted, Owned, Hooked, View, Views, Grew, Extended, SpacesOk, SpaceOk, Backing;
    HookedFacts(w.s, w'.s, t.pgd, Root);
    GrownPages(w, w'.s);
    var tasks' := k.tasks[p := t];
    SameTrees(k.tasks, tasks');
    assert HasRoot(tasks', t.pgd) by {
      assert tasks'[p].pgd == t.pgd;
    }
    AccountedGrown(k.tasks, tasks', w, w', c);
    EmptySpace(t, w.s.maps);
    BackingMemory(w);
    SpacesAdd(k.tasks, w.s.own, w'.s.own, w.s.maps, p, t);
    ViewsKept(k.tasks, w.s.maps, w.s.bytes, w'.s.bytes);
    ViewsPut(k.tasks, tasks', w.s.maps, w'.s.bytes, w'.s.maps, w'.s.bytes, p);
  }

  /** One page is writable again, or has moved to a frame of its own. */
  lemma PrivateStep(k: Kern, w: World, w': World, c: Start, p: nat, v: nat)
    requires Sound(k, w, c, {}) && Backing(w) && p in k.tasks && w'.h == w.h
             && Private(w.s, w'.s, Slot(k.tasks[p].pgd, v))
    requires Find(k.tasks[p].vmas, v * PAGE_SIZE).Some? && Find(k.tasks[p].vmas, v * PAGE_SIZE).value.prot.write
    ensures Sound(k, w', c, {}) && Seen(k, w') == Seen(k, w)
  {
    hide Accounted, Owned, SpacesOk, Views, Find, Grew, Matches, HasRoot;
    GrownPages(w, w'.s);
    SameTrees(k.tasks, k.tasks);
    AccountedGrown(k.tasks, k.tasks, w, w', c);
    SpaceOf(k.tasks, w.s.own, w.s.maps, p);
    MatchesWritable(k.tasks[p], w.s.maps, v);
    RepointInvisible(k.tasks, w.s.own, w'.s.own, w.s.maps, w.s.bytes, w'.s.bytes, p, v,
      w'.s.maps[Slot(k.tasks[p].pgd, v)]);
  }

  /** An absent page of an area has become present, with the contents the area promises. */
  lemma FillStep(k: Kern, w: World, w': World, c: Start, p: nat, v: nat, area: Vma, f: nat)
    requires Sound(k, w, c, {}) && Backing(w) && p in k.tasks && Slot(k.tasks[p].pgd, v) !in w.s.maps
    requires Find(k.tasks[p].vmas, v * PAGE_SIZE) == Some(area) && w'.h == w.h
    requires Filled(w, w', Slot(k.tasks[p].pgd, v), f, area.prot) && IsFilePage(k.tasks[p].vmas, v, w'.s.bytes[f])
    ensures Sound(k, w', c, {}) && Seen(k, w') == Seen(k, w)
  {
    hide Accounted, Owned, SpacesOk, Views, Find, Grew, IsFilePage, HasRoot;
    GrownPages(w, w'.s);
    SameTrees(k.tasks, k.tasks);
    AccountedGrown(k.tasks, k.tasks, w, w', c);
    InstallInvisible(k.tasks, w.s.own, w'.s.own, w.s.maps, w.s.bytes, w'.s.bytes, p, v,
      LeafEntry(f, PageProt(area.prot)));
  }

  /** Frame f has become the page x, with the permissions of its area. */
  ghost predicate Filled(w: World, w': World, x: Slot, f: nat, prot: VmProt) {
    && f < |w'.s.bytes| && Grew(w.s, w'.s) && SameRoots(w.s.own, w'.s.own)
    && w'.s.maps == w.s.maps[x := LeafEntry(f, PageProt(prot))]
  }

  /** The child has copies of the parent's areas and shares its pages, or has no page at all. */
  lemma ForkStep(k: Kern, w: World, w': World, c: Start, p: nat, child: nat, n: nat)
    requires Sound(k, w, c, {}) && Backing(w) && p in k.tasks && child in k.tasks && p != child
    requires ForkGrown(w.s, w'.s, k.tasks[child].pgd) && w'.h == w.h
    requires Forked(w.s.maps, w'.s.maps, k.tasks[p].pgd, k.tasks[child].pgd, n)
    requires k.tasks[child].vmas == k.tasks[p].vmas || forall v: nat :: Slot(k.tasks[child].pgd, v) !in w'.s.maps
    ensures Sound(k, w', c, {})
    ensures child in Seen(k, w') && p in Seen(k, w) && Seen(k, w') == Seen(k, w)[child := Seen(k, w')[child]]
    ensures k.tasks[child].vmas == k.tasks[p].vmas && n == USER_PAGES ==> Seen(k, w')[child] == Seen(k, w)[p]
  {
    hide Accounted, Owned, SpacesOk, View, Views, Grew, ForkGrown, Forked, Find;
    ForkGrownGrew(w.s, w'.s, k.tasks[child].pgd);
    ForkRoots(w.s, w'.s, k.tasks[child].pgd, k.tasks, w.s.maps, child);
    GrownPages(w, w'.s);
    SameTrees(k.tasks, k.tasks);
    AccountedGrown(k.tasks, k.tasks, w, w', c);
    if k.tasks[child].vmas == k.tasks[p].vmas {
      ForkedSpaces(k.tasks, w.s.own, w'.s.own, w.s.maps, w'.s.maps, p, child, n);
    } else {
      ForkedSpacesEmpty(k.tasks, w.s.own, w'.s.own, w.s.maps, w'.s.maps, p, child, n);
    }
    ForkedViews(k.tasks, w.s.own, w.s.maps, w'.s.maps, w.s.bytes, w'.s.bytes, p, child, n);
    ViewsPut(k.tasks, k.tasks, w.s.maps, w.s.bytes, w'.s.maps, w'.s.bytes, child);
    ViewsAt(k.tasks, w'.s.maps, w'.s.bytes, child);
    ViewsAt(k.tasks, w.s.maps, w.s.bytes, p);
  }

  lemma ForkRoots(s: Snap, s': Snap, root: nat, tasks: map<nat, Task>, maps: map<Slot, Pte>, child: nat)
    requires ForkGrown(s, s', root) && SpacesOk(tasks, s.own, maps) && child in tasks && tasks[child].pgd == root
    ensures forall r: nat :: Is(s'.own, r, Root) ==> Is(s.own, r, Root)
  {
    hide Grew, SpaceOk;
    ForkGrownGrew(s, s', root);
    forall r: nat | Is(s'.own, r, Root) && r !in s.own
      ensures r == root
    {
    }
  }

  /** A task has moved to a fresh root without areas, and its old tree has been torn down. */
  lemma ExecStep(k: Kern, w: World, w1: World, w2: World, c: Start, p: nat, t: Task)
    requires Sound(k, w, c, {}) && Backing(w) && p in k.tasks && Rooted(w, w1, t.pgd) && t.vmas == []
    requires Shrunk(w1.s, w2.s, k.tasks[p].pgd) && w2.h == w1.h
    requires w2.s.maps == Cut(w1.s.maps, k.tasks[p].pgd, 0, USER_PAGES)
    requires forall f :: f in w2.s.own ==> !InTree(w2.s.own[f], f, k.tasks[p].pgd)
    ensures Sound(k.(tasks := k.tasks[p := t]), w2, c, {})
    ensures Seen(k.(tasks := k.tasks[p := t]), w2) == Seen(k, w)[p := View(t, w2.s.maps, w2.s.bytes)]
    ensures forall v: nat :: Slot(t.pgd, v) !in w2.s.maps
  {
    hide Accounted, Owned, Hooked, View, Views, Grew, Extended, Shrunk, Cut, InTree, SpacesOk, SpaceOk, Backing;
    var root, tasks' := k.tasks[p].pgd, k.tasks[p := t];
    HookedFacts(w.s, w1.s, t.pgd, Root);
    GrownPages(w, w1.s);
    SpaceOf(k.tasks, w.s.own, w.s.maps, p);
    AccountedExec(k.tasks, w, w1, w2, c, p, t);
    EmptySpace(t, w.s.maps);
    SpacesReplace(k.tasks, w.s.own, w1.s.own, w.s.maps, p, t);
    ShrunkRoles(w1.s, w2.s, root);
    CutSpaces(tasks', w1.s.own, w2.s.own, w.s.maps, root);
    BackingMemory(w);
    ExecSeen(k.tasks, w, w1, w2, p, t);
    CutKeeps(w.s.maps, root);
  }

  lemma ExecSeen(tasks: map<nat, Task>, w: World, w1: World, w2: World, p: nat, t: Task)
    requires p in tasks && InMemory(w.s.maps, w.s.bytes) && w1.s.maps == w.s.maps && w2.s.bytes == w1.s.bytes
    requires |w1.s.bytes| == |w.s.bytes|
    requires forall x :: x in w.s.maps ==> w1.s.bytes[w.s.maps[x].ppn] == w.s.bytes[w.s.maps[x].ppn]
    requires w2.s.maps == Cut(w1.s.maps, tasks[p].pgd, 0, USER_PAGES) && t.pgd != tasks[p].pgd
    requires forall q :: q in tasks && q != p ==> tasks[q].pgd != tasks[p].pgd
    ensures Views(tasks[p := t], w2.s.maps, w2.s.bytes)
         == Views(tasks, w.s.maps, w.s.bytes)[p := View(t, w2.s.maps, w2.s.bytes)]
  {
    hide View, Views, Cut;
    var tasks', root := tasks[p := t], tasks[p].pgd;
    ViewsKept(tasks, w.s.maps, w.s.bytes, w1.s.bytes);
    ViewsPut(tasks, tasks', w.s.maps, w1.s.bytes, w.s.maps, w1.s.bytes, p);
    CutViews(tasks', w.s.maps, w1.s.bytes, root);
    ViewsAt(tasks', w.s.maps, w1.s.bytes, p);
    ViewsAt(tasks', w2.s.maps, w2.s.bytes, p);
  }

  lemma CutKeeps(maps: map<Slot, Pte>, root: nat)
    ensures forall x :: x in Cut(maps, root, 0, USER_PAGES) ==> x in maps
  {
  }

  lemma AccountedExec(tasks: map<nat, Task>, w: World, w1: World, w2: World, c: Start, p: nat, t: Task)
    requires Accounted(tasks, w, c) && p in tasks && Rooted(w, w1, t.pgd)
    requires Shrunk(w1.s, w2.s, tasks[p].pgd) && w2.h == w1.h
    requires forall f :: f in w2.s.own ==> !InTree(w2.s.own[f], f, tasks[p].pgd)
    ensures Accounted(tasks[p := t], w2, c)
  {
    hide KeepsLive, KeepsPages, Frames;
    forall r: nat | Is(w2.s.own, r, Root)
      ensures HasRoot(tasks[p := t], r)
    {
      assert InTree(Root, r, r);
      if r == t.pgd {
        assert tasks[p := t][p].pgd == r;
      } else {
        assert HasRoot(tasks, r);
        var q :| q in tasks && tasks[q].pgd == r;
        assert tasks[p := t][q].pgd == r;
      }
    }
  }

  /** A task and its tree are gone. */
  lemma ReapStep(k: Kern, w: World, w': World, c: Start, p: nat)
    requires Sound(k, w, c, {}) && p in k.tasks && w'.h == w.h && Shrunk(w.s, w'.s, k.tasks[p].pgd)
    requires w'.s.maps == Cut(w.s.maps, k.tasks[p].pgd, 0, USER_PAGES)
    requires forall f :: f in w'.s.own ==> !InTree(w'.s.own[f], f, k.tasks[p].pgd)
    ensures SpacesOk(k.tasks - {p}, w'.s.own, w'.s.maps) && Accounted(k.tasks - {p}, w', c)
    ensures Seen(k.(tasks := k.tasks - {p}), w') == Seen(k, w) - {p}
  {
    hide Accounted, Owned, View, Shrunk, Cut, InTree, SpacesOk;
    var root := k.tasks[p].pgd;
    AccountedReap(k.tasks, w, w', c, p);
    SpacesWithout(k.tasks, w.s.own, w.s.maps, p);
    ShrunkRoles(w.s, w'.s, root);
    CutSpaces(k.tasks - {p}, w.s.own, w'.s.own, w.s.maps, root);
    CutViews(k.tasks - {p}, w.s.maps, w.s.bytes, root);
  }

  lemma AccountedReap(tasks: map<nat, Task>, w: World, w': World, c: Start, p: nat)
    requires Accounted(tasks, w, c) && p in tasks && w'.h == w.h && Shrunk(w.s, w'.s, tasks[p].pgd)
    requires forall f :: f in w'.s.own ==> !InTree(w'.s.own[f], f, tasks[p].pgd)
    ensures Accounted(tasks - {p}, w', c)
  {
    hide KeepsLive, Frames;
    forall r: nat | Is(w'.s.own, r, Root)
      ensures HasRoot(tasks - {p}, r)
    {
      assert InTree(Root, r, r) && HasRoot(tasks, r);
      var q :| q in tasks && tasks[q].pgd == r;
      assert q != p && (tasks - {p})[q].pgd == r;
    }
  }

  /** One byte of a page that nobody else maps has been written. */
  lemma StoreStep(k: Kern, w: World, w': World, c: Start, p: nat, v: nat, o: nat, b: byte)
    requires Sound(k, w, c, {}) && Backing(w) && p in k.tasks && Slot(k.tasks[p].pgd, v) in w.s.maps && o < PAGE_SIZE
    requires w'.h == w.h && w'.s == w.s.(bytes := w'.s.bytes)
    requires var f := w.s.maps[Slot(k.tasks[p].pgd, v)].ppn; w'.s.bytes == w.s.bytes[f := w.s.bytes[f][o := b]]
    requires forall x :: x in w.s.maps && x != Slot(k.tasks[p].pgd, v) ==>
               w.s.maps[x].ppn != w.s.maps[Slot(k.tasks[p].pgd, v)].ppn
    ensures Sound(k, w', c, {}) && p in Seen(k, w)
    ensures Seen(k, w') == Seen(k, w)[p := Isolation.WriteByte(Seen(k, w)[p], v * PAGE_SIZE + o, b)]
  {
    hide Accounted, Owned, SpacesOk, View;
    AccountedBytes(k.tasks, w, w', c);
    ViewsStored(k.tasks, w.s.own, w.s.maps, w.s.bytes, w'.s.bytes, p, v, o, b);
  }

  lemma AccountedBytes(tasks: map<nat, Task>, w: World, w': World, c: Start)
    requires Accounted(tasks, w, c) && w'.h == w.h && w'.s.own == w.s.own && w'.s.free == w.s.free
    ensures Accounted(tasks, w', c)
  {
    hide Frames;
  }

  /** A new anonymous area that meets no other: it shows zeros. */
  lemma AreaAdded(k: Kern, w: World, c: Start, p: nat, a: Vma)
    requires Sound(k, w, c, {}) && p in k.tasks && VmasOk([a] + k.tasks[p].vmas) && a.file == [] && a.start <= a.end
    ensures var k' := k.(tasks := k.tasks[p := k.tasks[p].(vmas := [a] + k.tasks[p].vmas)]);
            && Sound(k', w, c, {}) && p in Seen(k, w)
            && Seen(k', w) == Seen(k, w)[p := Isolation.AddZeros(Seen(k, w)[p], a.start, a.end - a.start)]
    ensures forall v: nat :: Holds(a, v * PAGE_SIZE) ==> Slot(k.tasks[p].pgd, v) !in w.s.maps
    ensures forall v: nat :: Holds(a, v * PAGE_SIZE) ==> Find([a] + k.tasks[p].vmas, v * PAGE_SIZE) == Some(a)
  {
    var tasks' := k.tasks[p := k.tasks[p].(vmas := [a] + k.tasks[p].vmas)];
    SameTrees(k.tasks, tasks');
    GrewRefl(w.s);
    AccountedGrown(k.tasks, tasks', w, w, c);
    hide Accounted, Owned, SpacesOk, View, Views, VmasOk, Find, Grew;
    SpacesMapped(k.tasks, w.s.own, w.s.maps, p, a);
    ViewsMapped(k.tasks, w.s.own, w.s.maps, w.s.bytes, p, a);
  }
}
