/** Page tables and kmalloc on one page-frame allocator. */
module Machine {
  import opened Basics
  import opened BuddySpec
  import opened BuddyAllocator
  import opened BuddyPages
  import opened KmallocSpec
  import opened KmallocPools
  import opened Sv39
  import opened PageTree
  import opened Cow
  import opened Vm
  import Hardware
  import opened Fork

  /** All that matters of the machine: the address spaces, and what kmalloc holds. */
  datatype World = World(s: Snap, h: Heap)

  /** The world as kmalloc sees it. */
  function Heaped(w: World): State {
    State(w.h, w.s.free, w.s.refs, w.s.fa)
  }

  /** kmalloc and the address spaces have no frame in common, and neither holds a free one. */
  ghost predicate Parted(w: World) {
    Frames(w.h) !! w.s.own.Keys && Frames(w.h) !! w.s.free && w.s.own.Keys !! w.s.free
  }

  /** The address spaces are what they were; kmalloc has handed out `p` for a request of `size` bytes. */
  ghost predicate Allocated(base: nat, w: World, w': World, size: nat, p: nat) {
    && w'.s == w.s.(free := w'.s.free, refs := w'.s.refs, fa := w'.s.fa)
    && Took(Heaped(w), Heaped(w')) && Granted(base, Heaped(w), Heaped(w'), size, p)
  }

  /** The address spaces are what they were; kmalloc has taken `p` back. */
  ghost predicate Freed(base: nat, w: World, w': World, p: nat) {
    && w'.s == w.s.(free := w'.s.free, refs := w'.s.refs, fa := w'.s.fa)
    && Gave(Heaped(w), Heaped(w')) && Returned(base, Heaped(w), Heaped(w'), p)
  }

  /** A free frame has become the root of an empty tree. */
  ghost predicate Rooted(w: World, w': World, root: nat) {
    && w'.h == w.h && w'.s.maps == w.s.maps && Hooked(w.s, w'.s, root, Root)
    && forall v: nat :: Slot(root, v) !in w.s.maps
  }

  /** Page-table work: kmalloc's part is what it was, and the tables have only grown. */
  lemma HeapBesideGrowth(base: nat, w: World, s': Snap)
    requires HeapOk(base, w.s.fa, w.s.refs, w.h) && Parted(w) && Grew(w.s, s') && |s'.fa| == |w.s.fa|
    ensures HeapOk(base, s'.fa, s'.refs, w.h)
  {
    hide HeapOk, KeepsLive, KeepsPages, Frames;
    forall f | f in Frames(w.h)
      ensures f !in s'.own
    {
    }
    HeapKept(base, w.s.fa, s'.fa, w.s.refs, s'.refs, w.h, {});
  }

  lemma HeapBesideTeardown(base: nat, w: World, s': Snap, root: nat)
    requires HeapOk(base, w.s.fa, w.s.refs, w.h) && Parted(w) && Shrunk(w.s, s', root) && |s'.fa| == |w.s.fa|
    ensures HeapOk(base, s'.fa, s'.refs, w.h)
  {
    hide HeapOk, KeepsLive, Frames;
    HeapKept(base, w.s.fa, s'.fa, w.s.refs, s'.refs, w.h, w.s.own.Keys - s'.own.Keys);
  }

  lemma GrowthParted(w: World, s': Snap)
    requires Parted(w) && Grew(w.s, s')
    ensures Parted(World(s', w.h))
  {
    hide KeepsLive, KeepsPages, Frames;
  }

  lemma TeardownParted(w: World, s': Snap, root: nat)
    requires Parted(w) && Shrunk(w.s, s', root)
    ensures Parted(World(s', w.h))
  {
    hide KeepsLive, Frames;
  }

  lemma AllocatedParted(base: nat, w: World, w': World, size: nat, p: nat)
    requires Parted(w) && Allocated(base, w, w', size, p)
    ensures Parted(w')
    ensures KeepsLive(w.s.fa, w'.s.fa, {}) && |w'.s.refs| == |w.s.refs|
    ensures forall f :: f in w.s.own && f < |w.s.refs| ==> w'.s.refs[f] == w.s.refs[f]
  {
    hide KeepsLive, Frames, Granted;
  }

  lemma FreedParted(base: nat, w: World, w': World, p: nat)
    requires Parted(w) && Freed(base, w, w', p)
    ensures Parted(w')
    ensures KeepsLive(w.s.fa, w'.s.fa, Frames(w.h) - Frames(w'.h)) && (Frames(w.h) - Frames(w'.h)) !! w.s.own.Keys
    ensures |w'.s.refs| == |w.s.refs| && forall f :: f in w.s.own && f < |w.s.refs| ==> w'.s.refs[f] == w.s.refs[f]
  {
    hide KeepsLive, Frames, Returned;
  }

  class Machine {
    const mem: Memory
    const pools: Pools
    ghost const Repr: set<object>

    ghost predicate Wired()
    {
      && pools.buddy == mem.buddy
      && Repr == mem.buddy.Repr + {mem, pools}
      && mem.buddy.Repr == {mem.buddy, mem.buddy.frameArray, mem.buddy.refCount, mem.buddy.nodes.prev,
         mem.buddy.nodes.next}
      && mem !in mem.buddy.Repr && pools !in mem.buddy.Repr
    }

    ghost predicate Valid()
      reads Repr
    {
      Wired() && mem.Valid() && pools.Valid() && Parted(Now())
    }

    ghost function Now(): World
      requires Wired()
      reads Repr
    {
      World(mem.Now(), pools.Contents())
    }

    constructor (mem: Memory, pools: Pools)
      requires mem.Valid() && pools.Valid() && pools.buddy == mem.buddy && mem.own == map[]
      ensures Valid() && this.mem == mem && this.pools == pools
    {
      mem.Bounds();
      FramesNotFree(mem.buddy.base, mem.buddy.frameArray[..], mem.buddy.refCount[..], pools.Contents());
      this.mem, this.pools := mem, pools;
      Repr := mem.buddy.Repr + {mem, pools};
    }

    /** What page-table work needs, and what it must leave. */
    lemma Sides()
      requires Valid()
      ensures mem.Valid() && mem.TreeOk() && pools.Ready() && Parted(Now())
      ensures HeapOk(mem.buddy.base, Now().s.fa, Now().s.refs, Now().h)
              && |Now().s.fa| == |Now().s.refs| == mem.buddy.total
    {
      mem.Bounds();
    }

    /** frame_array is in order, and says which frames are free. */
    lemma Blocks()
      requires Valid()
      ensures Wired() && WF(Now().s.fa, 0, 0) && |Now().s.fa| == mem.buddy.total
              && Now().s.fa == mem.buddy.frameArray[..]
      ensures Now().s.free == FreeFrames(Now().s.fa) && Now().s.free !! Frames(Now().h)
    {
      mem.FrameArrayOk();
    }

    /** kmalloc */
    method Kmalloc(size: nat) returns (ptr: nat)
      requires Valid()
      modifies Repr
      ensures Valid() && (ptr == NULL <==> !CanServe(Heaped(old(Now())), size))
      ensures ptr == NULL ==> Now() == old(Now())
      ensures ptr != NULL ==> Allocated(mem.buddy.base, old(Now()), Now(), size, ptr)
      ensures ptr != NULL ==> size <= SizeAt(mem.buddy.base, Now().h, ptr)
    {
      hide Memory.Represents, CowInv, Buddy.Valid, Pools.Ready, Chained, Took, Granted, Parted, FreeFrames, SizeAt;
      ghost var w := Now();
      mem.Unpack();
      ptr := pools.Kmalloc(size);
      pools.Bounds();
      if ptr == NULL {
        KeepsLiveRefl(w.s.fa);
        mem.Undisturbed(w.s.fa, w.s.refs, {});
      } else {
        AllocatedParted(mem.buddy.base, w, Now(), size, ptr);
        mem.Undisturbed(w.s.fa, w.s.refs, {});
      }
    }

    /** kfree of a pointer that is handed out */
    method Kfree(ptr: nat)
      requires Valid() && ptr in Held(mem.buddy.base, Now().h)
      modifies Repr
      ensures Valid() && Freed(mem.buddy.base, old(Now()), Now(), ptr)
    {
      hide Memory.Represents, CowInv, Buddy.Valid, Pools.Ready, HeapOk, Chained, Gave, Returned, Parted, FreeFrames;
      hide Held;
      hide Frames;
      ghost var w := Now();
      Sides();
      mem.Unpack();
      pools.Bounds();
      HeldNotNull(mem.buddy.base, w.s.fa, w.s.refs, w.h, ptr);
      pools.Kfree(ptr);
      pools.Bounds();
      FreedParted(mem.buddy.base, w, Now(), ptr);
      mem.Undisturbed(w.s.fa, w.s.refs, Frames(w.h) - Frames(Now().h));
    }

    /** A root for a new address space: `alloc_page` and a copy of the kernel half. The code does not check the page. */
    method FreshRoot() returns (root: nat)
      requires Valid() && Now().s.free != {}
      modifies Repr
      ensures Valid() && Rooted(old(Now()), Now(), root)
    {
      hide Memory.Represents, CowInv, Buddy.Valid, HeapOk, Chained, Hooked, Parted, FreeFrames;
      ghost var w := Now();
      Sides();
      var page := mem.NewRoot();
      root := page.value;
      HookedFacts(w.s, mem.Now(), root, Root);
      ExtendedCow(w.s.maps, w.s, mem.Now());
      mem.Bounds();
      HeapBesideGrowth(mem.buddy.base, w, mem.Now());
      GrowthParted(w, mem.Now());
    }

    /**
     do_fork: duplicate the tables of the user half; false exactly when there are fewer free frames than tables to copy.
     */
    method CopyTree(parent: nat, child: nat) returns (ok: bool, ghost n: nat)
      requires Valid() && parent != child && Is(Now().s.own, parent, Root) && Is(Now().s.own, child, Root)
      requires forall f :: f in Now().s.own && f != child ==> !InTree(Now().s.own[f], f, child)
      requires forall v: nat :: Slot(child, v) !in Now().s.maps
      modifies Repr
      ensures Valid() && ForkGrown(old(Now()).s, Now().s, child) && Now().h == old(Now()).h
      ensures ok <==> |old(Now()).s.free| >= |AllBelow(Tables(old(Now()).s.own), parent)|
      ensures !ok ==> Now().s.free == {}
      ensures n <= USER_PAGES && Forked(old(Now()).s.maps, Now().s.maps, parent, child, n) && (ok ==> n == USER_PAGES)
      ensures !ok ==> StopsAt(Tables(old(Now()).s.own), parent, |old(Now()).s.free|, n)
      ensures old(Now()).s.free == {} ==> forall v: nat :: Slot(child, v) !in Now().s.maps
    {
      hide Memory.Represents, CowInv, Buddy.Valid, HeapOk, Chained, ForkGrown, Forked, Parted, FreeFrames, InTree;
      hide Tables, StopsAt;
      ghost var w := Now();
      Sides();
      ok, n := CopyUserHalf(mem, parent, child);
      ForkGrownGrew(w.s, mem.Now(), child);
      mem.Bounds();
      HeapBesideGrowth(mem.buddy.base, w, mem.Now());
      GrowthParted(w, mem.Now());
      if w.s.free == {} {
        NothingGrown(w.s, mem.Now(), child);
        mem.NoTablesNoPages(child);
      }
    }

    /** free_user_space */
    method DropTree(root: nat)
      requires Valid() && Is(Now().s.own, root, Root)
      modifies Repr
      ensures Valid() && Now().h == old(Now()).h
      ensures Now().s.maps == Cut(old(Now()).s.maps, root, 0, USER_PAGES)
      ensures Shrunk(old(Now()).s, Now().s, root)
      ensures forall f :: f in Now().s.own ==> !InTree(Now().s.own[f], f, root)
    {
      hide Memory.Represents, CowInv, Buddy.Valid, HeapOk, Chained, Shrunk, Parted, FreeFrames, InTree, Cut;
      ghost var w := Now();
      Sides();
      mem.FreeUserSpace(root);
      mem.Bounds();
      HeapBesideTeardown(mem.buddy.base, w, mem.Now(), root);
      TeardownParted(w, mem.Now(), root);
    }

    /** alloc_page, a fill and map_pages for one page. */
    method InstallPage(root: nat, v: nat, contents: Page, prot: Prot) returns (frame: Option<nat>)
      requires Valid() && Is(Now().s.own, root, Root) && v < USER_PAGES && Slot(root, v) !in Now().s.maps && prot.user
      requires Now().s.free == {} || |Now().s.free| >= 1 + |Missing(Now().s.own, root, v, 1)|
      modifies Repr
      ensures Valid() && Now().h == old(Now()).h
      ensures frame == None <==> old(Now()).s.free == {}
      ensures frame == None ==> Now() == old(Now())
      ensures frame.Some? ==>
                var w, w', f := old(Now()), Now(), frame.value;
                && f in w.s.free && f !in w.s.own && f < |w'.s.bytes| && w'.s.bytes[f] == contents
                && w'.s.maps == w.s.maps[Slot(root, v) := LeafEntry(f, prot)]
                && Populated(w.s, w'.s, f) && SameRoots(w.s.own, w'.s.own)
                && Tables(w'.s.own) == Tables(w.s.own) + Needed(root, v, 1)
                && |w'.s.free| == |w.s.free| - 1 - |Missing(w.s.own, root, v, 1)| && OnlyIn(w.s, w'.s, root)
    {
      hide Memory.Represents, CowInv, Buddy.Valid, HeapOk, Chained, Populated, Parted, FreeFrames, SameRoots, Tables;
      hide Needed;
      ghost var w := Now();
      Sides();
      frame := mem.InstallPage(root, v, contents, prot);
      mem.Bounds();
      if frame.Some? {
        PopulatedGrew(w.s, mem.Now(), frame.value);
        mem.TablesIn(w.s, root, v);
        OnlyThere(w.s, mem.Now(), root, v, LeafEntry(frame.value, prot));
        HeapBesideGrowth(mem.buddy.base, w, mem.Now());
        GrowthParted(w, mem.Now());
      }
    }

    /**
     The copy-on-write step of the fault handler on a present page; false when a copy is needed and no frame is free.
     */
    method MakePrivate(t: nat, c: nat, ghost s: Slot) returns (ok: bool)
      requires Valid() && s in Now().s.maps && s.vpn < USER_PAGES && c == Vpn0(s.vpn)
      requires Is(Now().s.own, t, Pt(s.root, Vpn2(s.vpn), Vpn1(s.vpn))) && t < |mem.table|
               && mem.table[t][c] == Now().s.maps[s]
      modifies Repr
      ensures Valid() && Now().h == old(Now()).h
      ensures var w, w' := old(Now()).s, Now().s;
              && w.maps[s].ppn < |w.refs|
              && (ok <==> w.free != {} || w.refs[w.maps[s].ppn] == 1)
              && (!ok ==> w' == w)
              && (ok ==> Private(w, w', s))
    {
      hide Memory.Represents, CowInv, Buddy.Valid, HeapOk, Chained, Populated, Parted, FreeFrames, Frames, Vpn2, Vpn1;
      hide Vpn0, Private, Grew;
      ghost var w := Now();
      Sides();
      mem.MappedFrame(s);
      WalkIndices(s.vpn);
      mem.Bounds();
      var count := mem.buddy.GetPageRefCount(mem.buddy.Addr(mem.table[t][c].ppn));
      if count > 1 {
        var page := mem.CopyShared(t, c, s);
        mem.Bounds();
        if page == None {
          return false;
        }
        CopiedIsPrivate(w.s, mem.Now(), s, page.value);
      } else {
        mem.RestoreWrite(t, c, s);
        RestoredIsPrivate(w.s, mem.Now(), s);
      }
      mem.Bounds();
      HeapBesideGrowth(mem.buddy.base, w, mem.Now());
      GrowthParted(w, mem.Now());
      ok := true;
    }

    /** What a store instruction does to a frame. */
    method StoreByte(f: nat, o: nat, b: byte)
      requires Valid() && f < |Now().s.bytes| && o < PAGE_SIZE
      modifies mem`bytes
      ensures Valid() && Now().h == old(Now()).h
      ensures Now().s == old(Now()).s.(bytes := old(Now()).s.bytes[f := old(Now()).s.bytes[f][o := b]])
      ensures f < |mem.bytes| && mem.bytes[f][o] == b
    {
      hide Memory.Represents, CowInv, Buddy.Valid, HeapOk, Chained, FreeFrames, Frames;
      Sides();
      mem.StoreByte(f, o, b);
    }

    /** What a load instruction does with a frame. */
    method ReadByte(f: nat, o: nat) returns (b: byte)
      requires Valid() && f < |Now().s.bytes| && o < PAGE_SIZE
      ensures b == Now().s.bytes[f][o] && f < |mem.bytes| && b == mem.bytes[f][o]
    {
      b := mem.bytes[f][o];
    }

    /** walk_pte for page v, and the entry it leads to. */
    method Walk(root: nat, v: nat) returns (at: Option<(nat, nat)>)
      requires Valid() && Is(Now().s.own, root, Root) && v < USER_PAGES
      ensures at == None ==> Slot(root, v) !in Now().s.maps
      ensures at.Some? ==>
                var (t, c) := at.value;
                && Is(Now().s.own, t, Pt(root, Vpn2(v), Vpn1(v))) && c == Vpn0(v) && t < |mem.table|
                && (Slot(root, v) in Now().s.maps <==> mem.table[t][c].valid)
                && (Slot(root, v) in Now().s.maps ==> Now().s.maps[Slot(root, v)] == mem.table[t][c])
    {
      hide Memory.Represents, CowInv, Buddy.Valid, HeapOk, Chained, FreeFrames, Frames, Vpn2, Vpn1, Vpn0;
      Sides();
      at := mem.WalkPte(root, v);
      if at.Some? {
        mem.PresentEntry(at.value.0, at.value.1, Slot(root, v));
      }
    }

    /** What the hardware makes of the tables is what the map says. */
    lemma HardwareWalk(root: nat, v: nat, access: Access)
      requires Valid() && Is(Now().s.own, root, Root) && v < USER_PAGES
      ensures var maps, s := Now().s.maps, Slot(root, v);
              Hardware.Translate(mem.table, root, v, access)
              == if s in maps && Allows(maps[s], access) then Hardware.Frame(maps[s].ppn) else Hardware.Fault
    {
      mem.Unpack();
      Hardware.WalkIsHardware(mem.table, mem.own, root, v, access);
      MappedIffValid(mem.table, mem.own, mem.maps, root, v);
      hide Tree, Refines, CowInv, PageTree.Walk, Hardware.Translate, HeapOk, Parted;
    }

    /** Every mapped page has a frame in memory that is in use. */
    lemma Mapped()
      requires Valid()
      ensures InMemory(Now().s.maps, Now().s.bytes)
      ensures forall s :: s in Now().s.maps ==>
                && s.vpn < USER_PAGES && Is(Now().s.own, s.root, Root) && Is(Now().s.own, Now().s.maps[s].ppn, User)
                && Now().s.maps[s].ppn !in Now().s.free && Now().s.maps[s].valid && Now().s.maps[s].user
    {
      forall s | s in mem.maps
        ensures mem.maps[s].ppn < |mem.bytes| && s.vpn < USER_PAGES && Is(mem.own, s.root, Root)
        ensures Is(mem.own, mem.maps[s].ppn, User) && mem.maps[s].ppn !in mem.Free() && mem.maps[s].valid
                && mem.maps[s].user
      {
        mem.MappedFrame(s);
      }
    }
  }

  lemma OnlyThere(s: Snap, s': Snap, root: nat, v: nat, e: Pte)
    requires GrownIn(s, s', root) && s'.maps == s.maps[Slot(root, v) := e]
    ensures OnlyIn(s, s', root)
  {
    hide GrownIn;
  }

  /** One page has write permission, and perhaps a frame of its own with the same contents. */
  ghost predicate Private(s: Snap, s': Snap, x: Slot) {
    && x in s.maps && x in s'.maps && s'.maps == s.maps[x := s'.maps[x]] && Grew(s, s') && SameRoots(s.own, s'.own)
    && OnlyIn(s, s', x.root) && s'.maps[x] == s.maps[x].(write := true, ppn := s'.maps[x].ppn)
    && (s'.maps[x].ppn == s.maps[x].ppn || s'.maps[x].ppn in s.free)
    && s'.maps[x].ppn < |s'.bytes| && s.maps[x].ppn < |s.bytes| && s'.bytes[s'.maps[x].ppn] == s.bytes[s.maps[x].ppn]
  }

  lemma PrivateOnlyIn(s: Snap, s': Snap, x: Slot)
    requires Private(s, s', x)
    ensures OnlyIn(s, s', x.root)
  {
    hide OnlyIn, Grew, SameRoots;
  }

  lemma CopiedIsPrivate(s: Snap, s': Snap, x: Slot, g: nat)
    requires x in s.maps && s.maps[x].ppn < |s.bytes| && g in s.free && g !in s.own && g < |s.bytes|
             && Populated(s, s', g)
    requires s'.own == s.own[g := User] && s'.maps == s.maps[x := s.maps[x].(ppn := g, write := true)]
    requires s'.bytes == s.bytes[g := s.bytes[s.maps[x].ppn]]
    ensures Private(s, s', x) && Grew(s, s')
  {
    PopulatedGrew(s, s', g);
    SameRootsAdd(s.own, g, User);
  }

  lemma RestoredIsPrivate(s: Snap, s': Snap, x: Slot)
    requires x in s.maps && s.maps[x].ppn < |s.bytes| && s' == s.(maps := s.maps[x := s.maps[x].(write := true)])
    ensures Private(s, s', x) && Grew(s, s')
  {
    GrewRefl(s);
    GrewOtherMaps(s, s, s'.maps);
  }
}
