/** Physical memory and the page-table operations of vm.c. */
module Vm {
  import opened Basics
  import opened BuddySpec
  import opened BuddyTheory
  import opened BuddyAllocator
  import opened BuddyPages
  import opened Sv39
  import opened PageTree
  import opened Cow

  type Page = p: seq<byte> | |p| == PAGE_SIZE witness seq(PAGE_SIZE, _ => 0)
  const ZeroPage: Page := seq(PAGE_SIZE, _ => 0)

  /** Every page that is mapped has a frame in memory. */
  ghost predicate InMemory(maps: map<Slot, Pte>, bytes: seq<Page>) {
    forall s :: s in maps ==> maps[s].ppn < |bytes|
  }

  /** Every frame in use by an address space is an allocated block of one page. */
  ghost predicate Backed(fa: seq<int>, own: map<nat, Role>) {
    forall f :: f in own ==> LivePage(fa, f)
  }

  lemma BackedAdd(fa: seq<int>, own: map<nat, Role>, f: nat, role: Role)
    requires Backed(fa, own) && LivePage(fa, f)
    ensures Backed(fa, own[f := role])
  {
  }

  lemma BackedKept(fa: seq<int>, fb: seq<int>, own: map<nat, Role>)
    requires Backed(fa, own) && KeepsLive(fa, fb, {})
    ensures Backed(fb, own)
  {
  }

  lemma BackedBut(fa: seq<int>, fb: seq<int>, own: map<nat, Role>, f: nat)
    requires Backed(fa, own) && KeepsLive(fa, fb, {f})
    ensures Backed(fb, own - {f})
  {
  }

  lemma BackedApart(fa: seq<int>, fb: seq<int>, own: map<nat, Role>, gone: set<nat>)
    requires Backed(fa, own) && KeepsLive(fa, fb, gone) && gone !! own.Keys
    ensures Backed(fb, own)
  {
    hide Live;
  }

  lemma BackedNotFree(fa: seq<int>, own: map<nat, Role>)
    requires Backed(fa, own)
    ensures forall f :: f in own ==> f < |fa| && f !in FreeFrames(fa)
  {
  }

  /** What the page-table code may change besides the tables. */
  datatype Snap = Snap(own: map<nat, Role>, maps: map<Slot, Pte>, free: set<nat>, refs: seq<int>, bytes: seq<Page>,
                       fa: seq<int>)

  /**
   Frames have come out of the free ones; those in use before keep their roles, blocks stay allocated, and
   no frame that was not free has new contents. Counts outside the address spaces are the same.
   */
  ghost predicate Grew(s: Snap, s': Snap) {
    && (forall f :: f in s.own ==> f in s'.own && s'.own[f] == s.own[f])
    && (forall f :: f in s'.own && f !in s.own ==> f in s.free)
    && s'.free == s.free - (s'.own.Keys - s.own.Keys)
    && KeepsPages(s.bytes, s'.bytes, s.free)
    && KeepsLive(s.fa, s'.fa, {})
    && |s'.refs| == |s.refs| && (forall f :: 0 <= f < |s.refs| && f !in s'.own ==> s'.refs[f] == s.refs[f])
  }

  /** Only tables have been added, each with one reference; all other counts are the same. */
  ghost predicate Extended(s: Snap, s': Snap) {
    && Grew(s, s')
    && (forall f :: f in s'.own && f !in s.own ==> s'.own[f] != User && f < |s'.refs| && s'.refs[f] == 1)
    && (forall f :: f in s.own && f < |s.refs| ==> s'.refs[f] == s.refs[f])
  }

  /** A free frame has become a table. */
  ghost predicate Hooked(s: Snap, s': Snap, f: nat, role: Role) {
    Extended(s, s') && f in s.free && f !in s.own && s'.own == s.own[f := role] && s'.free == s.free - {f}
  }

  /** A free frame has become a user page, and perhaps others have become tables. */
  ghost predicate Populated(s: Snap, s': Snap, f: nat) {
    Grew(s, s') && (forall g :: g in s'.own && g !in s.own ==> (s'.own[g] == User <==> g == f))
  }

  lemma GrewRefl(s: Snap)
    ensures Grew(s, s)
  {
    assert s.own.Keys - s.own.Keys == {};
  }

  lemma GrewTransitive(s: Snap, s': Snap, s'': Snap)
    requires Grew(s, s') && Grew(s', s'')
    ensures Grew(s, s'')
  {
    hide Live;
    assert s''.own.Keys - s.own.Keys == (s'.own.Keys - s.own.Keys) + (s''.own.Keys - s'.own.Keys);
  }

  lemma GrewOtherMaps(s: Snap, s': Snap, maps: map<Slot, Pte>)
    requires Grew(s, s')
    ensures Grew(s, s'.(maps := maps))
  {
  }

  lemma PopulatedGrew(s: Snap, s': Snap, f: nat)
    requires Populated(s, s', f)
    ensures Grew(s, s')
  {
  }

  lemma ExtendedRefl(s: Snap)
    ensures Extended(s, s)
  {
    GrewRefl(s);
  }

  lemma ExtendedTransitive(s: Snap, s': Snap, s'': Snap)
    requires Extended(s, s') && Extended(s', s'')
    ensures Extended(s, s'')
  {
    assert Grew(s, s'') by { GrewTransitive(s, s', s''); }
    hide KeepsPages, KeepsLive;
  }

  lemma ExtendedKeeps(s: Snap, s': Snap, f: nat)
    requires Extended(s, s') && f in s.own
    ensures f in s'.own && s'.own[f] == s.own[f]
  {
  }

  lemma ExtendedOtherMaps(s: Snap, s': Snap, maps: map<Slot, Pte>)
    requires Extended(s, s')
    ensures Extended(s, s'.(maps := maps))
  {
  }

  /** One frame has come out of the free ones and becomes a table. */
  lemma HookedByTable(s: Snap, s': Snap, f: nat, role: Role)
    requires f in s.free && f !in s.own && role != User && f < |s.refs| == |s.bytes| == |s'.bytes|
    requires s'.own == s.own && s'.free == s.free - {f} && s'.refs == s.refs[f := 1]
    requires forall g: nat :: g < |s.bytes| && g != f ==> s'.bytes[g] == s.bytes[g]
    requires KeepsLive(s.fa, s'.fa, {})
    ensures Hooked(s, s'.(own := s.own[f := role]), f, role)
  {
    assert s.own[f := role].Keys - s.own.Keys == {f};
  }

  lemma HookedFacts(s: Snap, s': Snap, f: nat, role: Role)
    requires Hooked(s, s', f, role)
    ensures Extended(s, s') && Grew(s, s') && f in s.free && f !in s.own && s'.own == s.own[f := role]
    ensures s'.free == s.free - {f}
  {
  }

  /** The three steps of installing a page: s to m takes frame f, m to s' maps it. */
  lemma InstallFacts(s: Snap, m: Snap, s': Snap, f: nat)
    requires f in s.free && f !in s.own && f < |s.refs| == |s.bytes|
    requires m.own == s.own && m.free == s.free - {f} && m.refs == s.refs[f := 1]
    requires |m.bytes| == |s.bytes| && forall g: nat :: g < |s.bytes| && g != f ==> m.bytes[g] == s.bytes[g]
    requires KeepsLive(s.fa, m.fa, {}) && LivePage(m.fa, f) && Extended(m, s')
    ensures f !in s'.own && |s'.refs| == |s.refs| && s'.refs[f] == 1 && LivePage(s'.fa, f)
    ensures f < |s'.bytes| && s'.bytes[f] == m.bytes[f]
    ensures Populated(s, s'.(own := s'.own[f := User]), f)
  {
    var own := s'.own[f := User];
    assert own.Keys - s.own.Keys == (s'.own.Keys - m.own.Keys) + {f};
    hide Live;
  }

  /** A page has moved to a frame of its own, and its old frame has lost a reference. */
  lemma CopyFacts(s: Snap, s': Snap, g: nat, f: nat)
    requires g in s.free && g !in s.own && f in s.own && f < |s.refs| == |s'.refs| && g < |s.bytes| == |s'.bytes|
    requires s'.own == s.own[g := User] && s'.free == s.free - {g} && s'.bytes == s.bytes[g := s'.bytes[g]]
    requires KeepsLive(s.fa, s'.fa, {}) && forall x: nat :: x < |s.refs| && x != g && x != f ==> s'.refs[x] == s.refs[x]
    ensures Populated(s, s', g)
  {
    assert s'.own.Keys - s.own.Keys == {g};
  }

  /** The same trees, whatever has become of their lower tables. */
  ghost predicate SameRoots(own: map<nat, Role>, own': map<nat, Role>) {
    forall r: nat :: Is(own, r, Root) <==> Is(own', r, Root)
  }

  lemma SameRootsRefl(own: map<nat, Role>)
    ensures SameRoots(own, own)
  {
  }

  lemma SameRootsTransitive(own: map<nat, Role>, own': map<nat, Role>, own'': map<nat, Role>)
    requires SameRoots(own, own') && SameRoots(own', own'')
    ensures SameRoots(own, own'')
  {
  }

  lemma SameRootsAdd(own: map<nat, Role>, f: nat, role: Role)
    requires f !in own && role != Root
    ensures SameRoots(own, own[f := role])
  {
  }

  lemma ExtendedCow(maps: map<Slot, Pte>, s: Snap, s': Snap)
    requires CowInv(maps, s.own, s.refs) && Extended(s, s')
    ensures CowInv(maps, s'.own, s'.refs)
  {
    ExtendsCow(maps, s.own, s'.own, s.refs, s'.refs);
  }

  class Memory {
    const buddy: Buddy
    /** pg_dir: its upper half maps the kernel and is shared by all roots. */
    const kernelDir: Table
    /** The contents of every frame, read as 512 entries and read as 4096 bytes. */
    var table: seq<Table>
    var bytes: seq<Page>

    /** Which frames are tables of which address space, and which hold user pages. */
    ghost var own: map<nat, Role>
    /** The finite map from user pages to leaf entries. */
    ghost var maps: map<Slot, Pte>

    ghost predicate Shape()
      reads this, buddy, buddy.frameArray, buddy.refCount, buddy.nodes.prev, buddy.nodes.next
    {
      this !in buddy.Repr && buddy.Valid() && |table| == |bytes| == buddy.total
    }

    ghost function Free(): set<nat>
      reads buddy.frameArray
    {
      FreeFrames(buddy.frameArray[..])
    }

    ghost function Refs(): seq<int>
      reads buddy.refCount
    {
      buddy.refCount[..]
    }

    ghost function Now(): Snap
      reads this, buddy.frameArray, buddy.refCount
    {
      Snap(own, maps, Free(), Refs(), bytes, buddy.frameArray[..])
    }

    /** The tables in `tab` form the trees `own` describes and represent `maps`. */
    ghost predicate Represents(tab: seq<Table>)
      reads this, buddy, buddy.frameArray, buddy.refCount, buddy.nodes.prev, buddy.nodes.next
    {
      && Shape() && |tab| == buddy.total
      && Backed(buddy.frameArray[..], own)
      && Tree(tab, own) && Refines(tab, own, maps)
    }

    ghost predicate TreeOk()
      reads this, buddy, buddy.frameArray, buddy.refCount, buddy.nodes.prev, buddy.nodes.next
    {
      Represents(table)
    }

    ghost predicate Valid()
      reads this, buddy, buddy.frameArray, buddy.refCount, buddy.nodes.prev, buddy.nodes.next
    {
      TreeOk() && CowInv(maps, own, Refs())
    }

    constructor (buddy: Buddy, kernelDir: Table)
      requires buddy.Valid()
      ensures Valid() && this.buddy == buddy && maps == map[] && own == map[]
    {
      this.buddy, this.kernelDir := buddy, kernelDir;
      table := seq(buddy.total, _ => ZeroTable);
      bytes := seq(buddy.total, _ => ZeroPage);
      own, maps := map[], map[];
    }

    /** alloc_page: a zeroed page, or none when no frame is free. */
    method AllocPage() returns (page: Option<nat>)
      requires TreeOk()
      modifies this`table, this`bytes, buddy.Repr
      ensures TreeOk()
      ensures page == None <==> old(Free()) == {}
      ensures page == None ==> Now() == old(Now()) && table == old(table)
      ensures page.Some? ==>
                var f := page.value;
                && f in old(Free()) && f !in own && f < buddy.total
                && table == old(table)[f := ZeroTable] && bytes == old(bytes)[f := ZeroPage]
                && Free() == old(Free()) - {f} && Refs() == old(Refs())[f := 1]
                && LivePage(buddy.frameArray[..], f)
      ensures KeepsLive(old(buddy.frameArray[..]), buddy.frameArray[..], {})
    {
      hide Buddy.Valid, Tree, Refines, Walk, Taken, Live, KeepsLive, FitsOrder, SmallestAdequate, FreeRun, FreeFrames;
      buddy.Bounds();
      ghost var fa := buddy.frameArray[..];
      BackedNotFree(fa, own);
      KeepsLiveRefl(fa);
      var p, idx, order := buddy.Alloc(PAGE_SIZE);
      ghost var fb := buddy.frameArray[..];
      OnePage(order);
      SinglePageRuns(fa);
      if p == NULL {
        return None;
      }
      var f := (p - buddy.base) / PAGE_SIZE;
      assert f == idx;
      TakenPage(fa, fb, f);
      assert Refs() == old(Refs())[f := 1];
      table := table[f := ZeroTable];
      bytes := bytes[f := ZeroPage];
      TreeFrame(old(table), table, own);
      RefinesSame(old(table), table, own, own, maps);
      BackedKept(fa, fb, own);
      page := Some(f);
    }

    /** buddy_free on the kernel address of page frame f. */
    method FreePage(f: nat)
      requires Shape() && LivePage(buddy.frameArray[..], f)
      modifies buddy.Repr
      ensures Shape() && f < buddy.total && old(Refs()[f]) >= 1
      ensures Refs() == old(Refs())[f := old(Refs()[f]) - 1]
      ensures Free() == if old(Refs()[f]) > 1 then old(Free()) else old(Free()) + {f}
      ensures old(Refs()[f]) > 1 ==> buddy.frameArray[..] == old(buddy.frameArray[..])
      ensures KeepsLive(old(buddy.frameArray[..]), buddy.frameArray[..], if old(Refs()[f]) > 1 then {} else {f})
    {
      ghost var fa := buddy.frameArray[..];
      TagRoundTrip(f, 0);
      assert buddy.LiveBlock(f, 0);
      assert (buddy.Addr(f) - buddy.base) / PAGE_SIZE == f;
      buddy.Free(buddy.Addr(f));
      if old(Refs()[f]) == 1 {
        ReleasedPage(fa, buddy.frameArray[..], f);
      }
    }

    /** buddy_free on a user page that others still use. */
    method FreeShared(f: nat)
      requires TreeOk() && f in own && f < |Refs()| && Refs()[f] > 1
      modifies buddy.Repr
      ensures TreeOk() && Refs() == old(Refs())[f := old(Refs()[f]) - 1]
      ensures Free() == old(Free()) && buddy.frameArray[..] == old(buddy.frameArray[..])
    {
      hide Buddy.Valid, Tree, Refines, LivePage, KeepsLive, FreeFrames;
      FreePage(f);
    }

    /** pagewalk: make page v of the tree at `root` point to `frame`, adding missing tables on the way. */
    method PageWalk(root: nat, v: nat, frame: nat, prot: Prot)
      requires TreeOk() && Is(own, root, Root) && v < USER_PAGES
      requires |Free()| >= |Missing(own, root, v, 1)|
      modifies this, buddy.Repr
      ensures TreeOk() && Tables(own) == Tables(old(own)) + Needed(root, v, 1)
      ensures |Free()| == |old(Free())| - |Missing(old(own), root, v, 1)|
      ensures maps == old(maps)[Slot(root, v) := LeafEntry(frame, prot)]
      ensures Extended(old(Now()), Now()) && SameRoots(old(own), own)
    {
      hide Buddy.Valid, Memory.Represents, FreeFrames, Extended, SameRoots, Tables, Needed, Missing, Vpn2, Vpn1, Vpn0;
      ghost var was := Now();
      Bounds();
      var pte := LeafTableFor(root, v);
      ghost var mid := Now();
      WriteLeaf(pte, Vpn0(v), LeafEntry(frame, prot), root, v);
      ExtendedOtherMaps(was, mid, maps);
      assert Now() == mid.(maps := maps);
    }

    /** pagewalk: the leaf table of page v. */
    method LeafTableFor(root: nat, v: nat) returns (pte: nat)
      requires TreeOk() && Is(own, root, Root) && v < USER_PAGES
      requires |Free()| >= |Missing(own, root, v, 1)|
      modifies this`table, this`bytes, this`own, buddy.Repr
      ensures TreeOk() && Is(own, pte, Pt(root, Vpn2(v), Vpn1(v)))
      ensures Tables(own) == Tables(old(own)) + Needed(root, v, 1)
      ensures |Free()| == |old(Free())| - |Missing(old(own), root, v, 1)|
      ensures Extended(old(Now()), Now()) && SameRoots(old(own), own)
    {
      hide Buddy.Valid, Memory.Represents, FreeFrames, Extended, SameRoots, Tables, Needed, Missing, Vpn2, Vpn1, Vpn0;
      ghost var was := Now();
      WalkIndices(v);
      MissingOne(own, root, v);
      var pmd := PmdFor(root, Vpn2(v));
      ghost var mid := Now();
      pte := PtFor(root, Vpn2(v), pmd, Vpn1(v));
      ExtendedTransitive(was, mid, Now());
      SameRootsTransitive(was.own, mid.own, own);
      TwoTables(was.own, mid.own, own, root, v);
    }

    /** Store a valid entry for page v in the leaf table t. */
    method WriteLeaf(t: nat, c: nat, e: Pte, ghost root: nat, ghost v: nat)
      requires TreeOk() && v < USER_PAGES && c == Vpn0(v) && e.valid
      requires Is(own, t, Pt(root, Vpn2(v), Vpn1(v)))
      modifies this`table, this`maps
      ensures TreeOk()
      ensures table == Put(old(table), t, c, e)
      ensures maps == old(maps)[Slot(root, v) := e]
    {
      JoinSplit(v);
      PutLeaf(table, own, root, Vpn2(v), Vpn1(v), t, c, e);
      assert Is(own, root, Root) by {
        assert LeadsTo(table, own, root, Vpn2(v), Vpn1(v), t);
      }
      RefinesPut(table, Put(table, t, c, e), own, maps, root, v, e);
      table := Put(table, t, c, e);
      maps := maps[Slot(root, v) := e];
    }

    /** pagewalk, first level: the table behind entry a of the root. */
    method PmdFor(root: nat, a: nat) returns (pmd: nat)
      requires TreeOk() && Is(own, root, Root) && a < USER_TOP
      requires Pmd(root, a) in Tables(own) || Free() != {}
      modifies this`table, this`bytes, this`own, buddy.Repr
      ensures TreeOk() && Is(own, pmd, Pmd(root, a)) && Tables(own) == Tables(old(own)) + {Pmd(root, a)}
      ensures |Free()| == |old(Free())| - (if Pmd(root, a) in Tables(old(own)) then 0 else 1)
      ensures Extended(old(Now()), Now()) && SameRoots(old(own), own)
    {
      hide Buddy.Valid, Memory.Represents, Walk, Live, KeepsLive, FreeFrames, Extended, SameRoots, Tables;
      ghost var was := Now();
      ExtendedRefl(was);
      SameRootsRefl(own);
      RootEntry(root, a);
      if table[root][a].valid {
        return table[root][a].ppn;
      }
      var page := NewPmd(root, a);
      pmd := page.value;
      HookedFacts(was, Now(), pmd, Pmd(root, a));
      TablesAdd(was.own, pmd, Pmd(root, a));
      SameRootsAdd(was.own, pmd, Pmd(root, a));
    }

    /** pagewalk, second level: the leaf table behind entry b of the second-level table. */
    method PtFor(ghost root: nat, ghost a: nat, pmd: nat, b: nat) returns (pte: nat)
      requires TreeOk() && Is(own, pmd, Pmd(root, a)) && a < USER_TOP && b < ENTRIES
      requires Pt(root, a, b) in Tables(own) || Free() != {}
      modifies this`table, this`bytes, this`own, buddy.Repr
      ensures TreeOk() && Is(own, pte, Pt(root, a, b)) && Tables(own) == Tables(old(own)) + {Pt(root, a, b)}
      ensures |Free()| == |old(Free())| - (if Pt(root, a, b) in Tables(old(own)) then 0 else 1)
      ensures Extended(old(Now()), Now()) && SameRoots(old(own), own)
    {
      hide Buddy.Valid, Memory.Represents, Walk, Live, KeepsLive, FreeFrames, Extended, SameRoots, Tables;
      ghost var was := Now();
      ExtendedRefl(was);
      SameRootsRefl(own);
      MiddleEntry(pmd, root, a, b);
      if table[pmd][b].valid {
        return table[pmd][b].ppn;
      }
      var page := NewPt(root, a, pmd, b);
      pte := page.value;
      HookedFacts(was, Now(), pte, Pt(root, a, b));
      TablesAdd(was.own, pte, Pt(root, a, b));
      SameRootsAdd(was.own, pte, Pt(root, a, b));
    }

    /** Allocate a second-level table and hook it into an unused entry of the root. */
    method NewPmd(root: nat, a: nat) returns (pmd: Option<nat>)
      requires TreeOk() && Is(own, root, Root) && a < USER_TOP && !table[root][a].valid
      modifies this`table, this`bytes, this`own, buddy.Repr
      ensures TreeOk()
      ensures pmd == None <==> old(Free()) == {}
      ensures pmd == None ==> Now() == old(Now()) && table == old(table)
      ensures pmd.Some? ==>
                && Hooked(old(Now()), Now(), pmd.value, Pmd(root, a))
                && pmd.value < |old(table)|
                   && table == Put(old(table)[pmd.value := ZeroTable], root, a, TableEntry(pmd.value))
    {
      hide Buddy.Valid, Refines, Walk, Live, KeepsLive, FreeFrames, Extended;
      ghost var was := Now();
      buddy.Bounds();
      pmd := AllocPage();
      if pmd == None {
        return;
      }
      var f := pmd.value;
      AddPmd(table, own, root, a, f);
      RefinesSame(table, Put(table, root, a, TableEntry(f)), own, own[f := Pmd(root, a)], maps);
      table := Put(table, root, a, TableEntry(f));
      BackedAdd(buddy.frameArray[..], own, f, Pmd(root, a));
      HookedByTable(was, Now(), f, Pmd(root, a));
      own := own[f := Pmd(root, a)];
    }

    /** Allocate a leaf table and hook it into an unused entry of a second-level table. */
    method NewPt(ghost root: nat, ghost a: nat, pmd: nat, b: nat) returns (pte: Option<nat>)
      requires TreeOk() && Is(own, pmd, Pmd(root, a)) && b < ENTRIES && !table[pmd][b].valid
      modifies this`table, this`bytes, this`own, buddy.Repr
      ensures TreeOk()
      ensures pte == None <==> old(Free()) == {}
      ensures pte == None ==> Now() == old(Now()) && table == old(table)
      ensures pte.Some? ==>
                && Hooked(old(Now()), Now(), pte.value, Pt(root, a, b))
                && pte.value < |old(table)|
                   && table == Put(old(table)[pte.value := ZeroTable], pmd, b, TableEntry(pte.value))
    {
      hide Buddy.Valid, Refines, Walk, Live, KeepsLive, FreeFrames, Extended;
      ghost var was := Now();
      buddy.Bounds();
      pte := AllocPage();
      if pte == None {
        return;
      }
      var f := pte.value;
      AddPt(table, own, root, a, pmd, b, f);
      RefinesSame(table, Put(table, pmd, b, TableEntry(f)), own, own[f := Pt(root, a, b)], maps);
      table := Put(table, pmd, b, TableEntry(f));
      BackedAdd(buddy.frameArray[..], own, f, Pt(root, a, b));
      HookedByTable(was, Now(), f, Pt(root, a, b));
      own := own[f := Pt(root, a, b)];
    }

    /** A new root as thread_create and do_exec set it up: an empty user half, the kernel's upper half. */
    method NewRoot() returns (root: Option<nat>)
      requires TreeOk()
      modifies this`table, this`bytes, this`own, buddy.Repr
      ensures TreeOk()
      ensures root == None <==> old(Free()) == {}
      ensures root == None ==> Now() == old(Now()) && table == old(table)
      ensures root.Some? ==>
                && Hooked(old(Now()), Now(), root.value, Root)
                && (forall i: nat :: i < USER_TOP ==> !table[root.value][i].valid)
                && (forall i: nat :: USER_TOP <= i < ENTRIES ==> table[root.value][i] == kernelDir[i])
                && (forall v: nat :: Slot(root.value, v) !in maps)
    {
      hide Buddy.Valid, Walk, Live, KeepsLive, FreeFrames, Extended;
      ghost var was := Now();
      buddy.Bounds();
      root := AllocPage();
      if root == None {
        return;
      }
      var f := root.value;
      HookedByTable(was, Now(), f, Root);
      ghost var tab := table;
      CopyKernelHalf(f);
      RefinesNewRoot(tab, table, own, maps, f);
      BackedAdd(buddy.frameArray[..], own, f, Root);
      own := own[f := Root];
    }

    /** The upper half of a root is a copy of pg_dir's. */
    method CopyKernelHalf(f: nat)
      requires f < |table|
      modifies this`table
      ensures |table| == |old(table)|
      ensures forall g: nat :: g < |table| && g != f ==> table[g] == old(table[g])
      ensures forall i: nat :: i < ENTRIES ==> table[f][i] == if i < USER_TOP then old(table[f][i]) else kernelDir[i]
    {
      for i := USER_TOP to ENTRIES
        invariant |table| == |old(table)|
        invariant forall g: nat :: g < |table| && g != f ==> table[g] == old(table[g])
        invariant forall j: nat :: j < ENTRIES ==>
                    table[f][j] == if USER_TOP <= j < i then kernelDir[j] else old(table[f][j])
      {
        table := Put(table, f, i, kernelDir[i]);
      }
    }

    /** map_pages: n pages from v on point to consecutive frames. */
    method MapPages(root: nat, v: nat, n: nat, frame: nat, prot: Prot)
      requires TreeOk() && Is(own, root, Root) && v + n <= USER_PAGES
      requires |Free()| >= |Missing(own, root, v, n)|
      modifies this, buddy.Repr
      ensures TreeOk() && Tables(own) == Tables(old(own)) + Needed(root, v, n)
      ensures |Free()| == |old(Free())| - |Missing(old(own), root, v, n)|
      ensures maps == MapRange(old(maps), root, v, n, frame, prot)
      ensures Extended(old(Now()), Now()) && SameRoots(old(own), own)
    {
      hide Buddy.Valid, MapRange, Memory.Represents, Extended, SameRoots, Tables, Missing, Needed, FreeFrames;
      ghost var was := Now();
      var i := 0;
      ExtendedRefl(was);
      SameRootsRefl(own);
      MapRangeNone(maps, root, v, frame, prot);
      MissingNone(own, root, v);
      while i < n
        invariant i <= n
        invariant TreeOk() && Is(own, root, Root)
        invariant maps == MapRange(was.maps, root, v, i, frame, prot)
        invariant Extended(was, Now()) && SameRoots(was.own, own)
        invariant Tables(own) == Tables(was.own) + Needed(root, v, i)
        invariant |Free()| == |was.free| - |Missing(was.own, root, v, i)|
      {
        ghost var mid := Now();
        MissingNext(was.own, own, root, v, i, n);
        PageWalk(root, v + i, frame + i, prot);
        ExtendedTransitive(was, mid, Now());
        SameRootsTransitive(was.own, mid.own, own);
        ExtendedKeeps(mid, Now(), root);
        MapRangeNext(was.maps, root, v, i, frame, prot);
        i := i + 1;
      }
    }

    /** alloc_page and a fill. */
    method FilledPage(contents: Page) returns (page: Option<nat>)
      requires TreeOk()
      modifies this`table, this`bytes, buddy.Repr
      ensures TreeOk()
      ensures page == None <==> old(Free()) == {}
      ensures page == None ==> Now() == old(Now()) && table == old(table)
      ensures page.Some? ==>
                var f := page.value;
                && f in old(Free()) && f !in own && f < |old(bytes)| == |old(table)| == |old(Refs())|
                && table == old(table)[f := ZeroTable] && bytes == old(bytes)[f := contents]
                && Free() == old(Free()) - {f} && Refs() == old(Refs())[f := 1]
                && LivePage(buddy.frameArray[..], f)
      ensures KeepsLive(old(buddy.frameArray[..]), buddy.frameArray[..], {})
    {
      hide Buddy.Valid, Memory.Represents, Live, KeepsLive, FreeFrames;
      Bounds();
      page := AllocPage();
      if page.Some? {
        Overwrite(page.value, contents);
      }
    }

    /** alloc_page, a fill and map_pages: page v gets a frame of its own with the given contents. */
    method InstallPage(root: nat, v: nat, contents: Page, prot: Prot) returns (frame: Option<nat>)
      requires Valid() && Is(own, root, Root) && v < USER_PAGES && Slot(root, v) !in maps && prot.user
      requires Free() == {} || |Free()| >= 1 + |Missing(own, root, v, 1)|
      modifies this, buddy.Repr
      ensures Valid()
      ensures frame == None <==> old(Free()) == {}
      ensures frame == None ==> Now() == old(Now())
      ensures frame.Some? ==>
                var f := frame.value;
                && f in old(Free()) && f !in old(own) && f < |bytes| && bytes[f] == contents
                && maps == old(maps)[Slot(root, v) := LeafEntry(f, prot)]
                && Populated(old(Now()), Now(), f) && SameRoots(old(own), own)
                && Tables(own) == Tables(old(own)) + Needed(root, v, 1)
                && |Free()| == |old(Free())| - 1 - |Missing(old(own), root, v, 1)|
    {
      hide Buddy.Valid, Memory.Represents, Live, KeepsLive, FreeFrames, CowInv, Extended, Populated, SameRoots, Tables;
      hide Missing, Needed;
      ghost var was := Now();
      Bounds();
      frame := FilledPage(contents);
      if frame == None {
        return;
      }
      var f := frame.value;
      ghost var mid := Now();
      CowElsewhere(maps, own, was.refs, Refs());
      MapPages(root, v, 1, f, prot);
      MapRangeNone(was.maps, root, v, f, prot);
      MapRangeNext(was.maps, root, v, 0, f, prot);
      Bounds();
      ghost var last := Now();
      InstallFacts(was, mid, last, f);
      ExtendedCow(was.maps, mid, last);
      MapFresh(was.maps, own, Refs(), Slot(root, v), LeafEntry(f, prot));
      SameRootsAdd(own, f, User);
      SameRootsTransitive(mid.own, own, own[f := User]);
      TablesAdd(own, f, User);
      Adopt(f);
    }

    /** New contents for a frame, read as bytes. */
    method Overwrite(f: nat, contents: Page)
      requires TreeOk() && f < |bytes|
      modifies this`bytes
      ensures TreeOk() && bytes == old(bytes)[f := contents]
    {
      hide Buddy.Valid, Tree, Refines, Backed;
      bytes := bytes[f := contents];
    }

    /** Record that a live page holds user data. */
    ghost method Adopt(f: nat)
      requires TreeOk() && f !in own && f < |table| && LivePage(buddy.frameArray[..], f)
      modifies this`own
      ensures TreeOk() && own == old(own)[f := User]
    {
      hide Buddy.Valid, Tree, Refines, Walk, Live, KeepsLive, Backed;
      buddy.Bounds();
      AddUser(table, own, f);
      RefinesSame(table, table, own, own[f := User], maps);
      BackedAdd(buddy.frameArray[..], own, f, User);
      own := own[f := User];
    }

    lemma Bounds()
      requires TreeOk()
      ensures Shape() && buddy.Valid()
      ensures |table| == |bytes| == |Refs()| == buddy.total && 0 < buddy.base && buddy.frameArray != buddy.refCount
      ensures buddy.base + buddy.total * PAGE_SIZE <= buddy.limit
      ensures buddy.Repr == {buddy, buddy.frameArray, buddy.refCount, buddy.nodes.prev, buddy.nodes.next}
    {
    }

    /** What the memory is made of, apart from the page-frame allocator. */
    lemma Unpack()
      requires Valid()
      ensures Shape() && Backed(buddy.frameArray[..], own) && Tree(table, own) && Refines(table, own, maps)
      ensures CowInv(maps, own, Refs())
    {
    }

    lemma TablesIn(s: Snap, root: nat, v: nat)
      requires Valid() && Grew(s, Now()) && SameRoots(s.own, own) && Tables(own) == Tables(s.own) + Needed(root, v, 1)
      ensures GrownIn(s, Now(), root)
    {
      hide Grew, SameRoots, Tables, Needed, CowInv, Refines, Tree;
      Unpack();
      NewTables(table, s, Now(), root, v, 1);
    }

    /** Whatever has happened to blocks that no address space uses, nothing has happened here. */
    lemma Undisturbed(fa: seq<int>, refs: seq<int>, gone: set<nat>)
      requires this !in buddy.Repr && buddy.Valid() && |table| == |bytes| == buddy.total
      requires Backed(fa, own) && Tree(table, own) && Refines(table, own, maps) && CowInv(maps, own, refs)
      requires KeepsLive(fa, buddy.frameArray[..], gone) && gone !! own.Keys
      requires |Refs()| == |refs| && forall f :: f in own && f < |refs| ==> Refs()[f] == refs[f]
      ensures Valid()
    {
      hide Buddy.Valid, Tree, Refines, CowInv, Live, KeepsLive, LivePage;
      BackedApart(fa, buddy.frameArray[..], own, gone);
      CowElsewhere(maps, own, refs, Refs());
    }

    /** A tree without leaf tables maps nothing. */
    lemma NoTablesNoPages(root: nat)
      requires TreeOk() && forall a: nat, b: nat :: Pt(root, a, b) !in Tables(own)
      ensures forall v: nat :: Slot(root, v) !in maps
    {
      hide Vpn2, Vpn1, Vpn0, Tables;
      forall v: nat
        ensures Slot(root, v) !in maps
      {
        if Slot(root, v) in maps {
          WalkPath(table, own, root, v);
          InTables(own, Ent(table, Ent(table, root, Vpn2(v)).ppn, Vpn1(v)).ppn, Pt(root, Vpn2(v), Vpn1(v)));
        }
      }
    }

    /** An entry of a leaf table is valid exactly when its page is mapped. */
    lemma PresentEntry(t: nat, c: nat, s: Slot)
      requires TreeOk() && s.vpn < USER_PAGES && Is(own, s.root, Root)
      requires c == Vpn0(s.vpn) && Is(own, t, Pt(s.root, Vpn2(s.vpn), Vpn1(s.vpn)))
      ensures t < |table| && (s in maps <==> table[t][c].valid) && (s in maps ==> maps[s] == table[t][c])
    {
      JoinSplit(s.vpn);
      LeafSlot(table, own, maps, s.root, Vpn2(s.vpn), Vpn1(s.vpn), t, c);
      assert s == Slot(s.root, s.vpn);
    }

    lemma FrameArrayOk()
      requires TreeOk()
      ensures WF(buddy.frameArray[..], 0, 0) && |buddy.frameArray[..]| == buddy.total
    {
    }

    /** Every table is part of a tree whose root is there. */
    lemma TreesHaveRoots()
      requires TreeOk()
      ensures forall f: nat, r: nat :: f in own && InTree(own[f], f, r) ==> r in own
    {
      forall f: nat, r: nat | f in own && InTree(own[f], f, r)
        ensures r in own
      {
        RootOf(f);
      }
    }

    /** The tree a table belongs to has a root. */
    lemma RootOf(t: nat)
      requires TreeOk() && t in own
      ensures t < |table|
      ensures own[t].Pmd? ==> Is(own, own[t].root, Root)
      ensures own[t].Pt? ==> Is(own, own[t].root, Root)
    {
      match own[t] {
        case Root =>
        case Pmd(r, a) => assert Leads(table, own, r, a, t);
        case Pt(r, a, b) => assert LeadsTo(table, own, r, a, b, t);
        case User =>
      }
    }

    lemma RootEntry(r: nat, a: nat)
      requires TreeOk() && Is(own, r, Root) && a < USER_TOP
      ensures r < |table| && (table[r][a].valid ==> Is(own, table[r][a].ppn, Pmd(r, a)))
      ensures table[r][a].valid <==> Pmd(r, a) in Tables(own)
      ensures !table[r][a].valid ==> forall v: nat :: Join(a, 0, 0) <= v < Join(a + 1, 0, 0) ==> Slot(r, v) !in maps
    {
      RootChild(table, own, r, a);
      PmdThere(table, own, r, a);
      if !table[r][a].valid {
        NoSlotsBelowRoot(table, own, maps, r, a);
      }
    }

    lemma MiddleEntry(m: nat, r: nat, a: nat, b: nat)
      requires TreeOk() && Is(own, m, Pmd(r, a)) && a < USER_TOP && b < ENTRIES
      ensures m < |table| && (table[m][b].valid ==> Is(own, table[m][b].ppn, Pt(r, a, b)))
      ensures table[m][b].valid <==> Pt(r, a, b) in Tables(own)
      ensures !table[m][b].valid ==> forall v: nat :: Join(a, b, 0) <= v < Join(a, b + 1, 0) ==> Slot(r, v) !in maps
    {
      MiddleChild(table, own, r, a, m, b);
      PtThere(table, own, r, a, m, b);
      if !table[m][b].valid {
        NoSlotsBelowMiddle(table, own, maps, r, a, m, b);
      }
    }

    /** Facts about a mapped page. */
    lemma MappedFrame(s: Slot)
      requires Valid() && s in maps
      ensures Is(own, s.root, Root) && s.vpn < USER_PAGES
      ensures var f := maps[s].ppn;
              && Is(own, f, User) && f < buddy.total == |bytes| == |table| == |Refs()|
              && LivePage(buddy.frameArray[..], f) && f !in Free() && Refs()[f] >= 1
              && maps[s].valid && maps[s].user
    {
      LeafIsUser(maps, own, Refs(), s);
      BackedNotFree(buddy.frameArray[..], own);
    }

    /**
     The copy path of the fault handler: the page gets a frame of its own with the same contents
     and write permission, and the old frame loses a reference. None: out of memory.
     */
    method CopyShared(t: nat, c: nat, ghost s: Slot) returns (page: Option<nat>)
      requires Valid() && s in maps && c == Vpn0(s.vpn) && Is(own, t, Pt(s.root, Vpn2(s.vpn), Vpn1(s.vpn)))
      requires t < |table| && table[t][c] == maps[s] && Refs()[maps[s].ppn] > 1
      modifies this, buddy.Repr
      ensures Valid()
      ensures page == None <==> old(Free()) == {}
      ensures page == None ==> Now() == old(Now()) && maps == old(maps)
      ensures page.Some? ==>
                var g, f := page.value, old(maps[s].ppn);
                && g in old(Free()) && g !in old(own) && g < |old(bytes)| && Free() == old(Free()) - {g}
                && own == old(own)[g := User] && Populated(old(Now()), Now(), g)
                && maps == old(maps)[s := old(maps[s]).(ppn := g, write := true)]
                && bytes == old(bytes)[g := old(bytes)[f]]
    {
      hide Buddy.Valid, Memory.Represents, Walk, Live, KeepsLive, CowInv, FreeFrames, Populated;
      Bounds();
      MappedFrame(s);
      var entry := table[t][c];
      ghost var m, o, refs, was := maps, own, Refs(), Now();
      page := FilledPage(bytes[entry.ppn]);
      if page == None {
        return;
      }
      var g := page.value;
      CowElsewhere(m, o, refs, Refs());
      Repoint(m, o, Refs(), s, g);
      WriteLeaf(t, c, entry.(ppn := g, write := true), s.root, s.vpn);
      FreeShared(entry.ppn);
      Adopt(g);
      CopyFacts(was, Now(), g, entry.ppn);
    }

    /** The in-place path of the fault handler: the only user of a frame may write to it again. */
    method RestoreWrite(t: nat, c: nat, ghost s: Slot)
      requires Valid() && s in maps && c == Vpn0(s.vpn) && Is(own, t, Pt(s.root, Vpn2(s.vpn), Vpn1(s.vpn)))
      requires t < |table| && table[t][c] == maps[s] && maps[s].ppn < |Refs()| && Refs()[maps[s].ppn] == 1
      modifies this`table, this`maps
      ensures Valid() && maps == old(maps)[s := old(maps[s]).(write := true)]
    {
      hide Buddy.Valid, Tree, Refines, Walk, Live, KeepsLive, CowInv, FreeFrames;
      MappedFrame(s);
      MakeWritable(maps, own, Refs(), s);
      WriteLeaf(t, c, table[t][c].(write := true), s.root, s.vpn);
    }

    /** What a store instruction does to a frame. */
    method StoreByte(f: nat, o: nat, b: byte)
      requires Valid() && f < |bytes| && o < PAGE_SIZE
      modifies this`bytes
      ensures Valid() && bytes == old(bytes)[f := old(bytes)[f][o := b]]
    {
      hide CowInv, Memory.Represents;
      var page: Page := bytes[f][o := b];
      Overwrite(f, page);
    }

    /** walk_pte: where the leaf entry of page v is, if its table exists. */
    method WalkPte(root: nat, v: nat) returns (at: Option<(nat, nat)>)
      requires TreeOk() && Is(own, root, Root) && v < USER_PAGES
      ensures at == None ==> Slot(root, v) !in maps
      ensures at.Some? ==>
                && Is(own, at.value.0, Pt(root, Vpn2(v), Vpn1(v))) && at.value.1 == Vpn0(v)
                && table[at.value.0][at.value.1] == Walk(table, root, v)
    {
      WalkPath(table, own, root, v);
      var e2 := table[root][Vpn2(v)];
      if !e2.valid {
        return None;
      }
      var e1 := table[e2.ppn][Vpn1(v)];
      if !e1.valid {
        return None;
      }
      at := Some((e1.ppn, Vpn0(v)));
    }

    /** unmap_page: clear the leaf entry of page v, if its table exists. */
    method UnmapPage(root: nat, v: nat)
      requires TreeOk() && Is(own, root, Root) && v < USER_PAGES
      modifies this`table, this`maps
      ensures TreeOk()
      ensures maps == old(maps) - {Slot(root, v)}
    {
      hide Buddy.Valid, Refines;
      WalkPath(table, own, root, v);
      MappedIffValid(table, own, maps, root, v);
      JoinSplit(v);
      var e2 := table[root][Vpn2(v)];
      if !e2.valid {
        return;
      }
      var e1 := table[e2.ppn][Vpn1(v)];
      if !e1.valid {
        return;
      }
      PutLeaf(table, own, root, Vpn2(v), Vpn1(v), e1.ppn, Vpn0(v), Null);
      RefinesClear(table, Put(table, e1.ppn, Vpn0(v), Null), own, maps, root, v);
      table := Put(table, e1.ppn, Vpn0(v), Null);
      maps := maps - {Slot(root, v)};
    }

    /**
     free_user_space: drop every user page of the tree at `root`, then its tables and the root itself.
     The entries in memory are not cleared; the ghost tables `g` are, so that they represent what is left.
     */
    method FreeUserSpace(root: nat)
      requires Valid() && Is(own, root, Root)
      modifies this`own, this`maps, buddy.Repr
      ensures Valid()
      ensures maps == Cut(old(maps), root, 0, USER_PAGES)
      ensures Shrunk(old(Now()), Now(), root)
      ensures forall f :: f in own ==> !InTree(own[f], f, root)
    {
      hide Buddy.Valid, Tree, Refines, Walk, Live, KeepsLive, CowInv, Shrunk, Cut, Backed, InTree, FreeFrames;
      ghost var g := table;
      ShrunkRefl(Now(), root);
      CutNothing(maps, root, 0, 0);
      OwnedInRange(g, own);
      var a := 0;
      while a < USER_TOP
        invariant a <= USER_TOP && root < |g| == |table| && Represents(g) && CowInv(maps, own, Refs())
                  && Is(own, root, Root)
        invariant maps == Cut(old(maps), root, 0, Join(a, 0, 0))
        invariant Shrunk(old(Now()), Now(), root)
        invariant forall f: nat :: f in own && f != root ==> f < |g| && g[f] == table[f]
        invariant forall i: nat :: i < a ==> !g[root][i].valid
        invariant forall i: nat :: a <= i < ENTRIES ==> g[root][i] == table[root][i]
      {
        ghost var m, was := maps, Now();
        CutTwice(old(maps), root, 0, Join(a, 0, 0), Join(a + 1, 0, 0));
        RootChild(g, own, root, a);
        if table[root][a].valid {
          var pmd := table[root][a].ppn;
          g := FreeMiddle(g, root, a, pmd);
          ShrunkTransitive(old(Now()), was, Now(), root);
          was := Now();
          g := DropMiddle(g, root, a, pmd);
          ShrunkTransitive(old(Now()), was, Now(), root);
        } else {
          NoSlotsBelowRoot(g, own, maps, root, a);
          CutNothing(m, root, Join(a, 0, 0), Join(a + 1, 0, 0));
        }
        a := a + 1;
      }
      ghost var was := Now();
      DropRoot(g, root);
      ShrunkTransitive(old(Now()), was, Now(), root);
    }

    /** free_user_space, last step: the root itself. */
    method DropRoot(ghost g: seq<Table>, root: nat)
      requires Represents(g) && CowInv(maps, own, Refs()) && Is(own, root, Root)
      requires forall f: nat :: f in own && f != root ==> g[f] == table[f]
      requires forall a: nat :: a < USER_TOP ==> !g[root][a].valid
      modifies this`own, buddy.Repr
      ensures Valid() && Shrunk(old(Now()), Now(), root)
      ensures forall f :: f in own ==> !InTree(own[f], f, root)
    {
      hide Buddy.Valid, Tree, Refines, Walk, Live, KeepsLive, CowInv, InTree, Shrunk, FreeFrames;
      buddy.Bounds();
      OwnedInRange(g, own);
      RefinesWithoutRoot(g, table, own, maps, root);
      assert InTree(Root, root, root) by { InTreeRoot(root); }
      DropTable(maps, own, Refs(), root);
      ghost var was := Now();
      FreePage(root);
      BackedBut(was.fa, buddy.frameArray[..], own, root);
      own := own - {root};
      ShrunkByDrop(was, Now(), root, root);
    }

    /** free_user_space: everything below one second-level table. */
    method FreeMiddle(ghost g: seq<Table>, ghost root: nat, ghost a: nat, pmd: nat) returns (ghost g': seq<Table>)
      requires Represents(g) && CowInv(maps, own, Refs()) && Is(own, pmd, Pmd(root, a)) && a < USER_TOP
      requires forall f: nat :: f in own && f != root ==> g[f] == table[f]
      modifies this`own, this`maps, buddy.Repr
      ensures Represents(g') && CowInv(maps, own, Refs()) && Is(own, pmd, Pmd(root, a)) && Is(own, root, Root)
      ensures maps == Cut(old(maps), root, Join(a, 0, 0), Join(a + 1, 0, 0))
      ensures Shrunk(old(Now()), Now(), root)
      ensures forall f: nat :: f in own && f != root && f != pmd ==> g'[f] == table[f]
      ensures g'[root] == g[root]
      ensures forall b: nat :: b < ENTRIES ==> !g'[pmd][b].valid
    {
      hide Buddy.Valid, Tree, Refines, Walk, Live, KeepsLive, CowInv, Shrunk, Cut, Backed, InTree, FreeFrames;
      g' := g;
      ShrunkRefl(Now(), root);
      CutNothing(maps, root, Join(a, 0, 0), Join(a, 0, 0));
      MiddleChild(g, own, root, a, pmd, 0);
      OwnedInRange(g, own);
      var b := 0;
      while b < ENTRIES
        invariant b <= ENTRIES && pmd < |g'| == |table| && root < |g| && Represents(g') && CowInv(maps, own, Refs())
                  && Is(own, pmd, Pmd(root, a)) && Is(own, root, Root)
        invariant maps == Cut(old(maps), root, Join(a, 0, 0), Join(a, b, 0))
        invariant Shrunk(old(Now()), Now(), root)
        invariant forall f: nat :: f in own && f != root && f != pmd ==> f < |g'| && g'[f] == table[f]
        invariant g'[root] == g[root]
        invariant forall i: nat :: i < b ==> !g'[pmd][i].valid
        invariant forall i: nat :: b <= i < ENTRIES ==> g'[pmd][i] == table[pmd][i]
      {
        ghost var m, was := maps, Now();
        CutTwice(old(maps), root, Join(a, 0, 0), Join(a, b, 0), Join(a, b + 1, 0));
        MiddleChild(g', own, root, a, pmd, b);
        if table[pmd][b].valid {
          g' := FreeSubtable(g', root, a, b, pmd, table[pmd][b].ppn);
          ShrunkOwn(was, Now(), root);
          ShrunkTransitive(old(Now()), was, Now(), root);
        } else {
          NoSlotsBelowMiddle(g', own, maps, root, a, pmd, b);
          CutNothing(m, root, Join(a, b, 0), Join(a, b + 1, 0));
        }
        b := b + 1;
      }
    }

    /** free_user_space: one leaf table with its pages. */
    method FreeSubtable(ghost g: seq<Table>, ghost root: nat, ghost a: nat, ghost b: nat, ghost pmd: nat, pte: nat)
      returns (ghost g': seq<Table>)
      requires Represents(g) && CowInv(maps, own, Refs()) && a < USER_TOP && b < ENTRIES
      requires Is(own, root, Root) && Is(own, pmd, Pmd(root, a)) && Is(own, pte, Pt(root, a, b)) && g[pte] == table[pte]
      modifies this`own, this`maps, buddy.Repr
      ensures Represents(g') && CowInv(maps, own, Refs()) && Is(own, root, Root) && Is(own, pmd, Pmd(root, a))
      ensures maps == Cut(old(maps), root, Join(a, b, 0), Join(a, b + 1, 0)) && Shrunk(old(Now()), Now(), root)
      ensures forall f: nat :: f < |g| && f != pte && f != pmd ==> g'[f] == g[f]
      ensures pte !in own && pmd < |g| && g'[pmd] == g[pmd][b := Null]
    {
      hide Buddy.Valid, Tree, Refines, Walk, Live, KeepsLive, CowInv, Shrunk;
      ghost var was := Now();
      OwnedInRange(g, own);
      g' := FreeLeaves(g, root, a, b, pte);
      ghost var mid := Now();
      g' := DropLeafTable(g', root, a, b, pmd, pte);
      ShrunkTransitive(was, mid, Now(), root);
    }

    /** free_user_space: an emptied leaf table. */
    method DropLeafTable(ghost g: seq<Table>, ghost root: nat, ghost a: nat, ghost b: nat, ghost pmd: nat,
                         pte: nat) returns (ghost g': seq<Table>)
      requires Represents(g) && CowInv(maps, own, Refs()) && b < ENTRIES
      requires Is(own, pmd, Pmd(root, a)) && Is(own, pte, Pt(root, a, b))
      requires forall c: nat :: c < ENTRIES ==> !g[pte][c].valid
      modifies this`own, buddy.Repr
      ensures Represents(g') && CowInv(maps, own, Refs()) && own == old(own) - {pte}
      ensures Shrunk(old(Now()), Now(), root)
      ensures g' == Put(g, pmd, b, Null)
    {
      hide Buddy.Valid, Tree, Refines, Walk, Live, KeepsLive, CowInv, Shrunk, FreeFrames;
      buddy.Bounds();
      assert forall c: nat :: c < ENTRIES ==> !Ent(g, pte, c).valid;
      RemovePt(g, own, root, a, b, pmd, pte);
      g' := Put(g, pmd, b, Null);
      DropTable(maps, own, Refs(), pte);
      RefinesSame(g, g', own, own - {pte}, maps);
      ghost var was := Now();
      FreePage(pte);
      BackedBut(was.fa, buddy.frameArray[..], own, pte);
      own := own - {pte};
      ShrunkByDrop(was, Now(), root, pte);
    }

    /** free_user_space: an emptied second-level table. */
    method DropMiddle(ghost g: seq<Table>, ghost root: nat, ghost a: nat, pmd: nat) returns (ghost g': seq<Table>)
      requires Represents(g) && CowInv(maps, own, Refs()) && a < USER_TOP
      requires Is(own, root, Root) && Is(own, pmd, Pmd(root, a))
      requires forall b: nat :: b < ENTRIES ==> !g[pmd][b].valid
      modifies this`own, buddy.Repr
      ensures Represents(g') && CowInv(maps, own, Refs()) && own == old(own) - {pmd}
      ensures Shrunk(old(Now()), Now(), root)
      ensures g' == Put(g, root, a, Null)
    {
      hide Buddy.Valid, Tree, Refines, Walk, Live, KeepsLive, CowInv, Shrunk, FreeFrames;
      buddy.Bounds();
      assert forall b: nat :: b < ENTRIES ==> !Ent(g, pmd, b).valid;
      RemovePmd(g, own, root, a, pmd);
      g' := Put(g, root, a, Null);
      DropTable(maps, own, Refs(), pmd);
      RefinesSame(g, g', own, own - {pmd}, maps);
      ghost var was := Now();
      FreePage(pmd);
      BackedBut(was.fa, buddy.frameArray[..], own, pmd);
      own := own - {pmd};
      ShrunkByDrop(was, Now(), root, pmd);
    }

    /** free_user_space, inner loop: drop the user pages of one leaf table. */
    method FreeLeaves(ghost g: seq<Table>, ghost root: nat, ghost a: nat, ghost b: nat,
                      t: nat) returns (ghost g': seq<Table>)
      requires Represents(g) && CowInv(maps, own, Refs()) && Is(own, t, Pt(root, a, b)) && a < USER_TOP && b < ENTRIES
      requires g[t] == table[t]
      modifies this`own, this`maps, buddy.Repr
      ensures Represents(g') && CowInv(maps, own, Refs()) && Is(own, t, Pt(root, a, b))
      ensures maps == Cut(old(maps), root, Join(a, b, 0), Join(a, b + 1, 0))
      ensures Shrunk(old(Now()), Now(), root) && KeepsTables(old(own), own)
      ensures forall f: nat :: f < |g| && f != t ==> g'[f] == g[f]
      ensures forall c: nat :: c < ENTRIES ==> !g'[t][c].valid
    {
      hide Buddy.Valid, Tree, Refines, Walk, Live, KeepsLive, CowInv, Shrunk, Cut, Backed, InTree, FreeFrames;
      g' := g;
      ShrunkRefl(Now(), root);
      CutNothing(maps, root, Join(a, b, 0), Join(a, b, 0));
      OwnedInRange(g, own);
      var c := 0;
      while c < ENTRIES
        invariant c <= ENTRIES && t < |g'| == |table| && Represents(g') && CowInv(maps, own, Refs())
                  && Is(own, t, Pt(root, a, b))
        invariant maps == Cut(old(maps), root, Join(a, b, 0), Join(a, b, c))
        invariant Shrunk(old(Now()), Now(), root) && KeepsTables(old(own), own)
        invariant forall f: nat :: f < |g| && f != t ==> g'[f] == g[f]
        invariant forall i: nat :: i < c ==> !g'[t][i].valid
        invariant forall i: nat :: c <= i < ENTRIES ==> g'[t][i] == table[t][i]
      {
        ghost var m, was := maps, Now();
        LeafSlot(g', own, maps, root, a, b, t, c);
        CutTwice(old(maps), root, Join(a, b, 0), Join(a, b, c), Join(a, b, c + 1));
        if table[t][c].valid {
          LeafIsUser(maps, own, Refs(), Slot(root, Join(a, b, c)));
          if table[t][c].user {
            g' := DropLeaf(g', root, a, b, t, c);
            ShrunkTransitive(old(Now()), was, Now(), root);
            CutOne(m, root, Join(a, b, c));
          }
        } else {
          CutNothing(m, root, Join(a, b, c), Join(a, b, c + 1));
        }
        c := c + 1;
      }
    }

    /** free_user_space on one valid user entry. */
    method DropLeaf(ghost g: seq<Table>, ghost root: nat, ghost a: nat, ghost b: nat, t: nat,
                    c: nat) returns (ghost g': seq<Table>)
      requires Represents(g) && CowInv(maps, own, Refs()) && Is(own, t, Pt(root, a, b)) && a < USER_TOP && b < ENTRIES
               && c < ENTRIES
      requires g[t][c] == table[t][c]
      requires Slot(root, Join(a, b, c)) in maps && maps[Slot(root, Join(a, b, c))] == table[t][c]
      modifies this`own, this`maps, buddy.Repr
      ensures Represents(g') && CowInv(maps, own, Refs()) && Is(own, t, Pt(root, a, b))
      ensures maps == old(maps) - {Slot(root, Join(a, b, c))}
      ensures Shrunk(old(Now()), Now(), root) && KeepsTables(old(own), own)
      ensures g' == Put(g, t, c, Null)
    {
      hide Buddy.Valid, Tree, Refines, Walk, Live, KeepsLive, CowInv, Shrunk, FreeFrames;
      OwnedInRange(g, own);
      ghost var s := Slot(root, Join(a, b, c));
      var frame := table[t][c].ppn;
      buddy.Bounds();
      SplitJoin(a, b, c);
      Drop(maps, own, Refs(), s);
      PutLeaf(g, own, root, a, b, t, c, Null);
      LeafRoot(g, own, root, a, b, t);
      g' := Put(g, t, c, Null);
      RefinesClear(g, g', own, maps, root, Join(a, b, c));
      LeafIsUser(maps, own, Refs(), s);
      ghost var last, was := Refs()[frame] == 1, Now();
      FreePage(frame);
      maps := maps - {s};
      if last {
        RemoveUser(g', own, frame);
        RefinesSame(g', g', own, own - {frame}, maps);
        BackedBut(was.fa, buddy.frameArray[..], own, frame);
        own := own - {frame};
      }
      ShrunkByDrop(was, Now(), root, frame);
    }
  }

  /** The frame is one of the tables of the tree at `root`. */
  predicate InTree(role: Role, f: nat, root: nat) {
    match role
    case Root => f == root
    case Pmd(r, _) => r == root
    case Pt(r, _, _) => r == root
    case User => false
  }

  /** The trees have grown, and only one of them has new tables. */
  ghost predicate GrownIn(s: Snap, s': Snap, root: nat) {
    && (forall f :: f in s.own ==> f in s'.own && s'.own[f] == s.own[f])
    && (forall f :: f in s'.own && f !in s.own ==> s'.own[f] == User || InTree(s'.own[f], f, root))
  }

  /** Only one tree has new tables or other pages. */
  ghost predicate OnlyIn(s: Snap, s': Snap, root: nat) {
    && GrownIn(s, s', root)
    && (forall x: Slot :: x.root != root ==> (x in s.maps <==> x in s'.maps))
    && (forall x :: x in s.maps && x.root != root ==> s'.maps[x] == s.maps[x])
  }

  lemma OnlyInRefl(s: Snap, s': Snap, root: nat)
    requires s'.own == s.own && s'.maps == s.maps
    ensures OnlyIn(s, s', root)
  {
  }

  lemma OnlyInTransitive(s: Snap, s': Snap, s'': Snap, root: nat)
    requires OnlyIn(s, s', root) && OnlyIn(s', s'', root)
    ensures OnlyIn(s, s'', root)
  {
    hide InTree;
  }

  /** If the roles of tables that have come are those one tree needs, so are the tables. */
  lemma NewTables(tab: seq<Table>, s: Snap, s': Snap, root: nat, v: nat, n: nat)
    requires Tree(tab, s'.own) && Grew(s, s') && SameRoots(s.own, s'.own)
    requires Tables(s'.own) == Tables(s.own) + Needed(root, v, n)
    ensures GrownIn(s, s', root)
  {
    forall f | f in s'.own && f !in s.own
      ensures s'.own[f] == User || InTree(s'.own[f], f, root)
    {
      var role := s'.own[f];
      if role != User && role != Root {
        InTables(s'.own, f, role);
        if role in Tables(s.own) {
          var g :| g in s.own && s.own[g] == role;
          OnePlace(tab, s'.own, f, g);
          assert false;
        }
      } else if role == Root {
        assert Is(s'.own, f, Root);
        assert false;
      }
    }
  }

  /** No two frames are the same table. */
  lemma OnePlace(tab: seq<Table>, own: map<nat, Role>, f: nat, g: nat)
    requires Tree(tab, own) && f in own && g in own && own[f] == own[g] && (own[f].Pmd? || own[f].Pt?)
    ensures f == g
  {
    match own[f]
    case Pmd(r, a) => assert Leads(tab, own, r, a, f) && Leads(tab, own, r, a, g);
    case Pt(r, a, b) => assert LeadsTo(tab, own, r, a, b, f) && LeadsTo(tab, own, r, a, b, g);
  }

  /** User pages and tables of one tree have given up references; frames left without any have become free. */
  ghost predicate Shrunk(s: Snap, s': Snap, root: nat) {
    && (forall f :: f in s'.own ==> f in s.own && s'.own[f] == s.own[f])
    && (forall f :: f in s.own && f !in s'.own ==> s.own[f] == User || InTree(s.own[f], f, root))
    && s'.free == s.free + (s.own.Keys - s'.own.Keys)
    && s'.bytes == s.bytes
    && |s'.refs| == |s.refs| && (forall f :: 0 <= f < |s.refs| && f !in s.own ==> s'.refs[f] == s.refs[f])
    && KeepsLive(s.fa, s'.fa, s.own.Keys - s'.own.Keys)
  }

  ghost predicate KeepsTables(own: map<nat, Role>, own': map<nat, Role>) {
    forall f :: f in own && own[f] != User ==> f in own' && own'[f] == own[f]
  }

  lemma ShrunkRefl(s: Snap, root: nat)
    ensures Shrunk(s, s, root)
  {
  }

  /** One frame has given up one reference. */
  lemma ShrunkByDrop(s: Snap, s': Snap, root: nat, f: nat)
    requires f in s.own && f < |s.refs| && (s.own[f] == User || InTree(s.own[f], f, root)) && s'.bytes == s.bytes
    requires s'.refs == s.refs[f := s.refs[f] - 1]
    requires s'.own == if s.refs[f] > 1 then s.own else s.own - {f}
    requires s'.free == if s.refs[f] > 1 then s.free else s.free + {f}
    requires KeepsLive(s.fa, s'.fa, if s.refs[f] > 1 then {} else {f})
    ensures Shrunk(s, s', root)
  {
  }

  lemma ShrunkRoles(s: Snap, s': Snap, root: nat)
    requires Shrunk(s, s', root)
    ensures s'.bytes == s.bytes
    ensures forall f :: f in s.own && f in s'.own ==> s'.own[f] == s.own[f]
    ensures forall f :: f in s.own && f !in s'.own ==> s.own[f] == User || InTree(s.own[f], f, root)
  {
  }

  lemma ShrunkOwn(s: Snap, s': Snap, root: nat)
    requires Shrunk(s, s', root)
    ensures forall f :: f in s'.own ==> f in s.own
  {
  }

  lemma ShrunkTransitive(s: Snap, s': Snap, s'': Snap, root: nat)
    requires Shrunk(s, s', root) && Shrunk(s', s'', root)
    ensures Shrunk(s, s'', root)
  {
  }

  /** An absent second-level table means that none of its pages is mapped. */
  lemma NoSlotsBelowRoot(tab: seq<Table>, own: map<nat, Role>, maps: map<Slot, Pte>, root: nat, a: nat)
    requires Refines(tab, own, maps) && Is(own, root, Root) && root < |tab| && a < USER_TOP && !tab[root][a].valid
    ensures forall v: nat :: Join(a, 0, 0) <= v < Join(a + 1, 0, 0) ==> Slot(root, v) !in maps
  {
    hide Vpn2, Vpn1, Vpn0;
    forall v: nat | Join(a, 0, 0) <= v < Join(a + 1, 0, 0)
      ensures Slot(root, v) !in maps
    {
      PagesBelow(a, 0, v);
      assert !Walk(tab, root, v).valid;
    }
  }

  lemma NoSlotsBelowMiddle(tab: seq<Table>, own: map<nat, Role>, maps: map<Slot, Pte>, root: nat, a: nat, pmd: nat,
                           b: nat)
    requires Tree(tab, own) && Refines(tab, own, maps) && Is(own, pmd, Pmd(root, a)) && a < USER_TOP && b < ENTRIES
    requires pmd < |tab| && !tab[pmd][b].valid
    ensures forall v: nat :: Join(a, b, 0) <= v < Join(a, b + 1, 0) ==> Slot(root, v) !in maps
  {
    assert Leads(tab, own, root, a, pmd);
    hide Vpn2, Vpn1, Vpn0;
    forall v: nat | Join(a, b, 0) <= v < Join(a, b + 1, 0)
      ensures Slot(root, v) !in maps
    {
      PagesBelow(a, b, v);
      assert !Walk(tab, root, v).valid;
    }
  }

  lemma InTreeRoot(root: nat)
    ensures InTree(Root, root, root)
  {
  }

  lemma NoTablesBelowRoot(tab: seq<Table>, own: map<nat, Role>, root: nat)
    requires Tree(tab, own) && Is(own, root, Root)
    requires forall a: nat :: a < USER_TOP ==> !Ent(tab, root, a).valid
    ensures forall f :: f in own && f != root ==> !InTree(own[f], f, root)
  {
    forall f | f in own && f != root
      ensures !InTree(own[f], f, root)
    {
      match own[f] {
        case Root =>
        case Pmd(r, a) => assert Leads(tab, own, r, a, f);
        case Pt(r, a, b) => assert LeadsTo(tab, own, r, a, b, f);
        case User =>
      }
    }
  }

  lemma MappedIffValid(tab: seq<Table>, own: map<nat, Role>, maps: map<Slot, Pte>, root: nat, v: nat)
    requires Refines(tab, own, maps) && Is(own, root, Root) && v < USER_PAGES
    ensures Slot(root, v) in maps <==> Walk(tab, root, v).valid
    ensures Slot(root, v) in maps ==> maps[Slot(root, v)] == Walk(tab, root, v)
  {
  }

  lemma RootChild(tab: seq<Table>, own: map<nat, Role>, root: nat, a: nat)
    requires Tree(tab, own) && Is(own, root, Root) && a < USER_TOP
    ensures root < |tab| && (tab[root][a].valid ==> Is(own, tab[root][a].ppn, Pmd(root, a)))
  {
  }

  lemma MiddleChild(tab: seq<Table>, own: map<nat, Role>, root: nat, a: nat, pmd: nat, b: nat)
    requires Tree(tab, own) && Is(own, pmd, Pmd(root, a)) && b < ENTRIES
    ensures pmd < |tab| && Is(own, root, Root) && root < |tab|
    ensures tab[pmd][b].valid ==> Is(own, tab[pmd][b].ppn, Pt(root, a, b)) && tab[pmd][b].ppn < |tab|
  {
    assert Leads(tab, own, root, a, pmd);
    assert Ent(tab, pmd, b) == tab[pmd][b];
  }

  /** Without its root and with nothing mapped there, the rest is represented by any tables that agree on the rest. */
  lemma RefinesWithoutRoot(tab: seq<Table>, tab': seq<Table>, own: map<nat, Role>, maps: map<Slot, Pte>, root: nat)
    requires Tree(tab, own) && Refines(tab, own, maps) && Is(own, root, Root) && |tab'| == |tab|
    requires forall a: nat :: a < USER_TOP ==> !Ent(tab, root, a).valid
    requires forall f: nat :: f in own && f != root ==> f < |tab| && tab[f] == tab'[f]
    ensures Tree(tab', own - {root}) && Refines(tab', own - {root}, maps)
    ensures forall f :: f in own && f != root ==> !InTree(own[f], f, root)
  {
    hide Walk;
    RemoveRoot(tab, own, root);
    NoTablesBelowRoot(tab, own, root);
    TreeFrame(tab, tab', own - {root});
    forall s | s in maps
      ensures s.root != root
    {
      assert s == Slot(s.root, s.vpn);
    }
    RefinesSame(tab, tab', own - {root}, own - {root}, maps);
  }

  lemma OwnedInRange(tab: seq<Table>, own: map<nat, Role>)
    requires Tree(tab, own)
    ensures forall f :: f in own ==> f < |tab|
  {
  }

  lemma LeafRoot(tab: seq<Table>, own: map<nat, Role>, root: nat, a: nat, b: nat, t: nat)
    requires Tree(tab, own) && Is(own, t, Pt(root, a, b))
    ensures Is(own, root, Root)
  {
  }

  /** Entry c of a leaf table is what the map says about its page. */
  lemma LeafSlot(tab: seq<Table>, own: map<nat, Role>, maps: map<Slot, Pte>, root: nat, a: nat, b: nat, t: nat, c: nat)
    requires Tree(tab, own) && Refines(tab, own, maps) && Is(own, t, Pt(root, a, b)) && a < USER_TOP && b < ENTRIES
             && c < ENTRIES
    ensures t < |tab|
    ensures Slot(root, Join(a, b, c)) in maps <==> tab[t][c].valid
    ensures tab[t][c].valid ==> maps[Slot(root, Join(a, b, c))] == tab[t][c]
  {
    SplitJoin(a, b, c);
    assert LeadsTo(tab, own, root, a, b, t);
    assert Walk(tab, root, Join(a, b, c)) == Ent(tab, t, c);
  }

  lemma LeafIsUser(maps: map<Slot, Pte>, own: map<nat, Role>, refs: seq<int>, s: Slot)
    requires CowInv(maps, own, refs) && s in maps
    ensures maps[s].valid && maps[s].user && Is(own, maps[s].ppn, User) && maps[s].ppn < |refs|
  {
  }

  /** Only frames that were free may have been overwritten. */
  ghost predicate KeepsPages(bytes: seq<Page>, bytes': seq<Page>, free: set<nat>) {
    |bytes'| == |bytes| && forall f: nat :: f < |bytes| && f !in free ==> bytes'[f] == bytes[f]
  }

  function MapRange(maps: map<Slot, Pte>, root: nat, v: nat, n: nat, frame: nat, prot: Prot): map<Slot, Pte> {
    if n == 0 then maps
    else MapRange(maps, root, v, n - 1, frame, prot)[Slot(root, v + n - 1) := LeafEntry(frame + n - 1, prot)]
  }

  lemma MapRangeNone(maps: map<Slot, Pte>, root: nat, v: nat, frame: nat, prot: Prot)
    ensures MapRange(maps, root, v, 0, frame, prot) == maps
  {
  }

  lemma MapRangeNext(maps: map<Slot, Pte>, root: nat, v: nat, n: nat, frame: nat, prot: Prot)
    ensures MapRange(maps, root, v, n + 1, frame, prot)
         == MapRange(maps, root, v, n, frame, prot)[Slot(root, v + n) := LeafEntry(frame + n, prot)]
  {
  }

  /** map_pages changes exactly the pages of its range, each to its own frame. */
  lemma {:induction false} MapRangeExact(maps: map<Slot, Pte>, root: nat, v: nat, n: nat, frame: nat, prot: Prot,
                                         s: Slot)
    ensures var inRange := s.root == root && v <= s.vpn < v + n;
            && (s in MapRange(maps, root, v, n, frame, prot) <==> inRange || s in maps)
            && (inRange ==> MapRange(maps, root, v, n, frame, prot)[s] == LeafEntry(frame + (s.vpn - v), prot))
            && (!inRange && s in maps ==> MapRange(maps, root, v, n, frame, prot)[s] == maps[s])
  {
    if n > 0 {
      MapRangeExact(maps, root, v, n - 1, frame, prot, s);
    }
  }

  /** Representing is a matter of the walks of the roots alone. */
  lemma RefinesSame(tab: seq<Table>, tab': seq<Table>, own: map<nat, Role>, own': map<nat, Role>, maps: map<Slot, Pte>)
    requires Refines(tab, own, maps)
    requires forall r: nat :: Is(own', r, Root) <==> Is(own, r, Root)
    requires forall r: nat, v: nat :: Is(own, r, Root) && v < USER_PAGES ==> SameLeaf(Walk(tab', r, v), Walk(tab, r, v))
    ensures Refines(tab', own', maps)
  {
  }

  lemma RefinesPut(tab: seq<Table>, tab': seq<Table>, own: map<nat, Role>, maps: map<Slot, Pte>, root: nat, v: nat,
                   e: Pte)
    requires Refines(tab, own, maps) && Is(own, root, Root) && v < USER_PAGES && e.valid
    requires forall r: nat, w: nat :: Is(own, r, Root) && w < USER_PAGES ==>
               Walk(tab', r, w) == if r == root && w == v then e else Walk(tab, r, w)
    ensures Refines(tab', own, maps[Slot(root, v) := e])
  {
    var maps' := maps[Slot(root, v) := e];
    forall r: nat, w: nat | Is(own, r, Root) && w < USER_PAGES
      ensures Slot(r, w) in maps' <==> Walk(tab', r, w).valid
      ensures Slot(r, w) in maps' ==> maps'[Slot(r, w)] == Walk(tab', r, w)
    {
      assert Slot(r, w) == Slot(root, v) <==> r == root && w == v;
    }
  }

  lemma RefinesNewRoot(tab: seq<Table>, tab': seq<Table>, own: map<nat, Role>, maps: map<Slot, Pte>, f: nat)
    requires Tree(tab, own) && Refines(tab, own, maps) && f < |tab| == |tab'| && f !in own
    requires forall g: nat :: g < |tab| && g != f ==> tab'[g] == tab[g]
    requires forall i: nat :: i < USER_TOP ==> !tab'[f][i].valid
    ensures Tree(tab', own[f := Root]) && Refines(tab', own[f := Root], maps)
    ensures forall v: nat :: Slot(f, v) !in maps
  {
    hide Walk;
    TreeFrame(tab, tab', own);
    AddRoot(tab', own, f);
    forall v: nat
      ensures Slot(f, v) !in maps
    {
      assert Slot(f, v).root == f;
    }
  }

  lemma RefinesClear(tab: seq<Table>, tab': seq<Table>, own: map<nat, Role>, maps: map<Slot, Pte>, root: nat, v: nat)
    requires Refines(tab, own, maps) && Is(own, root, Root) && v < USER_PAGES
    requires forall r: nat, w: nat :: Is(own, r, Root) && w < USER_PAGES ==>
               Walk(tab', r, w) == if r == root && w == v then Null else Walk(tab, r, w)
    ensures Refines(tab', own, maps - {Slot(root, v)})
  {
  }
}
