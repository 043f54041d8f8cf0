/** The page-table part of do_fork: the child gets copies of the parent's tables and shares its pages. */
module Fork {
  import opened Basics
  import opened BuddySpec
  import opened BuddyAllocator
  import opened BuddyPages
  import opened Sv39
  import opened PageTree
  import opened Cow
  import opened Vm

  /** Tables of the child have come out of the free frames, and pages in use have gained references. */
  ghost predicate ForkGrown(s: Snap, s': Snap, child: nat) {
    Grew(s, s') && forall f :: f in s'.own && f !in s.own ==> InTree(s'.own[f], f, child)
  }

  lemma ForkGrownRefl(s: Snap, child: nat)
    ensures ForkGrown(s, s, child)
  {
    GrewRefl(s);
  }

  lemma ForkGrownTransitive(s: Snap, s': Snap, s'': Snap, child: nat)
    requires ForkGrown(s, s', child) && ForkGrown(s', s'', child)
    ensures ForkGrown(s, s'', child)
  {
    assert Grew(s, s'') by { GrewTransitive(s, s', s''); }
    hide KeepsPages, KeepsLive, InTree;
  }

  lemma ForkGrownGrew(s: Snap, s': Snap, child: nat)
    requires ForkGrown(s, s', child)
    ensures Grew(s, s') && forall f :: f in s.own ==> f in s'.own && s'.own[f] == s.own[f]
  {
  }

  lemma ForkGrownHooked(s: Snap, s': Snap, f: nat, role: Role, child: nat)
    requires Hooked(s, s', f, role) && InTree(role, f, child)
    ensures ForkGrown(s, s', child)
  {
    hide KeepsPages, KeepsLive;
  }

  lemma InTreePt(root: nat, a: nat, b: nat, f: nat)
    ensures InTree(Pt(root, a, b), f, root)
  {
  }

  /** Without free frames no table has been added. */
  lemma NothingGrown(s: Snap, s': Snap, child: nat)
    requires Grew(s, s') && s.free == {}
    requires forall f :: f in s.own && f != child ==> !InTree(s.own[f], f, child)
    requires Is(s.own, child, Root)
    ensures s'.own == s.own && forall a: nat, b: nat :: Pt(child, a, b) !in Tables(s'.own)
  {
    hide KeepsPages, KeepsLive;
    forall a: nat, b: nat
      ensures Pt(child, a, b) !in Tables(s'.own)
    {
      if Pt(child, a, b) in Tables(s'.own) {
        var f := TableFrame(s'.own, Pt(child, a, b));
        InTreePt(child, a, b, f);
      }
    }
  }

  /** A page in use has gained a reference. */
  lemma ForkGrownShared(s: Snap, s': Snap, f: nat, child: nat)
    requires s'.own == s.own && s'.free == s.free && s'.bytes == s.bytes && s'.fa == s.fa
    requires f in s.own && f < |s.refs| && s'.refs == s.refs[f := s.refs[f] + 1]
    ensures ForkGrown(s, s', child)
  {
    assert s'.own.Keys - s.own.Keys == {};
    KeepsLiveRefl(s.fa);
    hide KeepsLive;
  }

  /** Second-level tables of `parent` below entry i, and leaf tables before (a, b). */
  ghost predicate Before(r: Role, parent: nat, i: nat, a: nat, b: nat) {
    match r
    case Pmd(root, x) => root == parent && x < i
    case Pt(root, x, y) => root == parent && (x < a || (x == a && y < b))
    case _ => false
  }

  ghost function Below(t: set<Role>, parent: nat, i: nat, a: nat, b: nat): set<Role> {
    set r | r in t && Before(r, parent, i, a, b)
  }

  /** All tables of one tree but for its root. */
  ghost function AllBelow(t: set<Role>, parent: nat): set<Role> {
    Below(t, parent, USER_TOP, USER_TOP, 0)
  }

  function Rename(r: Role, child: nat): Role {
    match r
    case Pmd(_, a) => Pmd(child, a)
    case Pt(_, a, b) => Pt(child, a, b)
    case _ => r
  }

  /** The child's copies of those tables. */
  ghost function Copied(t: set<Role>, parent: nat, child: nat, i: nat, a: nat, b: nat): set<Role> {
    set r | r in Below(t, parent, i, a, b) :: Rename(r, child)
  }

  /** Tables hang together, and the child has none yet. */
  ghost predicate Ready(t: set<Role>, child: nat) {
    && (forall root: nat, a: nat :: Pmd(root, a) in t ==> a < USER_TOP && root != child)
    && (forall root: nat, a: nat, b: nat :: Pt(root, a, b) in t ==> b < ENTRIES && Pmd(root, a) in t)
  }

  lemma BelowNone(t: set<Role>, parent: nat, child: nat)
    ensures Below(t, parent, 0, 0, 0) == {} && Copied(t, parent, child, 0, 0, 0) == {}
  {
  }

  lemma BelowSize(t: set<Role>, parent: nat, i: nat, a: nat, b: nat, r: Role)
    requires r in AllBelow(t, parent) && r !in Below(t, parent, i, a, b)
             && Below(t, parent, i, a, b) <= AllBelow(t, parent)
    ensures |Below(t, parent, i, a, b)| < |AllBelow(t, parent)|
  {
    SubsetSize(Below(t, parent, i, a, b) + {r}, AllBelow(t, parent));
  }

  lemma BelowInAll(t: set<Role>, child: nat, parent: nat, i: nat, a: nat, b: nat)
    requires Ready(t, child) && i <= USER_TOP && a <= USER_TOP && (a == USER_TOP ==> b == 0)
    ensures Below(t, parent, i, a, b) <= AllBelow(t, parent)
  {
  }

  /** What one more table adds. */
  lemma BelowPmd(t: set<Role>, parent: nat, child: nat, a: nat)
    requires Ready(t, child)
    ensures var there := Pmd(parent, a) in t;
            && Below(t, parent, a + 1, a, 0) == Below(t, parent, a, a, 0) + (if there then {Pmd(parent, a)} else {})
            && Pmd(parent, a) !in Below(t, parent, a, a, 0)
            && Copied(t, parent, child, a + 1, a, 0)
            == Copied(t, parent, child, a, a, 0) + (if there then {Pmd(child, a)} else {})
  {
    forall r: Role
      ensures Before(r, parent, a + 1, a, 0) <==> Before(r, parent, a, a, 0) || r == Pmd(parent, a)
    {
      match r { case Pmd(_, _) => case _ => }
    }
    CopiedAdd(t, parent, child, a, a, 0, a + 1, a, 0, Pmd(parent, a));
  }

  lemma BelowPt(t: set<Role>, parent: nat, child: nat, a: nat, b: nat)
    requires Ready(t, child)
    ensures var there := Pt(parent, a, b) in t;
            && Below(t, parent, a + 1, a, b + 1)
               == Below(t, parent, a + 1, a, b) + (if there then {Pt(parent, a, b)} else {})
            && Pt(parent, a, b) !in Below(t, parent, a + 1, a, b)
            && Copied(t, parent, child, a + 1, a, b + 1)
            == Copied(t, parent, child, a + 1, a, b) + (if there then {Pt(child, a, b)} else {})
  {
    var i, next := a + 1, b + 1;
    forall r: Role
      ensures Before(r, parent, i, a, next) <==> Before(r, parent, i, a, b) || r == Pt(parent, a, b)
    {
      match r { case Pt(_, _, _) => case _ => }
    }
    CopiedAdd(t, parent, child, a + 1, a, b, a + 1, a, b + 1, Pt(parent, a, b));
  }

  lemma CopiedAdd(t: set<Role>, parent: nat, child: nat, i: nat, a: nat, b: nat, i': nat, a': nat, b': nat, x: Role)
    requires forall r :: Before(r, parent, i', a', b') <==> Before(r, parent, i, a, b) || r == x
    ensures Copied(t, parent, child, i', a', b')
         == Copied(t, parent, child, i, a, b) + (if x in t then {Rename(x, child)} else {})
  {
    var some := if x in t then {x} else {};
    assert Below(t, parent, i', a', b') == Below(t, parent, i, a, b) + some;
    hide Below, Rename;
  }

  /** Behind the last entry of one second-level table comes the first of the next; absent ones have no leaf tables. */
  lemma BelowNext(t: set<Role>, parent: nat, child: nat, a: nat, b: nat)
    requires Ready(t, child) && (b >= ENTRIES || (b == 0 && Pmd(parent, a) !in t))
    ensures Below(t, parent, a + 1, a, b) == Below(t, parent, a + 1, a + 1, 0)
    ensures Copied(t, parent, child, a + 1, a, b) == Copied(t, parent, child, a + 1, a + 1, 0)
  {
    forall r | r in t
      ensures Before(r, parent, a + 1, a, b) <==> Before(r, parent, a + 1, a + 1, 0)
    {
      match r { case Pt(_, _, _) => case _ => }
    }
    assert Below(t, parent, a + 1, a, b) == Below(t, parent, a + 1, a + 1, 0);
  }

  /** With so many frames, copying stops at the table for entry (a, b): a second-level table or a leaf table. */
  ghost predicate Stop(t: set<Role>, parent: nat, frames: nat, a: nat, b: nat) {
    && a < USER_TOP && b < ENTRIES
    && ((b == 0 && Pmd(parent, a) in t && |Below(t, parent, a, a, 0)| == frames)
        || (Pt(parent, a, b) in t && |Below(t, parent, a + 1, a, b)| == frames))
  }

  /** Copying stops before page n, the first below a table for which there is no frame. */
  ghost predicate StopsAt(t: set<Role>, parent: nat, frames: nat, n: nat) {
    exists a: nat, b: nat :: Stop(t, parent, frames, a, b) && n == Join(a, b, 0)
  }

  /** There is only one such page. */
  lemma OneStop(t: set<Role>, parent: nat, frames: nat, n: nat, n': nat)
    requires StopsAt(t, parent, frames, n) && StopsAt(t, parent, frames, n')
    ensures n == n'
  {
    var a: nat, b: nat :| Stop(t, parent, frames, a, b) && n == Join(a, b, 0);
    var a': nat, b': nat :| Stop(t, parent, frames, a', b') && n' == Join(a', b', 0);
    hide Stop;
    if a < a' || (a == a' && b < b') {
      StopsOnce(t, parent, frames, a, b, a', b');
    } else if a' < a || (a == a' && b' < b) {
      StopsOnce(t, parent, frames, a', b', a, b);
    }
  }

  /** Copying that has got beyond a table has used a frame for it. */
  lemma BelowMore(t: set<Role>, parent: nat, i: nat, a: nat, b: nat, i': nat, a': nat, b': nat, r: Role)
    requires i <= i' && (a < a' || (a == a' && b <= b'))
    requires r in t && Before(r, parent, i', a', b') && !Before(r, parent, i, a, b)
    ensures |Below(t, parent, i, a, b)| < |Below(t, parent, i', a', b')|
  {
    forall x | Before(x, parent, i, a, b)
      ensures Before(x, parent, i', a', b')
    {
      match x { case Pt(_, _, _) => case _ => }
    }
    hide Before;
    SubsetSize(Below(t, parent, i, a, b) + {r}, Below(t, parent, i', a', b'));
  }

  lemma StopsOnce(t: set<Role>, parent: nat, frames: nat, a: nat, b: nat, a': nat, b': nat)
    requires Stop(t, parent, frames, a, b) && (a < a' || (a == a' && b < b'))
    ensures !Stop(t, parent, frames, a', b')
  {
    hide Below;
    if b == 0 && Pmd(parent, a) in t && |Below(t, parent, a, a, 0)| == frames {
      if a < a' {
        BelowMore(t, parent, a, a, 0, a', a', b', Pmd(parent, a));
      }
      BelowMore(t, parent, a, a, 0, a' + 1, a', b', Pmd(parent, a));
    } else {
      if a < a' {
        BelowMore(t, parent, a + 1, a, b, a', a', b', Pt(parent, a, b));
      }
      BelowMore(t, parent, a + 1, a, b, a' + 1, a', b', Pt(parent, a, b));
    }
  }

  /** The parent's tables are what they were, and the child has those copied so far. */
  ghost predicate Progress(s: Snap, own: map<nat, Role>, free: set<nat>, parent: nat, child: nat, i: nat, a: nat,
                           b: nat) {
    var t := Tables(s.own);
    && Tables(own) == t + Copied(t, parent, child, i, a, b)
    && |free| == |s.free| - |Below(t, parent, i, a, b)|
  }

  lemma ProgressStart(s: Snap, parent: nat, child: nat)
    ensures Progress(s, s.own, s.free, parent, child, 0, 0, 0)
  {
    BelowNone(Tables(s.own), parent, child);
  }

  lemma ProgressRoles(s: Snap, own: map<nat, Role>, free: set<nat>, parent: nat, child: nat, i: nat, a: nat, b: nat,
                      x: nat, y: nat)
    requires Progress(s, own, free, parent, child, i, a, b) && Ready(Tables(s.own), child) && parent != child
    ensures Pmd(parent, x) in Tables(own) <==> Pmd(parent, x) in Tables(s.own)
    ensures Pt(parent, x, y) in Tables(own) <==> Pt(parent, x, y) in Tables(s.own)
    ensures Pmd(child, x) in Tables(own) ==> x < i
    ensures Pt(child, x, y) in Tables(own) ==> x < a || (x == a && y < b)
  {
    hide Tables;
  }

  /** A copied table: one frame less, one role more. */
  lemma ProgressPmd(s: Snap, own: map<nat, Role>, free: set<nat>, own': map<nat, Role>, free': set<nat>, parent: nat,
                    child: nat, a: nat)
    requires Progress(s, own, free, parent, child, a, a, 0) && Ready(Tables(s.own), child)
             && Pmd(parent, a) in Tables(s.own)
    requires Tables(own') == Tables(own) + {Pmd(child, a)} && |free'| == |free| - 1
    ensures Progress(s, own', free', parent, child, a + 1, a, 0)
  {
    hide Tables, Below, Copied;
    BelowPmd(Tables(s.own), parent, child, a);
  }

  lemma ProgressPt(s: Snap, own: map<nat, Role>, free: set<nat>, own': map<nat, Role>, free': set<nat>, parent: nat,
                   child: nat, a: nat, b: nat)
    requires Progress(s, own, free, parent, child, a + 1, a, b) && Ready(Tables(s.own), child)
             && Pt(parent, a, b) in Tables(s.own)
    requires Tables(own') == Tables(own) + {Pt(child, a, b)} && |free'| == |free| - 1
    ensures Progress(s, own', free', parent, child, a + 1, a, b + 1)
  {
    hide Tables, Below, Copied;
    BelowPt(Tables(s.own), parent, child, a, b);
  }

  lemma ProgressSkipPt(s: Snap, own: map<nat, Role>, free: set<nat>, parent: nat, child: nat, a: nat, b: nat)
    requires Progress(s, own, free, parent, child, a + 1, a, b) && Ready(Tables(s.own), child)
             && Pt(parent, a, b) !in Tables(s.own)
    ensures Progress(s, own, free, parent, child, a + 1, a, b + 1)
  {
    hide Tables, Below, Copied;
    BelowPt(Tables(s.own), parent, child, a, b);
  }

  lemma ProgressSkipPmd(s: Snap, own: map<nat, Role>, free: set<nat>, parent: nat, child: nat, a: nat)
    requires Progress(s, own, free, parent, child, a, a, 0) && Ready(Tables(s.own), child)
             && Pmd(parent, a) !in Tables(s.own)
    ensures Progress(s, own, free, parent, child, a + 1, a + 1, 0)
  {
    hide Tables, Below, Copied;
    BelowPmd(Tables(s.own), parent, child, a);
    BelowNext(Tables(s.own), parent, child, a, 0);
  }

  lemma ProgressNext(s: Snap, own: map<nat, Role>, free: set<nat>, parent: nat, child: nat, a: nat)
    requires Progress(s, own, free, parent, child, a + 1, a, ENTRIES) && Ready(Tables(s.own), child)
    ensures Progress(s, own, free, parent, child, a + 1, a + 1, 0)
  {
    hide Tables, Below, Copied;
    BelowNext(Tables(s.own), parent, child, a, ENTRIES);
  }

  /** Where a table is wanted and no frame is left, there were too few from the start. */
  lemma OutOfTables(s: Snap, own: map<nat, Role>, parent: nat, child: nat, i: nat, a: nat, b: nat, r: Role)
    requires Progress(s, own, {}, parent, child, i, a, b) && Ready(Tables(s.own), child) && i <= USER_TOP
             && a < USER_TOP
    requires r in Tables(s.own) && Before(r, parent, USER_TOP, USER_TOP, 0) && !Before(r, parent, i, a, b)
    ensures |s.free| < |AllBelow(Tables(s.own), parent)|
  {
    BelowInAll(Tables(s.own), child, parent, i, a, b);
    BelowSize(Tables(s.own), parent, i, a, b, r);
  }

  /** The tables of a memory hang together. */
  lemma StoppedAt(s: Snap, own: map<nat, Role>, parent: nat, child: nat, i: nat, a: nat, b: nat)
    requires Progress(s, own, {}, parent, child, i, a, b) && a < USER_TOP && b < ENTRIES
    requires (i == a && b == 0 && Pmd(parent, a) in Tables(s.own)) || (i == a + 1 && Pt(parent, a, b) in Tables(s.own))
    ensures StopsAt(Tables(s.own), parent, |s.free|, Join(a, b, 0))
  {
    hide Tables, Below, Copied;
    assert Stop(Tables(s.own), parent, |s.free|, a, b);
  }

  lemma TablesReady(mem: Memory, child: nat)
    requires mem.TreeOk() && forall f :: f in mem.own && f != child ==> !InTree(mem.own[f], f, child)
    requires Is(mem.own, child, Root)
    ensures Ready(Tables(mem.own), child)
  {
    forall root: nat, a: nat | Pmd(root, a) in Tables(mem.own)
      ensures a < USER_TOP && root != child
    {
      var f := TableFrame(mem.own, Pmd(root, a));
      assert Leads(mem.table, mem.own, root, a, f);
    }
    forall root: nat, a: nat, b: nat | Pt(root, a, b) in Tables(mem.own)
      ensures b < ENTRIES && Pmd(root, a) in Tables(mem.own)
    {
      var f := TableFrame(mem.own, Pt(root, a, b));
      assert LeadsTo(mem.table, mem.own, root, a, b, f);
      InTables(mem.own, Ent(mem.table, root, a).ppn, Pmd(root, a));
    }
  }

  /** The page becomes read-only for both sides, its frame gains a reference, and the child has the parent's entry. */
  method ShareEntry(mem: Memory, ppt: nat, cpt: nat, c: nat, ghost s: Slot, ghost s': Slot)
    requires mem.Valid() && s in mem.maps && s' !in mem.maps && s.vpn == s'.vpn && c == Vpn0(s.vpn) && s.root != s'.root
    requires Is(mem.own, ppt, Pt(s.root, Vpn2(s.vpn), Vpn1(s.vpn)))
    requires Is(mem.own, cpt, Pt(s'.root, Vpn2(s.vpn), Vpn1(s.vpn)))
    requires ppt < |mem.table| && mem.table[ppt][c] == mem.maps[s] && s.vpn < USER_PAGES
    modifies mem, mem.buddy.Repr
    ensures mem.Valid() && mem.own == old(mem.own)
    ensures mem.maps == old(mem.maps)[s := ReadOnly(old(mem.maps)[s])][s' := ReadOnly(old(mem.maps)[s])]
    ensures ForkGrown(old(mem.Now()), mem.Now(), s'.root) && mem.Free() == old(mem.Free())
  {
    hide Buddy.Valid, Tree, Refines, Walk, Live, KeepsLive, CowInv, FreeFrames, ForkGrown, Vpn2, Vpn1;
    ghost var was := mem.Now();
    mem.Bounds();
    mem.MappedFrame(s);
    Share(mem.maps, mem.own, mem.Refs(), s, s');
    var entry := mem.table[ppt][c];
    mem.WriteLeaf(ppt, c, ReadOnly(entry), s.root, s.vpn);
    mem.buddy.GetPageRef(mem.buddy.Addr(entry.ppn));
    mem.WriteLeaf(cpt, c, mem.table[ppt][c], s'.root, s.vpn);
    ForkGrownShared(was, mem.Now(), entry.ppn, s'.root);
  }

  /** The inner loop: share every present user page of one leaf table. */
  method CopyLeaves(mem: Memory, ppt: nat, cpt: nat, ghost parent: nat, ghost child: nat, ghost a: nat, ghost b: nat,
                    ghost was: map<Slot, Pte>)
    requires mem.Valid() && parent != child && a < USER_TOP && b < ENTRIES
    requires Is(mem.own, ppt, Pt(parent, a, b)) && Is(mem.own, cpt, Pt(child, a, b))
    requires Forked(was, mem.maps, parent, child, Join(a, b, 0))
    modifies mem, mem.buddy.Repr
    ensures mem.Valid() && mem.own == old(mem.own) && mem.Free() == old(mem.Free())
    ensures Forked(was, mem.maps, parent, child, Join(a, b + 1, 0))
    ensures ForkGrown(old(mem.Now()), mem.Now(), child)
  {
    hide Buddy.Valid, Memory.Represents, CowInv, Forked, ForkGrown, FreeFrames, InTree;
    ForkGrownRefl(mem.Now(), child);
    mem.Bounds();
    for c := 0 to ENTRIES
      invariant mem.Valid() && mem.own == old(mem.own) && mem.Free() == old(mem.Free())
      invariant Forked(was, mem.maps, parent, child, Join(a, b, c))
      invariant ForkGrown(old(mem.Now()), mem.Now(), child)
    {
      ghost var mid := mem.Now();
      CopyLeaf(mem, ppt, cpt, c, parent, child, a, b, was);
      ForkGrownTransitive(old(mem.Now()), mid, mem.Now(), child);
    }
  }

  /** One entry of a leaf table. */
  method CopyLeaf(mem: Memory, ppt: nat, cpt: nat, c: nat, ghost parent: nat, ghost child: nat, ghost a: nat,
                  ghost b: nat,
                  ghost was: map<Slot, Pte>)
    requires mem.Valid() && parent != child && a < USER_TOP && b < ENTRIES && c < ENTRIES
    requires Is(mem.own, ppt, Pt(parent, a, b)) && Is(mem.own, cpt, Pt(child, a, b))
    requires Forked(was, mem.maps, parent, child, Join(a, b, c))
    modifies mem, mem.buddy.Repr
    ensures mem.Valid() && mem.own == old(mem.own) && mem.Free() == old(mem.Free())
    ensures Forked(was, mem.maps, parent, child, Join(a, b, c + 1))
    ensures ForkGrown(old(mem.Now()), mem.Now(), child)
  {
    hide Buddy.Valid, Memory.Represents, CowInv, Forked, ForkGrown, FreeFrames, InTree, Vpn2, Vpn1, Vpn0;
    ForkGrownRefl(mem.Now(), child);
    ghost var v := Join(a, b, c);
    SplitJoin(a, b, c);
    mem.RootOf(ppt);
    mem.PresentEntry(ppt, c, Slot(parent, v));
    if mem.table[ppt][c].valid {
      mem.MappedFrame(Slot(parent, v));
      if mem.table[ppt][c].user {
        ForkedNext(was, mem.maps, parent, child, v);
        ShareEntry(mem, ppt, cpt, c, Slot(parent, v), Slot(child, v));
      }
    } else {
      ForkedSkip(was, mem.maps, parent, child, v, v + 1);
    }
  }

  /** A second-level table for the child. */
  method ChildPmd(mem: Memory, child: nat, a: nat) returns (cpmd: Option<nat>)
    requires mem.Valid() && Is(mem.own, child, Root) && a < USER_TOP && Pmd(child, a) !in Tables(mem.own)
    modifies mem`table, mem`bytes, mem`own, mem.buddy.Repr
    ensures mem.Valid() && mem.maps == old(mem.maps)
    ensures cpmd == None ==> old(mem.Free()) == {} && mem.Now() == old(mem.Now())
    ensures cpmd.Some? ==>
              && ForkGrown(old(mem.Now()), mem.Now(), child) && Is(mem.own, cpmd.value, Pmd(child, a))
              && Tables(mem.own) == Tables(old(mem.own)) + {Pmd(child, a)} && |mem.Free()| == |old(mem.Free())| - 1
  {
    hide Buddy.Valid, Memory.Represents, CowInv, ForkGrown, Hooked, FreeFrames, Tables;
    mem.Bounds();
    ghost var was := mem.Now();
    mem.RootEntry(child, a);
    cpmd := mem.NewPmd(child, a);
    if cpmd.Some? {
      HookedFacts(was, mem.Now(), cpmd.value, Pmd(child, a));
      ExtendedCow(mem.maps, was, mem.Now());
      ForkGrownHooked(was, mem.Now(), cpmd.value, Pmd(child, a), child);
      TablesAdd(was.own, cpmd.value, Pmd(child, a));
    }
  }

  /** A leaf table for the child. */
  method ChildPt(mem: Memory, ghost child: nat, ghost a: nat, cpmd: nat, b: nat) returns (cpt: Option<nat>)
    requires mem.Valid() && Is(mem.own, cpmd, Pmd(child, a)) && a < USER_TOP && b < ENTRIES
    requires Pt(child, a, b) !in Tables(mem.own)
    modifies mem`table, mem`bytes, mem`own, mem.buddy.Repr
    ensures mem.Valid() && mem.maps == old(mem.maps)
    ensures cpt == None ==> old(mem.Free()) == {} && mem.Now() == old(mem.Now())
    ensures cpt.Some? ==>
              && ForkGrown(old(mem.Now()), mem.Now(), child) && Is(mem.own, cpt.value, Pt(child, a, b))
              && Tables(mem.own) == Tables(old(mem.own)) + {Pt(child, a, b)} && |mem.Free()| == |old(mem.Free())| - 1
  {
    hide Buddy.Valid, Memory.Represents, CowInv, ForkGrown, Hooked, FreeFrames, Tables;
    mem.Bounds();
    ghost var was := mem.Now();
    mem.MiddleEntry(cpmd, child, a, b);
    cpt := mem.NewPt(child, a, cpmd, b);
    if cpt.Some? {
      HookedFacts(was, mem.Now(), cpt.value, Pt(child, a, b));
      ExtendedCow(mem.maps, was, mem.Now());
      ForkGrownHooked(was, mem.Now(), cpt.value, Pt(child, a, b), child);
      TablesAdd(was.own, cpt.value, Pt(child, a, b));
    }
  }

  /** What holds all through the copying: the first n pages are shared, the tables before (i, a, b) copied. */
  ghost predicate Copying(start: Snap, mem: Memory, parent: nat, child: nat, n: nat, i: nat, a: nat, b: nat)
    reads mem, mem.buddy, mem.buddy.frameArray, mem.buddy.refCount, mem.buddy.nodes.prev, mem.buddy.nodes.next
  {
    && mem.Valid() && parent != child && Ready(Tables(start.own), child)
    && Forked(start.maps, mem.maps, parent, child, n) && ForkGrown(start, mem.Now(), child)
    && Progress(start, mem.own, mem.Free(), parent, child, i, a, b)
  }

  /** One leaf table of the parent, if there is one. */
  method CopyTable(mem: Memory, ppmd: nat, cpmd: nat, b: nat, ghost parent: nat, ghost child: nat, ghost a: nat,
                   ghost start: Snap)
    returns (ok: bool)
    requires Copying(start, mem, parent, child, Join(a, b, 0), a + 1, a, b) && a < USER_TOP && b < ENTRIES
    requires Is(mem.own, ppmd, Pmd(parent, a)) && Is(mem.own, cpmd, Pmd(child, a))
    modifies mem, mem.buddy.Repr
    ensures ok ==> Copying(start, mem, parent, child, Join(a, b + 1, 0), a + 1, a, b + 1)
    ensures ok ==> Is(mem.own, ppmd, Pmd(parent, a)) && Is(mem.own, cpmd, Pmd(child, a))
    ensures !ok ==> Copying(start, mem, parent, child, Join(a, b, 0), a + 1, a, b)
    ensures !ok ==> StopsAt(Tables(start.own), parent, |start.free|, Join(a, b, 0))
    ensures !ok ==> mem.Free() == {} && |start.free| < |AllBelow(Tables(start.own), parent)|
  {
    hide StopsAt;
    hide Buddy.Valid, Memory.Represents, CowInv, Forked, ForkGrown, FreeFrames, InTree, Tables, Progress, AllBelow;
    ghost var mid := mem.Now();
    mem.MiddleEntry(ppmd, parent, a, b);
    ProgressRoles(start, mid.own, mid.free, parent, child, a + 1, a, b, a, b);
    if mem.table[ppmd][b].valid {
      var ppt := mem.table[ppmd][b].ppn;
      var cpt := ChildPt(mem, child, a, cpmd, b);
      if cpt == None {
        OutOfTables(start, mid.own, parent, child, a + 1, a, b, Pt(parent, a, b));
        StoppedAt(start, mid.own, parent, child, a + 1, a, b);
        return false;
      }
      ghost var hooked := mem.Now();
      ForkGrownGrew(mid, hooked, child);
      ForkGrownTransitive(start, mid, hooked, child);
      ProgressPt(start, mid.own, mid.free, hooked.own, hooked.free, parent, child, a, b);
      CopyLeaves(mem, ppt, cpt.value, parent, child, a, b, start.maps);
      ForkGrownTransitive(start, hooked, mem.Now(), child);
    } else {
      ForkedSkip(start.maps, mem.maps, parent, child, Join(a, b, 0), Join(a, b + 1, 0));
      ProgressSkipPt(start, mid.own, mid.free, parent, child, a, b);
    }
    ok := true;
  }

  /** The middle loop: copy what one entry of the parent's root leads to; false when memory runs out. */
  method CopyMiddle(mem: Memory, ppmd: nat, cpmd: nat, ghost parent: nat, ghost child: nat, ghost a: nat,
                    ghost start: Snap)
    returns (ok: bool, ghost n: nat)
    requires Copying(start, mem, parent, child, Join(a, 0, 0), a + 1, a, 0) && a < USER_TOP
    requires Is(mem.own, ppmd, Pmd(parent, a)) && Is(mem.own, cpmd, Pmd(child, a))
    modifies mem, mem.buddy.Repr
    ensures ok ==> Copying(start, mem, parent, child, Join(a + 1, 0, 0), a + 1, a + 1, 0)
    ensures !ok ==> mem.Valid() && ForkGrown(start, mem.Now(), child)
    ensures !ok ==> n <= Join(a + 1, 0, 0) && Forked(start.maps, mem.maps, parent, child, n)
    ensures !ok ==> StopsAt(Tables(start.own), parent, |start.free|, n)
    ensures !ok ==> mem.Free() == {} && |start.free| < |AllBelow(Tables(start.own), parent)|
  {
    hide StopsAt;
    hide Buddy.Valid, Memory.Represents, CowInv, Forked, ForkGrown, FreeFrames, Tables, Progress, AllBelow, Ready;
    n := 0;
    for b := 0 to ENTRIES
      invariant Copying(start, mem, parent, child, Join(a, b, 0), a + 1, a, b)
      invariant Is(mem.own, ppmd, Pmd(parent, a)) && Is(mem.own, cpmd, Pmd(child, a))
    {
      ok := CopyTable(mem, ppmd, cpmd, b, parent, child, a, start);
      if !ok {
        n := Join(a, b, 0);
        return;
      }
    }
    ProgressNext(start, mem.own, mem.Free(), parent, child, a);
    assert Join(a, ENTRIES, 0) == Join(a + 1, 0, 0);
    ok := true;
  }

  /** What one entry of the parent's root leads to, if it leads anywhere. */
  method CopySubtree(mem: Memory, parent: nat, child: nat, a: nat, ghost start: Snap) returns (ok: bool, ghost n: nat)
    requires Copying(start, mem, parent, child, Join(a, 0, 0), a, a, 0) && a < USER_TOP
    requires Is(mem.own, parent, Root) && Is(mem.own, child, Root)
    modifies mem, mem.buddy.Repr
    ensures ok ==> Copying(start, mem, parent, child, Join(a + 1, 0, 0), a + 1, a + 1, 0)
    ensures !ok ==> mem.Valid() && ForkGrown(start, mem.Now(), child)
    ensures !ok ==> n <= USER_PAGES && Forked(start.maps, mem.maps, parent, child, n)
    ensures !ok ==> StopsAt(Tables(start.own), parent, |start.free|, n)
    ensures !ok ==> mem.Free() == {} && |start.free| < |AllBelow(Tables(start.own), parent)|
  {
    hide StopsAt;
    hide Buddy.Valid, Memory.Represents, CowInv, Forked, ForkGrown, FreeFrames, InTree, Tables, Progress, AllBelow;
    n := Join(a, 0, 0);
    ghost var mid := mem.Now();
    mem.RootEntry(parent, a);
    ProgressRoles(start, mid.own, mid.free, parent, child, a, a, 0, a, 0);
    if mem.table[parent][a].valid {
      var ppmd := mem.table[parent][a].ppn;
      var cpmd := ChildPmd(mem, child, a);
      if cpmd == None {
        OutOfTables(start, mid.own, parent, child, a, a, 0, Pmd(parent, a));
        StoppedAt(start, mid.own, parent, child, a, a, 0);
        return false, n;
      }
      ForkGrownGrew(mid, mem.Now(), child);
      ForkGrownTransitive(start, mid, mem.Now(), child);
      ProgressPmd(start, mid.own, mid.free, mem.own, mem.Free(), parent, child, a);
      ok, n := CopyMiddle(mem, ppmd, cpmd.value, parent, child, a, start);
    } else {
      ForkedSkip(start.maps, mem.maps, parent, child, Join(a, 0, 0), Join(a + 1, 0, 0));
      ProgressSkipPmd(start, mid.own, mid.free, parent, child, a);
      ok := true;
    }
  }

  /** Duplicate the tables of the user half; false exactly when there are fewer free frames than tables to copy. */
  method CopyUserHalf(mem: Memory, parent: nat, child: nat) returns (ok: bool, ghost n: nat)
    requires mem.Valid() && parent != child && Is(mem.own, parent, Root) && Is(mem.own, child, Root)
    requires forall f :: f in mem.own && f != child ==> !InTree(mem.own[f], f, child)
    requires forall v: nat :: Slot(child, v) !in mem.maps
    modifies mem, mem.buddy.Repr
    ensures mem.Valid() && ForkGrown(old(mem.Now()), mem.Now(), child)
    ensures ok <==> |old(mem.Free())| >= |AllBelow(Tables(old(mem.own)), parent)|
    ensures !ok ==> mem.Free() == {}
    ensures n <= USER_PAGES && Forked(old(mem.maps), mem.maps, parent, child, n) && (ok ==> n == USER_PAGES)
    ensures !ok ==> StopsAt(Tables(old(mem.own)), parent, |old(mem.Free())|, n)
  {
    hide StopsAt;
    hide Buddy.Valid, Memory.Represents, CowInv, Forked, ForkGrown, FreeFrames, InTree, Tables, Progress, AllBelow;
    ghost var start := mem.Now();
    n := 0;
    TablesReady(mem, child);
    ForkGrownRefl(start, child);
    ForkedStart(start.maps, parent, child);
    ProgressStart(start, parent, child);
    ok, n := CopySubtrees(mem, parent, child, start);
    if ok {
      n := USER_PAGES;
      ProgressDone(start, mem.own, mem.Free(), parent, child);
    }
  }

  /** The outer loop. */
  method CopySubtrees(mem: Memory, parent: nat, child: nat, ghost start: Snap) returns (ok: bool, ghost n: nat)
    requires Copying(start, mem, parent, child, 0, 0, 0, 0)
    requires Is(start.own, parent, Root) && Is(start.own, child, Root)
    modifies mem, mem.buddy.Repr
    ensures ok ==> Copying(start, mem, parent, child, USER_PAGES, USER_TOP, USER_TOP, 0)
    ensures !ok ==> mem.Valid() && ForkGrown(start, mem.Now(), child)
    ensures !ok ==> n <= USER_PAGES && Forked(start.maps, mem.maps, parent, child, n)
    ensures !ok ==> StopsAt(Tables(start.own), parent, |start.free|, n)
    ensures !ok ==> mem.Free() == {} && |start.free| < |AllBelow(Tables(start.own), parent)|
  {
    hide StopsAt;
    hide Memory.Represents, CowInv, Forked, ForkGrown, FreeFrames, Tables, Copying, AllBelow;
    n := 0;
    for a := 0 to USER_TOP
      invariant Copying(start, mem, parent, child, Join(a, 0, 0), a, a, 0)
    {
      CopyingRoots(start, mem, parent, child, Join(a, 0, 0), a);
      ok, n := CopySubtree(mem, parent, child, a, start);
      if !ok {
        return;
      }
    }
    ok := true;
  }

  lemma CopyingRoots(start: Snap, mem: Memory, parent: nat, child: nat, n: nat, a: nat)
    requires Copying(start, mem, parent, child, n, a, a, 0) && Is(start.own, parent, Root) && Is(start.own, child, Root)
    ensures Is(mem.own, parent, Root) && Is(mem.own, child, Root)
  {
    hide Memory.Represents, CowInv, Forked, Progress, Ready, InTree;
  }

  lemma ProgressDone(s: Snap, own: map<nat, Role>, free: set<nat>, parent: nat, child: nat)
    requires Progress(s, own, free, parent, child, USER_TOP, USER_TOP, 0)
    ensures |s.free| >= |AllBelow(Tables(s.own), parent)|
  {
  }
}
