/**
 Three-level page tables held in page frames. `own` says which frame is which part of which tree;
 a tree is named by its root frame.
 */
module PageTree {
  import opened Sv39

  datatype Role = Root | Pmd(root: nat, a: nat) | Pt(root: nat, a: nat, b: nat) | User

  /** A user page of an address space. */
  datatype Slot = Slot(root: nat, vpn: nat)

  /** Entry i of frame f; frames outside memory read as zero. */
  function Ent(tab: seq<Table>, f: nat, i: nat): Pte {
    if f < |tab| && i < ENTRIES then tab[f][i] else Null
  }

  /** The leaf entry the hardware walk reaches for page v, or an invalid entry. */
  function Walk(tab: seq<Table>, root: nat, v: nat): Pte {
    var e2 := Ent(tab, root, Vpn2(v));
    if !e2.valid then Null else
    var e1 := Ent(tab, e2.ppn, Vpn1(v));
    if !e1.valid then Null else Ent(tab, e1.ppn, Vpn0(v))
  }

  ghost predicate Is(own: map<nat, Role>, f: nat, r: Role) {
    f in own && own[f] == r
  }

  /**
   Valid entries of tables lead to the tables `own` records, every recorded table is reached, and the hardware takes no
   entry on the way for a leaf.
   */
  ghost predicate Tree(tab: seq<Table>, own: map<nat, Role>) {
    && (forall f :: f in own ==> f < |tab|)
    && (forall r: nat, a: nat :: Is(own, r, Root) && a < USER_TOP && Ent(tab, r, a).valid ==>
          Is(own, Ent(tab, r, a).ppn, Pmd(r, a)))
    && (forall m: nat, r: nat, a: nat, b: nat :: Is(own, m, Pmd(r, a)) && b < ENTRIES && Ent(tab, m, b).valid ==>
          Is(own, Ent(tab, m, b).ppn, Pt(r, a, b)))
    && (forall m: nat, r: nat, a: nat :: Is(own, m, Pmd(r, a)) ==> Leads(tab, own, r, a, m))
    && (forall t: nat, r: nat, a: nat, b: nat :: Is(own, t, Pt(r, a, b)) ==> LeadsTo(tab, own, r, a, b, t))
  }

  ghost predicate Leads(tab: seq<Table>, own: map<nat, Role>, r: nat, a: nat, m: nat) {
    Is(own, r, Root) && a < USER_TOP && LeadsOn(Ent(tab, r, a)) && Ent(tab, r, a).ppn == m
  }

  ghost predicate LeadsTo(tab: seq<Table>, own: map<nat, Role>, r: nat, a: nat, b: nat, t: nat) {
    var m := Ent(tab, r, a).ppn;
    Leads(tab, own, r, a, m) && b < ENTRIES && LeadsOn(Ent(tab, m, b)) && Ent(tab, m, b).ppn == t
  }

  /** `maps` is the finite map from user pages to leaf entries that the tables represent. */
  ghost predicate Refines(tab: seq<Table>, own: map<nat, Role>, maps: map<Slot, Pte>) {
    && (forall s :: s in maps ==> Is(own, s.root, Root) && s.vpn < USER_PAGES)
    && (forall r: nat, v: nat :: Is(own, r, Root) && v < USER_PAGES ==>
          (Slot(r, v) in maps <==> Walk(tab, r, v).valid)
            && (Slot(r, v) in maps ==> maps[Slot(r, v)] == Walk(tab, r, v)))
  }

  /** The roles of tables that exist; user pages have no part in this. */
  ghost function Tables(own: map<nat, Role>): set<Role> {
    own.Values - {User}
  }

  /** The tables below the root that pages v to v + n of one tree need. */
  ghost function Needed(root: nat, v: nat, n: nat): set<Role> {
    (set w: nat | v <= w < v + n :: Pmd(root, Vpn2(w))) + (set w: nat | v <= w < v + n :: Pt(root, Vpn2(w), Vpn1(w)))
  }

  /** Those of them that do not exist yet. */
  ghost function Missing(own: map<nat, Role>, root: nat, v: nat, n: nat): set<Role> {
    Needed(root, v, n) - Tables(own)
  }

  lemma InTables(own: map<nat, Role>, f: nat, role: Role)
    requires Is(own, f, role) && role != User
    ensures role in Tables(own)
  {
  }

  lemma TablesAdd(own: map<nat, Role>, f: nat, role: Role)
    requires f !in own
    ensures Tables(own[f := role]) == Tables(own) + (if role == User then {} else {role})
  {
    assert forall g :: g in own ==> own[f := role][g] == own[g];
    assert own[f := role][f] == role;
  }

  lemma NeededSplit(root: nat, v: nat, i: nat, n: nat)
    requires i <= n
    ensures Needed(root, v, n) == Needed(root, v, i) + Needed(root, v + i, n - i)
  {
  }

  lemma NeededOne(root: nat, v: nat)
    ensures Needed(root, v, 1) == {Pmd(root, Vpn2(v)), Pt(root, Vpn2(v), Vpn1(v))}
    ensures Needed(root, v, 0) == {}
  {
  }

  lemma SplitMinus<T>(x: set<T>, y: set<T>, s: set<T>)
    ensures |(x + y) - s| == |x - s| + |y - (s + x)|
  {
    assert (x + y) - s == (x - s) + (y - (s + x));
  }

  /** Once the tables of the first i pages are there, only those that the others need are missing. */
  lemma MissingSplit(own: map<nat, Role>, own': map<nat, Role>, root: nat, v: nat, i: nat, n: nat)
    requires i <= n && Tables(own') == Tables(own) + Needed(root, v, i)
    ensures |Missing(own, root, v, n)| == |Missing(own, root, v, i)| + |Missing(own', root, v + i, n - i)|
    ensures |Missing(own, root, v, i)| <= |Missing(own, root, v, n)|
  {
    hide Tables;
    assert Needed(root, v, n) == Needed(root, v, i) + Needed(root, v + i, n - i) by { NeededSplit(root, v, i, n); }
    hide Needed;
    SplitMinus(Needed(root, v, i), Needed(root, v + i, n - i), Tables(own));
  }

  lemma MissingNone(own: map<nat, Role>, root: nat, v: nat)
    ensures Needed(root, v, 0) == {} && |Missing(own, root, v, 0)| == 0
    ensures Tables(own) + Needed(root, v, 0) == Tables(own)
  {
    NeededOne(root, v);
  }

  /** The step from i to i + 1 pages. */
  lemma MissingNext(own: map<nat, Role>, own': map<nat, Role>, root: nat, v: nat, i: nat, n: nat)
    requires i < n && Tables(own') == Tables(own) + Needed(root, v, i)
    ensures |Missing(own, root, v, i + 1)| == |Missing(own, root, v, i)| + |Missing(own', root, v + i, 1)|
    ensures |Missing(own, root, v, i + 1)| <= |Missing(own, root, v, n)|
    ensures Tables(own') + Needed(root, v + i, 1) == Tables(own) + Needed(root, v, i + 1)
  {
    hide Tables, Needed, Missing;
    MissingSplit(own, own', root, v, i, i + 1);
    NeededSplit(root, v, i, i + 1);
    MissingGrows(own, root, v, i + 1, n);
  }

  lemma MissingGrows(own: map<nat, Role>, root: nat, v: nat, i: nat, n: nat)
    requires i <= n
    ensures |Missing(own, root, v, i)| <= |Missing(own, root, v, n)|
  {
    hide Tables;
    assert Needed(root, v, n) == Needed(root, v, i) + Needed(root, v + i, n - i) by { NeededSplit(root, v, i, n); }
    hide Needed;
    SubsetSize(Missing(own, root, v, i), Missing(own, root, v, n));
  }

  lemma SubsetSize<T>(s: set<T>, t: set<T>)
    requires s <= t
    ensures |s| <= |t|
  {
    assert t == s + (t - s);
  }

  lemma PairMinus<T>(x: T, y: T, s: set<T>)
    requires x != y
    ensures |{x, y} - s| == (if x in s then 0 else 1) + (if y in s then 0 else 1)
  {
    var some := (if x in s then {} else {x}) + (if y in s then {} else {y});
    assert {x, y} - s == some;
  }

  lemma MissingOne(own: map<nat, Role>, root: nat, v: nat)
    ensures |Missing(own, root, v, 1)| ==
            (if Pmd(root, Vpn2(v)) in Tables(own) then 0 else 1)
              + (if Pt(root, Vpn2(v), Vpn1(v)) in Tables(own) then 0 else 1)
  {
    hide Vpn2, Vpn1, Tables;
    assert Needed(root, v, 1) == {Pmd(root, Vpn2(v)), Pt(root, Vpn2(v), Vpn1(v))} by { NeededOne(root, v); }
    hide Needed;
    PairMinus(Pmd(root, Vpn2(v)), Pt(root, Vpn2(v), Vpn1(v)), Tables(own));
  }

  /** What the two levels of a walk add is what page v needs. */
  lemma TwoTables(own: map<nat, Role>, own': map<nat, Role>, own'': map<nat, Role>, root: nat, v: nat)
    requires Tables(own') == Tables(own) + {Pmd(root, Vpn2(v))}
    requires Tables(own'') == Tables(own') + {Pt(root, Vpn2(v), Vpn1(v))}
    ensures Tables(own'') == Tables(own) + Needed(root, v, 1)
  {
    hide Tables;
    NeededOne(root, v);
  }

  lemma TableFrame(own: map<nat, Role>, role: Role) returns (f: nat)
    requires role in Tables(own)
    ensures Is(own, f, role)
  {
    f :| f in own && own[f] == role;
  }

  /** An entry of a root is valid exactly when the table it leads to exists. */
  lemma PmdThere(tab: seq<Table>, own: map<nat, Role>, r: nat, a: nat)
    requires Tree(tab, own) && Is(own, r, Root) && a < USER_TOP
    ensures Ent(tab, r, a).valid <==> Pmd(r, a) in Tables(own)
    ensures Ent(tab, r, a).valid ==> Is(own, Ent(tab, r, a).ppn, Pmd(r, a))
  {
    if Ent(tab, r, a).valid {
      InTables(own, Ent(tab, r, a).ppn, Pmd(r, a));
    }
    if Pmd(r, a) in Tables(own) {
      var m := TableFrame(own, Pmd(r, a));
      assert Leads(tab, own, r, a, m);
    }
  }

  lemma PtThere(tab: seq<Table>, own: map<nat, Role>, r: nat, a: nat, m: nat, b: nat)
    requires Tree(tab, own) && Is(own, m, Pmd(r, a)) && b < ENTRIES
    ensures Ent(tab, m, b).valid <==> Pt(r, a, b) in Tables(own)
    ensures Ent(tab, m, b).valid ==> Is(own, Ent(tab, m, b).ppn, Pt(r, a, b))
  {
    assert Leads(tab, own, r, a, m);
    if Ent(tab, m, b).valid {
      InTables(own, Ent(tab, m, b).ppn, Pt(r, a, b));
    }
    if Pt(r, a, b) in Tables(own) {
      var t := TableFrame(own, Pt(r, a, b));
      assert LeadsTo(tab, own, r, a, b, t);
    }
  }

  /** The walk of a mapped or unmapped page passes only through frames of its own tree. */
  lemma WalkPath(tab: seq<Table>, own: map<nat, Role>, r: nat, v: nat)
    requires Tree(tab, own) && Is(own, r, Root) && v < USER_PAGES
    ensures var e2 := Ent(tab, r, Vpn2(v));
            e2.valid ==>
              && Is(own, e2.ppn, Pmd(r, Vpn2(v)))
              && (Ent(tab, e2.ppn, Vpn1(v)).valid ==> Is(own, Ent(tab, e2.ppn, Vpn1(v)).ppn, Pt(r, Vpn2(v), Vpn1(v))))
  {
  }

  /** Tables outside every tree do not matter. */
  lemma TreeFrame(tab: seq<Table>, tab': seq<Table>, own: map<nat, Role>)
    requires Tree(tab, own) && |tab'| == |tab|
    requires forall f :: f in own && own[f] != User ==> tab'[f] == tab[f]
    ensures Tree(tab', own)
    ensures forall r: nat, v: nat :: Is(own, r, Root) && v < USER_PAGES ==> Walk(tab', r, v) == Walk(tab, r, v)
  {
    assert forall f: nat, i: nat :: f in own && own[f] != User ==> Ent(tab', f, i) == Ent(tab, f, i);
    assert forall m: nat, r: nat, a: nat :: Is(own, m, Pmd(r, a)) ==> Leads(tab', own, r, a, m);
    forall r: nat, v: nat | Is(own, r, Root) && v < USER_PAGES
      ensures Walk(tab', r, v) == Walk(tab, r, v)
    {
      WalkPath(tab, own, r, v);
    }
  }

  function Put(tab: seq<Table>, f: nat, i: nat, e: Pte): (r: seq<Table>)
    requires f < |tab| && i < ENTRIES
    ensures |r| == |tab|
  {
    var t: Table := tab[f][i := e];
    tab[f := t]
  }

  lemma PutEnt(tab: seq<Table>, f: nat, i: nat, e: Pte, g: nat, j: nat)
    requires f < |tab| && i < ENTRIES
    ensures Ent(Put(tab, f, i, e), g, j) == if g == f && j == i then e else Ent(tab, g, j)
  {
  }

  /** Writing one leaf entry changes the walk of exactly one page. */
  lemma PutLeaf(tab: seq<Table>, own: map<nat, Role>, r: nat, a: nat, b: nat, t: nat, c: nat, e: Pte)
    requires Tree(tab, own) && Is(own, t, Pt(r, a, b)) && c < ENTRIES
    ensures Tree(Put(tab, t, c, e), own)
    ensures forall r': nat, v: nat :: Is(own, r', Root) && v < USER_PAGES ==>
              Walk(Put(tab, t, c, e), r', v) == if r' == r && v == Join(a, b, c) then e else Walk(tab, r', v)
  {
    var tab' := Put(tab, t, c, e);
    assert LeadsTo(tab, own, r, a, b, t);
    SplitJoin(a, b, c);
    forall g: nat, j: nat
      ensures Ent(tab', g, j) == if g == t && j == c then e else Ent(tab, g, j)
    {
      PutEnt(tab, t, c, e, g, j);
    }
    forall r': nat, v: nat | Is(own, r', Root) && v < USER_PAGES
      ensures Walk(tab', r', v) == if r' == r && v == Join(a, b, c) then e else Walk(tab, r', v)
    {
      WalkPath(tab, own, r', v);
      JoinSplit(v);
    }
  }

  lemma PutEnts(tab: seq<Table>, f: nat, i: nat, e: Pte)
    requires f < |tab| && i < ENTRIES
    ensures forall g: nat, j: nat :: Ent(Put(tab, f, i, e), g, j) == if g == f && j == i then e else Ent(tab, g, j)
  {
  }

  /** A frame without user entries becomes the root of an empty tree. */
  lemma AddRoot(tab: seq<Table>, own: map<nat, Role>, f: nat)
    requires Tree(tab, own) && f < |tab| && f !in own
    requires forall i :: 0 <= i < USER_TOP ==> !Ent(tab, f, i).valid
    ensures Tree(tab, own[f := Root])
    ensures forall v: nat :: v < USER_PAGES ==> !Walk(tab, f, v).valid
  {
    var own' := own[f := Root];
    assert forall g, r :: Is(own, g, r) ==> Is(own', g, r);
    assert forall m: nat, r: nat, a: nat :: Is(own', m, Pmd(r, a)) ==> Leads(tab, own, r, a, m);
    assert forall t: nat, r: nat, a: nat, b: nat :: Is(own', t, Pt(r, a, b)) ==> LeadsTo(tab, own, r, a, b, t);
    forall v: nat | v < USER_PAGES
      ensures !Walk(tab, f, v).valid
    {
      JoinSplit(v);
    }
  }

  /** Data frames are not part of any tree. */
  lemma AddUser(tab: seq<Table>, own: map<nat, Role>, f: nat)
    requires Tree(tab, own) && f < |tab| && f !in own
    ensures Tree(tab, own[f := User])
  {
    var own' := own[f := User];
    assert forall g, x :: Is(own', g, x) <==> Is(own, g, x) || (g == f && x == User);
    forall m: nat, r: nat, a: nat | Is(own', m, Pmd(r, a))
      ensures Leads(tab, own', r, a, m)
    {
      assert Leads(tab, own, r, a, m);
    }
    forall t: nat, r: nat, a: nat, b: nat | Is(own', t, Pt(r, a, b))
      ensures LeadsTo(tab, own', r, a, b, t)
    {
      assert LeadsTo(tab, own, r, a, b, t);
    }
  }

  lemma RemoveUser(tab: seq<Table>, own: map<nat, Role>, f: nat)
    requires Tree(tab, own) && Is(own, f, User)
    ensures Tree(tab, own - {f})
  {
    var own' := own - {f};
    assert forall g, x :: Is(own', g, x) <==> Is(own, g, x) && g != f;
    forall m: nat, r: nat, a: nat | Is(own', m, Pmd(r, a))
      ensures Leads(tab, own', r, a, m)
    {
      assert Leads(tab, own, r, a, m);
    }
    forall t: nat, r: nat, a: nat, b: nat | Is(own', t, Pt(r, a, b))
      ensures LeadsTo(tab, own', r, a, b, t)
    {
      assert LeadsTo(tab, own, r, a, b, t);
    }
  }

  /** A zeroed frame is hooked into an unused entry of a root. */
  lemma AddPmd(tab: seq<Table>, own: map<nat, Role>, r: nat, a: nat, f: nat)
    requires Tree(tab, own) && Is(own, r, Root) && a < USER_TOP && !Ent(tab, r, a).valid
    requires f < |tab| && f !in own && tab[f] == ZeroTable
    ensures Tree(Put(tab, r, a, TableEntry(f)), own[f := Pmd(r, a)])
    ensures forall r': nat, v: nat :: Is(own, r', Root) && v < USER_PAGES ==>
              SameLeaf(Walk(Put(tab, r, a, TableEntry(f)), r', v), Walk(tab, r', v))
  {
    var own', tab' := own[f := Pmd(r, a)], Put(tab, r, a, TableEntry(f));
    PutEnts(tab, r, a, TableEntry(f));
    assert forall j: nat :: !Ent(tab, f, j).valid;
    assert forall g, x :: Is(own', g, x) <==> Is(own, g, x) || (g == f && x == Pmd(r, a));
    forall m: nat, r': nat, a': nat | Is(own', m, Pmd(r', a'))
      ensures Leads(tab', own', r', a', m)
    {
      if m != f {
        assert Leads(tab, own, r', a', m);
      }
    }
    forall t: nat, r': nat, a': nat, b': nat | Is(own', t, Pt(r', a', b'))
      ensures LeadsTo(tab', own', r', a', b', t)
    {
      assert LeadsTo(tab, own, r', a', b', t);
      assert Is(own, Ent(tab, r', a').ppn, Pmd(r', a'));
    }
    forall r': nat, v: nat | Is(own, r', Root) && v < USER_PAGES
      ensures SameLeaf(Walk(tab', r', v), Walk(tab, r', v))
    {
      WalkPath(tab, own, r', v);
    }
  }

  /** Both entries are invalid, or they are the same. */
  predicate SameLeaf(x: Pte, y: Pte) {
    (x.valid <==> y.valid) && (x.valid ==> x == y)
  }

  /** A zeroed frame is hooked into an unused entry of a second-level table. */
  lemma AddPt(tab: seq<Table>, own: map<nat, Role>, r: nat, a: nat, m: nat, b: nat, f: nat)
    requires Tree(tab, own) && Is(own, m, Pmd(r, a)) && b < ENTRIES && !Ent(tab, m, b).valid
    requires f < |tab| && f !in own && tab[f] == ZeroTable
    ensures Tree(Put(tab, m, b, TableEntry(f)), own[f := Pt(r, a, b)])
    ensures forall r': nat, v: nat :: Is(own, r', Root) && v < USER_PAGES ==>
              SameLeaf(Walk(Put(tab, m, b, TableEntry(f)), r', v), Walk(tab, r', v))
  {
    var own', tab' := own[f := Pt(r, a, b)], Put(tab, m, b, TableEntry(f));
    PutEnts(tab, m, b, TableEntry(f));
    assert Leads(tab, own, r, a, m);
    assert forall j: nat :: !Ent(tab, f, j).valid;
    assert forall g, x :: Is(own', g, x) <==> Is(own, g, x) || (g == f && x == Pt(r, a, b));
    forall m': nat, r': nat, a': nat | Is(own', m', Pmd(r', a'))
      ensures Leads(tab', own', r', a', m')
    {
      assert Leads(tab, own, r', a', m');
    }
    forall t: nat, r': nat, a': nat, b': nat | Is(own', t, Pt(r', a', b'))
      ensures LeadsTo(tab', own', r', a', b', t)
    {
      if t != f {
        assert LeadsTo(tab, own, r', a', b', t);
      }
    }
    forall r': nat, v: nat | Is(own, r', Root) && v < USER_PAGES
      ensures SameLeaf(Walk(tab', r', v), Walk(tab, r', v))
    {
      WalkPath(tab, own, r', v);
    }
  }

  /** A leaf table without valid entries leaves the tree. */
  lemma RemovePt(tab: seq<Table>, own: map<nat, Role>, r: nat, a: nat, b: nat, m: nat, t: nat)
    requires Tree(tab, own) && Is(own, m, Pmd(r, a)) && Is(own, t, Pt(r, a, b)) && b < ENTRIES
    requires forall c: nat :: c < ENTRIES ==> !Ent(tab, t, c).valid
    ensures m < |tab| && Tree(Put(tab, m, b, Null), own - {t})
    ensures forall r': nat, v: nat :: Is(own, r', Root) && v < USER_PAGES ==>
              SameLeaf(Walk(Put(tab, m, b, Null), r', v), Walk(tab, r', v))
  {
    var own', tab' := own - {t}, Put(tab, m, b, Null);
    PutEnts(tab, m, b, Null);
    assert Leads(tab, own, r, a, m) && LeadsTo(tab, own, r, a, b, t);
    assert forall g, x :: Is(own', g, x) <==> Is(own, g, x) && g != t;
    forall m': nat, r': nat, a': nat | Is(own', m', Pmd(r', a'))
      ensures Leads(tab', own', r', a', m')
    {
      assert Leads(tab, own, r', a', m');
    }
    forall t': nat, r': nat, a': nat, b': nat | Is(own', t', Pt(r', a', b'))
      ensures LeadsTo(tab', own', r', a', b', t')
    {
      assert LeadsTo(tab, own, r', a', b', t');
    }
    forall r': nat, v: nat | Is(own, r', Root) && v < USER_PAGES
      ensures SameLeaf(Walk(tab', r', v), Walk(tab, r', v))
    {
      WalkPath(tab, own, r', v);
    }
  }

  /** A second-level table without valid entries leaves the tree. */
  lemma RemovePmd(tab: seq<Table>, own: map<nat, Role>, r: nat, a: nat, m: nat)
    requires Tree(tab, own) && Is(own, r, Root) && Is(own, m, Pmd(r, a)) && a < USER_TOP
    requires forall b: nat :: b < ENTRIES ==> !Ent(tab, m, b).valid
    ensures r < |tab| && Tree(Put(tab, r, a, Null), own - {m})
    ensures forall r': nat, v: nat :: Is(own, r', Root) && v < USER_PAGES ==>
              SameLeaf(Walk(Put(tab, r, a, Null), r', v), Walk(tab, r', v))
  {
    var own', tab' := own - {m}, Put(tab, r, a, Null);
    PutEnts(tab, r, a, Null);
    assert Leads(tab, own, r, a, m);
    assert forall g, x :: Is(own', g, x) <==> Is(own, g, x) && g != m;
    forall m': nat, r': nat, a': nat | Is(own', m', Pmd(r', a'))
      ensures Leads(tab', own', r', a', m')
    {
      assert Leads(tab, own, r', a', m');
    }
    forall t': nat, r': nat, a': nat, b': nat | Is(own', t', Pt(r', a', b'))
      ensures LeadsTo(tab', own', r', a', b', t')
    {
      assert LeadsTo(tab, own, r', a', b', t');
    }
    forall r': nat, v: nat | Is(own, r', Root) && v < USER_PAGES
      ensures SameLeaf(Walk(tab', r', v), Walk(tab, r', v))
    {
      WalkPath(tab, own, r', v);
    }
  }

  /** A root without valid user entries leaves the forest. */
  lemma RemoveRoot(tab: seq<Table>, own: map<nat, Role>, r: nat)
    requires Tree(tab, own) && Is(own, r, Root)
    requires forall a: nat :: a < USER_TOP ==> !Ent(tab, r, a).valid
    ensures Tree(tab, own - {r})
    ensures forall v: nat :: v < USER_PAGES ==> !Walk(tab, r, v).valid
  {
    var own' := own - {r};
    assert forall g, x :: Is(own', g, x) <==> Is(own, g, x) && g != r;
    forall m: nat, r': nat, a: nat | Is(own', m, Pmd(r', a))
      ensures Leads(tab, own', r', a, m)
    {
      assert Leads(tab, own, r', a, m);
    }
    forall t: nat, r': nat, a: nat, b: nat | Is(own', t, Pt(r', a, b))
      ensures LeadsTo(tab, own', r', a, b, t)
    {
      assert LeadsTo(tab, own, r', a, b, t);
    }
    forall v: nat | v < USER_PAGES
      ensures !Walk(tab, r, v).valid
    {
      JoinSplit(v);
    }
  }
}
