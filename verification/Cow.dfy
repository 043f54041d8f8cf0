/** Reference counting of user frames, on the finite map from user pages to leaf entries. */
module Cow {
  import opened Sv39
  import opened PageTree

  /** The user pages, over all address spaces, whose entry points to frame f. */
  ghost function Users(maps: map<Slot, Pte>, f: nat): set<Slot> {
    set s | s in maps && maps[s].ppn == f
  }

  ghost predicate Mapped(maps: map<Slot, Pte>, own: map<nat, Role>) {
    forall s :: s in maps ==> maps[s].valid && maps[s].user && !maps[s].global && Is(own, maps[s].ppn, User)
  }

  /** The count of a user frame is the number of entries that point to it; every table has one owner. */
  ghost predicate Counted(maps: map<Slot, Pte>, own: map<nat, Role>, refs: seq<int>) {
    forall f :: f in own ==> f < |refs| && refs[f] >= 1 && refs[f] == if own[f] == User then |Users(maps, f)| else 1
  }

  /** A writable entry has its frame to itself. */
  ghost predicate Exclusive(maps: map<Slot, Pte>, refs: seq<int>) {
    forall s :: s in maps && maps[s].write ==> maps[s].ppn < |refs| && refs[maps[s].ppn] == 1
  }

  ghost predicate CowInv(maps: map<Slot, Pte>, own: map<nat, Role>, refs: seq<int>) {
    Mapped(maps, own) && Counted(maps, own, refs) && Exclusive(maps, refs)
  }

  lemma UsersUpdate(maps: map<Slot, Pte>, s: Slot, e: Pte, f: nat)
    ensures Users(maps[s := e], f) == if e.ppn == f then Users(maps, f) + {s} else Users(maps, f) - {s}
  {
  }

  lemma UsersRemove(maps: map<Slot, Pte>, s: Slot, f: nat)
    ensures Users(maps - {s}, f) == Users(maps, f) - {s}
  {
  }

  /** A frame with a single user has no other. */
  lemma SoleUser(maps: map<Slot, Pte>, s: Slot, s': Slot, f: nat)
    requires s in Users(maps, f) && s' in Users(maps, f) && |Users(maps, f)| == 1
    ensures s == s'
  {
    assert |Users(maps, f) - {s}| == 0;
  }

  lemma WriterIsSole(maps: map<Slot, Pte>, own: map<nat, Role>, refs: seq<int>, x: Slot, s: Slot)
    requires CowInv(maps, own, refs) && x in maps && s in maps && x != s && maps[x].write
    ensures maps[x].ppn != maps[s].ppn
  {
    var f := maps[x].ppn;
    if maps[s].ppn == f {
      assert Is(own, f, User) && |Users(maps, f)| == 1;
      SoleUser(maps, x, s, f);
    }
  }

  /** Mapping a fresh frame at an unmapped page. */
  lemma MapFresh(maps: map<Slot, Pte>, own: map<nat, Role>, refs: seq<int>, s: Slot, e: Pte)
    requires CowInv(maps, own, refs) && s !in maps && e.valid && e.user && !e.global
    requires e.ppn < |refs| && refs[e.ppn] == 1 && e.ppn !in own
    ensures CowInv(maps[s := e], own[e.ppn := User], refs)
  {
    FreshCounts(maps, own, refs, s, e);
    hide Counted, Users;
  }

  lemma FreshCounts(maps: map<Slot, Pte>, own: map<nat, Role>, refs: seq<int>, s: Slot, e: Pte)
    requires Mapped(maps, own) && Counted(maps, own, refs) && s !in maps
    requires e.ppn < |refs| && refs[e.ppn] == 1 && e.ppn !in own
    ensures Counted(maps[s := e], own[e.ppn := User], refs)
  {
    var own', maps' := own[e.ppn := User], maps[s := e];
    forall f | f in own'
      ensures f < |refs| && refs[f] >= 1 && refs[f] == if own'[f] == User then |Users(maps', f)| else 1
    {
      UsersUpdate(maps, s, e, f);
      if f != e.ppn {
        assert own'[f] == own[f] && Users(maps', f) == Users(maps, f);
      } else {
        assert Users(maps', f) == {s};
      }
    }
  }

  function ReadOnly(e: Pte): Pte {
    e.(write := false)
  }

  lemma ShareUsers(maps: map<Slot, Pte>, s: Slot, s': Slot, f: nat)
    requires s in maps && s' !in maps
    ensures var e := ReadOnly(maps[s]);
            Users(maps[s := e][s' := e], f) == if e.ppn == f then Users(maps, f) + {s'} else Users(maps, f)
    ensures s' !in Users(maps, f)
  {
  }

  lemma ShareCounts(maps: map<Slot, Pte>, own: map<nat, Role>, refs: seq<int>, s: Slot, s': Slot)
    requires Counted(maps, own, refs) && s in maps && s' !in maps && Is(own, maps[s].ppn, User)
    ensures maps[s].ppn < |refs|
    ensures var e := ReadOnly(maps[s]);
            Counted(maps[s := e][s' := e], own, refs[e.ppn := refs[e.ppn] + 1])
  {
    var e := ReadOnly(maps[s]);
    forall f: nat
      ensures |Users(maps[s := e][s' := e], f)| == if e.ppn == f then |Users(maps, f)| + 1 else |Users(maps, f)|
    {
      ShareUsers(maps, s, s', f);
    }
    hide Users;
  }

  lemma ShareExclusive(maps: map<Slot, Pte>, own: map<nat, Role>, refs: seq<int>, s: Slot, s': Slot)
    requires CowInv(maps, own, refs) && s in maps && s' !in maps && maps[s].ppn < |refs|
    ensures var e := ReadOnly(maps[s]);
            Exclusive(maps[s := e][s' := e], refs[e.ppn := refs[e.ppn] + 1])
  {
    hide Counted;
    var e := ReadOnly(maps[s]);
    var maps' := maps[s := e][s' := e];
    forall x | x in maps' && maps'[x].write
      ensures maps'[x].ppn != e.ppn
    {
      assert maps[x] == maps'[x];
      WriterIsSole(maps, own, refs, x, s);
    }
  }

  /** Fork's step on one page: both sides keep the frame, read-only. */
  lemma Share(maps: map<Slot, Pte>, own: map<nat, Role>, refs: seq<int>, s: Slot, s': Slot)
    requires CowInv(maps, own, refs) && s in maps && s' !in maps
    ensures maps[s].ppn < |refs|
    ensures var e := ReadOnly(maps[s]);
            CowInv(maps[s := e][s' := e], own, refs[e.ppn := refs[e.ppn] + 1])
  {
    hide Counted, Exclusive, Users;
    assert Is(own, maps[s].ppn, User);
    ShareCounts(maps, own, refs, s, s');
    ShareExclusive(maps, own, refs, s, s');
  }

  /** The copy path of the fault handler: a shared page gets a frame of its own. */
  lemma Repoint(maps: map<Slot, Pte>, own: map<nat, Role>, refs: seq<int>, s: Slot, g: nat)
    requires CowInv(maps, own, refs) && s in maps && g !in own && g < |refs| && refs[g] == 1
    requires maps[s].ppn < |refs| && refs[maps[s].ppn] > 1
    ensures var f := maps[s].ppn;
            CowInv(maps[s := maps[s].(ppn := g, write := true)], own[g := User], refs[f := refs[f] - 1])
  {
    var f := maps[s].ppn;
    var e := maps[s].(ppn := g, write := true);
    assert Is(own, f, User) && s in Users(maps, f) && Users(maps, g) == {};
    assert Counted(maps[s := e], own[g := User], refs[f := refs[f] - 1]) by {
      forall h: nat
        ensures Users(maps[s := e], h) == if h == g then {s} else if h == f then Users(maps, h) - {s}
                else Users(maps, h)
      {
        UsersUpdate(maps, s, e, h);
      }
    }
  }

  /** The in-place path of the fault handler. */
  lemma MakeWritable(maps: map<Slot, Pte>, own: map<nat, Role>, refs: seq<int>, s: Slot)
    requires CowInv(maps, own, refs) && s in maps
    requires maps[s].ppn < |refs| && refs[maps[s].ppn] == 1
    ensures CowInv(maps[s := maps[s].(write := true)], own, refs)
  {
    var e := maps[s].(write := true);
    forall f: nat
      ensures Users(maps[s := e], f) == Users(maps, f)
    {
      UsersUpdate(maps, s, e, f);
    }
  }

  /** Teardown's step on one page. */
  lemma Drop(maps: map<Slot, Pte>, own: map<nat, Role>, refs: seq<int>, s: Slot)
    requires CowInv(maps, own, refs) && s in maps
    ensures maps[s].ppn < |refs|
    ensures var f := maps[s].ppn;
            && CowInv(maps - {s}, if refs[f] == 1 then own - {f} else own, refs[f := refs[f] - 1])
            && (refs[f] == 1 <==> Users(maps - {s}, f) == {})
  {
    hide Counted, Mapped, Exclusive, Users;
    var f := maps[s].ppn;
    DropCounts(maps, own, refs, s);
    DropMapped(maps, own, refs, s);
    DropExclusive(maps, own, refs, s);
  }

  lemma DropCounts(maps: map<Slot, Pte>, own: map<nat, Role>, refs: seq<int>, s: Slot)
    requires CowInv(maps, own, refs) && s in maps
    ensures maps[s].ppn < |refs|
    ensures var f := maps[s].ppn;
            && Counted(maps - {s}, if refs[f] == 1 then own - {f} else own, refs[f := refs[f] - 1])
            && (refs[f] == 1 <==> Users(maps - {s}, f) == {})
  {
    var f := maps[s].ppn;
    assert Is(own, f, User) && s in Users(maps, f);
    forall h: nat
      ensures Users(maps - {s}, h) == if h == f then Users(maps, h) - {s} else Users(maps, h)
    {
      UsersRemove(maps, s, h);
    }
    hide Users, Mapped, Exclusive;
    assert |Users(maps, f) - {s}| == |Users(maps, f)| - 1;
  }

  lemma DropMapped(maps: map<Slot, Pte>, own: map<nat, Role>, refs: seq<int>, s: Slot)
    requires CowInv(maps, own, refs) && s in maps && maps[s].ppn < |refs|
    ensures var f := maps[s].ppn; Mapped(maps - {s}, if refs[f] == 1 then own - {f} else own)
  {
    hide Exclusive;
    var f := maps[s].ppn;
    assert Is(own, f, User);
    forall x | x in maps && x != s && refs[f] == 1
      ensures maps[x].ppn != f
    {
      if maps[x].ppn == f {
        SoleUser(maps, x, s, f);
      }
    }
  }

  lemma DropExclusive(maps: map<Slot, Pte>, own: map<nat, Role>, refs: seq<int>, s: Slot)
    requires CowInv(maps, own, refs) && s in maps && maps[s].ppn < |refs|
    ensures Exclusive(maps - {s}, refs[maps[s].ppn := refs[maps[s].ppn] - 1])
  {
    hide Counted, Mapped;
    forall x | x in maps && x != s && maps[x].write
      ensures maps[x].ppn != maps[s].ppn
    {
      WriterIsSole(maps, own, refs, x, s);
    }
  }

  /** Counts of frames that no address space uses do not matter. */
  lemma CowElsewhere(maps: map<Slot, Pte>, own: map<nat, Role>, refs: seq<int>, refs': seq<int>)
    requires CowInv(maps, own, refs) && |refs'| == |refs|
    requires forall f :: f in own && f < |refs| ==> refs'[f] == refs[f]
    ensures CowInv(maps, own, refs')
  {
  }

  /** New tables, each with one reference, do not disturb the counts. */
  lemma ExtendsCow(maps: map<Slot, Pte>, own: map<nat, Role>, own': map<nat, Role>, refs: seq<int>, refs': seq<int>)
    requires CowInv(maps, own, refs) && |refs'| == |refs|
    requires forall f :: f in own ==> f in own' && own'[f] == own[f]
    requires forall f :: f in own' && f !in own ==> own'[f] != User && f < |refs'| && refs'[f] == 1
    requires forall f :: f in own && f < |refs| ==> refs'[f] == refs[f]
    ensures CowInv(maps, own', refs')
  {
    forall s | s in maps
      ensures maps[s].ppn in own && maps[s].ppn < |refs| && refs'[maps[s].ppn] == refs[maps[s].ppn]
    {
      assert Is(own, maps[s].ppn, User);
    }
  }

  /** A table frame gives up its reference. */
  lemma DropTable(maps: map<Slot, Pte>, own: map<nat, Role>, refs: seq<int>, t: nat)
    requires CowInv(maps, own, refs) && t in own && own[t] != User
    ensures t < |refs| && refs[t] == 1 && CowInv(maps, own - {t}, refs[t := 0])
  {
  }

  /** The map without the pages lo..hi of one address space. */
  ghost function Cut(maps: map<Slot, Pte>, root: nat, lo: nat, hi: nat): map<Slot, Pte> {
    map s | s in maps && !(s.root == root && lo <= s.vpn < hi) :: maps[s]
  }

  lemma CutNothing(maps: map<Slot, Pte>, root: nat, lo: nat, hi: nat)
    requires forall v: nat :: lo <= v < hi ==> Slot(root, v) !in maps
    ensures Cut(maps, root, lo, hi) == maps
  {
  }

  lemma CutTwice(maps: map<Slot, Pte>, root: nat, lo: nat, mid: nat, hi: nat)
    requires lo <= mid <= hi
    ensures Cut(Cut(maps, root, lo, mid), root, mid, hi) == Cut(maps, root, lo, hi)
  {
  }

  lemma CutOne(maps: map<Slot, Pte>, root: nat, v: nat)
    ensures Cut(maps, root, v, v + 1) == maps - {Slot(root, v)}
  {
  }

  /** Fork's progress: the first n pages of `parent` are shared, read-only, with `child`. */
  ghost predicate Forked(was: map<Slot, Pte>, maps: map<Slot, Pte>, parent: nat, child: nat, n: nat) {
    && (forall s: Slot :: s.root != parent && s.root != child ==>
         (s in maps <==> s in was) && (s in was ==> maps[s] == was[s]))
    && (forall v: nat :: Slot(parent, v) in maps <==> Slot(parent, v) in was)
    && (forall v: nat :: Slot(parent, v) in was ==>
          maps[Slot(parent, v)] == if v < n then ReadOnly(was[Slot(parent, v)]) else was[Slot(parent, v)])
    && (forall v: nat :: Slot(child, v) in maps <==> v < n && Slot(parent, v) in was)
    && (forall v: nat :: Slot(child, v) in maps ==> maps[Slot(child, v)] == ReadOnly(was[Slot(parent, v)]))
  }

  lemma ForkedStart(maps: map<Slot, Pte>, parent: nat, child: nat)
    requires parent != child && forall v: nat :: Slot(child, v) !in maps
    ensures Forked(maps, maps, parent, child, 0)
  {
  }

  lemma ForkedSkip(was: map<Slot, Pte>, maps: map<Slot, Pte>, parent: nat, child: nat, n: nat, to: nat)
    requires parent != child && Forked(was, maps, parent, child, n) && n <= to
    requires forall v: nat :: n <= v < to ==> Slot(parent, v) !in maps
    ensures Forked(was, maps, parent, child, to)
  {
  }

  lemma ForkedNext(was: map<Slot, Pte>, maps: map<Slot, Pte>, parent: nat, child: nat, n: nat)
    requires parent != child && Forked(was, maps, parent, child, n) && Slot(parent, n) in maps
    ensures Slot(child, n) !in maps
    ensures var e := ReadOnly(maps[Slot(parent, n)]);
            Forked(was, maps[Slot(parent, n) := e][Slot(child, n) := e], parent, child, n + 1)
  {
    var x, y, e := Slot(parent, n), Slot(child, n), ReadOnly(maps[Slot(parent, n)]);
    var maps' := maps[x := e][y := e];
    assert e == ReadOnly(was[x]);
    forall v: nat
      ensures Slot(parent, v) in maps' <==> Slot(parent, v) in maps
      ensures Slot(child, v) in maps' <==> v == n || Slot(child, v) in maps
      ensures v != n && Slot(parent, v) in maps ==> maps'[Slot(parent, v)] == maps[Slot(parent, v)]
      ensures v != n && Slot(child, v) in maps ==> maps'[Slot(child, v)] == maps[Slot(child, v)]
    {
    }
  }
}
