/** How far an action reaches: whose pages, tables and pointers it can change, and whose it leaves alone. */
module Borders {
  import opened KmallocSpec
  import opened Sv39
  import opened PageTree
  import opened Cow
  import opened Vm
  import opened Machine
  import opened AddressSpace
  import opened Accounting
  import opened Tasks

  /** An entry is what it was, or has lost write permission. */
  predicate Weaker(e: Pte, e': Pte) {
    e' == e || e' == ReadOnly(e)
  }

  /** A tree is what it was: its tables, its pages and the frames behind them. */
  ghost predicate SameTree(s: Snap, s': Snap, r: nat) {
    && (forall f :: f in s.own && InTree(s.own[f], f, r) ==> f in s'.own && s'.own[f] == s.own[f])
    && (forall f :: f in s'.own && InTree(s'.own[f], f, r) ==> f in s.own && s'.own[f] == s.own[f])
    && (forall v: nat :: Slot(r, v) in s.maps <==> Slot(r, v) in s'.maps)
    && (forall v: nat :: Slot(r, v) in s.maps ==> Weaker(s.maps[Slot(r, v)], s'.maps[Slot(r, v)]))
  }

  /** A task is left alone: its areas, its pointers and its tree are what they were. */
  ghost predicate Untouched(k: Kern, w: World, k': Kern, w': World, q: nat)
    requires q in k.tasks
  {
    && q in k'.tasks && k'.tasks[q].pgd == k.tasks[q].pgd && k'.tasks[q].vmas == k.tasks[q].vmas
    && q in k.records && q in k'.records && Pointers(k'.records[q]) == Pointers(k.records[q])
    && SameTree(w.s, w'.s, k.tasks[q].pgd)
  }

  /** What some tasks have from kmalloc. */
  ghost function PointersOf(records: map<nat, Record>, actors: set<nat>): set<nat> {
    set p, x | p in actors && p in records && x in Pointers(records[p]) :: x
  }

  /**
   What has happened touches only the tasks in `actors`; kmalloc has got nothing back but their pointers and those in
   `back`.
   */
  ghost predicate Confined(base: nat, k: Kern, w: World, k': Kern, w': World, actors: set<nat>, back: set<nat>) {
    && (forall q :: q in k.tasks && q !in actors ==> Untouched(k, w, k', w', q))
    && KeptBut(base, w.h, w'.h, PointersOf(k.records, actors) + back)
  }

  /** The books say the same about a task, up to its state and its parent. */
  ghost predicate SameBooks(k: Kern, k': Kern, q: nat)
    requires q in k.tasks
  {
    && q in k'.tasks && k'.tasks[q].pgd == k.tasks[q].pgd && k'.tasks[q].vmas == k.tasks[q].vmas
    && q in k.records && q in k'.records && Pointers(k'.records[q]) == Pointers(k.records[q])
  }

  lemma SameTreeRefl(s: Snap, s': Snap, r: nat)
    requires SameSpaces(s, s')
    ensures SameTree(s, s', r)
  {
  }

  lemma SameTreeTransitive(s: Snap, s': Snap, s'': Snap, r: nat)
    requires SameTree(s, s', r) && SameTree(s', s'', r)
    ensures SameTree(s, s'', r)
  {
    hide InTree;
  }

  lemma KeptMore(base: nat, h: Heap, h': Heap, gone: set<nat>, gone': set<nat>)
    requires KeptBut(base, h, h', gone) && gone <= gone'
    ensures KeptBut(base, h, h', gone')
  {
  }

  lemma KeptAll(base: nat, h: Heap, h': Heap)
    ensures KeptSince(h, h') <==> KeptBut(base, h, h', {})
  {
  }

  lemma NoPointers(records: map<nat, Record>)
    ensures PointersOf(records, {}) + {} == {}
  {
  }

  lemma PointersOfOne(records: map<nat, Record>, p: nat)
    requires p in records
    ensures PointersOf(records, {p}) + {} == Elements(Pointers(records[p]))
  {
    hide Pointers;
  }

  /** The trees are the same, and kmalloc has got nothing back but the pointers in `back`. */
  lemma ConfinedToBooks(base: nat, k: Kern, w: World, k': Kern, w': World, back: set<nat>)
    requires SameSpaces(w.s, w'.s) && KeptBut(base, w.h, w'.h, back)
    requires forall q :: q in k.tasks ==> SameBooks(k, k', q)
    ensures Confined(base, k, w, k', w', {}, back)
  {
    hide SameTree, KeptBut, Pointers;
    assert PointersOf(k.records, {}) + back == back;
    forall q | q in k.tasks
      ensures Untouched(k, w, k', w', q)
    {
      assert SameBooks(k, k', q);
      SameTreeRefl(w.s, w'.s, k.tasks[q].pgd);
    }
  }

  lemma GrownTree(s: Snap, s': Snap, root: nat, r: nat)
    requires GrownIn(s, s', root) && r != root
    requires forall v: nat :: Slot(r, v) in s.maps <==> Slot(r, v) in s'.maps
    requires forall v: nat :: Slot(r, v) in s.maps ==> Weaker(s.maps[Slot(r, v)], s'.maps[Slot(r, v)])
    ensures SameTree(s, s', r)
  {
  }

  lemma NoChange(c: Start, k: Kern, w: World)
    requires k.records.Keys == k.tasks.Keys
    ensures Confined(c.base, k, w, k, w, {}, {})
  {
    hide Confined, KeptBut;
    Unchanged(w);
    KeptAll(c.base, w.h, w.h);
    ConfinedToBooks(c.base, k, w, k, w, {});
  }

  lemma ConfinedToMore(base: nat, k: Kern, w: World, p: nat)
    requires Confined(base, k, w, k, w, {}, {})
    ensures Confined(base, k, w, k, w, {p}, {})
  {
    NoPointers(k.records);
    KeptMore(base, w.h, w.h, {}, PointersOf(k.records, {p}) + {});
    hide KeptBut, Untouched;
  }

  /** A task has another state, and perhaps its children have lost their parent. */
  lemma OnlyStates(c: Start, k: Kern, w: World, k': Kern, p: nat)
    requires k.records.Keys == k.tasks.Keys && p in k.tasks && p in k'.tasks
    requires k'.tasks == k.tasks[p := k.tasks[p].(state := k'.tasks[p].state)]
    requires k'.records == k.records || k'.records == Abandoned(k.records, p)
    ensures Confined(c.base, k, w, k', w, {}, {})
  {
    hide Confined, KeptBut;
    Unchanged(w);
    KeptAll(c.base, w.h, w.h);
    forall q | q in k.tasks
      ensures SameBooks(k, k', q)
    {
    }
    ConfinedToBooks(c.base, k, w, k', w, {});
  }

  /** One task has got tables, pages, frames or areas. */
  lemma ConfinedGrowth(base: nat, k: Kern, w: World, k': Kern, w': World, p: nat)
    requires p in k.tasks && p in k.records && OnlyIn(w.s, w'.s, k.tasks[p].pgd) && KeptSince(w.h, w'.h)
    requires forall q :: q in k.tasks && q != p ==> SameBooks(k, k', q) && k.tasks[q].pgd != k.tasks[p].pgd
    ensures Confined(base, k, w, k', w', {p}, {})
  {
    KeptAll(base, w.h, w'.h);
    KeptMore(base, w.h, w'.h, {}, PointersOf(k.records, {p}) + {});
    hide SameTree, KeptBut, KeptSince, Pointers, GrownIn;
    forall q | q in k.tasks && q !in {p}
      ensures Untouched(k, w, k', w', q)
    {
      GrownTree(w.s, w'.s, k.tasks[p].pgd, k.tasks[q].pgd);
    }
  }

  /** The same, in a state between operations. */
  lemma ConfinedTo(c: Start, k: Kern, w: World, k': Kern, w': World, p: nat)
    requires Kept(k, w, c) && p in k.tasks && k.records.Keys == k.tasks.Keys
    requires OnlyIn(w.s, w'.s, k.tasks[p].pgd) && KeptSince(w.h, w'.h)
    requires forall q :: q in k.tasks && q != p ==> SameBooks(k, k', q)
    ensures Confined(c.base, k, w, k', w', {p}, {})
  {
    hide Accounted, Owned, OnlyIn, KeptSince, Confined, SameBooks;
    ConfinedGrowth(c.base, k, w, k', w', p);
  }

  /** A user access, whether it succeeds or the task is killed for it. */
  lemma ConfinedAccess(c: Start, k: Kern, w: World, k': Kern, w': World, p: nat)
    requires Kept(k, w, c) && p in k.tasks && k.records.Keys == k.tasks.Keys
    requires OnlyIn(w.s, w'.s, k.tasks[p].pgd) && w'.h == w.h
    requires k' == k || k' == Kern(k.tasks[p := k.tasks[p].(state := Zombie)], Abandoned(k.records, p))
    ensures Confined(c.base, k, w, k', w', {p}, {})
    ensures w' == w ==> Confined(c.base, k, w, k', w', {}, {})
  {
    hide Kept, OnlyIn, Confined;
    forall q | q in k.tasks && q != p
      ensures SameBooks(k, k', q)
    {
    }
    ConfinedTo(c, k, w, k', w', p);
    if w' == w {
      OnlyStates(c, k, w, k', p);
    }
  }

  /** A new area for one task, or none, and pages for it. */
  lemma ConfinedArea(c: Start, k: Kern, w: World, k': Kern, w': World, p: nat)
    requires Kept(k, w, c) && p in k.tasks && k.records.Keys == k.tasks.Keys && p in k'.tasks && p in k'.records
    requires OnlyIn(w.s, w'.s, k.tasks[p].pgd) && KeptSince(w.h, w'.h)
    requires k'.tasks == k.tasks[p := k'.tasks[p]] && k'.records == k.records[p := k'.records[p]]
    ensures Confined(c.base, k, w, k', w', {p}, {})
  {
    hide Kept, OnlyIn, Confined, KeptSince;
    forall q | q in k.tasks && q != p
      ensures SameBooks(k, k', q)
    {
    }
    ConfinedTo(c, k, w, k', w', p);
  }

  /** A new task, with a part of another's pages or all of them. */
  lemma ConfinedFork(base: nat, k: Kern, w: World, k': Kern, w': World, c: Start, p: nat, root: nat, n: nat)
    requires Kept(k, w, c) && Sprouted(w.s, w'.s, root) && KeptSince(w.h, w'.h) && p in k.tasks
    requires Forked(w.s.maps, w'.s.maps, k.tasks[p].pgd, root, n)
    requires forall q :: q in k.tasks ==> SameBooks(k, k', q)
    ensures Confined(base, k, w, k', w', {}, {})
  {
    hide Accounted, Owned;
    KeptAll(base, w.h, w'.h);
    NoPointers(k.records);
    hide SameTree, KeptBut, KeptSince, Pointers;
    assert GrownIn(w.s, w'.s, root);
    forall q | q in k.tasks
      ensures Untouched(k, w, k', w', q)
    {
      var r := k.tasks[q].pgd;
      assert Is(w.s.own, r, Root) && r != root;
      ForkedTree(w.s.maps, w'.s.maps, k.tasks[p].pgd, root, n, r);
      hide GrownIn, Forked, Sprouted;
      GrownTree(w.s, w'.s, root, r);
    }
  }

  lemma ForkedTree(was: map<Slot, Pte>, maps: map<Slot, Pte>, parent: nat, child: nat, n: nat, r: nat)
    requires Forked(was, maps, parent, child, n) && r != child
    ensures forall v: nat :: Slot(r, v) in was <==> Slot(r, v) in maps
    ensures forall v: nat :: Slot(r, v) in was ==> Weaker(was[Slot(r, v)], maps[Slot(r, v)])
  {
  }

  /** A new task with nothing mapped. */
  lemma ConfinedBirth(base: nat, k: Kern, w: World, k': Kern, w': World, c: Start, root: nat)
    requires Kept(k, w, c) && Fresh(w.s, w'.s, root) && KeptSince(w.h, w'.h)
    requires forall q :: q in k.tasks ==> SameBooks(k, k', q)
    ensures Confined(base, k, w, k', w', {}, {})
  {
    hide Accounted, Owned;
    KeptAll(base, w.h, w'.h);
    NoPointers(k.records);
    hide SameTree, KeptBut, KeptSince, Pointers;
    assert GrownIn(w.s, w'.s, root);
    forall q | q in k.tasks
      ensures Untouched(k, w, k', w', q)
    {
      var r := k.tasks[q].pgd;
      assert Is(w.s.own, r, Root) && r != root;
      hide GrownIn;
      GrownTree(w.s, w'.s, root, r);
    }
  }

  /** A task has moved to a fresh root and has given its areas back. */
  lemma ConfinedMove(base: nat, k: Kern, w: World, k': Kern, w': World, c: Start, p: nat, root: nat)
    requires Kept(k, w, c) && Parted(w) && p in k.tasks && p in k.records && Moved(w, w', k.tasks[p].pgd, root)
    requires KeptBut(base, w.h, w'.h, Elements(k.records[p].areas))
    requires forall q :: q in k.tasks && q != p ==> SameBooks(k, k', q)
    ensures Confined(base, k, w, k', w', {p}, {})
  {
    hide Accounted, Owned, Frames;
    assert Elements(k.records[p].areas) <= PointersOf(k.records, {p}) + {} by {
      forall x | x in k.records[p].areas
        ensures x in Pointers(k.records[p])
      {
        var i :| 0 <= i < |k.records[p].areas| && k.records[p].areas[i] == x;
        assert Pointers(k.records[p])[i + 2] == x;
      }
    }
    KeptMore(base, w.h, w'.h, Elements(k.records[p].areas), PointersOf(k.records, {p}) + {});
    hide SameTree, KeptBut, KeptSince, Pointers;
    forall q | q in k.tasks && q !in {p}
      ensures Untouched(k, w, k', w', q)
    {
      assert SameBooks(k, k', q);
      assert Is(w.s.own, k.tasks[q].pgd, Root);
      MovedTree(w, w', k.tasks[p].pgd, root, k.tasks[q].pgd);
    }
  }

  lemma MovedTree(w: World, w': World, oldRoot: nat, root: nat, r: nat)
    requires Moved(w, w', oldRoot, root) && w.s.own.Keys !! w.s.free && r in w.s.own && r != oldRoot
    ensures SameTree(w.s, w'.s, r)
  {
    assert root !in w.s.own.Keys;
  }

  /** A task is gone, with all that it had. */
  lemma ConfinedDeath(base: nat, k: Kern, w: World, k': Kern, w': World, c: Start, p: nat)
    requires Kept(k, w, c) && p in k.tasks && p in k.records && TornDown(w.s, w'.s, k.tasks[p].pgd)
    requires KeptBut(base, w.h, w'.h, Elements(Pointers(k.records[p])))
    requires forall q :: q in k.tasks && q != p ==> SameBooks(k, k', q)
    ensures Confined(base, k, w, k', w', {p}, {})
  {
    hide Accounted, Owned;
    PointersOfOne(k.records, p);
    hide SameTree, KeptBut, Pointers;
    forall q | q in k.tasks && q !in {p}
      ensures Untouched(k, w, k', w', q)
    {
      assert SameBooks(k, k', q);
      TornTree(w.s, w'.s, k.tasks[p].pgd, k.tasks[q].pgd);
    }
  }

  lemma TornTree(s: Snap, s': Snap, root: nat, r: nat)
    requires TornDown(s, s', root) && r != root
    ensures SameTree(s, s', r)
  {
  }

  /**
   What concerns only tasks that came later leaves those of before alone, and what kmalloc had handed out then stays
   handed out.
   */
  lemma ConfinedNext(c: Start, k: Kern, w: World, c': Start, k': Kern, w': World, k'': Kern, w'': World,
                     actors: set<nat>, back: set<nat>)
    requires Owned(k.records, c, w.h, {}) && Owned(k'.records, c', w'.h, {})
    requires c' == c.(others := c'.others) && c.others <= c'.others && back <= c'.others && back !! Rest(c)
    requires k.tasks.Keys == k.records.Keys && actors !! k.tasks.Keys
    requires Confined(c.base, k, w, k', w', {}, {}) && Confined(c.base, k', w', k'', w'', actors, back)
    ensures Confined(c.base, k, w, k'', w'', {}, {})
  {
    KeptAll(c.base, w.h, w'.h);
    KeptAll(c.base, w.h, w''.h);
    NoPointers(k.records);
    BackIsNew(c, k, w, c', k', w', actors, back);
    hide Owned, KeptBut, KeptSince, SameTree, Pointers, Held, Rest;
    KeptThrough(c.base, w.h, w'.h, w''.h, PointersOf(k'.records, actors) + back);
    forall q | q in k.tasks
      ensures Untouched(k, w, k'', w'', q)
    {
      assert Untouched(k, w, k', w', q) && q !in actors;
      assert Untouched(k', w', k'', w'', q);
      SameTreeTransitive(w.s, w'.s, w''.s, k.tasks[q].pgd);
    }
  }

  /** What later tasks have, and what the rest of the kernel has got later, was not handed out before. */
  lemma BackIsNew(c: Start, k: Kern, w: World, c': Start, k': Kern, w': World, actors: set<nat>, back: set<nat>)
    requires Owned(k.records, c, w.h, {}) && Owned(k'.records, c', w'.h, {})
    requires c' == c.(others := c'.others) && c.others <= c'.others && back <= c'.others && back !! Rest(c)
    requires k.tasks.Keys == k.records.Keys && actors !! k.tasks.Keys && Confined(c.base, k, w, k', w', {}, {})
    ensures PointersOf(k'.records, actors) + back !! Held(c.base, w.h)
  {
    hide KeptBut, KeptSince, SameTree, Pointers, NoDup, Held;
    forall x | x in Held(c.base, w.h)
      ensures x !in PointersOf(k'.records, actors) + back
    {
      if x in Rest(c) {
        assert x in Rest(c');
      } else {
        var q :| q in k.records && x in Pointers(k.records[q]);
        assert q in k.tasks && Untouched(k, w, k', w', q) && q !in actors;
        assert x in Pointers(k'.records[q]);
      }
    }
  }
}
