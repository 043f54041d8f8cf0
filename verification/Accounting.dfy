/** Who holds what: every frame, every tree and every pointer of kmalloc is accounted for. */
module Accounting {
  import opened Basics
  import opened BuddySpec
  import opened BuddyPages
  import opened KmallocSpec
  import opened Sv39
  import opened PageTree
  import opened Cow
  import opened Vm
  import opened Machine
  import opened AddressSpace

  /** Where the parts of a task are that kmalloc provides, in the order of its list of areas, and ppid. */
  datatype Record = Record(node: nat, stack: nat, areas: seq<nat>, ppid: nat)

  /** What the kernel keeps about its tasks. */
  datatype Kern = Kern(tasks: map<nat, Task>, records: map<nat, Record>)

  /**
   How things were before the first task, that is, what kmalloc held and the frames that it, or nobody, had; and what
   the rest of the kernel has got from kmalloc since.
   */
  datatype Start = Start(base: nat, all: set<nat>, first: Heap, others: set<nat>)

  /** What is handed out, but not to tasks. */
  ghost function Rest(c: Start): set<nat> {
    Held(c.base, c.first) + c.others
  }

  function Pointers(r: Record): seq<nat> {
    [r.node, r.stack] + r.areas
  }

  ghost predicate HasPointer(records: map<nat, Record>, x: nat) {
    exists p :: p in records && x in Pointers(records[p])
  }

  ghost function Elements(s: seq<nat>): set<nat> {
    set x | x in s
  }

  /** What kmalloc held at the start it still holds, and pages of pools stay with their pools. */
  ghost predicate KeptSince(first: Heap, h: Heap) {
    && |h.pool| == |first.pool| && (forall f :: 0 <= f < |h.pool| && first.pool[f] >= 0 ==> h.pool[f] == first.pool[f])
    && first.live <= h.live && (forall f :: f in first.large ==> f in h.large && h.large[f] == first.large[f])
  }

  /** No two tasks share a pointer, none occurs twice, and none is one of `others`. */
  ghost predicate Distinct(records: map<nat, Record>, others: set<nat>) {
    && (forall p :: p in records ==> NoDup(Pointers(records[p])))
    && (forall p, x :: p in records && x in Pointers(records[p]) ==> x !in others)
    && (forall p, q, x :: p in records && q in records && p != q && x in Pointers(records[p]) ==>
         x !in Pointers(records[q]))
  }

  /** kmalloc has handed out what the tasks have, what the rest of the kernel has, and the pointers in `extra`. */
  ghost predicate Owned(records: map<nat, Record>, c: Start, h: Heap, extra: set<nat>) {
    && KeptSince(c.first, h) && c.others !! Held(c.base, c.first) && extra !! Rest(c)
    && Distinct(records, Rest(c) + extra)
    && (forall x :: x in Held(c.base, h) <==> x in Rest(c) || x in extra || HasPointer(records, x))
  }

  ghost predicate HasRoot(tasks: map<nat, Task>, r: nat) {
    exists p :: p in tasks && tasks[p].pgd == r
  }

  /** Every tree belongs to a task; frames that are free, in use by a task, or with kmalloc are all there are. */
  ghost predicate Accounted(tasks: map<nat, Task>, w: World, c: Start) {
    && (forall r: nat :: Is(w.s.own, r, Root) ==> HasRoot(tasks, r))
    && w.s.free + w.s.own.Keys + Frames(w.h) == c.all
  }

  /** Areas, frames and pointers are in order; `extra` are pointers on their way in or out. */
  ghost predicate Sound(k: Kern, w: World, c: Start, extra: set<nat>) {
    SpacesOk(k.tasks, w.s.own, w.s.maps) && Accounted(k.tasks, w, c) && Owned(k.records, c, w.h, extra)
  }

  /** What every process sees. */
  ghost function Seen(k: Kern, w: World): map<nat, imap<nat, byte>> {
    Views(k.tasks, w.s.maps, w.s.bytes)
  }

  lemma KeptSinceGranted(c: Start, w: World, w': World, size: nat, p: nat)
    requires KeptSince(c.first, w.h) && Parted(w) && Allocated(c.base, w, w', size, p)
    ensures KeptSince(c.first, w'.h)
  {
    GrantedFacts(c.base, Heaped(w), Heaped(w'), size, p);
    hide Took, Granted, InLarge;
    forall f: nat | f < |c.first.pool| && c.first.pool[f] >= 0
      ensures f !in w.s.free
    {
      assert w.h.pool[f] == c.first.pool[f];
      assert f in Frames(w.h);
    }
  }

  lemma AccountedAllocated(tasks: map<nat, Task>, w: World, w': World, c: Start, size: nat, p: nat)
    requires Accounted(tasks, w, c) && Allocated(c.base, w, w', size, p)
    ensures Accounted(tasks, w', c)
  {
    hide Frames, Granted, KeepsLive, HasRoot;
  }

  lemma OwnedMore(records: map<nat, Record>, c: Start, h: Heap, h': Heap, extra: set<nat>, p: nat)
    requires Owned(records, c, h, extra) && KeptSince(c.first, h')
    requires p !in Held(c.base, h) && Held(c.base, h') == Held(c.base, h) + {p}
    ensures Owned(records, c, h', extra + {p})
    ensures p !in extra && p !in Rest(c) && !HasPointer(records, p)
  {
    hide Held, KeptSince, Pointers, NoDup;
    forall q, x | q in records && x in Pointers(records[q])
      ensures x != p
    {
      assert HasPointer(records, x);
    }
    assert Distinct(records, Rest(c) + (extra + {p}));
    hide HasPointer;
  }

  /** kmalloc has handed out a pointer. */
  lemma AllocStep(k: Kern, w: World, w': World, c: Start, extra: set<nat>, size: nat, p: nat)
    requires Sound(k, w, c, extra) && Parted(w) && Allocated(c.base, w, w', size, p)
    ensures Sound(k, w', c, extra + {p}) && Seen(k, w') == Seen(k, w)
    ensures p !in extra && p !in Rest(c) && !HasPointer(k.records, p)
  {
    KeptSinceGranted(c, w, w', size, p);
    AccountedAllocated(k.tasks, w, w', c, size, p);
    GrantedFacts(c.base, Heaped(w), Heaped(w'), size, p);
    OwnedMore(k.records, c, w.h, w'.h, extra, p);
    hide SpacesOk, Accounted, Owned, Took, Granted, Views;
  }

  lemma KeptSinceLess(c: Start, h: Heap, h': Heap, p: nat)
    requires KeptSince(c.first, h) && p !in Held(c.base, c.first) && h'.pool == h.pool
    requires p in h.live ==> h'.live == h.live - {p} && h'.large == h.large
    requires p !in h.live ==> c.base <= p && h'.live == h.live && h'.large == h.large - {PageIdx(c.base, p)}
    requires p !in h.live ==> PageAddr(c.base, PageIdx(c.base, p)) == p
    ensures KeptSince(c.first, h')
  {
    forall f | f in c.first.large
      ensures PageAddr(c.base, f) != p
    {
    }
  }

  lemma KeptSinceReturned(c: Start, w: World, w': World, p: nat)
    requires KeptSince(c.first, w.h) && Freed(c.base, w, w', p) && p !in Held(c.base, c.first)
    requires HeapOk(c.base, w.s.fa, w.s.refs, w.h)
    ensures KeptSince(c.first, w'.h)
  {
    hide HeapOk, Gave, KeptSince, Held, IsSomeChunk, PageAddr, PageIdx;
    ReturnedFacts(c.base, Heaped(w), Heaped(w'), p);
    assert p in Held(c.base, w.h);
    HeldKinds(c.base, w.s.fa, w.s.refs, w.h, p);
    hide Returned;
    KeptSinceLess(c, w.h, w'.h, p);
  }

  lemma AccountedFreed(tasks: map<nat, Task>, w: World, w': World, c: Start, p: nat)
    requires Accounted(tasks, w, c) && Freed(c.base, w, w', p)
    ensures Accounted(tasks, w', c)
  {
    hide Frames, Returned, KeepsLive, HasRoot;
  }

  lemma OwnedLess(records: map<nat, Record>, c: Start, h: Heap, h': Heap, extra: set<nat>, p: nat)
    requires Owned(records, c, h, extra) && KeptSince(c.first, h') && p in extra
    requires Held(c.base, h') == Held(c.base, h) - {p}
    ensures Owned(records, c, h', extra - {p})
  {
    hide Held, KeptSince, Pointers, NoDup;
    forall q, x | q in records && x in Pointers(records[q])
      ensures x != p
    {
    }
    assert Distinct(records, Rest(c) + (extra - {p}));
    assert !HasPointer(records, p);
    hide HasPointer;
  }

  lemma OwnedExtra(records: map<nat, Record>, c: Start, h: Heap, extra: set<nat>, p: nat)
    requires Owned(records, c, h, extra) && p in extra
    ensures KeptSince(c.first, h) && p !in Rest(c) && p in Held(c.base, h)
  {
    hide Distinct, HasPointer, Held, KeptSince;
  }

  /** kmalloc has taken a pointer back. */
  lemma FreeStep(k: Kern, w: World, w': World, c: Start, extra: set<nat>, p: nat)
    requires Sound(k, w, c, extra) && Parted(w) && p in extra && Freed(c.base, w, w', p)
    requires HeapOk(c.base, w.s.fa, w.s.refs, w.h)
    ensures Sound(k, w', c, extra - {p}) && Seen(k, w') == Seen(k, w)
  {
    hide SpacesOk, Accounted, Owned, Gave, Returned, Views, HeapOk, Held, KeptSince;
    OwnedExtra(k.records, c, w.h, extra, p);
    KeptSinceReturned(c, w, w', p);
    AccountedFreed(k.tasks, w, w', c, p);
    ReturnedFacts(c.base, Heaped(w), Heaped(w'), p);
    OwnedLess(k.records, c, w.h, w'.h, extra, p);
  }

  /** The pointers in `gone` may have been given back; all others are still handed out, for the same blocks. */
  ghost predicate KeptBut(base: nat, h: Heap, h': Heap, gone: set<nat>) {
    && |h'.pool| == |h.pool| && (forall f :: 0 <= f < |h.pool| && h.pool[f] >= 0 ==> h'.pool[f] == h.pool[f])
    && h.live - gone <= h'.live
    && (forall f :: f in h.large && PageAddr(base, f) !in gone ==> f in h'.large && h'.large[f] == h.large[f])
  }

  lemma KeptRefl(base: nat, h: Heap)
    ensures KeptSince(h, h) && KeptBut(base, h, h, {})
  {
  }

  lemma KeptTransitive(h: Heap, h': Heap, h'': Heap)
    requires KeptSince(h, h') && KeptSince(h', h'')
    ensures KeptSince(h, h'')
  {
  }

  lemma KeptButTransitive(base: nat, h: Heap, h': Heap, h'': Heap, gone: set<nat>, gone': set<nat>)
    requires KeptBut(base, h, h', gone) && KeptBut(base, h', h'', gone')
    ensures KeptBut(base, h, h'', gone + gone')
  {
    hide PageAddr;
  }

  /** What was handed out before others came and went is still handed out. */
  lemma KeptThrough(base: nat, h: Heap, h': Heap, h'': Heap, gone: set<nat>)
    requires KeptSince(h, h') && KeptBut(base, h', h'', gone) && gone !! Held(base, h)
    ensures KeptSince(h, h'')
  {
    hide PageAddr;
  }

  lemma KeptAllocated(base: nat, w: World, w': World, size: nat, p: nat)
    requires Parted(w) && Allocated(base, w, w', size, p)
    ensures KeptSince(w.h, w'.h)
  {
    KeptSinceGranted(Start(base, {}, w.h, {}), w, w', size, p);
  }

  lemma KeptFreed(base: nat, w: World, w': World, p: nat)
    requires Freed(base, w, w', p) && HeapOk(base, w.s.fa, w.s.refs, w.h)
    ensures KeptBut(base, w.h, w'.h, {p})
  {
    hide HeapOk, Gave, Held, IsSomeChunk;
    ReturnedFacts(base, Heaped(w), Heaped(w'), p);
    assert p in Held(base, w.h);
    HeldKinds(base, w.s.fa, w.s.refs, w.h, p);
    hide Returned, PageAddr;
  }

  /**
   If the same pointers are handed out as before, and nothing else has become of them, they are of the same blocks.
   */
  lemma SameHeldSameBlocks(base: nat, h: Heap, fa': seq<int>, refs': seq<int>, h': Heap)
    requires HeapOk(base, fa', refs', h') && KeptSince(h, h') && Held(base, h') == Held(base, h)
    ensures h'.live == h.live && h'.large == h.large
  {
    hide HeapOk, IsSomeChunk, PageAddr;
    forall f | f in h'.large
      ensures f in h.large
    {
      LargeNotLive(base, fa', refs', h', f);
      var g :| g in h.large && PageAddr(base, g) == PageAddr(base, f);
      PageOf(base, f);
      PageOf(base, g);
    }
    forall p | p in h'.live
      ensures p in h.live
    {
      if p !in h.live {
        var g :| g in h.large && PageAddr(base, g) == p;
        LargeNotLive(base, fa', refs', h', g);
      }
    }
  }

  lemma PoolsAndBlocks(base: nat, fa: seq<int>, refs: seq<int>, h: Heap, h': Heap)
    requires HeapOk(base, fa, refs, h') && KeptSince(h, h') && h'.large == h.large
    ensures Frames(h') == Frames(h) + PagesSince(h, h') && Frames(h) !! PagesSince(h, h')
  {
    forall f: nat | f < |h'.pool| && InLarge(h'.large, f)
      ensures h'.pool[f] == -1
    {
      var i :| i in h'.large && InBlock(i, h'.large[i], f);
      InBlockFrames(i, h'.large[i], f);
      BlockOutside(base, fa, refs, h', i, h'.large[i], f);
    }
    hide InLarge, HeapOk;
  }

  /** The tree that a frame in use belongs to: it is a table of it, or a page that is mapped there. */
  ghost predicate UsedIn(s: Snap, f: nat, root: nat) {
    f in s.own && if s.own[f] == User then exists x :: x in s.maps && x.root == root && s.maps[x].ppn == f
                  else InTree(s.own[f], f, root)
  }

  /** Every frame in use is used by some tree. */
  lemma UsedByTree(tab: seq<Table>, s: Snap, f: nat) returns (r: nat)
    requires Tree(tab, s.own) && Refines(tab, s.own, s.maps) && CowInv(s.maps, s.own, s.refs) && f in s.own
    ensures Is(s.own, r, Root) && UsedIn(s, f, r)
  {
    match s.own[f] {
      case Root =>
        r := f;
      case Pmd(root, a) =>
        assert Leads(tab, s.own, root, a, f);
        r := root;
      case Pt(root, a, b) =>
        assert LeadsTo(tab, s.own, root, a, b, f);
        r := root;
      case User =>
        assert |Users(s.maps, f)| >= 1;
        var x :| x in Users(s.maps, f);
        r := x.root;
    }
  }

  /** Every tree is that of a task. */
  lemma TreeOfTask(tasks: map<nat, Task>, w: World, c: Start, r: nat) returns (p: nat)
    requires Accounted(tasks, w, c) && Is(w.s.own, r, Root)
    ensures p in tasks && tasks[p].pgd == r
  {
    assert HasRoot(tasks, r);
    p :| p in tasks && tasks[p].pgd == r;
  }

  /** Which frames are free follows from who holds what. */
  lemma FreeByOthers(tasks: map<nat, Task>, tasks': map<nat, Task>, w: World, w': World, c: Start)
    requires Accounted(tasks, w, c) && Accounted(tasks', w', c) && Parted(w) && Parted(w')
    requires w'.s.own.Keys == w.s.own.Keys && KeptSince(w.h, w'.h) && w'.h.large == w.h.large
    requires HeapOk(c.base, w'.s.fa, w'.s.refs, w'.h)
    ensures w'.s.free == w.s.free - PagesSince(w.h, w'.h)
    ensures PagesSince(w.h, w'.h) <= w.s.free
  {
    hide HasRoot, HeapOk, Frames;
    PoolsAndBlocks(c.base, w'.s.fa, w'.s.refs, w.h, w'.h);
  }

  /** Pages that have become pages of pools; no pool ever gives one back. */
  ghost function PagesSince(h: Heap, h': Heap): set<nat> {
    set f: nat | f < |h.pool| && f < |h'.pool| && h.pool[f] < 0 && h'.pool[f] >= 0
  }

  /** What a task holds from kmalloc does not depend on its parent. */
  lemma SamePointers(records: map<nat, Record>, records': map<nat, Record>, c: Start, h: Heap, extra: set<nat>)
    requires Owned(records, c, h, extra) && records'.Keys == records.Keys
    requires forall p :: p in records ==> Pointers(records'[p]) == Pointers(records[p])
    ensures Owned(records', c, h, extra)
  {
    hide Held, KeptSince, Pointers, NoDup;
    forall x
      ensures HasPointer(records', x) <==> HasPointer(records, x)
    {
      if q :| q in records' && x in Pointers(records'[q]) {
        assert x in Pointers(records[q]);
      }
      if q :| q in records && x in Pointers(records[q]) {
        assert q in records' && x in Pointers(records'[q]);
      }
    }
    assert Distinct(records', Rest(c) + extra);
    hide HasPointer;
  }

  /** A new task takes its pointers. */
  lemma RecordStep(records: map<nat, Record>, c: Start, h: Heap, p: nat, r: Record)
    requires Owned(records, c, h, Elements(Pointers(r))) && p !in records && NoDup(Pointers(r))
    ensures Owned(records[p := r], c, h, {})
  {
    hide Held, KeptSince, Pointers, NoDup;
    var records' := records[p := r];
    forall x
      ensures HasPointer(records', x) <==> HasPointer(records, x) || x in Pointers(r)
      ensures x in Pointers(r) <==> x in Elements(Pointers(r))
    {
      if x in Pointers(r) {
        assert p in records' && x in Pointers(records'[p]);
      }
      if q :| q in records && x in Pointers(records[q]) {
        assert q in records' && x in Pointers(records'[q]);
      }
    }
    assert Distinct(records', Rest(c) + {});
    hide HasPointer;
  }

  /** The rest of the kernel takes a pointer. */
  lemma OthersTake(records: map<nat, Record>, c: Start, h: Heap, x: nat)
    requires Owned(records, c, h, {x})
    ensures Owned(records, c.(others := c.others + {x}), h, {})
  {
    hide Held, KeptSince, Pointers, NoDup, HasPointer;
    var c' := c.(others := c.others + {x});
    assert Rest(c') + {} == Rest(c) + {x};
  }

  /** The rest of the kernel gives up a pointer. */
  lemma OthersGive(records: map<nat, Record>, c: Start, h: Heap, x: nat)
    requires Owned(records, c, h, {}) && x in c.others
    ensures Owned(records, c.(others := c.others - {x}), h, {x})
  {
    hide Held, KeptSince, Pointers, NoDup, HasPointer;
    var c' := c.(others := c.others - {x});
    assert Rest(c') + {x} == Rest(c) + {};
  }

  /** A task takes one more pointer for an area. */
  lemma AreaStep(records: map<nat, Record>, c: Start, h: Heap, p: nat, x: nat, areas: seq<nat>)
    requires Owned(records, c, h, {x}) && p in records
    requires areas == [x] + records[p].areas || areas == records[p].areas + [x]
    ensures Owned(records[p := records[p].(areas := areas)], c, h, {})
  {
    var r := records[p].(areas := areas);
    assert x !in Pointers(records[p]);
    forall y
      ensures y in Pointers(r) <==> y in Pointers(records[p]) || y == x
    {
    }
    assert NoDup(Pointers(r)) by {
      NoDupInsert(records[p], x, areas);
    }
    hide Held, KeptSince, Pointers, NoDup;
    var records' := records[p := r];
    forall y
      ensures HasPointer(records', y) <==> HasPointer(records, y) || y == x
    {
      if y in Pointers(r) {
        assert p in records' && y in Pointers(records'[p]);
      }
      if q :| q in records && y in Pointers(records[q]) {
        assert q in records' && y in Pointers(records'[q]);
      }
    }
  }

  lemma NoDupInsert(r: Record, x: nat, areas: seq<nat>)
    requires NoDup(Pointers(r)) && x !in Pointers(r) && (areas == [x] + r.areas || areas == r.areas + [x])
    ensures NoDup(Pointers(r.(areas := areas)))
  {
    var s, t := Pointers(r), Pointers(r.(areas := areas));
    var at := if areas == r.areas + [x] then |s| else 2;
    assert |t| == |s| + 1;
    assert forall i :: 0 <= i < |t| ==> t[i] == if i < at then s[i] else if i == at then x else s[i - 1];
    forall i, j | 0 <= i < j < |t|
      ensures t[i] != t[j]
    {
      var i', j' := if i < at then i else i - 1, if j < at then j else j - 1;
      if i != at && j != at {
        assert s[i'] != s[j'];
      } else if i == at {
        assert s[j'] in s;
      } else {
        assert s[i'] in s;
      }
    }
  }

  /** A task gives up all its pointers. */
  lemma ReleaseStep(records: map<nat, Record>, c: Start, h: Heap, p: nat)
    requires Owned(records, c, h, {}) && p in records
    ensures Owned(records - {p}, c, h, Elements(Pointers(records[p])))
  {
    hide Held, KeptSince, Pointers, NoDup;
    var records' := records - {p};
    forall x
      ensures HasPointer(records, x) <==> HasPointer(records', x) || x in Pointers(records[p])
    {
      if q :| q in records && q != p && x in Pointers(records[q]) {
        assert q in records' && x in Pointers(records'[q]);
      }
    }
  }

  /** A task gives up the pointers of its areas. */
  lemma ReleaseAreas(records: map<nat, Record>, c: Start, h: Heap, p: nat)
    requires Owned(records, c, h, {}) && p in records
    ensures Owned(records[p := records[p].(areas := [])], c, h, Elements(records[p].areas))
  {
    var r, areas := records[p].(areas := []), records[p].areas;
    PointersSplit(records[p]);
    hide Held, KeptSince, Pointers, NoDup;
    var records' := records[p := r];
    forall x
      ensures HasPointer(records, x) <==> HasPointer(records', x) || x in areas
      ensures x in areas <==> x in Elements(areas)
    {
      if q :| q in records' && x in Pointers(records'[q]) {
        assert q in records && x in Pointers(records[q]);
      }
      if q :| q in records && x in Pointers(records[q]) {
        assert q in records' && (x in Pointers(records'[q]) || x in areas);
      }
      if x in areas {
        assert x in Pointers(records[p]);
      }
    }
    assert Distinct(records', Rest(c) + Elements(areas));
    hide HasPointer;
  }

  lemma PointersSplit(r: Record)
    ensures var r' := r.(areas := []);
            && (forall x :: x in Pointers(r) <==> x in Pointers(r') || x in r.areas)
            && (NoDup(Pointers(r)) ==> NoDup(Pointers(r')) && forall x :: x in r.areas ==> x !in Pointers(r'))
  {
    var s := Pointers(r);
    assert forall i :: 0 <= i < |r.areas| ==> s[i + 2] == r.areas[i];
    if NoDup(s) {
      forall x | x in r.areas
        ensures x != r.node && x != r.stack
      {
        var i :| 0 <= i < |r.areas| && r.areas[i] == x;
        assert s[0] != s[i + 2] && s[1] != s[i + 2];
      }
      assert s[0] != s[1];
    }
  }
}
