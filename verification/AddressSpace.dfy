/** Virtual memory areas and what a process sees at its addresses. */
module AddressSpace {
  import opened Basics
  import opened BuddyAllocator
  import opened Sv39
  import opened PageTree
  import opened Cow
  import opened Vm
  import Isolation

  /** The end of the user half of the address space. */
  const USER_END: nat := USER_PAGES * PAGE_SIZE

  /** PROT_READ, PROT_WRITE and PROT_EXEC of an area. */
  datatype VmProt = VmProt(read: bool, write: bool, exec: bool)

  /** vm_area_struct; a null `vm_file_data` is an empty file. */
  datatype Vma = Vma(start: nat, end: nat, prot: VmProt, file: seq<byte>)

  datatype TaskState = Running | Zombie

  /** The parts of task_struct that concern memory. */
  datatype Task = Task(pgd: nat, vmas: seq<Vma>, state: TaskState)

  predicate Holds(a: Vma, va: nat) {
    a.start <= va < a.end
  }

  /** The first area of the list that holds the address. */
  function Find(vmas: seq<Vma>, va: nat): Option<Vma> {
    if vmas == [] then None
    else if Holds(vmas[0], va) then Some(vmas[0])
    else Find(vmas[1..], va)
  }

  predicate PageAligned(x: nat) {
    x % PAGE_SIZE == 0
  }

  predicate Separate(a: Vma, b: Vma) {
    a.end <= b.start || b.end <= a.start
  }

  /** Areas are page-aligned, lie in the user half and do not overlap. */
  ghost predicate VmasOk(vmas: seq<Vma>) {
    && (forall i :: 0 <= i < |vmas| ==>
         PageAligned(vmas[i].start) && PageAligned(vmas[i].end) && vmas[i].start <= vmas[i].end <= USER_END)
    && (forall i, j :: 0 <= i < j < |vmas| ==> Separate(vmas[i], vmas[j]))
  }

  /** PAGE_WRITE always comes with PAGE_READ. */
  function PageProt(prot: VmProt): Prot {
    Prot(prot.read || prot.write, prot.write, prot.exec, true)
  }

  /** The entry grants what the area permits, except that writing may be withheld. */
  predicate Matches(e: Pte, prot: VmProt) {
    e.valid && e == LeafEntry(e.ppn, PageProt(prot)).(write := e.write) && (e.write ==> prot.write)
  }

  /** The byte the backing file, padded with zeros, has at an address of the area. */
  function FileByte(a: Vma, va: nat): byte {
    if a.start <= va < a.start + |a.file| then a.file[va - a.start] else 0
  }

  /** The byte a process reads: from its frame if the page is present, else from the file or zero. */
  ghost function ByteAt(t: Task, maps: map<Slot, Pte>, bytes: seq<Page>, va: nat): byte {
    var s := Slot(t.pgd, va / PAGE_SIZE);
    if s in maps && maps[s].ppn < |bytes| then bytes[maps[s].ppn][va % PAGE_SIZE]
    else match Find(t.vmas, va)
         case Some(a) => FileByte(a, va)
         case None => 0
  }

  /** All that a process can see: its addresses and the bytes there. */
  ghost function View(t: Task, maps: map<Slot, Pte>, bytes: seq<Page>): imap<nat, byte> {
    imap va: nat | Find(t.vmas, va).Some? :: ByteAt(t, maps, bytes, va)
  }

  lemma {:induction false} FindHolds(vmas: seq<Vma>, va: nat)
    ensures Find(vmas, va).Some? ==> Holds(Find(vmas, va).value, va) && Find(vmas, va).value in vmas
    ensures Find(vmas, va).None? <==> forall i :: 0 <= i < |vmas| ==> !Holds(vmas[i], va)
  {
    if vmas != [] {
      FindHolds(vmas[1..], va);
      assert forall i :: 0 <= i < |vmas| - 1 ==> vmas[1..][i] == vmas[i + 1];
      assert forall i :: 0 < i < |vmas| ==> vmas[i] == vmas[1..][i - 1];
    }
  }

  /** Page-aligned areas hold all of a page or none of it. */
  lemma {:induction false} FindPage(vmas: seq<Vma>, va: nat)
    requires VmasOk(vmas)
    ensures Find(vmas, va) == Find(vmas, va / PAGE_SIZE * PAGE_SIZE)
  {
    if vmas != [] {
      var a := vmas[0];
      assert Holds(a, va) <==> Holds(a, va / PAGE_SIZE * PAGE_SIZE) by {
        assert PageAligned(a.start) && PageAligned(a.end);
      }
      assert VmasOk(vmas[1..]);
      FindPage(vmas[1..], va);
    }
  }

  /** Every present page lies in an area and its entry matches the area. */
  ghost predicate SpaceOk(t: Task, maps: map<Slot, Pte>) {
    && VmasOk(t.vmas)
    && forall v: nat :: Slot(t.pgd, v) in maps ==>
         Find(t.vmas, v * PAGE_SIZE).Some? && Matches(maps[Slot(t.pgd, v)], Find(t.vmas, v * PAGE_SIZE).value.prot)
  }

  /** Every task has a tree of its own. */
  ghost predicate SpacesOk(tasks: map<nat, Task>, own: map<nat, Role>, maps: map<Slot, Pte>) {
    && (forall p :: p in tasks ==> Is(own, tasks[p].pgd, Root) && SpaceOk(tasks[p], maps))
    && (forall p, q :: p in tasks && q in tasks && p != q ==> tasks[p].pgd != tasks[q].pgd)
  }

  /** A task's state is not part of what it sees. */
  lemma ViewOfState(t: Task, state: TaskState, maps: map<Slot, Pte>, bytes: seq<Page>)
    ensures View(t.(state := state), maps, bytes) == View(t, maps, bytes)
    ensures SpaceOk(t, maps) ==> SpaceOk(t.(state := state), maps)
  {
  }

  lemma SpaceOf(tasks: map<nat, Task>, own: map<nat, Role>, maps: map<Slot, Pte>, p: nat)
    requires SpacesOk(tasks, own, maps) && p in tasks
    ensures SpaceOk(tasks[p], maps) && Is(own, tasks[p].pgd, Root)
  {
  }

  /** Seen from a process, nothing differs if each of its pages has the same contents as before. */
  lemma ViewSame(t: Task, maps: map<Slot, Pte>, bytes: seq<Page>, maps': map<Slot, Pte>, bytes': seq<Page>)
    requires forall v: nat :: Slot(t.pgd, v) in maps ==> maps[Slot(t.pgd, v)].ppn < |bytes|
    requires forall v: nat :: Slot(t.pgd, v) in maps' ==> maps'[Slot(t.pgd, v)].ppn < |bytes'|
    requires forall v: nat :: Slot(t.pgd, v) in maps ==>
               Slot(t.pgd, v) in maps' && bytes'[maps'[Slot(t.pgd, v)].ppn] == bytes[maps[Slot(t.pgd, v)].ppn]
    requires forall v: nat :: Slot(t.pgd, v) in maps' && Slot(t.pgd, v) !in maps ==>
               IsFilePage(t.vmas, v, bytes'[maps'[Slot(t.pgd, v)].ppn])
    ensures View(t, maps', bytes') == View(t, maps, bytes)
  {
  }

  /** The page holds what the area's file, padded with zeros, has there. */
  ghost predicate IsFilePage(vmas: seq<Vma>, v: nat, page: Page) {
    forall va: nat :: va / PAGE_SIZE == v && Find(vmas, va).Some? ==>
      page[va % PAGE_SIZE] == FileByte(Find(vmas, va).value, va)
  }

  /** What every process sees. */
  ghost function Views(tasks: map<nat, Task>, maps: map<Slot, Pte>, bytes: seq<Page>): map<nat, imap<nat, byte>> {
    map p | p in tasks :: View(tasks[p], maps, bytes)
  }

  /** Page contents survive: mapped pages keep theirs, newly mapped ones show what the file or zero fill promised. */
  ghost predicate SameContents(tasks: map<nat, Task>, maps: map<Slot, Pte>, bytes: seq<Page>, maps': map<Slot, Pte>,
                               bytes': seq<Page>)
    requires InMemory(maps, bytes) && InMemory(maps', bytes')
  {
    && (forall s :: s in maps ==> s in maps' && bytes'[maps'[s].ppn] == bytes[maps[s].ppn])
    && (forall p, v: nat :: p in tasks && Slot(tasks[p].pgd, v) in maps' && Slot(tasks[p].pgd, v) !in maps ==>
          IsFilePage(tasks[p].vmas, v, bytes'[maps'[Slot(tasks[p].pgd, v)].ppn]))
  }

  lemma ViewsSame(tasks: map<nat, Task>, maps: map<Slot, Pte>, bytes: seq<Page>, maps': map<Slot, Pte>,
                  bytes': seq<Page>)
    requires InMemory(maps, bytes) && InMemory(maps', bytes') && SameContents(tasks, maps, bytes, maps', bytes')
    ensures Views(tasks, maps', bytes') == Views(tasks, maps, bytes)
  {
    forall p | p in tasks
      ensures View(tasks[p], maps', bytes') == View(tasks[p], maps, bytes)
    {
      ViewSame(tasks[p], maps, bytes, maps', bytes');
    }
  }

  /** The page at v is present in task p's area `a`. */
  lemma InArea(t: Task, maps: map<Slot, Pte>, va: nat)
    requires SpaceOk(t, maps)
    ensures Find(t.vmas, va) == Find(t.vmas, va / PAGE_SIZE * PAGE_SIZE)
    ensures Find(t.vmas, va).Some? ==>
              va < USER_END && Find(t.vmas, va).value in t.vmas && Holds(Find(t.vmas, va).value, va)
    ensures Find(t.vmas, va).Some? ==> PageAligned(Find(t.vmas, va).value.start) && va / PAGE_SIZE < USER_PAGES
    ensures Slot(t.pgd, va / PAGE_SIZE) in maps ==>
              Find(t.vmas, va).Some? && Matches(maps[Slot(t.pgd, va / PAGE_SIZE)], Find(t.vmas, va).value.prot)
  {
    FindPage(t.vmas, va);
    FindHolds(t.vmas, va);
  }

  /** Giving one page an entry that suits its area keeps every space in order. */
  lemma SpacesPut(tasks: map<nat, Task>, own: map<nat, Role>, own': map<nat, Role>, maps: map<Slot, Pte>, p: nat,
                  v: nat, e: Pte)
    requires SpacesOk(tasks, own, maps) && p in tasks
    requires forall r: nat :: Is(own, r, Root) ==> Is(own', r, Root)
    requires Find(tasks[p].vmas, v * PAGE_SIZE).Some? && Matches(e, Find(tasks[p].vmas, v * PAGE_SIZE).value.prot)
    ensures SpacesOk(tasks, own', maps[Slot(tasks[p].pgd, v) := e])
  {
    var s := Slot(tasks[p].pgd, v);
    forall q | q in tasks
      ensures SpaceOk(tasks[q], maps[s := e])
    {
      assert SpaceOk(tasks[q], maps);
      assert q != p ==> tasks[q].pgd != tasks[p].pgd;
      forall w: nat | Slot(tasks[q].pgd, w) in maps[s := e]
        ensures Find(tasks[q].vmas, w * PAGE_SIZE).Some?
        ensures Matches(maps[s := e][Slot(tasks[q].pgd, w)], Find(tasks[q].vmas, w * PAGE_SIZE).value.prot)
      {
        assert Slot(tasks[q].pgd, w) == s <==> q == p && w == v;
      }
    }
  }

  /** The entry a write fault leaves behind still suits the area. */
  lemma MatchesWritable(t: Task, maps: map<Slot, Pte>, v: nat)
    requires SpaceOk(t, maps) && Slot(t.pgd, v) in maps
    ensures Find(t.vmas, v * PAGE_SIZE).Some?
    ensures Find(t.vmas, v * PAGE_SIZE).value.prot.write ==>
              forall f: nat :: Matches(maps[Slot(t.pgd, v)].(write := true, ppn := f),
                Find(t.vmas, v * PAGE_SIZE).value.prot)
  {
  }

  /** Rewriting the entry of one mapped page, with the same contents behind it, is invisible. */
  lemma RepointInvisible(tasks: map<nat, Task>, own: map<nat, Role>, own': map<nat, Role>, maps: map<Slot, Pte>,
                         bytes: seq<Page>, bytes': seq<Page>, p: nat, v: nat, e: Pte)
    requires SpacesOk(tasks, own, maps) && InMemory(maps, bytes) && |bytes'| == |bytes|
    requires p in tasks && Slot(tasks[p].pgd, v) in maps && e.ppn < |bytes|
    requires forall r: nat :: Is(own, r, Root) ==> Is(own', r, Root)
    requires Find(tasks[p].vmas, v * PAGE_SIZE).Some? && Matches(e, Find(tasks[p].vmas, v * PAGE_SIZE).value.prot)
    requires forall s :: s in maps ==> bytes'[maps[s].ppn] == bytes[maps[s].ppn]
    requires bytes'[e.ppn] == bytes[maps[Slot(tasks[p].pgd, v)].ppn]
    ensures SpacesOk(tasks, own', maps[Slot(tasks[p].pgd, v) := e])
    ensures Views(tasks, maps[Slot(tasks[p].pgd, v) := e], bytes') == Views(tasks, maps, bytes)
  {
    SpacesPut(tasks, own, own', maps, p, v, e);
    ViewsSame(tasks, maps, bytes, maps[Slot(tasks[p].pgd, v) := e], bytes');
  }

  /** Demand-filling a page with what its area promises is invisible. */
  lemma InstallInvisible(tasks: map<nat, Task>, own: map<nat, Role>, own': map<nat, Role>, maps: map<Slot, Pte>,
                         bytes: seq<Page>, bytes': seq<Page>, p: nat, v: nat, e: Pte)
    requires SpacesOk(tasks, own, maps) && InMemory(maps, bytes) && |bytes'| == |bytes|
    requires p in tasks && Slot(tasks[p].pgd, v) !in maps && e.ppn < |bytes|
    requires forall r: nat :: Is(own, r, Root) ==> Is(own', r, Root)
    requires Find(tasks[p].vmas, v * PAGE_SIZE).Some? && Matches(e, Find(tasks[p].vmas, v * PAGE_SIZE).value.prot)
    requires forall s :: s in maps ==> bytes'[maps[s].ppn] == bytes[maps[s].ppn]
    requires IsFilePage(tasks[p].vmas, v, bytes'[e.ppn])
    ensures SpacesOk(tasks, own', maps[Slot(tasks[p].pgd, v) := e])
    ensures Views(tasks, maps[Slot(tasks[p].pgd, v) := e], bytes') == Views(tasks, maps, bytes)
  {
    SpacesPut(tasks, own, own', maps, p, v, e);
    var maps' := maps[Slot(tasks[p].pgd, v) := e];
    forall q, w: nat | q in tasks && Slot(tasks[q].pgd, w) in maps' && Slot(tasks[q].pgd, w) !in maps
      ensures IsFilePage(tasks[q].vmas, w, bytes'[maps'[Slot(tasks[q].pgd, w)].ppn])
    {
      assert Slot(tasks[q].pgd, w) == Slot(tasks[p].pgd, v);
      assert q == p && w == v;
    }
    ViewsSame(tasks, maps, bytes, maps', bytes');
  }

  /** How many bytes of the file fall into page v of the area. */
  function ChunkSize(a: Vma, v: nat): (n: nat)
    requires Holds(a, v * PAGE_SIZE)
    ensures n <= PAGE_SIZE && (n > 0 ==> v * PAGE_SIZE - a.start + n <= |a.file|)
  {
    if v * PAGE_SIZE - a.start >= |a.file| then 0
    else if |a.file| - (v * PAGE_SIZE - a.start) > PAGE_SIZE then PAGE_SIZE
    else |a.file| - (v * PAGE_SIZE - a.start)
  }

  function Zeros(n: nat): (z: seq<byte>)
    ensures |z| == n && forall i :: 0 <= i < n ==> z[i] == 0
  {
    if n == 0 then [] else Zeros(n - 1) + [0]
  }

  /**
   What the fault handler copies into a fresh page of an area: the rest of the file, cut at the page size, then zeros.
   */
  function FillFor(a: Vma, v: nat): (page: seq<byte>)
    requires Holds(a, v * PAGE_SIZE)
    ensures |page| == PAGE_SIZE
  {
    if ChunkSize(a, v) > 0
    then a.file[v * PAGE_SIZE - a.start..v * PAGE_SIZE - a.start + ChunkSize(a, v)] + Zeros(PAGE_SIZE - ChunkSize(a, v))
    else Zeros(PAGE_SIZE)
  }

  lemma FillIsFilePage(vmas: seq<Vma>, v: nat)
    requires VmasOk(vmas) && Find(vmas, v * PAGE_SIZE).Some?
    ensures Holds(Find(vmas, v * PAGE_SIZE).value, v * PAGE_SIZE)
    ensures IsFilePage(vmas, v, FillFor(Find(vmas, v * PAGE_SIZE).value, v))
  {
    FindHolds(vmas, v * PAGE_SIZE);
    forall va: nat | va / PAGE_SIZE == v
      ensures Find(vmas, va) == Find(vmas, v * PAGE_SIZE)
    {
      FindPage(vmas, va);
    }
  }

  /** A task with a fresh root may be added. */
  lemma SpacesAdd(tasks: map<nat, Task>, own: map<nat, Role>, own': map<nat, Role>, maps: map<Slot, Pte>, c: nat,
                  t: Task)
    requires SpacesOk(tasks, own, maps) && c !in tasks
    requires forall r: nat :: Is(own, r, Root) ==> Is(own', r, Root)
    requires Is(own', t.pgd, Root) && t.pgd !in own && SpaceOk(t, maps)
    ensures SpacesOk(tasks[c := t], own', maps)
  {
  }

  lemma FindPrepended(a: Vma, vmas: seq<Vma>, va: nat)
    ensures Find([a] + vmas, va) == if Holds(a, va) then Some(a) else Find(vmas, va)
  {
  }

  lemma SpaceMapped(t: Task, maps: map<Slot, Pte>, a: Vma)
    requires SpaceOk(t, maps) && VmasOk([a] + t.vmas)
    ensures SpaceOk(t.(vmas := [a] + t.vmas), maps)
    ensures forall v: nat :: Holds(a, v * PAGE_SIZE) ==> Slot(t.pgd, v) !in maps
    ensures forall v: nat :: Holds(a, v * PAGE_SIZE) ==> Find([a] + t.vmas, v * PAGE_SIZE) == Some(a)
  {
    var vmas := [a] + t.vmas;
    forall v: nat
      ensures Find(vmas, v * PAGE_SIZE) == if Holds(a, v * PAGE_SIZE) then Some(a) else Find(t.vmas, v * PAGE_SIZE)
      ensures Holds(a, v * PAGE_SIZE) ==> Slot(t.pgd, v) !in maps
    {
      FindPrepended(a, t.vmas, v * PAGE_SIZE);
      if Slot(t.pgd, v) in maps {
        FindHolds(t.vmas, v * PAGE_SIZE);
        var i :| 0 <= i < |t.vmas| && t.vmas[i] == Find(t.vmas, v * PAGE_SIZE).value;
        assert Separate(vmas[0], vmas[i + 1]);
      }
    }
  }

  /** A new area that meets no other leaves every space in order; none of its pages is present. */
  lemma SpacesMapped(tasks: map<nat, Task>, own: map<nat, Role>, maps: map<Slot, Pte>, p: nat, a: Vma)
    requires SpacesOk(tasks, own, maps) && p in tasks && VmasOk([a] + tasks[p].vmas)
    ensures SpacesOk(tasks[p := tasks[p].(vmas := [a] + tasks[p].vmas)], own, maps)
    ensures forall v: nat :: Holds(a, v * PAGE_SIZE) ==> Slot(tasks[p].pgd, v) !in maps
    ensures forall v: nat :: Holds(a, v * PAGE_SIZE) ==> Find([a] + tasks[p].vmas, v * PAGE_SIZE) == Some(a)
  {
    hide SpaceOk, VmasOk, Find;
    SpaceMapped(tasks[p], maps, a);
  }

  /** A new anonymous area shows zeros and changes nothing else. */
  lemma ViewMapped(t: Task, maps: map<Slot, Pte>, bytes: seq<Page>, a: Vma)
    requires SpaceOk(t, maps) && VmasOk([a] + t.vmas) && a.file == [] && a.start <= a.end
    ensures View(t.(vmas := [a] + t.vmas), maps, bytes)
            == Isolation.AddZeros(View(t, maps, bytes), a.start, a.end - a.start)
  {
    SpaceMapped(t, maps, a);
    assert PageAligned(([a] + t.vmas)[0].start) && PageAligned(([a] + t.vmas)[0].end);
    forall va: nat
      ensures Find([a] + t.vmas, va) == if Holds(a, va) then Some(a) else Find(t.vmas, va)
      ensures Holds(a, va) ==> Slot(t.pgd, va / PAGE_SIZE) !in maps
    {
      FindPrepended(a, t.vmas, va);
      assert Holds(a, va) ==> Holds(a, va / PAGE_SIZE * PAGE_SIZE);
    }
  }

  lemma ViewsMapped(tasks: map<nat, Task>, own: map<nat, Role>, maps: map<Slot, Pte>, bytes: seq<Page>, p: nat, a: Vma)
    requires SpacesOk(tasks, own, maps) && p in tasks && VmasOk([a] + tasks[p].vmas) && a.file == [] && a.start <= a.end
    ensures p in Views(tasks, maps, bytes)
    ensures Views(tasks[p := tasks[p].(vmas := [a] + tasks[p].vmas)], maps, bytes)
         == Views(tasks, maps, bytes)[p := Isolation.AddZeros(Views(tasks, maps, bytes)[p], a.start, a.end - a.start)]
  {
    hide SpaceOk, VmasOk, View;
    ViewMapped(tasks[p], maps, bytes, a);
  }

  /** Writing one byte of a frame that nobody else maps changes that byte of the writer's view, and no other view. */
  lemma ViewStored(t: Task, maps: map<Slot, Pte>, bytes: seq<Page>, bytes': seq<Page>, s: Slot, o: nat, b: byte)
    requires s in maps && InMemory(maps, bytes) && |bytes'| == |bytes| && o < PAGE_SIZE
    requires forall x :: x in maps && x != s ==> bytes'[maps[x].ppn] == bytes[maps[x].ppn]
    requires bytes'[maps[s].ppn] == bytes[maps[s].ppn][o := b]
    ensures View(t, maps, bytes') ==
            if t.pgd == s.root then Isolation.WriteByte(View(t, maps, bytes), s.vpn * PAGE_SIZE + o, b)
              else View(t, maps, bytes)
  {
    forall va: nat
      ensures ByteAt(t, maps, bytes', va) == if t.pgd == s.root && va == s.vpn * PAGE_SIZE + o then b
              else ByteAt(t, maps, bytes, va)
    {
      assert va == va / PAGE_SIZE * PAGE_SIZE + va % PAGE_SIZE;
      assert Slot(t.pgd, va / PAGE_SIZE) == s <==> t.pgd == s.root && va / PAGE_SIZE == s.vpn;
    }
  }

  lemma ViewsStored(tasks: map<nat, Task>, own: map<nat, Role>, maps: map<Slot, Pte>, bytes: seq<Page>,
                    bytes': seq<Page>, p: nat, v: nat, o: nat, b: byte)
    requires SpacesOk(tasks, own, maps) && p in tasks
    requires Slot(tasks[p].pgd, v) in maps && InMemory(maps, bytes) && |bytes'| == |bytes| && o < PAGE_SIZE
    requires forall x :: x in maps && x != Slot(tasks[p].pgd, v) ==> bytes'[maps[x].ppn] == bytes[maps[x].ppn]
    requires bytes'[maps[Slot(tasks[p].pgd, v)].ppn] == bytes[maps[Slot(tasks[p].pgd, v)].ppn][o := b]
    ensures p in Views(tasks, maps, bytes)
    ensures Views(tasks, maps, bytes')
         == Views(tasks, maps, bytes)[p := Isolation.WriteByte(Views(tasks, maps, bytes)[p], v * PAGE_SIZE + o, b)]
  {
    hide View, SpaceOk;
    forall q | q in tasks
      ensures View(tasks[q], maps, bytes') ==
              if q == p then Isolation.WriteByte(View(tasks[p], maps, bytes), v * PAGE_SIZE + o, b)
                else View(tasks[q], maps, bytes)
    {
      ViewStored(tasks[q], maps, bytes, bytes', Slot(tasks[p].pgd, v), o, b);
    }
  }

  /** Sharing pages read-only leaves every space in order; the child's entries suit the areas it has copied. */
  lemma ForkedSpaces(tasks: map<nat, Task>, own: map<nat, Role>, own': map<nat, Role>, was: map<Slot, Pte>,
                     maps: map<Slot, Pte>, p: nat, c: nat, n: nat)
    requires SpacesOk(tasks, own, was) && p in tasks && c in tasks && p != c
    requires tasks[c].vmas == tasks[p].vmas
    requires forall f :: f in own ==> f in own' && own'[f] == own[f]
    requires Forked(was, maps, tasks[p].pgd, tasks[c].pgd, n)
    ensures SpacesOk(tasks, own', maps)
  {
    forall q | q in tasks
      ensures SpaceOk(tasks[q], maps)
    {
      assert SpaceOk(tasks[q], was) && SpaceOk(tasks[p], was);
      forall v: nat | Slot(tasks[q].pgd, v) in maps
        ensures Find(tasks[q].vmas, v * PAGE_SIZE).Some?
        ensures Matches(maps[Slot(tasks[q].pgd, v)], Find(tasks[q].vmas, v * PAGE_SIZE).value.prot)
      {
        ForkedEntry(was, maps, tasks[p].pgd, tasks[c].pgd, n, Slot(tasks[q].pgd, v));
      }
    }
  }

  /** Sharing is in order for the others also if the child, without any page, has areas of its own. */
  lemma ForkedSpacesEmpty(tasks: map<nat, Task>, own: map<nat, Role>, own': map<nat, Role>, was: map<Slot, Pte>,
                          maps: map<Slot, Pte>, p: nat, c: nat, n: nat)
    requires SpacesOk(tasks, own, was) && p in tasks && c in tasks && p != c
    requires forall v: nat :: Slot(tasks[c].pgd, v) !in maps
    requires forall f :: f in own ==> f in own' && own'[f] == own[f]
    requires Forked(was, maps, tasks[p].pgd, tasks[c].pgd, n)
    ensures SpacesOk(tasks, own', maps)
  {
    forall q | q in tasks && q != c
      ensures SpaceOk(tasks[q], maps)
    {
      assert SpaceOk(tasks[q], was);
      forall v: nat | Slot(tasks[q].pgd, v) in maps
        ensures Find(tasks[q].vmas, v * PAGE_SIZE).Some?
        ensures Matches(maps[Slot(tasks[q].pgd, v)], Find(tasks[q].vmas, v * PAGE_SIZE).value.prot)
      {
        ForkedEntry(was, maps, tasks[p].pgd, tasks[c].pgd, n, Slot(tasks[q].pgd, v));
      }
    }
    assert SpaceOk(tasks[c], was);
  }

  /** Every entry after sharing is an earlier one, possibly without write permission. */
  lemma ForkedEntry(was: map<Slot, Pte>, maps: map<Slot, Pte>, parent: nat, child: nat, n: nat, s: Slot)
    requires Forked(was, maps, parent, child, n) && parent != child && s in maps
    ensures var o := if s.root == child then Slot(parent, s.vpn) else s;
            o in was && (maps[s] == was[o] || maps[s] == ReadOnly(was[o]))
  {
  }

  /** Sharing is invisible to everyone else, and a complete child sees what its parent sees. */
  lemma ForkedViews(tasks: map<nat, Task>, own: map<nat, Role>, was: map<Slot, Pte>, maps: map<Slot, Pte>,
                    bytes: seq<Page>, bytes': seq<Page>, p: nat, c: nat, n: nat)
    requires SpacesOk(tasks, own, was) && p in tasks && c in tasks && p != c
    requires Forked(was, maps, tasks[p].pgd, tasks[c].pgd, n)
    requires InMemory(was, bytes) && |bytes'| == |bytes|
    requires forall s :: s in was ==> bytes'[was[s].ppn] == bytes[was[s].ppn] && s.vpn < USER_PAGES
    ensures forall q :: q in tasks && q != c ==> View(tasks[q], maps, bytes') == View(tasks[q], was, bytes)
    ensures tasks[c].vmas == tasks[p].vmas && n == USER_PAGES ==>
              View(tasks[c], maps, bytes') == View(tasks[p], was, bytes)
  {
    hide View, Find, ByteAt, SpaceOk, Forked;
    forall q | q in tasks && q != c
      ensures View(tasks[q], maps, bytes') == View(tasks[q], was, bytes)
    {
      ForkedView(tasks[q], was, maps, bytes, bytes', tasks[p].pgd, tasks[c].pgd, n);
    }
    if tasks[c].vmas == tasks[p].vmas && n == USER_PAGES {
      ForkedChild(tasks[p], tasks[c], was, maps, bytes, bytes');
    }
  }

  /** Whoever is not the child sees what it saw. */
  lemma ForkedView(t: Task, was: map<Slot, Pte>, maps: map<Slot, Pte>, bytes: seq<Page>, bytes': seq<Page>,
                   parent: nat, child: nat, n: nat)
    requires Forked(was, maps, parent, child, n) && t.pgd != child && InMemory(was, bytes) && |bytes'| == |bytes|
    requires forall s :: s in was ==> bytes'[was[s].ppn] == bytes[was[s].ppn]
    ensures View(t, maps, bytes') == View(t, was, bytes)
  {
    hide View, Find, IsFilePage;
    forall v: nat
      ensures Slot(t.pgd, v) in maps <==> Slot(t.pgd, v) in was
      ensures Slot(t.pgd, v) in was ==> maps[Slot(t.pgd, v)].ppn == was[Slot(t.pgd, v)].ppn
    {
      assert Slot(parent, v) in maps <==> Slot(parent, v) in was;
    }
    ViewSame(t, was, bytes, maps, bytes');
  }

  /** A complete child sees what its parent saw. */
  lemma ForkedChild(t: Task, u: Task, was: map<Slot, Pte>, maps: map<Slot, Pte>, bytes: seq<Page>, bytes': seq<Page>)
    requires Forked(was, maps, t.pgd, u.pgd, USER_PAGES) && u.vmas == t.vmas && InMemory(was, bytes)
    requires |bytes'| == |bytes| && forall s :: s in was ==>
               bytes'[was[s].ppn] == bytes[was[s].ppn] && s.vpn < USER_PAGES
    ensures View(u, maps, bytes') == View(t, was, bytes)
  {
    hide Find;
    forall va: nat | Find(t.vmas, va).Some?
      ensures ByteAt(u, maps, bytes', va) == ByteAt(t, was, bytes, va)
    {
      var v := va / PAGE_SIZE;
      assert Slot(u.pgd, v) in maps <==> v < USER_PAGES && Slot(t.pgd, v) in was;
    }
  }

  /** A copy of a parent's memory, as far as the areas and the first pages go; beyond them what the areas promise. */
  ghost function PartCopy(parent: imap<nat, byte>, vmas: seq<Vma>, pages: nat): imap<nat, byte> {
    imap va: nat | Find(vmas, va).Some? ::
      if va / PAGE_SIZE < pages && va in parent then parent[va] else FileByte(Find(vmas, va).value, va)
  }

  /** An area found among the first is the first of all that hold the address. */
  lemma {:induction false} FindPrefix(vmas: seq<Vma>, n: nat, va: nat)
    requires n <= |vmas| && Find(vmas[..n], va).Some?
    ensures Find(vmas, va) == Find(vmas[..n], va)
    decreases n
  {
    if n > 0 && !Holds(vmas[0], va) {
      assert vmas[..n][1..] == vmas[1..][..n - 1];
      FindPrefix(vmas[1..], n - 1, va);
    }
  }

  /** A child with the first areas of its parent and copies of its first pages. */
  lemma PartialChild(t: Task, u: Task, was: map<Slot, Pte>, maps: map<Slot, Pte>, bytes: seq<Page>, bytes': seq<Page>,
                     pages: nat)
    requires Forked(was, maps, t.pgd, u.pgd, pages) && u.vmas <= t.vmas && InMemory(was, bytes)
    requires |bytes'| == |bytes| && forall s :: s in was ==> bytes'[was[s].ppn] == bytes[was[s].ppn]
    ensures View(u, maps, bytes') == PartCopy(View(t, was, bytes), u.vmas, pages)
  {
    hide Find;
    forall va: nat | Find(u.vmas, va).Some?
      ensures va in View(t, was, bytes)
      ensures ByteAt(u, maps, bytes', va) ==
              if va / PAGE_SIZE < pages then ByteAt(t, was, bytes, va) else FileByte(Find(u.vmas, va).value, va)
    {
      var v := va / PAGE_SIZE;
      assert u.vmas == t.vmas[..|u.vmas|];
      FindPrefix(t.vmas, |u.vmas|, va);
      assert Slot(u.pgd, v) in maps <==> v < pages && Slot(t.pgd, v) in was;
    }
  }

  /** What only one process sees anew. */
  lemma ViewsPut(tasks: map<nat, Task>, tasks': map<nat, Task>, maps: map<Slot, Pte>, bytes: seq<Page>,
                 maps': map<Slot, Pte>, bytes': seq<Page>, p: nat)
    requires p in tasks' && tasks' == tasks[p := tasks'[p]]
    requires forall q :: q in tasks && q != p ==> View(tasks[q], maps', bytes') == View(tasks[q], maps, bytes)
    ensures Views(tasks', maps', bytes') == Views(tasks, maps, bytes)[p := View(tasks'[p], maps', bytes')]
  {
  }

  /** Tearing down one tree leaves every other space in order. */
  lemma CutSpaces(tasks: map<nat, Task>, own: map<nat, Role>, own': map<nat, Role>, maps: map<Slot, Pte>, root: nat)
    requires SpacesOk(tasks, own, maps)
    requires forall p :: p in tasks ==> tasks[p].pgd != root
    requires forall f :: f in own && f !in own' ==> own[f] == User || InTree(own[f], f, root)
    requires forall f :: f in own && f in own' ==> own'[f] == own[f]
    ensures SpacesOk(tasks, own', Cut(maps, root, 0, USER_PAGES))
  {
  }

  lemma CutView(t: Task, maps: map<Slot, Pte>, bytes: seq<Page>, root: nat)
    requires t.pgd != root
    ensures View(t, Cut(maps, root, 0, USER_PAGES), bytes) == View(t, maps, bytes)
  {
  }

  lemma CutViews(tasks: map<nat, Task>, maps: map<Slot, Pte>, bytes: seq<Page>, root: nat)
    requires forall p :: p in tasks ==> tasks[p].pgd != root
    ensures Views(tasks, Cut(maps, root, 0, USER_PAGES), bytes) == Views(tasks, maps, bytes)
  {
    forall p | p in tasks
      ensures View(tasks[p], Cut(maps, root, 0, USER_PAGES), bytes) == View(tasks[p], maps, bytes)
    {
      CutView(tasks[p], maps, bytes, root);
    }
  }

  lemma SpacesWithout(tasks: map<nat, Task>, own: map<nat, Role>, maps: map<Slot, Pte>, p: nat)
    requires SpacesOk(tasks, own, maps) && p in tasks
    ensures SpacesOk(tasks - {p}, own, maps)
    ensures forall q :: q in tasks - {p} ==> tasks[q].pgd != tasks[p].pgd
  {
  }

  const STACK_START: nat := 0x3f_ffff_c000
  const STACK_END: nat := 0x40_0000_0000
  const STACK_PROT: VmProt := VmProt(true, true, false)
  const CODE_PROT: VmProt := VmProt(true, false, true)

  /** The areas of a program as they are made: its file mapped from address 0, and in front of it the stack. */
  function ProgramAreas(file: seq<byte>, n: nat): (areas: seq<Vma>)
    ensures |areas| == if n < 2 then n else 2
  {
    var code := Vma(0, PagesFor(|file|) * PAGE_SIZE, CODE_PROT, file);
    if n == 0 then [] else if n == 1 then [code] else [StackArea(), code]
  }

  function StackArea(): Vma {
    Vma(STACK_START, STACK_END, STACK_PROT, [])
  }

  lemma ProgramAreasOk(file: seq<byte>, n: nat)
    requires |file| < 0x1_0000_0000
    ensures VmasOk(ProgramAreas(file, n))
  {
  }

  lemma StackOk()
    ensures VmasOk([StackArea()] + [])
  {
  }

  lemma FindInOne(a: Vma, va: nat)
    ensures Find([a], va) == if Holds(a, va) then Some(a) else None
  {
    assert [a][1..] == [];
  }

  lemma FindInTwo(a: Vma, b: Vma, va: nat)
    ensures Find([a, b], va) == if Holds(a, va) then Some(a) else if Holds(b, va) then Some(b) else None
  {
    assert [a, b][1..] == [b];
    FindInOne(b, va);
  }

  /**
   What the areas of a program let it do: read and write its stack, read and execute the pages of its file, and nothing
   elsewhere.
   */
  ghost predicate Laid(vmas: seq<Vma>, size: nat, n: nat) {
    forall va: nat :: LaidAt(Find(vmas, va), size, n, va)
  }

  ghost predicate LaidAt(area: Option<Vma>, size: nat, n: nat, va: nat) {
    if n >= 2 && Isolation.InStack(va) then
      area.Some? && area.value.prot.read && area.value.prot.write && !area.value.prot.exec
    else if n >= 1 && Isolation.InFile(size, va) then
      area.Some? && area.value.prot.read && !area.value.prot.write && area.value.prot.exec
    else area == None
  }

  /** A task with nothing present sees the image of its program, as far as it has the areas for it. */
  lemma ProgramView(t: Task, file: seq<byte>, n: nat, maps: map<Slot, Pte>, bytes: seq<Page>)
    requires |file| < 0x1_0000_0000 && t.vmas == ProgramAreas(file, n)
    requires forall v: nat :: Slot(t.pgd, v) !in maps
    ensures View(t, maps, bytes) == Isolation.Image(file, n) && Laid(t.vmas, |file|, n)
  {
    var code := Vma(0, PagesFor(|file|) * PAGE_SIZE, CODE_PROT, file);
    forall va: nat
      ensures Find(t.vmas, va) ==
              if n >= 2 && Isolation.InStack(va) then Some(StackArea())
              else if n >= 1 && Isolation.InFile(|file|, va) then Some(code) else None
    {
      FindInOne(code, va);
      FindInTwo(StackArea(), code, va);
    }
    hide Find;
  }

  /** A task may move to a fresh root and new areas. */
  lemma SpacesReplace(tasks: map<nat, Task>, own: map<nat, Role>, own': map<nat, Role>, maps: map<Slot, Pte>, p: nat,
                      t: Task)
    requires SpacesOk(tasks, own, maps) && p in tasks
    requires forall r: nat :: Is(own, r, Root) ==> Is(own', r, Root)
    requires Is(own', t.pgd, Root) && t.pgd !in own && SpaceOk(t, maps)
    ensures SpacesOk(tasks[p := t], own', maps)
    ensures t.pgd != tasks[p].pgd && forall q :: q in tasks && q != p ==> tasks[q].pgd != tasks[p].pgd
  {
  }

  lemma ViewsAt(tasks: map<nat, Task>, maps: map<Slot, Pte>, bytes: seq<Page>, p: nat)
    ensures p in Views(tasks, maps, bytes) <==> p in tasks
    ensures p in tasks ==> Views(tasks, maps, bytes)[p] == View(tasks[p], maps, bytes)
  {
  }

  /** Contents of pages that nobody maps do not matter. */
  lemma ViewsKept(tasks: map<nat, Task>, maps: map<Slot, Pte>, bytes: seq<Page>, bytes': seq<Page>)
    requires InMemory(maps, bytes) && |bytes'| == |bytes|
    requires forall s :: s in maps ==> bytes'[maps[s].ppn] == bytes[maps[s].ppn]
    ensures Views(tasks, maps, bytes') == Views(tasks, maps, bytes)
  {
    ViewsSame(tasks, maps, bytes, maps, bytes');
  }
}
