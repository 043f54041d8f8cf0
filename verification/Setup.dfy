/** buddy_init from end to end: what the machine and its device tree say, and which frames become free. */
module Setup {
  import opened Basics
  import opened BuddySpec
  import opened BuddyAllocator
  import opened RawMemory
  import opened Boot
  import opened Dtb

  /** The kernel sees physical address pa at pa + PAGE_OFFSET. */
  const PAGE_OFFSET: nat := 0xffff_ffc0_0000_0000
  const DEFAULT_SIZE: nat := 0x8000_0000
  const QEMU_START: nat := 0x8000_0000
  const ARCHIVE_SIZE: nat := 0x100_0000

  /** What is known before: the memory the tree gives, the kernel's image, the device tree and the archive, if any. */
  datatype Platform = Platform(start: nat, size: nat, qemu: bool, text: nat, end: nat, tree: Option<Blob>,
                             archive: Option<nat>)

  /** Physical memory: as the tree gives it, or a default if it gives none; at most 2 GiB. */
  function MemoryStart(m: Platform): nat {
    if m.size != 0 then m.start else if m.qemu then QEMU_START else 0
  }

  function MemorySize(m: Platform): (size: nat)
    ensures 0 < size <= DEFAULT_SIZE
  {
    if m.size == 0 || m.size > DEFAULT_SIZE then DEFAULT_SIZE else m.size
  }

  /** buddy_base_addr */
  function BaseOf(m: Platform): nat {
    MemoryStart(m) + PAGE_OFFSET
  }

  /** What buddy_init registers itself, in this order. */
  ghost function OwnRegions(m: Platform): seq<Region>
    requires m.text <= m.end
  {
    [Region(m.text, m.end)]
    + (if m.text > BaseOf(m) then [Region(BaseOf(m), m.text)] else [])
    + (if m.tree.Some? then [Region(m.tree.value.base, m.tree.value.base + Word(m.tree.value, m.tree.value.base + 4))]
      else [])
    + (if m.archive.Some? then [Region(m.archive.value, m.archive.value + ARCHIVE_SIZE)] else [])
  }

  /** All regions that are registered when the arrays are placed; `early` were there before. */
  ghost function Registered(m: Platform, early: seq<Region>): seq<Region>
    requires m.text <= m.end
  {
    Register(early, OwnRegions(m) + FromTree(m))
  }

  ghost function FromTree(m: Platform): seq<Region> {
    if m.tree == None then [] else TreeRegions(m.tree.value)
  }

  /** The kernel's address of a frame, and its physical one. */
  function KernelPage(m: Platform, f: nat): nat {
    BaseOf(m) + f * PAGE_SIZE
  }

  function PhysicalPage(m: Platform, f: nat): nat {
    MemoryStart(m) + f * PAGE_SIZE
  }

  /** The table has room for what the kernel and the tree register, and for both arrays. */
  ghost predicate HasEntries(m: Platform, early: seq<Region>)
    requires m.text <= m.end
  {
    |early| + |OwnRegions(m)| + |FromTree(m)| + 2 <= MAX_RESERVED_REGIONS
  }

  /** What the table holds when the arrays lie at pages i and j. */
  ghost function Finally(m: Platform, early: seq<Region>, i: nat, j: nat): seq<Region>
    requires m.text <= m.end
  {
    var total := MemorySize(m) / PAGE_SIZE;
    Registered(m, early) + [ArrayAt(BaseOf(m), total, i), ArrayAt(BaseOf(m), total, j)]
  }

  /** buddy_init, up to the arrays: what is in use is registered. */
  method RegisterAll(m: Platform, early: seq<Region>) returns (table: Startup)
    requires m.text <= m.end
    ensures fresh(table) && table.base == BaseOf(m) && table.total == MemorySize(m) / PAGE_SIZE
    ensures table.regions == Registered(m, early)
  {
    hide Register, Word, TreeRegions;
    table := new Startup(BaseOf(m), MemorySize(m), early);
    table.MemoryReserve(m.text, m.end - m.text);
    ghost var own := [Region(m.text, m.end)];
    if m.text > BaseOf(m) {
      table.MemoryReserve(BaseOf(m), m.text - BaseOf(m));
      RegisterAppend(early, own, [Region(BaseOf(m), m.text)]);
      own := own + [Region(BaseOf(m), m.text)];
    }
    if m.tree.Some? {
      var b := m.tree.value;
      table.MemoryReserve(b.base, Word(b, b.base + 4));
      RegisterAppend(early, own, [Region(b.base, b.base + Word(b, b.base + 4))]);
      own := own + [Region(b.base, b.base + Word(b, b.base + 4))];
    }
    if m.archive.Some? {
      table.MemoryReserve(m.archive.value, ARCHIVE_SIZE);
      RegisterAppend(early, own, [Region(m.archive.value, m.archive.value + ARCHIVE_SIZE)]);
      own := own + [Region(m.archive.value, m.archive.value + ARCHIVE_SIZE)];
    }
    assert own == OwnRegions(m);
    FindAndReserveMemory(m.tree, table);
    if m.tree.Some? {
      RegisterAppend(early, own, TreeRegions(m.tree.value));
    } else {
      assert own + [] == own;
    }
  }

  /**
   buddy_init: a frame becomes free exactly when no registered region touches its page in the kernel's addresses. The
   allocator is there exactly when the table has the entries and memory the room for the arrays.
   */
  method BuddyInit(m: Platform, early: seq<Region>) returns (table: Startup, buddy: Buddy?)
    requires m.text <= m.end && |early| <= MAX_RESERVED_REGIONS
    ensures table.base == BaseOf(m) && table.total == MemorySize(m) / PAGE_SIZE
    ensures table.base == 0xffff_ffc0_0000_0000 + if m.size != 0 then m.start else if m.qemu then 0x8000_0000 else 0
    ensures table.total == if m.size == 0 || m.size > 0x8000_0000 then 0x8_0000 else m.size / 4096
    ensures buddy != null <==>
              HasEntries(m, early) && CanPlaceArrays(Registered(m, early), BaseOf(m), MemorySize(m) / PAGE_SIZE)
    ensures buddy != null ==>
              && buddy.Valid() && buddy.base == table.base && buddy.total == table.total && fresh(buddy.Repr)
              && table !in buddy.Repr
              && (exists i: nat, j: nat ::
                   && Placed(Registered(m, early), table.base, table.total, i, j)
                   && table.regions == Finally(m, early, i, j))
              && forall f: nat :: f < buddy.total ==>
                   (IsFree(buddy.frameArray[..], f) <==> !Reserved(table.regions, KernelPage(m, f)))
  {
    hide Register, TreeRegions, OwnRegions, FromTree, Reserved, Buddy.Valid, Placed;
    table := RegisterAll(m, early);
    RegisterLength(early, OwnRegions(m) + FromTree(m));
    var p, q;
    buddy, p, q := table.BuddyInit(MemorySize(m));
  }

  /** What lies at an address of the kernel that may not be handed out when the arrays are at pages i and j. */
  ghost predicate InUse(m: Platform, early: seq<Region>, i: nat, j: nat, a: nat) {
    || InRegions(early, a) || InRegions(FromTree(m), a)
    || BaseOf(m) <= a < m.text || m.text <= a < m.end
    || (m.tree.Some? && InTreeBlob(m.tree.value, a))
    || (m.archive.Some? && m.archive.value <= a < m.archive.value + 0x100_0000)
    || InArrayAt(m, i, a) || InArrayAt(m, j, a)
  }

  /** From the tree's address to its total size, which is the second word of its header. */
  ghost predicate InTreeBlob(b: Blob, a: nat) {
    b.base <= a < b.base + Word(b, b.base + 4)
  }

  /** The pages of an array of one int for each frame. */
  ghost predicate InArrayAt(m: Platform, i: nat, a: nat) {
    var start := BaseOf(m) + i * 4096;
    start <= a && (a - start) / 4096 * 4096 < MemorySize(m) / 4096 * 4
  }

  /** No region of the machine is empty. */
  ghost predicate NothingEmpty(m: Platform, early: seq<Region>) {
    && m.text < m.end && NoneEmpty(early) && NoneEmpty(FromTree(m)) && MemorySize(m) >= 4096
    && (m.tree.Some? ==> Word(m.tree.value, m.tree.value.base + 4) > 0)
  }

  /** A byte of the page of a frame, in the addresses of the kernel, is in use. */
  ghost predicate PageInUse(m: Platform, early: seq<Region>, i: nat, j: nat, f: nat) {
    exists a: nat :: KernelPage(m, f) <= a < KernelPage(m, f) + 4096 && InUse(m, early, i, j, a)
  }

  /**
   Byte by byte: no frame with a byte in use is free in the end, and every other frame is, unless a region is empty.
   */
  lemma FreeByAddress(m: Platform, early: seq<Region>, i: nat, j: nat, f: nat)
    requires m.text <= m.end && HasEntries(m, early)
    ensures PageInUse(m, early, i, j, f) ==> Reserved(Finally(m, early, i, j), KernelPage(m, f))
    ensures NothingEmpty(m, early) ==>
              (PageInUse(m, early, i, j, f) <==> Reserved(Finally(m, early, i, j), KernelPage(m, f)))
  {
    var page, all := KernelPage(m, f), Finally(m, early, i, j);
    RegisterFits(early, OwnRegions(m) + FromTree(m));
    forall a: nat
      ensures InRegions(all, a) <==> InUse(m, early, i, j, a)
    {
      AllInUse(m, early, i, j, a);
    }
    ReservedByAddress(all, page);
    if NothingEmpty(m, early) {
      NoneEmptyAtAll(m, early, i, j);
    }
    hide Finally, InUse, Reserved, NothingEmpty, HasEntries, KernelPage;
  }

  lemma InRegionsAppend(s: seq<Region>, t: seq<Region>, a: nat)
    ensures InRegions(s + t, a) <==> InRegions(s, a) || InRegions(t, a)
  {
    assert forall i :: 0 <= i < |s| ==> (s + t)[i] == s[i];
    assert forall i :: 0 <= i < |t| ==> (s + t)[|s| + i] == t[i];
  }

  lemma InRegionsOne(r: Region, a: nat)
    ensures InRegions([r], a) <==> r.start <= a < r.end
  {
    assert [r][0] == r;
  }

  lemma OwnInUse(m: Platform, a: nat)
    requires m.text <= m.end
    ensures InRegions(OwnRegions(m), a) <==>
              || BaseOf(m) <= a < m.text || m.text <= a < m.end
              || (m.tree.Some? && InTreeBlob(m.tree.value, a))
              || (m.archive.Some? && m.archive.value <= a < m.archive.value + 0x100_0000)
  {
    var image, below := [Region(m.text, m.end)], if m.text > BaseOf(m) then [Region(BaseOf(m), m.text)] else [];
    var tree := if m.tree == None then []
      else [Region(m.tree.value.base, m.tree.value.base + Word(m.tree.value, m.tree.value.base + 4))];
    var archive := if m.archive == None then [] else [Region(m.archive.value, m.archive.value + ARCHIVE_SIZE)];
    assert OwnRegions(m) == image + below + tree + archive;
    hide OwnRegions, Word, BaseOf;
    InRegionsAppend(image + below + tree, archive, a);
    InRegionsAppend(image + below, tree, a);
    InRegionsAppend(image, below, a);
    InRegionsOne(Region(m.text, m.end), a);
    if m.text > BaseOf(m) {
      InRegionsOne(Region(BaseOf(m), m.text), a);
    }
    if m.tree.Some? {
      InRegionsOne(tree[0], a);
    }
    if m.archive.Some? {
      InRegionsOne(archive[0], a);
    }
    hide InRegions;
  }

  lemma InRegionsParts(early: seq<Region>, own: seq<Region>, tree: seq<Region>, x: Region, y: Region, a: nat)
    ensures InRegions(early + (own + tree) + [x, y], a) <==>
              || InRegions(early, a) || InRegions(own, a) || InRegions(tree, a)
              || x.start <= a < x.end || y.start <= a < y.end
  {
    hide InRegions;
    InRegionsAppend(early + (own + tree), [x, y], a);
    InRegionsAppend([x], [y], a);
    InRegionsAppend(early, own + tree, a);
    InRegionsAppend(own, tree, a);
    InRegionsOne(x, a);
    InRegionsOne(y, a);
    assert [x, y] == [x] + [y];
  }

  lemma AllInUse(m: Platform, early: seq<Region>, i: nat, j: nat, a: nat)
    requires m.text <= m.end && HasEntries(m, early)
    ensures InRegions(Finally(m, early, i, j), a) <==> InUse(m, early, i, j, a)
  {
    hide OwnRegions, FromTree, Word, InArrayAt, ArrayAt, BaseOf, MemorySize, InRegions, Register, Registered;
    var own, tree, total := OwnRegions(m), FromTree(m), MemorySize(m) / PAGE_SIZE;
    InRegionsParts(early, own, tree, ArrayAt(BaseOf(m), total, i), ArrayAt(BaseOf(m), total, j), a);
    OwnInUse(m, a);
    ArrayBytes(m, i, a);
    ArrayBytes(m, j, a);
    AllRegistered(m, early);
  }

  lemma AllRegistered(m: Platform, early: seq<Region>)
    requires m.text <= m.end && HasEntries(m, early)
    ensures Registered(m, early) == early + (OwnRegions(m) + FromTree(m))
  {
    hide OwnRegions, FromTree, Register;
    RegisterFits(early, OwnRegions(m) + FromTree(m));
  }

  lemma ArrayBytes(m: Platform, i: nat, a: nat)
    ensures InArrayAt(m, i, a) <==>
              var r := ArrayAt(BaseOf(m), MemorySize(m) / PAGE_SIZE, i); r.start <= a < r.end
  {
    hide BaseOf, MemorySize;
    var total := MemorySize(m) / PAGE_SIZE;
    var bytes, start := total * INT_SIZE, BaseOf(m) + i * PAGE_SIZE;
    var pages := ArrayPages(total);
    if a >= start {
      assert (a - start) / 4096 < pages <==> (a - start) / 4096 * 4096 < bytes;
      assert a < start + pages * PAGE_SIZE <==> (a - start) / 4096 < pages;
    }
  }

  lemma NoneEmptyAtAll(m: Platform, early: seq<Region>, i: nat, j: nat)
    requires m.text <= m.end && HasEntries(m, early) && NothingEmpty(m, early)
    ensures NoneEmpty(Finally(m, early, i, j))
  {
    var own, tree, total := OwnRegions(m), FromTree(m), MemorySize(m) / PAGE_SIZE;
    var x, y := ArrayAt(BaseOf(m), total, i), ArrayAt(BaseOf(m), total, j);
    RegisterFits(early, own + tree);
    assert total * INT_SIZE > 0 && ArrayPages(total) > 0;
    assert NoneEmpty(own) by { hide FromTree, Word; }
    assert Finally(m, early, i, j) == early + (own + tree) + [x, y];
    hide OwnRegions, FromTree, Finally, Word, BaseOf, MemorySize;
  }

  /** The device tree of the machine is the flattened form of t. */
  ghost predicate Describes(m: Platform, root: seq<byte>, t: Items) {
    && m.tree.Some?
    && var b := m.tree.value;
       var start := b.base + Word(b, b.base + 8);
       && Word(b, b.base) == FDT_HEADER_MAGIC && start % 4 == 0 && 0 !in root
       && WellFormed(t, b, b.base + Word(b, b.base + 12))
       && HoldsAt(b, start, Flatten(Node(root, t, Last)) + EncodeWord(FDT_END))
       && |Flatten(Node(root, t, Last))| <= Word(b, b.base + 36)
  }

  lemma ReservedAppend(s: seq<Region>, t: seq<Region>, page: nat)
    ensures Reserved(s + t, page) <==> Reserved(s, page) || Reserved(t, page)
  {
    hide Touches;
    assert forall i :: 0 <= i < |s| ==> (s + t)[i] == s[i];
    assert forall i :: 0 <= i < |t| ==> (s + t)[|s| + i] == t[i];
  }

  /**
   From the tree to the free frames: a frame is kept back exactly when a region registered by the kernel itself or a
   region of the tree touches its page, both in the kernel's addresses.
   */
  lemma TreeToFrames(m: Platform, early: seq<Region>, root: seq<byte>, t: Items, i: nat, j: nat, f: nat)
    requires m.text <= m.end && Describes(m, root, t)
    requires |early| + |OwnRegions(m)| + |ReservedRegions(t)| + 2 <= MAX_RESERVED_REGIONS
    ensures var total := MemorySize(m) / PAGE_SIZE;
            Reserved(Finally(m, early, i, j), KernelPage(m, f)) <==>
              || Reserved(early + OwnRegions(m), KernelPage(m, f))
              || InArray(total, i, f) || InArray(total, j, f)
              || Reserved(ReservedRegions(t), KernelPage(m, f))
  {
    var own, tree, total := OwnRegions(m), ReservedRegions(t), MemorySize(m) / PAGE_SIZE;
    TreeIsRead(m, root, t);
    assert Registered(m, early) == early + (own + tree) by {
      hide OwnRegions, ReservedRegions, FromTree;
      RegisterFits(early, own + tree);
    }
    hide OwnRegions, ReservedRegions, FromTree, Reserved, Registered, ArrayAt, InArray, Describes;
    ReservedParts(early, own, tree, ArrayAt(BaseOf(m), total, i), ArrayAt(BaseOf(m), total, j), KernelPage(m, f));
    ArrayTouches(BaseOf(m), total, i, f);
    ArrayTouches(BaseOf(m), total, j, f);
  }

  lemma ReservedParts(early: seq<Region>, own: seq<Region>, tree: seq<Region>, a: Region, b: Region, page: nat)
    ensures Reserved(early + (own + tree) + [a, b], page) <==>
              || Reserved(early + own, page) || Reserved(tree, page) || Touches(a, page) || Touches(b, page)
  {
    hide Touches, Reserved;
    ReservedAppend(early + (own + tree), [a, b], page);
    ReservedAppend(early, own + tree, page);
    ReservedAppend(own, tree, page);
    ReservedAppend(early, own, page);
    ReservedPair(a, b, page);
  }

  lemma TreeIsRead(m: Platform, root: seq<byte>, t: Items)
    requires Describes(m, root, t)
    ensures FromTree(m) == ReservedRegions(t)
  {
    hide Word, HoldsAt, WellFormed, Scan, Flatten;
    var b := m.tree.value;
    var start := b.base + Word(b, b.base + 8);
    ScanReadsTree(root, t, b, b.base + Word(b, b.base + 12), start + Word(b, b.base + 36), start);
  }

  lemma ReservedPair(a: Region, b: Region, page: nat)
    ensures Reserved([a, b], page) <==> Touches(a, page) || Touches(b, page)
  {
    assert [a, b][0] == a && [a, b][1] == b;
  }

  /**
   The tree gives physical addresses. A region that touches the physical page of a frame touches the kernel's page,
   and so keeps the frame back, exactly when it reaches beyond that address, which lies above PAGE_OFFSET.
   */
  lemma MeantFrames(m: Platform, r: Region, f: nat)
    requires Touches(r, PhysicalPage(m, f))
    ensures Touches(r, KernelPage(m, f)) <==> r.end > KernelPage(m, f)
    ensures KernelPage(m, f) >= PAGE_OFFSET
  {
  }

  /** So a tree whose regions end below PAGE_OFFSET keeps back no frame at all. */
  lemma LowTreeKeepsNothing(m: Platform, t: Items, f: nat)
    requires forall i :: 0 <= i < |ReservedRegions(t)| ==> ReservedRegions(t)[i].end <= PAGE_OFFSET
    ensures !Reserved(ReservedRegions(t), KernelPage(m, f))
  {
  }

  /**
   So, with such a tree, a frame that it means to keep back is free in the end exactly when nothing the kernel itself
   has registered touches it.
   */
  lemma MeantButFree(m: Platform, early: seq<Region>, root: seq<byte>, t: Items, i: nat, j: nat, f: nat)
    requires m.text <= m.end && Describes(m, root, t)
    requires |early| + |OwnRegions(m)| + |ReservedRegions(t)| + 2 <= MAX_RESERVED_REGIONS
    requires forall n :: 0 <= n < |ReservedRegions(t)| ==> ReservedRegions(t)[n].end <= PAGE_OFFSET
    ensures var total := MemorySize(m) / PAGE_SIZE;
            !Reserved(Finally(m, early, i, j), KernelPage(m, f)) <==>
              !Reserved(early + OwnRegions(m), KernelPage(m, f)) && !InArray(total, i, f) && !InArray(total, j, f)
  {
    hide Reserved, Finally, InArray, OwnRegions, ReservedRegions, Describes;
    TreeToFrames(m, early, root, t, i, j, f);
    LowTreeKeepsNothing(m, t, f);
  }
}
