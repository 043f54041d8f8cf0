/** One machine from its device tree to its first threads. */
module Sample {
  import opened Basics
  import opened Bits
  import opened BuddyAllocator
  import opened BuddyPages
  import opened RawMemory
  import opened Boot
  import opened Dtb
  import opened KmallocSpec
  import opened Setup
  import Bringup
  import PageTree

  /** Big-endian words, one behind another. */
  function EncodeWords(words: seq<nat>): (s: seq<byte>)
    ensures |s| == 4 * |words|
  {
    if words == [] then [] else EncodeWord(words[0]) + EncodeWords(words[1..])
  }

  lemma {:induction false} WordsRoundTrip(b: Blob, a: nat, words: seq<nat>, i: nat)
    requires HoldsAt(b, a, EncodeWords(words)) && i < |words| && words[i] < 0x1_0000_0000
    ensures Word(b, a + 4 * i) == words[i]
    decreases i
  {
    HoldsParts(b, a, EncodeWord(words[0]), EncodeWords(words[1..]));
    if i == 0 {
      WordRoundTrip(b, a, words[0]);
    } else {
      WordsRoundTrip(b, a + 4, words[1..], i - 1);
    }
  }

  /**
   A flattened tree: the header (section 5.2 of the Devicetree Specification) and an empty reservation block as words,
   the structure block, the strings.
   */
  function Structure(root: seq<byte>, t: Items): seq<byte> {
    Flatten(Node(root, t, Last)) + EncodeWord(FDT_END)
  }

  /** Where the structure block begins. */
  const FRONT: nat := 56

  function Header(structure: nat, strings: nat): seq<nat> {
    [FDT_HEADER_MAGIC, FRONT + structure + strings, FRONT, FRONT + structure, 40, 17, 16, 0, strings, structure,
     0, 0, 0, 0]
  }

  function FlatTree(root: seq<byte>, t: Items, strings: seq<byte>): seq<byte> {
    EncodeWords(Header(|Structure(root, t)|, |strings|)) + (Structure(root, t) + strings)
  }

  lemma HoldsAll(b: Blob)
    ensures HoldsAt(b, b.base, b.bytes)
  {
  }

  lemma HeaderLength(structure: nat, strings: nat)
    ensures |EncodeWords(Header(structure, strings))| == FRONT
  {
    hide EncodeWords;
  }

  lemma HeaderReads(b: Blob, structure: nat, strings: nat)
    requires HoldsAt(b, b.base, EncodeWords(Header(structure, strings))) && FRONT + structure + strings < 0x1_0000_0000
    ensures Word(b, b.base) == FDT_HEADER_MAGIC && Word(b, b.base + 4) == FRONT + structure + strings
    ensures Word(b, b.base + 8) == FRONT && Word(b, b.base + 12) == FRONT + structure
    ensures Word(b, b.base + 36) == structure
  {
    hide Word, HoldsAt, EncodeWords;
    var words := Header(structure, strings);
    WordsRoundTrip(b, b.base, words, 0);
    WordsRoundTrip(b, b.base, words, 1);
    WordsRoundTrip(b, b.base, words, 2);
    WordsRoundTrip(b, b.base, words, 3);
    WordsRoundTrip(b, b.base, words, 9);
  }

  /** The parts of a flattened tree are found where its header says. */
  lemma FlatTreeReads(b: Blob, root: seq<byte>, t: Items, strings: seq<byte>)
    requires b.bytes == FlatTree(root, t, strings) && |b.bytes| < 0x1_0000_0000
    ensures Word(b, b.base) == FDT_HEADER_MAGIC && Word(b, b.base + 4) == |b.bytes|
    ensures Word(b, b.base + 8) == FRONT && Word(b, b.base + 12) == FRONT + |Structure(root, t)|
    ensures Word(b, b.base + 36) == |Structure(root, t)|
    ensures HoldsAt(b, b.base + FRONT, Structure(root, t))
    ensures HoldsAt(b, b.base + FRONT + |Structure(root, t)|, strings)
  {
    hide Word, HoldsAt, EncodeWords, Structure, Header;
    var s := Structure(root, t);
    var front := EncodeWords(Header(|s|, |strings|));
    HeaderLength(|s|, |strings|);
    HoldsAll(b);
    HoldsParts(b, b.base, front, s + strings);
    HoldsParts(b, b.base + FRONT, s, strings);
    HeaderReads(b, |s|, |strings|);
  }

  /** A tree whose property names are among the strings is described at any aligned address. */
  lemma FlatTreeDescribes(m: Platform, root: seq<byte>, t: Items, strings: seq<byte>)
    requires m.tree.Some? && m.tree.value.bytes == FlatTree(root, t, strings) && m.tree.value.base % 4 == 0
    requires 0 !in root && |m.tree.value.bytes| < 0x1_0000_0000
    requires WellFormed(t, m.tree.value, m.tree.value.base + FRONT + |Structure(root, t)|)
    ensures Describes(m, root, t)
  {
    hide Word, HoldsAt, WellFormed, FlatTree, Flatten;
    FlatTreeReads(m.tree.value, root, t, strings);
  }

  /** "fw" */
  const FIRMWARE: seq<byte> := [102, 119]
  const STRINGS: seq<byte> := [114, 101, 103, 0]

  /** A tree that keeps one MiB at 2.5 GiB for the firmware. */
  function Tree(): Items {
    Filler(Node(RESERVED_MEMORY, Inner(), Last))
  }

  function Kept(): seq<byte> {
    EncodeWord(0xa000_0000) + EncodeWord(0x10_0000)
  }

  const START: nat := 0x8000_0000
  const BASE: nat := START + PAGE_OFFSET
  const IMAGE_START: nat := BASE + 0x20_0000
  const IMAGE_END: nat := BASE + 0x40_0000
  const TREE_START: nat := BASE + 0x3000_0000
  const ARCHIVE_START: nat := BASE + 0x1000_0000
  const FRAMES: nat := 0x4_0000

  function TreeBlob(): Blob {
    Blob(TREE_START, FlatTree([], Tree(), STRINGS))
  }

  /** One GiB from 2 GiB on, the image in its first 4 MiB, an archive 252 MiB behind it, and the tree after that. */
  function Machine(): Platform {
    Platform(START, 0x4000_0000, true, IMAGE_START, IMAGE_END, Some(TreeBlob()), Some(ARCHIVE_START))
  }

  function Inner(): Items {
    Node(FIRMWARE, Property(REG, 0, Kept(), Last), Last)
  }

  lemma TreeWords()
    ensures Words(Node([], Tree(), Last)) == 18
  {
    assert Words(Property(REG, 0, Kept(), Last)) == 5;
    assert Words(Inner()) == 8;
    assert Words(Node(RESERVED_MEMORY, Inner(), Last)) == 14;
    assert Words(Tree()) == 15;
  }

  lemma {:induction false} WordsAppend(v: seq<nat>, w: seq<nat>)
    ensures EncodeWords(v + w) == EncodeWords(v) + EncodeWords(w)
  {
    if v == [] {
      assert v + w == w;
    } else {
      assert (v + w)[1..] == v[1..] + w;
      WordsAppend(v[1..], w);
    }
  }

  lemma One(x: nat)
    ensures EncodeWords([x]) == EncodeWord(x)
  {
    assert [x][1..] == [];
  }

  lemma Next(x: nat, w: seq<nat>)
    ensures EncodeWords([x] + w) == EncodeWord(x) + EncodeWords(w)
  {
    assert ([x] + w)[1..] == w;
  }

  function RegWords(): seq<nat> {
    [3, 8, 0, 0xa000_0000, 0x10_0000]
  }

  lemma RegInWords()
    ensures Flatten(Property(REG, 0, Kept(), Last)) == EncodeWords(RegWords())
  {
    assert Flatten(Last) == [] && Pad(8) == [];
    hide EncodeWords, EncodeWord;
    One(0x10_0000);
    Next(0xa000_0000, [0x10_0000]);
    Next(0, [0xa000_0000, 0x10_0000]);
    Next(8, [0, 0xa000_0000, 0x10_0000]);
    Next(3, [8, 0, 0xa000_0000, 0x10_0000]);
    assert [3] + [8, 0, 0xa000_0000, 0x10_0000] == RegWords();
    assert [8] + [0, 0xa000_0000, 0x10_0000] == [8, 0, 0xa000_0000, 0x10_0000];
    assert [0] + [0xa000_0000, 0x10_0000] == [0, 0xa000_0000, 0x10_0000];
    assert [0xa000_0000] + [0x10_0000] == [0xa000_0000, 0x10_0000];
  }

  /** A node whose name and body come in whole words. */
  lemma NodeInWords(name: seq<byte>, names: seq<nat>, body: Items, inner: seq<nat>)
    requires name + [0] + Pad(|name| + 1) == EncodeWords(names) && Flatten(body) == EncodeWords(inner)
    ensures Flatten(Node(name, body, Last)) == EncodeWords([1] + names + inner + [2])
  {
    hide EncodeWords, EncodeWord, Pad;
    One(2);
    assert Flatten(Node(name, body, Last)) ==
           EncodeWord(1) + (name + [0] + (Pad(|name| + 1) + (Flatten(body) + (EncodeWord(2) + []))));
    WordsAppend(inner, [2]);
    WordsAppend(names, inner + [2]);
    Next(1, names + (inner + [2]));
    assert [1] + (names + (inner + [2])) == [1] + names + inner + [2];
  }

  function FirmwareWords(): seq<nat> {
    [1] + [0x6677_0000] + RegWords() + [2]
  }

  lemma FirmwareInWords()
    ensures Flatten(Inner()) == EncodeWords(FirmwareWords())
  {
    assert Pad(3) == [0] && EncodeWord(0x6677_0000) == [102, 119, 0, 0];
    hide EncodeWord, Pad;
    One(0x6677_0000);
    RegInWords();
    hide EncodeWords;
    assert FIRMWARE + [0] + Pad(|FIRMWARE| + 1) == [102, 119, 0, 0];
    NodeInWords(FIRMWARE, [0x6677_0000], Property(REG, 0, Kept(), Last), RegWords());
  }

  function NameWords(): seq<nat> {
    [0x7265_7365, 0x7276_6564, 0x2d6d_656d, 0x6f72_7900]
  }

  lemma NameInWords()
    ensures EncodeWords(NameWords()) == RESERVED_MEMORY + [0]
  {
    var a, b, c, d := 0x7265_7365, 0x7276_6564, 0x2d6d_656d, 0x6f72_7900;
    assert EncodeWord(a) == RESERVED_MEMORY[..4] && EncodeWord(b) == RESERVED_MEMORY[4..8];
    assert EncodeWord(c) == RESERVED_MEMORY[8..12] && EncodeWord(d) == RESERVED_MEMORY[12..] + [0];
    hide EncodeWord;
    FourWords(a, b, c, d);
  }

  lemma FourWords(a: nat, b: nat, c: nat, d: nat)
    ensures EncodeWords([a, b, c, d]) == EncodeWord(a) + EncodeWord(b) + EncodeWord(c) + EncodeWord(d)
  {
    One(d);
    Next(c, [d]);
    Next(b, [c, d]);
    Next(a, [b, c, d]);
    hide EncodeWords, EncodeWord;
    assert [a] + [b, c, d] == [a, b, c, d] && [b] + [c, d] == [b, c, d] && [c] + [d] == [c, d];
  }

  function MemoryWords(): seq<nat> {
    [4] + ([1] + NameWords() + FirmwareWords() + [2])
  }

  lemma MemoryInWords()
    ensures Flatten(Tree()) == EncodeWords(MemoryWords())
  {
    assert Pad(16) == [];
    NameInWords();
    FirmwareInWords();
    hide EncodeWords, Pad, Inner, FirmwareWords, NameWords;
    assert RESERVED_MEMORY + [0] + Pad(|RESERVED_MEMORY| + 1) == RESERVED_MEMORY + [0];
    NodeInWords(RESERVED_MEMORY, NameWords(), Inner(), FirmwareWords());
    Next(4, [1] + NameWords() + FirmwareWords() + [2]);
  }

  function RootWords(): seq<nat> {
    [1] + [0] + MemoryWords() + [2] + [9]
  }

  lemma RootInWords()
    ensures Structure([], Tree()) == EncodeWords(RootWords())
  {
    NoName();
    MemoryInWords();
    One(9);
    hide EncodeWords, EncodeWord, Pad, Tree, MemoryWords;
    NodeInWords([], [0], Tree(), MemoryWords());
    WordsAppend([1] + [0] + MemoryWords() + [2], [9]);
  }

  lemma NoName()
    ensures var root: seq<byte> := []; root + [0] + Pad(|root| + 1) == EncodeWords([0])
  {
    assert Pad(1) == [0, 0, 0] && EncodeWord(0) == [0, 0, 0, 0];
    One(0);
  }

  /**
   The tree word by word, as section 5.2 and 5.4 of the Devicetree Specification number its parts: ten words of header
   and four of an empty reservation block; BEGIN_NODE "", NOP, BEGIN_NODE "reserved-memory", BEGIN_NODE "fw", PROP of
   8 bytes with name 0, END_NODE three times, END; the name "reg".
   */
  lemma TreeInWords()
    ensures TreeBlob().bytes ==
            EncodeWords([0xd00d_feed, 136, 56, 132, 40, 17, 16, 0, 4, 76, 0, 0, 0, 0] + (RootWords() + [0x7265_6700]))
  {
    TreeSize();
    assert EncodeWord(0x7265_6700) == STRINGS;
    hide EncodeWord, Structure, Tree, RootWords;
    RootInWords();
    One(0x7265_6700);
    WordsAppend(RootWords(), [0x7265_6700]);
    WordsAppend(Header(76, 4), RootWords() + [0x7265_6700]);
    hide EncodeWords;
  }

  lemma TreeSize()
    ensures |Structure([], Tree())| == 76 && |TreeBlob().bytes| == 136
  {
    TreeWords();
    hide Flatten, Header, EncodeWords, Words, Tree;
    FlattenWords(Node([], Tree(), Last));
    HeaderLength(76, 4);
  }

  lemma EncodedWord(x: nat)
    requires x < 0x1_0000_0000
    ensures BigEndian(EncodeWord(x)) == x
  {
    FourBytes(EncodeWord(x));
    FourDigits(x);
    hide BigEndian, Join4;
  }

  lemma KeptRegion()
    ensures Pair(Kept()) == [Region(0xa000_0000, 0xa010_0000)]
  {
    EncodedWord(0xa000_0000);
    EncodedWord(0x10_0000);
    hide BigEndian, EncodeWord;
    var v := Kept();
    assert v[..4] == EncodeWord(0xa000_0000) && v[4..8] == EncodeWord(0x10_0000);
  }

  lemma TreeReserves()
    ensures ReservedRegions(Tree()) == [Region(0xa000_0000, 0xa010_0000)]
  {
    KeptRegion();
    hide Pair, Kept;
    assert Regs(Property(REG, 0, Kept(), Last)) == Pair(Kept());
    assert ChildRegs(Inner()) == Pair(Kept());
    assert Matches(RESERVED_MEMORY, RESERVED_MEMORY);
  }

  lemma TreeIsWellFormed()
    ensures WellFormed(Tree(), TreeBlob(), TREE_START + FRONT + |Structure([], Tree())|)
  {
    TreeSize();
    hide FlatTree, Structure, HoldsAt, Word, Tree, WellFormed;
    FlatTreeReads(TreeBlob(), [], Tree(), STRINGS);
    TreeNames(TreeBlob(), TREE_START + FRONT + |Structure([], Tree())|);
  }

  lemma TreeNames(b: Blob, strings: nat)
    requires HoldsAt(b, strings, STRINGS)
    ensures WellFormed(Tree(), b, strings)
  {
    assert STRINGS == REG + [0];
    TextRoundTrip(b, strings, REG);
    hide Text, HoldsAt;
    assert strings + 0 == strings;
    assert WellFormed(Property(REG, 0, Kept(), Last), b, strings);
    assert WellFormed(Inner(), b, strings);
  }

  lemma MachineDescribed()
    ensures Describes(Machine(), [], Tree()) && FromTree(Machine()) == [Region(0xa000_0000, 0xa010_0000)]
  {
    TreeSize();
    TreeIsWellFormed();
    TreeReserves();
    hide FlatTree, Structure, Tree, WellFormed, Describes, ReservedRegions, FromTree;
    FlatTreeDescribes(Machine(), [], Tree(), STRINGS);
    TreeIsRead(Machine(), [], Tree());
  }

  /** What the table of regions holds on this machine. */
  function Regions(): seq<Region> {
    [Region(IMAGE_START, IMAGE_END), Region(BASE, IMAGE_START), Region(TREE_START, TREE_START + 136),
     Region(ARCHIVE_START, ARCHIVE_START + 0x100_0000), Region(0xa000_0000, 0xa010_0000)]
  }

  lemma MachineRegions()
    ensures |OwnRegions(Machine())| == 4 && |FromTree(Machine())| == 1 && Registered(Machine(), []) == Regions()
  {
    MachineDescribed();
    TreeSize();
    MachineOwn();
    hide FlatTree, Structure, Tree, WellFormed, Describes, FromTree, OwnRegions, Register;
    var all := OwnRegions(Machine()) + FromTree(Machine());
    RegisterFits([], all);
    assert [] + all == all == Regions();
  }

  lemma MachineOwn()
    ensures OwnRegions(Machine()) == Regions()[..4]
  {
    TreeSize();
    hide FlatTree, Structure, Tree, Word;
    FlatTreeReads(TreeBlob(), [], Tree(), STRINGS);
    var b := TREE_START + 136;
    assert OwnRegions(Machine()) == [Region(IMAGE_START, IMAGE_END)] + [Region(BASE, IMAGE_START)]
                                    + [Region(TREE_START, b)] + [Region(ARCHIVE_START, ARCHIVE_START + 0x100_0000)];
  }

  /** The arrays lie right behind the image. */
  lemma MachineArrays()
    ensures Placed(Regions(), BASE, FRAMES, 0x400, 0x500)
  {
    assert ArrayPages(FRAMES) == 0x100;
    FirstOne();
    var a := ArrayAt(BASE, FRAMES, 0x400);
    assert Register(Regions(), [a]) == Regions() + [a];
    SecondOne();
  }

  lemma FirstOne()
    ensures FirstRun(Regions(), BASE, FRAMES, 0x100, 0x400)
  {
    forall j: nat | j < 0x400
      ensures !ClearRun(Regions(), BASE, j, 0x100)
    {
      if j < 0x200 {
        assert Clash(Regions()[1], BASE + j * PAGE_SIZE, BASE + j * PAGE_SIZE + 0x100 * PAGE_SIZE);
      } else {
        assert Clash(Regions()[0], BASE + j * PAGE_SIZE, BASE + j * PAGE_SIZE + 0x100 * PAGE_SIZE);
      }
    }
  }

  lemma SecondOne()
    ensures FirstRun(Regions() + [ArrayAt(BASE, FRAMES, 0x400)], BASE, FRAMES, 0x100, 0x500)
  {
    var a := ArrayAt(BASE, FRAMES, 0x400);
    var regions := Regions() + [a];
    assert ArrayPages(FRAMES) == 0x100;
    assert regions[0] == Regions()[0] && regions[1] == Regions()[1] && regions[5] == a;
    forall j: nat | j < 0x500
      ensures !ClearRun(regions, BASE, j, 0x100)
    {
      if j < 0x200 {
        assert Clash(regions[1], BASE + j * PAGE_SIZE, BASE + j * PAGE_SIZE + 0x100 * PAGE_SIZE);
      } else if j < 0x400 {
        assert Clash(regions[0], BASE + j * PAGE_SIZE, BASE + j * PAGE_SIZE + 0x100 * PAGE_SIZE);
      } else {
        assert Clash(regions[5], BASE + j * PAGE_SIZE, BASE + j * PAGE_SIZE + 0x100 * PAGE_SIZE);
      }
    }
  }

  lemma MachineBase()
    ensures BaseOf(Machine()) == BASE && MemorySize(Machine()) / PAGE_SIZE == FRAMES
    ensures MemoryStart(Machine()) == START && Machine().text <= Machine().end
  {
    hide TreeBlob;
  }

  lemma RegionsClear(f: nat)
    requires 0x600 <= f < 0x3_0000 && !(0x1_0000 <= f < 0x1_1000)
    ensures !Reserved(Regions() + [ArrayAt(BASE, FRAMES, 0x400), ArrayAt(BASE, FRAMES, 0x500)], BASE + f * PAGE_SIZE)
  {
    assert ArrayPages(FRAMES) == 0x100;
    var a, b := ArrayAt(BASE, FRAMES, 0x400), ArrayAt(BASE, FRAMES, 0x500);
    ReservedAppend(Regions(), [a, b], BASE + f * PAGE_SIZE);
    ReservedPair(a, b, BASE + f * PAGE_SIZE);
  }

  /** All but the image, the arrays, the archive and the tree is free in the end. */
  lemma MachineFree(f: nat)
    requires 0x600 <= f < 0x3_0000 && !(0x1_0000 <= f < 0x1_1000)
    ensures Machine().text <= Machine().end
    ensures !Reserved(Finally(Machine(), [], 0x400, 0x500), KernelPage(Machine(), f))
  {
    MachineBase();
    MachineRegions();
    RegionsClear(f);
    hide Registered, Machine, Reserved, Regions, ArrayAt, BaseOf, MemorySize;
  }

  /** Both arrays have their place, and it is the only one. */
  lemma MachinePlaced()
    ensures Machine().text <= Machine().end
    ensures Placed(Registered(Machine(), []), BaseOf(Machine()), MemorySize(Machine()) / PAGE_SIZE, 0x400, 0x500)
  {
    MachineBase();
    MachineRegions();
    MachineArrays();
    hide Registered, Machine, Regions, BaseOf, MemorySize, Placed;
  }

  /** The memory that the tree keeps for the firmware is handed out like any other. */
  lemma FirmwareMemoryIsFree()
    ensures var m, f := Machine(), 0x2_0000;
            && m.text <= m.end && Describes(m, [], Tree())
            && ReservedRegions(Tree()) == [Region(0xa000_0000, 0xa010_0000)]
            && Placed(Registered(m, []), BaseOf(m), MemorySize(m) / PAGE_SIZE, 0x400, 0x500)
            && Touches(Region(0xa000_0000, 0xa010_0000), PhysicalPage(m, f))
            && !Reserved(Finally(m, [], 0x400, 0x500), KernelPage(m, f))
  {
    MachineDescribed();
    TreeReserves();
    MachinePlaced();
    MachineFree(0x2_0000);
    MachineBase();
    hide Describes, ReservedRegions, Placed, Registered, Reserved, Finally, Tree, Machine, MemorySize;
  }

  /** This machine gets to its shell. */
  lemma MachineStarts()
    ensures Machine().text <= Machine().end
    ensures Bringup.CanStart(Machine(), []) && Bringup.ArraysAt(Machine(), [], 0x400, 0x500)
    ensures forall i: nat, j: nat, k: nat ::
              Bringup.ArraysAt(Machine(), [], i, j) && FitsOrder(Bringup.MapPages(Machine()), k) ==>
                |Bringup.FreeAtBoot(Machine(), [], i, j)| >= Pow2(k) + Bringup.FIRST_FRAMES
  {
    MachineBase();
    MachineRegions();
    MachinePlaced();
    MapOrder();
    hide Regions, Registered, Placed, Finally, Reserved, Machine, BaseOf, FromTree, OwnRegions, Bringup.HasBlock;
    hide KernelPage, FitsOrder, Pow2;
    var free := Bringup.FreeAtBoot(Machine(), [], 0x400, 0x500);
    forall f: nat | 0x1000 <= f < 0x2000
      ensures f in free
    {
      MachineFree(f);
    }
    EnoughFree(free);
    assert Bringup.ArraysAt(Machine(), [], 0x400, 0x500) && Bringup.MapPages(Machine()) == 64;
    hide Bringup.ArraysAt, Bringup.MapPages, Bringup.FreeAtBoot;
    forall i: nat, j: nat, k: nat | Bringup.ArraysAt(Machine(), [], i, j) && FitsOrder(64, k)
      ensures |Bringup.FreeAtBoot(Machine(), [], i, j)| >= Pow2(k) + Bringup.FIRST_FRAMES
    {
      Bringup.OnePlaceForArrays(Machine(), [], 0x400, 0x500, i, j);
      FitsOnce(64, 6, k);
    }
  }

  lemma MapOrder()
    ensures PagesFor(FRAMES) == 64 && FitsOrder(64, 6) && Pow2(6) == 64
  {
    assert Pow2(3) == 8 && Pow2(6) == 8 * Pow2(3);
    forall j: nat | j < 6
      ensures Pow2(j) < 64
    {
      Pow2Monotone(j, 5);
    }
  }

  lemma EnoughFree(free: set<nat>)
    requires forall f: nat :: 0x1000 <= f < 0x2000 ==> f in free
    ensures Bringup.HasBlock(free, 64) && |free| >= 70
  {
    MapOrder();
    assert Aligned(0x1000 / 8, 3) && Aligned(0x1000, 6);
    assert Bringup.AlignedIn(free, 0x1000, 6);
    RangeSize(0x1000, 0x1000);
    PageTree.SubsetSize(Range(0x1000, 0x1000), free);
  }
}
