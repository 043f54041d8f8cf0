/** The scan of the flattened device tree for reserved memory (Devicetree Specification, section 5.4). */
module Dtb {
  import opened BuddyAllocator
  import opened Basics
  import opened RawMemory
  import opened Boot

  const BEGIN_NODE: nat := 1
  const END_NODE: nat := 2
  const PROP: nat := 3
  const NOP: nat := 4
  const FDT_END: nat := 9
  const FDT_HEADER_MAGIC: nat := 0xd00d_feed
  /** "reserved-memory" and "reg" */
  const RESERVED_MEMORY: seq<byte> := [114, 101, 115, 101, 114, 118, 101, 100, 45, 109, 101, 109, 111, 114, 121]
  const REG: seq<byte> := [114, 101, 103]
  const AT_SIGN: byte := 64

  /** A 32-bit load on a little-endian machine. */
  function Load32(b: Blob, a: nat): nat {
    Join4(At(b, a), At(b, a + 1), At(b, a + 2), At(b, a + 3))
  }

  /** bswap_32 */
  function Bswap32(x: nat): nat {
    x / 0x100_0000 % 0x100 + x / 0x1_0000 % 0x100 * 0x100 + x / 0x100 % 0x100 * 0x1_0000 + x % 0x100 * 0x100_0000
  }

  /** The number a sequence of bytes stands for, most significant byte first. */
  function BigEndian(s: seq<byte>): nat {
    if s == [] then 0 else BigEndian(s[..|s| - 1]) * 0x100 + s[|s| - 1]
  }

  /** Swapping what a little-endian machine loads reads a big-endian word. */
  lemma SwapReadsBigEndian(b: Blob, a: nat, s: seq<byte>)
    requires |s| == 4 && HoldsAt(b, a, s)
    ensures Bswap32(Load32(b, a)) == BigEndian(s)
  {
    FourBytes(s);
    assert At(b, a + 0) == s[0] && At(b, a + 1) == s[1] && At(b, a + 2) == s[2] && At(b, a + 3) == s[3];
    SwapBytes(s[0], s[1], s[2], s[3]);
  }

  lemma SwapBytes(p: byte, q: byte, r: byte, s: byte)
    ensures Bswap32(Join4(p, q, r, s)) == Join4(s, r, q, p)
  {
    var x := Join4(p, q, r, s);
    var high: nat, middle: nat := s * 0x100 + r, (s * 0x100 + r) * 0x100 + q;
    LowByte(x, middle, p);
    LowByte(middle, high, q);
    LowByte(high, s, r);
    ShiftTwice(x);
  }

  lemma LowByte(x: nat, rest: nat, low: nat)
    requires x == rest * 0x100 + low && low < 0x100
    ensures x / 0x100 == rest && x % 0x100 == low
  {
  }

  lemma ShiftTwice(x: nat)
    ensures x / 0x1_0000 == x / 0x100 / 0x100 && x / 0x100_0000 == x / 0x100 / 0x100 / 0x100
  {
  }

  lemma FourDigits(x: nat)
    requires x < 0x1_0000_0000
    ensures Join4(x % 0x100, x / 0x100 % 0x100, x / 0x1_0000 % 0x100, x / 0x100_0000 % 0x100) == x
  {
    hide Join4;
    ShiftTwice(x);
    var y := x / 0x100;
    var z := y / 0x100;
    Digits(x, y);
    Digits(y, z);
    Digits(z, z / 0x100);
    JoinDigits(x % 0x100, y % 0x100, z % 0x100, z / 0x100);
  }

  lemma Digits(x: nat, rest: nat)
    requires rest == x / 0x100
    ensures x == rest * 0x100 + x % 0x100
    ensures x < 0x1_0000 ==> x / 0x100 % 0x100 == rest % 0x100 && rest < 0x100 && rest % 0x100 == rest
  {
  }

  lemma JoinDigits(p: nat, q: nat, r: nat, s: nat)
    ensures Join4(p, q, r, s) == ((s * 0x100 + r) * 0x100 + q) * 0x100 + p
  {
  }

  /** Four bytes, the least significant first. */
  function Join4(p: nat, q: nat, r: nat, s: nat): nat {
    p + q * 0x100 + r * 0x1_0000 + s * 0x100_0000
  }

  lemma FourBytes(s: seq<byte>)
    requires |s| == 4
    ensures BigEndian(s) == Join4(s[3], s[2], s[1], s[0])
  {
    var p: nat, q: nat, r: nat := s[0], s[1], s[2];
    assert s[..3][..2] == s[..2] && s[..2][..1] == s[..1] && s[..1][..0] == [];
    assert BigEndian(s[..1]) == p;
    assert BigEndian(s[..2]) == p * 0x100 + q;
    assert BigEndian(s[..3]) == BigEndian(s[..2]) * 0x100 + r;
  }

  function Word(b: Blob, a: nat): nat {
    Bswap32(Load32(b, a))
  }

  function EncodeWord(x: nat): (s: seq<byte>)
    ensures |s| == 4
  {
    [x / 0x100_0000 % 0x100, x / 0x1_0000 % 0x100, x / 0x100 % 0x100, x % 0x100]
  }

  lemma WordRoundTrip(b: Blob, a: nat, x: nat)
    requires x < 0x1_0000_0000 && HoldsAt(b, a, EncodeWord(x))
    ensures Word(b, a) == x
  {
    hide Bswap32, Load32, HoldsAt, Join4, BigEndian;
    SwapReadsBigEndian(b, a, EncodeWord(x));
    FourBytes(EncodeWord(x));
    FourDigits(x);
  }

  /** A node is called `seg`, perhaps with a unit address behind an at sign. */
  predicate Matches(name: seq<byte>, seg: seq<byte>) {
    |name| >= |seg| && name[..|seg|] == seg && (|name| > |seg| ==> name[|seg|] == AT_SIGN)
  }

  /** The name itself, or the name, an at sign and a unit address. */
  lemma MatchesMeans(name: seq<byte>, seg: seq<byte>)
    ensures Matches(name, seg) <==> name == seg || exists unit: seq<byte> :: name == seg + [64] + unit
  {
    if Matches(name, seg) && |name| > |seg| {
      assert name == seg + [64] + name[|seg| + 1..];
    }
  }

  /** node_name_match */
  method NodeNameMatch(b: Blob, a: nat, seg: seq<byte>) returns (matches: bool)
    requires 0 !in seg && AT_SIGN !in seg
    ensures matches <==> Matches(Text(b, a), seg)
    ensures matches <==> Text(b, a) == seg || exists unit: seq<byte> :: Text(b, a) == seg + [64] + unit
  {
    hide At, Text;
    MatchesMeans(Text(b, a), seg);
    var i := 0;
    while i < |seg|
      invariant i <= |seg|
      invariant Matches(Text(b, a), seg) <==> Matches(Text(b, a + i), seg[i..])
    {
      TextStep(b, a + i);
      if At(b, a + i) == 0 || At(b, a + i) == AT_SIGN {
        assert seg[i..][0] == seg[i];
        return false;
      }
      if At(b, a + i) != seg[i] {
        assert seg[i..][0] == seg[i];
        return false;
      }
      MatchesStep(Text(b, a + i), seg[i..]);
      i := i + 1;
    }
    TextStep(b, a + i);
    matches := At(b, a + i) == 0 || At(b, a + i) == AT_SIGN;
  }

  lemma MatchesStep(name: seq<byte>, seg: seq<byte>)
    requires name != [] && seg != [] && name[0] == seg[0]
    ensures Matches(name, seg) <==> Matches(name[1..], seg[1..])
  {
  }

  /** The end of the string at an address. */
  method SkipString(b: Blob, a: nat) returns (cur: nat)
    ensures cur == a + |Text(b, a)|
  {
    cur := a;
    while At(b, cur) != 0
      invariant cur + |Text(b, cur)| == a + |Text(b, a)|
      decreases if cur < End(b) then End(b) - cur else 0
    {
      cur := cur + 1;
    }
  }

  /** The address and size a `reg` value begins with: two 64-bit or, if it is shorter, two 32-bit numbers. */
  function Pair(value: seq<byte>): seq<Region> {
    if |value| >= 16 then [Region(BigEndian(value[..8]), BigEndian(value[..8]) + BigEndian(value[8..16]))]
    else if |value| >= 8 then [Region(BigEndian(value[..4]), BigEndian(value[..4]) + BigEndian(value[4..8]))]
    else []
  }

  /** What the scan makes of the `reg` value of the given length at address a. */
  function PairAt(b: Blob, a: nat, length: nat): seq<Region> {
    if length >= 16 then
      var start := Word(b, a) * 0x1_0000_0000 + Word(b, a + 4);
      [Region(start, start + (Word(b, a + 8) * 0x1_0000_0000 + Word(b, a + 12)))]
    else if length >= 8 then [Region(Word(b, a), Word(b, a) + Word(b, a + 4))]
    else []
  }

  lemma BigEndianJoin(s: seq<byte>, t: seq<byte>)
    requires |s| == |t| == 4
    ensures BigEndian(s + t) == BigEndian(s) * 0x1_0000_0000 + BigEndian(t)
  {
    var w := s + t;
    var p: nat, q: nat, r: nat := t[0], t[1], t[2];
    assert w[..7][..6] == w[..6] && w[..6][..5] == w[..5] && w[..5][..4] == w[..4] && w[..4] == s;
    assert BigEndian(w[..5]) == BigEndian(s) * 0x100 + p;
    assert BigEndian(w[..6]) == BigEndian(w[..5]) * 0x100 + q;
    assert BigEndian(w[..7]) == BigEndian(w[..6]) * 0x100 + r;
    FourBytes(t);
  }

  lemma HoldsWord(b: Blob, a: nat, s: seq<byte>, i: nat)
    requires HoldsAt(b, a, s) && i + 4 <= |s|
    ensures Word(b, a + i) == BigEndian(s[i..i + 4])
  {
    assert s == s[..i] + s[i..];
    HoldsParts(b, a, s[..i], s[i..]);
    assert s[i..] == s[i..i + 4] + s[i + 4..];
    HoldsParts(b, a + i, s[i..i + 4], s[i + 4..]);
    SwapReadsBigEndian(b, a + i, s[i..i + 4]);
  }

  lemma PairRoundTrip(b: Blob, a: nat, value: seq<byte>)
    requires HoldsAt(b, a, value)
    ensures PairAt(b, a, |value|) == Pair(value)
  {
    hide Word, BigEndian;
    if |value| >= 16 {
      HoldsWord(b, a, value, 0);
      HoldsWord(b, a, value, 4);
      HoldsWord(b, a, value, 8);
      HoldsWord(b, a, value, 12);
      BigEndianJoin(value[0..4], value[4..8]);
      BigEndianJoin(value[8..12], value[12..16]);
      assert value[..8] == value[0..4] + value[4..8] && value[8..16] == value[8..12] + value[12..16];
    } else if |value| >= 8 {
      HoldsWord(b, a, value, 0);
      HoldsWord(b, a, value, 4);
    }
  }

  /** The rest of a scan: the regions it will register, from address cur on, at the given depths. */
  ghost function Scan(b: Blob, strings: nat, end: nat, cur: nat, depth: int, reserved: int): seq<Region>
    decreases if cur < end then end - cur else 0
  {
    if cur >= end then []
    else if Word(b, cur) == BEGIN_NODE then
      Scan(b, strings, end, AfterName(b, cur + 4), depth + 1, Enter(Text(b, cur + 4), depth + 1, reserved))
    else if Word(b, cur) == END_NODE then
      Scan(b, strings, end, cur + 4, depth - 1, if reserved == depth then -1 else reserved)
    else if Word(b, cur) == PROP then
      var length := Word(b, cur + 4);
      (if Watched(depth, reserved) && Text(b, strings + Word(b, cur + 8)) == REG then PairAt(b, cur + 12, length)
        else [])
      + Scan(b, strings, end, Align4(cur + 12 + length), depth, reserved)
    else if Word(b, cur) == NOP then Scan(b, strings, end, cur + 4, depth, reserved)
    else []
  }

  function AfterName(b: Blob, a: nat): (next: nat)
    ensures next > a
  {
    Align4(a + |Text(b, a)| + 1)
  }

  /** reserved_memory_depth after a node has begun at the given depth. */
  function Enter(name: seq<byte>, depth: int, reserved: int): int {
    if reserved < 0 && depth == 1 && Matches(name, RESERVED_MEMORY) then depth else reserved
  }

  predicate Watched(depth: int, reserved: int) {
    reserved >= 0 && depth == reserved + 1
  }

  /** Register what a `reg` value of the given length at address p32 begins with. */
  method ReserveReg(b: Blob, p32: nat, length: nat, table: Startup)
    modifies table
    ensures table.regions == Register(old(table.regions), PairAt(b, p32, length))
  {
    hide Word;
    if length >= 16 {
      var start := Word(b, p32) * 0x1_0000_0000 + Word(b, p32 + 4);
      var size := Word(b, p32 + 8) * 0x1_0000_0000 + Word(b, p32 + 12);
      table.MemoryReserve(start, size);
    } else if length >= 8 {
      table.MemoryReserve(Word(b, p32), Word(b, p32 + 4));
    }
  }

  /** What the device tree at the start of b makes dtb_find_and_reserve_memory register. */
  ghost function TreeRegions(b: Blob): seq<Region> {
    if Word(b, b.base) != FDT_HEADER_MAGIC then []
    else
      var start := b.base + Word(b, b.base + 8);
      Scan(b, b.base + Word(b, b.base + 12), start + Word(b, b.base + 36), start, -1, -1)
  }

  /** dtb_find_and_reserve_memory; without a device tree it does nothing. */
  method FindAndReserveMemory(tree: Option<Blob>, table: Startup)
    modifies table
    ensures table.regions == if tree == None then old(table.regions)
                             else Register(old(table.regions), TreeRegions(tree.value))
  {
    hide Word, Text, At, Align4, Matches, PairAt, Scan, Register;
    if tree == None {
      return;
    }
    var b := tree.value;
    RegisterNothing(table.regions);
    if Word(b, b.base) != FDT_HEADER_MAGIC {
      return;
    }
    var structSize := Word(b, b.base + 36);
    var cur := b.base + Word(b, b.base + 8);
    var strings := b.base + Word(b, b.base + 12);
    var end := cur + structSize;
    var depth, reserved := -1, -1;
    ghost var was, all := table.regions, Scan(b, strings, end, cur, -1, -1);
    while cur < end
      invariant Register(was, all) == Register(table.regions, Scan(b, strings, end, cur, depth, reserved))
      decreases if cur < end then end - cur else 0
    {
      var token := Word(b, cur);
      ScanToken(b, strings, end, cur, depth, reserved);
      cur := cur + 4;
      if token == BEGIN_NODE {
        var name := cur;
        cur := SkipString(b, cur);
        cur := Align4(cur + 1);
        depth := depth + 1;
        if reserved < 0 {
          var matches := NodeNameMatch(b, name, RESERVED_MEMORY);
          if depth == 1 && matches {
            reserved := depth;
          }
        }
      } else if token == END_NODE {
        if reserved == depth {
          reserved := -1;
        }
        depth := depth - 1;
      } else if token == PROP {
        var length := Word(b, cur);
        var name := strings + Word(b, cur + 4);
        cur := cur + 8;
        var value := cur;
        cur := Align4(cur + length);
        ghost var regions, found := table.regions, [];
        RegisterNothing(regions);
        if Watched(depth, reserved) {
          var reg := SameString(b, name, REG);
          if reg {
            found := PairAt(b, value, length);
            ReserveReg(b, value, length, table);
          }
        }
        RegisterAppend(regions, found, Scan(b, strings, end, cur, depth, reserved));
      } else if token == NOP {
      } else {
        RegisterNothing(table.regions);
        return;
      }
    }
    ScanEnd(b, strings, end, cur, depth, reserved);
    RegisterNothing(table.regions);
  }

  /** One token of the scan. */
  lemma ScanToken(b: Blob, strings: nat, end: nat, cur: nat, depth: int, reserved: int)
    requires cur < end
    ensures var token, scan := Word(b, cur), Scan(b, strings, end, cur, depth, reserved);
            if token == BEGIN_NODE then
              scan == Scan(b, strings, end, AfterName(b, cur + 4), depth + 1,
                Enter(Text(b, cur + 4), depth + 1, reserved))
            else if token == END_NODE then
              scan == Scan(b, strings, end, cur + 4, depth - 1, if reserved == depth then -1 else reserved)
            else if token == PROP then
              var length := Word(b, cur + 4);
              var reg := Watched(depth, reserved) && Text(b, strings + Word(b, cur + 8)) == REG;
              scan == (if reg then PairAt(b, cur + 12, length) else [])
                      + Scan(b, strings, end, Align4(cur + 12 + length), depth, reserved)
            else if token == NOP then scan == Scan(b, strings, end, cur + 4, depth, reserved)
            else scan == []
  {
    hide Word, Text, PairAt, Matches, Align4;
  }

  lemma ScanEnd(b: Blob, strings: nat, end: nat, cur: nat, depth: int, reserved: int)
    requires cur >= end
    ensures Scan(b, strings, end, cur, depth, reserved) == []
  {
  }

  lemma RegisterNothing(table: seq<Region>)
    ensures Register(table, []) == table
  {
  }

  /** The inside of a node: properties, nodes and fillers in document order. */
  datatype Items =
    | Last
    | Filler(rest: Items)
    | Property(name: seq<byte>, nameoff: nat, value: seq<byte>, rest: Items)
    | Node(name: seq<byte>, body: Items, rest: Items)

  /** The flattened form of section 5.4. */
  function Flatten(t: Items): seq<byte> {
    match t
    case Last => []
    case Filler(rest) => EncodeWord(NOP) + Flatten(rest)
    case Property(_, nameoff, value, rest) =>
      EncodeWord(PROP) + (EncodeWord(|value|) + (EncodeWord(nameoff) + (value + (Pad(|value|) + Flatten(rest)))))
    case Node(name, body, rest) =>
      EncodeWord(BEGIN_NODE) + (name + [0]
        + (Pad(|name| + 1) + (Flatten(body) + (EncodeWord(END_NODE) + Flatten(rest)))))
  }

  /** Names are strings, sizes and offsets fit their fields, and property names are where they are said to be. */
  ghost predicate WellFormed(t: Items, b: Blob, strings: nat) {
    match t
    case Last => true
    case Filler(rest) => WellFormed(rest, b, strings)
    case Property(name, nameoff, value, rest) =>
      |value| < 0x1_0000_0000 && nameoff < 0x1_0000_0000 && Text(b, strings + nameoff) == name
        && WellFormed(rest, b, strings)
    case Node(name, body, rest) => 0 !in name && WellFormed(body, b, strings) && WellFormed(rest, b, strings)
  }

  /** The `reg` values among the properties of a node itself. */
  function Regs(t: Items): seq<Region> {
    match t
    case Last => []
    case Filler(rest) => Regs(rest)
    case Property(name, _, value, rest) => (if name == REG then Pair(value) else []) + Regs(rest)
    case Node(_, _, rest) => Regs(rest)
  }

  /** The `reg` values of the nodes directly inside. */
  function ChildRegs(t: Items): seq<Region> {
    match t
    case Last => []
    case Filler(rest) => ChildRegs(rest)
    case Property(_, _, _, rest) => ChildRegs(rest)
    case Node(_, body, rest) => Regs(body) + ChildRegs(rest)
  }

  /** What the root's contents reserve: the `reg` values of the children of its nodes named reserved-memory. */
  function ReservedRegions(t: Items): seq<Region> {
    match t
    case Last => []
    case Filler(rest) => ReservedRegions(rest)
    case Property(_, _, _, rest) => ReservedRegions(rest)
    case Node(name, body, rest) =>
      (if Matches(name, RESERVED_MEMORY) then ChildRegs(body) else []) + ReservedRegions(rest)
  }

  /** What the scan finds among items at the given depths. */
  function Found(t: Items, depth: int, reserved: int): seq<Region> {
    match t
    case Last => []
    case Filler(rest) => Found(rest, depth, reserved)
    case Property(name, _, value, rest) =>
      (if Watched(depth, reserved) && name == REG then Pair(value) else []) + Found(rest, depth, reserved)
    case Node(name, body, rest) =>
      Found(body, depth + 1, Enter(name, depth + 1, reserved)) + Found(rest, depth, reserved)
  }

  predicate Depths(depth: int, reserved: int) {
    depth >= -1 && (reserved == -1 || (reserved == 1 && depth >= 1))
  }

  /** Leaving a node restores the depths that held before it. */
  lemma EnterLeave(name: seq<byte>, depth: int, reserved: int)
    requires Depths(depth, reserved)
    ensures var inside := Enter(name, depth + 1, reserved);
            Depths(depth + 1, inside) && (if inside == depth + 1 then -1 else inside) == reserved
  {
  }

  /** The scan of a flattened subtree finds what the tree has there and goes on behind it at the same depths. */
  lemma {:induction false} ScanItems(t: Items, b: Blob, strings: nat, end: nat, cur: nat, depth: int, reserved: int)
    requires WellFormed(t, b, strings) && Depths(depth, reserved) && cur % 4 == 0
    requires HoldsAt(b, cur, Flatten(t)) && cur + |Flatten(t)| <= end
    ensures Scan(b, strings, end, cur, depth, reserved)
         == Found(t, depth, reserved) + Scan(b, strings, end, cur + |Flatten(t)|, depth, reserved)
    decreases t, 1
  {
    hide Word, Text, At, Matches, HoldsAt, Align4, AfterName, Scan, Found, EncodeWord, Pad;
    match t {
      case Last =>
        ScanLast(b, strings, end, cur, depth, reserved);
      case Filler(rest) =>
        ReadWord(b, cur, NOP, Flatten(rest));
        ScanItems(rest, b, strings, end, cur + 4, depth, reserved);
        ScanFiller(t, b, strings, end, cur, depth, reserved);
      case Property(name, nameoff, value, rest) =>
        PropertyReads(b, cur, nameoff, value, Flatten(rest));
        var next := Align4(cur + 12 + |value|);
        assert cur + |Flatten(t)| == next + |Flatten(rest)|;
        ScanItems(rest, b, strings, end, next, depth, reserved);
        ScanProperty(t, b, strings, end, cur, depth, reserved);
      case Node(_, _, _) =>
        ScanSubtree(t, b, strings, end, cur, depth, reserved);
    }
  }

  lemma {:induction false} ScanSubtree(t: Items, b: Blob, strings: nat, end: nat, cur: nat, depth: int, reserved: int)
    requires t.Node? && WellFormed(t, b, strings) && Depths(depth, reserved) && cur % 4 == 0
    requires HoldsAt(b, cur, Flatten(t)) && cur + |Flatten(t)| <= end
    ensures Scan(b, strings, end, cur, depth, reserved)
         == Found(t, depth, reserved) + Scan(b, strings, end, cur + |Flatten(t)|, depth, reserved)
    decreases t, 0
  {
    hide Word, Text, At, Matches, HoldsAt, Align4, AfterName, Scan, Found;
    var next := AfterName(b, cur + 4);
    NodeReads(b, cur, t.name, Flatten(t.body), Flatten(t.rest));
    EnterLeave(t.name, depth, reserved);
    FlattenWords(t.body);
    NextWord(next, Words(t.body));
    ScanItems(t.body, b, strings, end, next, depth + 1, Enter(t.name, depth + 1, reserved));
    ScanItems(t.rest, b, strings, end, next + |Flatten(t.body)| + 4, depth, reserved);
    assert cur + |Flatten(t)| == next + |Flatten(t.body)| + 4 + |Flatten(t.rest)|;
    ScanNode(t, b, strings, end, cur, depth, reserved);
  }

  /** How many 32-bit words flattened items fill. */
  ghost function Words(t: Items): nat {
    match t
    case Last => 0
    case Filler(rest) => 1 + Words(rest)
    case Property(_, _, value, rest) => 3 + (|value| + 3) / 4 + Words(rest)
    case Node(name, body, rest) => 2 + (|name| + 4) / 4 + Words(body) + Words(rest)
  }

  lemma {:induction false} FlattenWords(t: Items)
    ensures |Flatten(t)| == 4 * Words(t)
    decreases t
  {
    match t
    case Last =>
    case Filler(rest) => FlattenWords(rest);
    case Property(_, _, value, rest) =>
      FlattenWords(rest);
      assert |Flatten(t)| == 12 + |value| + |Pad(|value|)| + |Flatten(rest)|;
    case Node(name, body, rest) =>
      FlattenWords(body);
      FlattenWords(rest);
      assert |Flatten(t)| == 8 + |name| + 1 + |Pad(|name| + 1)| + |Flatten(body)| + |Flatten(rest)|;
  }

  lemma NextWord(cur: nat, k: nat)
    requires cur % 4 == 0
    ensures (cur + 4 * k + 4) % 4 == 0
  {
  }

  lemma ScanLast(b: Blob, strings: nat, end: nat, cur: nat, depth: int, reserved: int)
    ensures Scan(b, strings, end, cur, depth, reserved)
         == Found(Last, depth, reserved) + Scan(b, strings, end, cur + |Flatten(Last)|, depth, reserved)
  {
  }

  lemma ScanFiller(t: Items, b: Blob, strings: nat, end: nat, cur: nat, depth: int, reserved: int)
    requires t.Filler? && cur < end && Word(b, cur) == NOP
    requires Scan(b, strings, end, cur + 4, depth, reserved)
          == Found(t.rest, depth, reserved) + Scan(b, strings, end, cur + 4 + |Flatten(t.rest)|, depth, reserved)
    ensures Scan(b, strings, end, cur, depth, reserved)
         == Found(t, depth, reserved) + Scan(b, strings, end, cur + |Flatten(t)|, depth, reserved)
  {
    hide Word, Text;
  }

  lemma ScanProperty(t: Items, b: Blob, strings: nat, end: nat, cur: nat, depth: int, reserved: int)
    requires t.Property? && cur < end && Text(b, strings + t.nameoff) == t.name
    requires Word(b, cur) == PROP && Word(b, cur + 4) == |t.value| && Word(b, cur + 8) == t.nameoff
    requires PairAt(b, cur + 12, |t.value|) == Pair(t.value)
    requires var next := Align4(cur + 12 + |t.value|);
             && cur + |Flatten(t)| == next + |Flatten(t.rest)|
             && Scan(b, strings, end, next, depth, reserved)
             == Found(t.rest, depth, reserved) + Scan(b, strings, end, next + |Flatten(t.rest)|, depth, reserved)
    ensures Scan(b, strings, end, cur, depth, reserved)
         == Found(t, depth, reserved) + Scan(b, strings, end, cur + |Flatten(t)|, depth, reserved)
  {
    hide Word, Text, PairAt, Pair, Align4, Flatten;
    var here := if Watched(depth, reserved) && t.name == REG then Pair(t.value) else [];
    Associative(here, Found(t.rest, depth, reserved), Scan(b, strings, end, cur + |Flatten(t)|, depth, reserved));
  }

  lemma ScanNode(t: Items, b: Blob, strings: nat, end: nat, cur: nat, depth: int, reserved: int)
    requires t.Node? && Depths(depth, reserved) && cur < end && Word(b, cur) == BEGIN_NODE && Text(b, cur + 4) == t.name
    requires var next, inside := AfterName(b, cur + 4), Enter(t.name, depth + 1, reserved);
             var leave := next + |Flatten(t.body)|;
             && leave < end && Word(b, leave) == END_NODE
             && cur + |Flatten(t)| == leave + 4 + |Flatten(t.rest)|
             && Scan(b, strings, end, next, depth + 1, inside)
             == Found(t.body, depth + 1, inside) + Scan(b, strings, end, leave, depth + 1, inside)
             && Scan(b, strings, end, leave + 4, depth, reserved)
             == Found(t.rest, depth, reserved) + Scan(b, strings, end, leave + 4 + |Flatten(t.rest)|, depth, reserved)
    ensures Scan(b, strings, end, cur, depth, reserved)
         == Found(t, depth, reserved) + Scan(b, strings, end, cur + |Flatten(t)|, depth, reserved)
  {
    hide Word, Text, Flatten, AfterName;
    var next, inside := AfterName(b, cur + 4), Enter(t.name, depth + 1, reserved);
    EnterLeave(t.name, depth, reserved);
    assert Scan(b, strings, end, next + |Flatten(t.body)|, depth + 1, inside)
        == Scan(b, strings, end, next + |Flatten(t.body)| + 4, depth, reserved);
    Associative(Found(t.body, depth + 1, inside), Found(t.rest, depth, reserved),
      Scan(b, strings, end, cur + |Flatten(t)|, depth, reserved));
  }

  lemma Associative(x: seq<Region>, y: seq<Region>, z: seq<Region>)
    ensures x + (y + z) == (x + y) + z
  {
  }

  lemma PropertyReads(b: Blob, cur: nat, nameoff: nat, value: seq<byte>, rest: seq<byte>)
    requires |value| < 0x1_0000_0000 && nameoff < 0x1_0000_0000 && cur % 4 == 0
    requires HoldsAt(b, cur, EncodeWord(PROP)
             + (EncodeWord(|value|) + (EncodeWord(nameoff) + (value + (Pad(|value|) + rest)))))
    ensures Word(b, cur) == PROP && Word(b, cur + 4) == |value| && Word(b, cur + 8) == nameoff
    ensures PairAt(b, cur + 12, |value|) == Pair(value)
    ensures HoldsAt(b, Align4(cur + 12 + |value|), rest)
            && Align4(cur + 12 + |value|) == cur + 12 + |value| + |Pad(|value|)|
  {
    hide Word, At, HoldsAt, EncodeWord, PairAt, Pair, Pad, Align4;
    ReadWord(b, cur, PROP, EncodeWord(|value|) + (EncodeWord(nameoff) + (value + (Pad(|value|) + rest))));
    ReadWord(b, cur + 4, |value|, EncodeWord(nameoff) + (value + (Pad(|value|) + rest)));
    ReadWord(b, cur + 8, nameoff, value + (Pad(|value|) + rest));
    HoldsParts(b, cur + 12, value, Pad(|value|) + rest);
    PairRoundTrip(b, cur + 12, value);
    SkipPad(b, cur + 12, |value|, rest);
  }

  lemma ReadWord(b: Blob, a: nat, x: nat, rest: seq<byte>)
    requires x < 0x1_0000_0000 && HoldsAt(b, a, EncodeWord(x) + rest)
    ensures Word(b, a) == x && HoldsAt(b, a + 4, rest)
  {
    hide Word, HoldsAt, EncodeWord;
    HoldsParts(b, a, EncodeWord(x), rest);
    WordRoundTrip(b, a, x);
  }

  lemma SkipPad(b: Blob, a: nat, n: nat, rest: seq<byte>)
    requires a % 4 == 0 && HoldsAt(b, a + n, Pad(n) + rest)
    ensures HoldsAt(b, Align4(a + n), rest) && Align4(a + n) == a + n + |Pad(n)|
  {
    hide HoldsAt;
    HoldsParts(b, a + n, Pad(n), rest);
    AlignmentsAgree(a, n);
  }

  lemma NodeReads(b: Blob, cur: nat, name: seq<byte>, body: seq<byte>, rest: seq<byte>)
    requires 0 !in name && cur % 4 == 0
    requires HoldsAt(b, cur, EncodeWord(BEGIN_NODE)
             + (name + [0] + (Pad(|name| + 1) + (body + (EncodeWord(END_NODE) + rest)))))
    ensures Word(b, cur) == BEGIN_NODE && Text(b, cur + 4) == name
    ensures AfterName(b, cur + 4) == cur + 4 + |name| + 1 + |Pad(|name| + 1)|
    ensures var next := AfterName(b, cur + 4);
            HoldsAt(b, next, body) && Word(b, next + |body|) == END_NODE && HoldsAt(b, next + |body| + 4, rest)
  {
    hide Word, At, HoldsAt, Text, EncodeWord, Pad, Align4;
    var n := |name| + 1;
    ReadWord(b, cur, BEGIN_NODE, name + [0] + (Pad(n) + (body + (EncodeWord(END_NODE) + rest))));
    HoldsParts(b, cur + 4, name + [0], Pad(n) + (body + (EncodeWord(END_NODE) + rest)));
    TextRoundTrip(b, cur + 4, name);
    SkipPad(b, cur + 4, n, body + (EncodeWord(END_NODE) + rest));
    var next := Align4(cur + 4 + n);
    HoldsParts(b, next, body, EncodeWord(END_NODE) + rest);
    ReadWord(b, next + |body|, END_NODE, rest);
  }

  /** Outside the watched depth nothing is found. */
  lemma {:induction false} NothingOutside(t: Items, depth: int, reserved: int)
    requires (reserved == -1 && depth >= 1) || (reserved == 1 && depth >= 3)
    ensures Found(t, depth, reserved) == []
    decreases t
  {
    match t
    case Last =>
    case Filler(rest) => NothingOutside(rest, depth, reserved);
    case Property(_, _, _, rest) => NothingOutside(rest, depth, reserved);
    case Node(_, body, rest) =>
      NothingOutside(body, depth + 1, reserved);
      NothingOutside(rest, depth, reserved);
  }

  lemma {:induction false} FoundInside(t: Items)
    ensures Found(t, 2, 1) == Regs(t)
  {
    match t
    case Last =>
    case Filler(rest) => FoundInside(rest);
    case Property(_, _, _, rest) => FoundInside(rest);
    case Node(_, body, rest) =>
      NothingOutside(body, 3, 1);
      FoundInside(rest);
  }

  lemma {:induction false} FoundInReserved(t: Items)
    ensures Found(t, 1, 1) == ChildRegs(t)
  {
    match t
    case Last =>
    case Filler(rest) => FoundInReserved(rest);
    case Property(_, _, _, rest) => FoundInReserved(rest);
    case Node(_, body, rest) =>
      FoundInside(body);
      FoundInReserved(rest);
  }

  lemma {:induction false} FoundInRoot(t: Items)
    ensures Found(t, 0, -1) == ReservedRegions(t)
  {
    match t
    case Last =>
    case Filler(rest) => FoundInRoot(rest);
    case Property(_, _, _, rest) => FoundInRoot(rest);
    case Node(name, body, rest) =>
      FoundInReserved(body);
      NothingOutside(body, 1, -1);
      FoundInRoot(rest);
  }

  /** On every well-formed tree the scan reports exactly the regions the tree reserves, in document order. */
  lemma ScanReadsTree(root: seq<byte>, t: Items, b: Blob, strings: nat, end: nat, start: nat)
    requires 0 !in root && WellFormed(t, b, strings) && start % 4 == 0
    requires HoldsAt(b, start, Flatten(Node(root, t, Last)) + EncodeWord(FDT_END))
    requires start + |Flatten(Node(root, t, Last))| <= end
    ensures Scan(b, strings, end, start, -1, -1) == ReservedRegions(t)
  {
    hide Word, Text, At, Matches, HoldsAt, WellFormed;
    var tree := Node(root, t, Last);
    HoldsParts(b, start, Flatten(tree), EncodeWord(FDT_END));
    WordRoundTrip(b, start + |Flatten(tree)|, FDT_END);
    assert WellFormed(tree, b, strings) by { WholeWellFormed(root, t, b, strings); }
    ScanItems(tree, b, strings, end, start, -1, -1);
    FoundInRoot(t);
  }

  lemma WholeWellFormed(root: seq<byte>, t: Items, b: Blob, strings: nat)
    requires 0 !in root && WellFormed(t, b, strings)
    ensures WellFormed(Node(root, t, Last), b, strings)
  {
  }
}
