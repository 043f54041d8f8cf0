/** Looking up files in a cpio archive in New ASCII Format. */
module Cpio {
  import opened Basics
  import opened RawMemory

  const HEADER_SIZE: nat := 110
  const MAGIC: seq<byte> := [48, 55, 48, 55, 48, 49]
  /** "TRAILER!!!" */
  const TRAILER: seq<byte> := [84, 82, 65, 73, 76, 69, 82, 33, 33, 33]
  const FILESIZE_AT: nat := 54
  const NAMESIZE_AT: nat := 94

  function Digit(c: byte): nat {
    if 48 <= c <= 57 then c - 48
    else if 97 <= c <= 102 then c - 97 + 10
    else if 65 <= c <= 70 then c - 65 + 10
    else 0
  }

  /** The number that n hexadecimal digits at address a stand for. */
  function Hex(b: Blob, a: nat, n: nat): nat {
    if n == 0 then 0 else Hex(b, a, n - 1) * 16 + Digit(At(b, a + n - 1))
  }

  /** hex_to_ul; eight digits fit a machine word, so the shift loses nothing. */
  method HexToUl(b: Blob, s: nat, n: nat) returns (val: nat)
    ensures val == Hex(b, s, n)
  {
    val := 0;
    for i := 0 to n
      invariant val == Hex(b, s, i)
    {
      val := val * 16 + Digit(At(b, s + i));
    }
  }

  /** 0 to 9, a to f, A to F. */
  predicate IsHexDigit(c: byte) {
    48 <= c <= 57 || 97 <= c <= 102 || 65 <= c <= 70
  }

  /** Whatever is no digit counts as a zero. */
  lemma {:induction false} OthersAreZeros(b: Blob, b': Blob, a: nat, n: nat)
    requires forall x: nat :: a <= x < a + n ==> At(b', x) == if IsHexDigit(At(b, x)) then At(b, x) else 48
    ensures Hex(b', a, n) == Hex(b, a, n)
  {
    if n > 0 {
      OthersAreZeros(b, b', a, n - 1);
    }
  }

  predicate IsMagic(b: Blob, p: nat, digits: nat)
    requires digits <= 6
  {
    forall i: nat :: i < digits ==> At(b, p + i) == MAGIC[i]
  }

  /** Where the entry whose header is at p keeps its data, and where the next header is. */
  function DataOf(b: Blob, p: nat): nat {
    Align4(p + HEADER_SIZE + Hex(b, p + NAMESIZE_AT, 8))
  }

  function NextOf(b: Blob, p: nat): nat {
    Align4(DataOf(b, p) + Hex(b, p + FILESIZE_AT, 8))
  }

  lemma MagicInside(b: Blob, p: nat, digits: nat)
    requires 0 < digits <= 6 && IsMagic(b, p, digits)
    ensures b.base <= p < End(b)
  {
    assert At(b, p + 0) == MAGIC[0];
  }

  /** What cpio_find delivers: the address and the size of the data. */
  ghost function Lookup(b: Blob, p: nat, target: seq<byte>): Option<(nat, nat)>
    decreases if p < End(b) then End(b) - p else 0
  {
    if !IsMagic(b, p, 4) then None
    else
      MagicInside(b, p, 4);
      if Text(b, p + HEADER_SIZE) == TRAILER then None
      else if Text(b, p + HEADER_SIZE) == target then Some((DataOf(b, p), Hex(b, p + FILESIZE_AT, 8)))
      else Lookup(b, NextOf(b, p), target)
  }

  lemma LookupStep(b: Blob, p: nat, target: seq<byte>)
    ensures Lookup(b, p, target) ==
              if !IsMagic(b, p, 4) || Text(b, p + HEADER_SIZE) == TRAILER then None
              else if Text(b, p + HEADER_SIZE) == target then Some((DataOf(b, p), Hex(b, p + FILESIZE_AT, 8)))
              else Lookup(b, NextOf(b, p), target)
  {
    hide IsMagic, Text, Hex, DataOf, NextOf;
  }

  /**
   cpio_find, with null pointers as 0: None stands for -1. The archive that is searched is the one at the start of
   `b`, which cpio_addr points to, whatever `archive` is.
   */
  method Find(b: Blob, archive: nat, name: Option<seq<byte>>, data: nat, size: nat) returns (found: Option<(nat, nat)>)
    requires name.Some? ==> 0 !in name.value
    ensures found == if archive == 0 || name == None || data == 0 || size == 0 then None
            else Lookup(b, b.base, name.value)
  {
    hide IsMagic, Text, Hex, At, Align4, Lookup;
    if archive == 0 || name == None || data == 0 || size == 0 {
      return None;
    }
    var target := name.value;
    var p: nat := b.base;
    while true
      invariant Lookup(b, b.base, target) == Lookup(b, p, target)
      decreases if p < End(b) then End(b) - p else 0
    {
      LookupStep(b, p, target);
      if !IsMagic(b, p, 4) {
        return None;
      }
      MagicInside(b, p, 4);
      var namesize := HexToUl(b, p + NAMESIZE_AT, 8);
      var filesize := HexToUl(b, p + FILESIZE_AT, 8);
      var filename := p + HEADER_SIZE;
      var last := SameString(b, filename, TRAILER);
      if last {
        return None;
      }
      var fileData := Align4(filename + namesize);
      var same := SameString(b, filename, target);
      if same {
        return Some((fileData, filesize));
      }
      p := Align4(fileData + filesize);
    }
  }

  /** The same search as cpio_cat does it: five digits of magic, alignment relative to the header. */
  ghost function LookupRelative(b: Blob, p: nat, target: seq<byte>): Option<(nat, nat)>
    decreases if p < End(b) then End(b) - p else 0
  {
    if !IsMagic(b, p, 5) then None
    else
      MagicInside(b, p, 5);
      var header := Align4(HEADER_SIZE + Hex(b, p + NAMESIZE_AT, 8));
      var filesize := Hex(b, p + FILESIZE_AT, 8);
      if Text(b, p + HEADER_SIZE) == TRAILER then None
      else if Text(b, p + HEADER_SIZE) == target then Some((p + header, filesize))
      else LookupRelative(b, p + header + Align4(filesize), target)
  }

  /** cpio_cat: the bytes of the file, with a newline at the end if they lack one; None if it is not found. */
  method Cat(b: Blob, filename: seq<byte>) returns (output: Option<seq<byte>>)
    requires 0 !in filename
    ensures var at := LookupRelative(b, b.base, filename);
            && (output == None <==> at == None)
            && (at.Some? ==>
                  var data := Bytes(b, at.value.0, at.value.1);
                  output.value == if data == [] || data[|data| - 1] != 10 then data + [10] else data)
  {
    hide IsMagic, Text, Hex, At, Align4;
    var p: nat := b.base;
    while true
      invariant LookupRelative(b, b.base, filename) == LookupRelative(b, p, filename)
      decreases if p < End(b) then End(b) - p else 0
    {
      if !IsMagic(b, p, 5) {
        return None;
      }
      MagicInside(b, p, 5);
      var namesize := HexToUl(b, p + NAMESIZE_AT, 8);
      var filesize := HexToUl(b, p + FILESIZE_AT, 8);
      var name := p + HEADER_SIZE;
      var last := SameString(b, name, TRAILER);
      if last {
        return None;
      }
      var header := Align4(HEADER_SIZE + namesize);
      var same := SameString(b, name, filename);
      if same {
        var text: seq<byte> := [];
        for i := 0 to filesize
          invariant text == Bytes(b, p + header, i)
        {
          text := text + [At(b, p + header + i)];
        }
        if filesize == 0 || At(b, p + header + filesize - 1) != 10 {
          text := text + [10];
        }
        return Some(text);
      }
      p := p + header + Align4(filesize);
    }
  }

  lemma SameNext(b: Blob, p: nat)
    requires p % 4 == 0
    ensures p + Align4(HEADER_SIZE + Hex(b, p + NAMESIZE_AT, 8)) == DataOf(b, p)
    ensures DataOf(b, p) + Align4(Hex(b, p + FILESIZE_AT, 8)) == NextOf(b, p) && NextOf(b, p) % 4 == 0
  {
    AlignmentsAgree(p, HEADER_SIZE + Hex(b, p + NAMESIZE_AT, 8));
    AlignmentsAgree(DataOf(b, p), Hex(b, p + FILESIZE_AT, 8));
  }

  /** The search for `target` comes to a header with the first four digits of the magic but not the fifth. */
  ghost predicate MeetsWeakHeader(b: Blob, p: nat, target: seq<byte>)
    decreases if p < End(b) then End(b) - p else 0
  {
    && IsMagic(b, p, 4)
    && (MagicInside(b, p, 4);
        !IsMagic(b, p, 5)
        || (Text(b, p + HEADER_SIZE) != TRAILER && Text(b, p + HEADER_SIZE) != target
            && MeetsWeakHeader(b, NextOf(b, p), target)))
  }

  /**
   From an aligned archive, both searches visit the same entries; they find the same, but that cpio_cat gives up at a
   header whose fifth digit is wrong.
   */
  lemma {:induction false} SameSearch(b: Blob, p: nat, target: seq<byte>)
    requires p % 4 == 0
    ensures LookupRelative(b, p, target) == if MeetsWeakHeader(b, p, target) then None else Lookup(b, p, target)
    decreases if p < End(b) then End(b) - p else 0
  {
    hide Text, Hex, DataOf, NextOf, Align4;
    if IsMagic(b, p, 5) {
      MagicInside(b, p, 5);
      assert IsMagic(b, p, 4);
      SameNext(b, p);
      SameSearch(b, NextOf(b, p), target);
    }
  }

  /** An archive in which cpio_find finds a file and cpio_cat does not: its fifth digit is a nine. */
  lemma WeakHeaderMatters()
    ensures var b := Blob(0, [48, 55, 48, 55, 57] + seq(105, _ => 48) + [97, 0]);
            Lookup(b, 0, [97]).Some? && LookupRelative(b, 0, [97]) == None
  {
    var b := Blob(0, [48, 55, 48, 55, 57] + seq(105, _ => 48) + [97, 0]);
    assert At(b, 110) == 97 && At(b, 111) == 0;
    TextStep(b, 110);
    TextStep(b, 111);
    assert Text(b, 110) == [97] + Text(b, 111);
    assert At(b, 0 + 4) != MAGIC[4];
  }

  /** A file to be archived; the remaining header fields are kept as they are. */
  datatype File = File(name: seq<byte>, data: seq<byte>, early: seq<byte>, late: seq<byte>, check: seq<byte>,
                       upper: bool)

  ghost predicate FileOk(f: File) {
    && 0 !in f.name && |f.name| + 1 < 0x1_0000_0000 && |f.data| < 0x1_0000_0000
    && |f.early| == 48 && |f.late| == 32 && |f.check| == 8
  }

  function HexChar(d: nat, upper: bool): byte
    requires d < 16
  {
    if d < 10 then 48 + d else if upper then 65 + d - 10 else 97 + d - 10
  }

  function EncodeHex(v: nat, n: nat, upper: bool): (s: seq<byte>)
    ensures |s| == n
  {
    if n == 0 then [] else EncodeHex(v / 16, n - 1, upper) + [HexChar(v % 16, upper)]
  }

  /** "070701" and thirteen fields of eight digits; "TRAILER!!!" is the name behind the last file. */
  function Header(f: File): seq<byte> {
    [48, 55, 48, 55, 48, 49] + f.early + EncodeHex(|f.data|, 8, f.upper) + f.late + EncodeHex(|f.name| + 1, 8, f.upper)
    + f.check
  }

  /** One entry of an archive. */
  function EncodeFile(f: File): seq<byte> {
    Header(f) + (f.name + [0] + Pad(HEADER_SIZE + |f.name| + 1)) + (f.data + Pad(|f.data|))
  }

  function Trailer(): File {
    File([84, 82, 65, 73, 76, 69, 82, 33, 33, 33], [], seq(48, _ => 48), seq(32, _ => 48), seq(8, _ => 48), false)
  }

  function Encode(files: seq<File>): seq<byte> {
    if files == [] then EncodeFile(Trailer()) else EncodeFile(files[0]) + Encode(files[1..])
  }

  function Pow16(n: nat): nat {
    if n == 0 then 1 else 16 * Pow16(n - 1)
  }

  lemma {:induction false} HexRoundTrip(b: Blob, a: nat, v: nat, n: nat, upper: bool)
    requires HoldsAt(b, a, EncodeHex(v, n, upper)) && v < Pow16(n)
    ensures Hex(b, a, n) == v
  {
    if n > 0 {
      HoldsParts(b, a, EncodeHex(v / 16, n - 1, upper), [HexChar(v % 16, upper)]);
      HexRoundTrip(b, a, v / 16, n - 1, upper);
      assert At(b, a + (n - 1) + 0) == [HexChar(v % 16, upper)][0];
    }
  }

  /** The header of an encoded file reads back. */
  lemma HeaderRoundTrip(b: Blob, p: nat, f: File)
    requires FileOk(f) && HoldsAt(b, p, Header(f))
    ensures IsMagic(b, p, 6) && Hex(b, p + FILESIZE_AT, 8) == |f.data| && Hex(b, p + NAMESIZE_AT, 8) == |f.name| + 1
  {
    var size, length := EncodeHex(|f.data|, 8, f.upper), EncodeHex(|f.name| + 1, 8, f.upper);
    assert Pow16(8) == 0x1_0000_0000;
    HoldsParts(b, p, MAGIC + f.early + size + f.late + length, f.check);
    HoldsParts(b, p, MAGIC + f.early + size + f.late, length);
    HoldsParts(b, p, MAGIC + f.early + size, f.late);
    HoldsParts(b, p, MAGIC + f.early, size);
    HoldsParts(b, p, MAGIC, f.early);
    HexRoundTrip(b, p + FILESIZE_AT, |f.data|, 8, f.upper);
    HexRoundTrip(b, p + NAMESIZE_AT, |f.name| + 1, 8, f.upper);
  }

  /** An encoded file reads back, name, size, contents and length. */
  lemma FileRoundTrip(b: Blob, p: nat, f: File)
    requires FileOk(f) && p % 4 == 0 && HoldsAt(b, p, EncodeFile(f))
    ensures IsMagic(b, p, 4) && IsMagic(b, p, 5) && Text(b, p + HEADER_SIZE) == f.name
    ensures Hex(b, p + FILESIZE_AT, 8) == |f.data| && HoldsAt(b, DataOf(b, p), f.data)
    ensures NextOf(b, p) == p + |EncodeFile(f)|
  {
    hide Hex, HoldsAt, Text, At, Header, IsMagic, Align4;
    HeaderLength(f);
    var name, data := f.name + [0] + Pad(HEADER_SIZE + |f.name| + 1), f.data + Pad(|f.data|);
    HoldsParts(b, p, Header(f) + name, data);
    HoldsParts(b, p, Header(f), name);
    HeaderRoundTrip(b, p, f);
    FewerDigits(b, p);
    HoldsParts(b, p + HEADER_SIZE, f.name + [0], Pad(HEADER_SIZE + |f.name| + 1));
    TextRoundTrip(b, p + HEADER_SIZE, f.name);
    AlignmentsAgree(p, HEADER_SIZE + |f.name| + 1);
    AlignmentsAgree(DataOf(b, p), |f.data|);
    HoldsParts(b, DataOf(b, p), f.data, Pad(|f.data|));
  }

  lemma HeaderLength(f: File)
    requires FileOk(f)
    ensures |Header(f)| == HEADER_SIZE
  {
  }

  lemma FewerDigits(b: Blob, p: nat)
    requires IsMagic(b, p, 6)
    ensures IsMagic(b, p, 4) && IsMagic(b, p, 5)
  {
  }

  /** The first file of that name. */
  function First(files: seq<File>, name: seq<byte>): Option<File> {
    if files == [] then None
    else if files[0].name == name then Some(files[0])
    else First(files[1..], name)
  }

  /**
   Encoding and looking up is the identity: from any aligned address, cpio_find delivers the contents and the size
   of the first file with the name, or nothing if there is none.
   */
  lemma {:induction false} LookupRoundTrip(b: Blob, p: nat, files: seq<File>, target: seq<byte>)
    requires p % 4 == 0 && HoldsAt(b, p, Encode(files))
    requires forall i :: 0 <= i < |files| ==> FileOk(files[i]) && files[i].name != TRAILER
    ensures Lookup(b, p, target) == None <==> First(files, target) == None
    ensures First(files, target).Some? ==>
              var data := First(files, target).value.data;
              Lookup(b, p, target).value.1 == |data| && HoldsAt(b, Lookup(b, p, target).value.0, data)
    decreases |files|
  {
    hide IsMagic, Text, Hex, HoldsAt, EncodeFile;
    if files == [] {
      FileRoundTrip(b, p, Trailer());
    } else {
      HoldsParts(b, p, EncodeFile(files[0]), Encode(files[1..]));
      FileRoundTrip(b, p, files[0]);
      LookupRoundTrip(b, NextOf(b, p), files[1..], target);
    }
  }

  /** The same for the search of cpio_cat. */
  lemma {:induction false} RelativeRoundTrip(b: Blob, p: nat, files: seq<File>, target: seq<byte>)
    requires p % 4 == 0 && HoldsAt(b, p, Encode(files))
    requires forall i :: 0 <= i < |files| ==> FileOk(files[i]) && files[i].name != TRAILER
    ensures LookupRelative(b, p, target) == Lookup(b, p, target)
    decreases |files|
  {
    hide IsMagic, Text, Hex, HoldsAt, EncodeFile, DataOf, NextOf, Align4;
    if files == [] {
      FileRoundTrip(b, p, Trailer());
    } else {
      HoldsParts(b, p, EncodeFile(files[0]), Encode(files[1..]));
      FileRoundTrip(b, p, files[0]);
      SameNext(b, p);
      RelativeRoundTrip(b, NextOf(b, p), files[1..], target);
    }
  }
}
