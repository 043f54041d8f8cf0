/** Memory that earlier boot stages have filled: strings and padding in the archive and the device tree. */
module RawMemory {
  import opened Basics

  /** Bytes from address `base` on; beyond them memory reads as zero. */
  datatype Blob = Blob(base: nat, bytes: seq<byte>)

  function At(b: Blob, a: nat): byte {
    if b.base <= a < b.base + |b.bytes| then b.bytes[a - b.base] else 0
  }

  function End(b: Blob): nat {
    b.base + |b.bytes|
  }

  /** align4 */
  function Align4(x: nat): (r: nat)
    ensures x <= r < x + 4 && r % 4 == 0
  {
    (x + 3) / 4 * 4
  }

  /** The zero-terminated string at an address. */
  function Text(b: Blob, a: nat): seq<byte>
    decreases if a < End(b) then End(b) - a else 0
  {
    if At(b, a) == 0 then [] else [At(b, a)] + Text(b, a + 1)
  }

  /** strcmp(a, s) == 0 */
  method SameString(b: Blob, a: nat, s: seq<byte>) returns (same: bool)
    requires 0 !in s
    ensures same <==> Text(b, a) == s
  {
    hide At, Text;
    var i := 0;
    while true
      invariant i <= |s|
      invariant Text(b, a) == s <==> Text(b, a + i) == s[i..]
      decreases |s| - i
    {
      var c := if i < |s| then s[i] else 0;
      TextStep(b, a + i);
      if At(b, a + i) != c {
        return false;
      }
      if c == 0 {
        return true;
      }
      assert s[i..] == [c] + s[i + 1..];
      i := i + 1;
    }
  }

  lemma TextStep(b: Blob, a: nat)
    ensures At(b, a) == 0 ==> Text(b, a) == []
    ensures At(b, a) != 0 ==> Text(b, a) != [] && Text(b, a)[0] == At(b, a) && Text(b, a)[1..] == Text(b, a + 1)
  {
  }

  /** n bytes from address a on. */
  function Bytes(b: Blob, a: nat, n: nat): (s: seq<byte>)
    ensures |s| == n && forall i: nat :: i < n ==> s[i] == At(b, a + i)
  {
    if n == 0 then [] else Bytes(b, a, n - 1) + [At(b, a + n - 1)]
  }

  /** Aligning addresses and aligning offsets agree exactly when the header is aligned. */
  lemma AlignmentsAgree(p: nat, x: nat)
    ensures Align4(p + x) == p + Align4(x) <==> p % 4 == 0
  {
  }

  function Pad(n: nat): (s: seq<byte>)
    ensures |s| == Align4(n) - n
  {
    seq(Align4(n) - n, _ => 0)
  }

  /** The bytes s are at address a. */
  ghost predicate HoldsAt(b: Blob, a: nat, s: seq<byte>) {
    forall i: nat :: i < |s| ==> At(b, a + i) == s[i]
  }

  lemma HoldsParts(b: Blob, a: nat, s: seq<byte>, t: seq<byte>)
    requires HoldsAt(b, a, s + t)
    ensures HoldsAt(b, a, s) && HoldsAt(b, a + |s|, t)
  {
    forall i: nat | i < |t|
      ensures At(b, a + |s| + i) == t[i]
    {
      assert (s + t)[|s| + i] == t[i];
      assert At(b, a + (|s| + i)) == (s + t)[|s| + i];
    }
    forall i: nat | i < |s|
      ensures At(b, a + i) == s[i]
    {
      assert (s + t)[i] == s[i];
    }
  }

  lemma {:induction false} TextRoundTrip(b: Blob, a: nat, s: seq<byte>)
    requires 0 !in s && HoldsAt(b, a, s + [0])
    ensures Text(b, a) == s
    decreases |s|
  {
    assert At(b, a + 0) == (s + [0])[0];
    if s != [] {
      assert s + [0] == [s[0]] + (s[1..] + [0]);
      HoldsParts(b, a, [s[0]], s[1..] + [0]);
      TextRoundTrip(b, a + 1, s[1..]);
    }
  }
}
