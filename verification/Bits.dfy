/** Powers of two, natural alignment and bitwise operations on frame numbers. */
module Bits {

  function Pow2(k: nat): (r: nat)
    ensures r >= 1
  {
    if k == 0 then 1 else 2 * Pow2(k - 1)
  }

  /** The k low bits of i are zero: i is a multiple of 2^k. */
  predicate Aligned(i: nat, k: nat) {
    k == 0 || (i % 2 == 0 && Aligned(i / 2, k - 1))
  }

  /** Bitwise exclusive-or of two unsigned words. */
  function Xor(a: nat, b: nat): nat {
    if a == 0 && b == 0 then 0 else 2 * Xor(a / 2, b / 2) + (a + b) % 2
  }

  /** Bitwise and of two unsigned words. */
  function And(a: nat, b: nat): nat {
    if a == 0 && b == 0 then 0 else 2 * And(a / 2, b / 2) + (a % 2) * (b % 2)
  }

  lemma {:induction false} Pow2Monotone(k: nat, m: nat)
    requires k <= m
    ensures Pow2(k) <= Pow2(m)
    ensures k < m ==> 2 * Pow2(k) <= Pow2(m)
    decreases m - k
  {
    if k < m {
      Pow2Monotone(k + 1, m);
    }
  }

  /** The mask test `(i & (2^k - 1)) == 0` is the alignment test. */
  lemma {:induction false} MaskTest(i: nat, k: nat)
    ensures And(i, Pow2(k) - 1) == 0 <==> Aligned(i, k)
    decreases k, i
  {
    if k == 0 {
      if i != 0 { MaskTest(i / 2, 0); }
    } else {
      MaskTest(i / 2, k - 1);
      assert (Pow2(k) - 1) / 2 == Pow2(k - 1) - 1;
    }
  }

  lemma {:induction false} AlignedWeaken(i: nat, k: nat, m: nat)
    requires k <= m && Aligned(i, m)
    ensures Aligned(i, k)
  {
    if k > 0 {
      AlignedWeaken(i / 2, k - 1, m - 1);
    }
  }

  /** Naturally aligned intervals that meet are nested. */
  lemma {:induction false} Nested(i: nat, k: nat, j: nat, m: nat)
    requires k <= m && Aligned(i, k) && Aligned(j, m)
    requires i < j + Pow2(m) && j < i + Pow2(k)
    ensures j <= i && i + Pow2(k) <= j + Pow2(m)
  {
    if k > 0 {
      Nested(i / 2, k - 1, j / 2, m - 1);
    }
  }

  /** Flipping bit k of an aligned frame number moves to the other half of the enclosing block. */
  lemma {:induction false} XorIsOtherHalf(i: nat, k: nat)
    requires Aligned(i, k)
    ensures Aligned(i, k + 1) ==> Xor(i, Pow2(k)) == i + Pow2(k)
    ensures !Aligned(i, k + 1) ==> i >= Pow2(k) && Xor(i, Pow2(k)) == i - Pow2(k) && Aligned(i - Pow2(k), k + 1)
    ensures Aligned(Xor(i, Pow2(k)), k)
  {
    if k == 0 {
      XorZero(i / 2);
      assert Aligned(i / 2, 0);
      assert Pow2(0) == 1;
    } else {
      XorIsOtherHalf(i / 2, k - 1);
      XorHalves(i, k);
      hide Xor, Aligned;
      AlignedHalves(i, k);
      AlignedHalves(i, k + 1);
      AlignedHalves(Xor(i, Pow2(k)), k);
      if i >= Pow2(k) {
        AlignedHalves(i - Pow2(k), k + 1);
      }
    }
  }

  lemma XorHalves(i: nat, k: nat)
    requires k > 0 && i % 2 == 0
    ensures Xor(i, Pow2(k)) == 2 * Xor(i / 2, Pow2(k - 1)) && Pow2(k) == 2 * Pow2(k - 1)
  {
    assert Pow2(k) / 2 == Pow2(k - 1);
  }

  lemma AlignedHalves(i: nat, k: nat)
    requires k > 0
    ensures Aligned(i, k) <==> i % 2 == 0 && Aligned(i / 2, k - 1)
  {
  }

  lemma {:induction false} XorZero(a: nat)
    ensures Xor(a, 0) == a
  {
    if a != 0 {
      XorZero(a / 2);
    }
  }
}
