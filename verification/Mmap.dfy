/** Where do_mmap puts a new area. */
module Mmap {
  import opened BuddyAllocator
  import opened AddressSpace

  /** Where the search starts when the caller names no usable address. */
  const MMAP_BASE: nat := 0x10_0000_0000

  /** The least page boundary at or above x. */
  function RoundUp(x: nat): (r: nat)
    ensures PageAligned(r) && x <= r
    ensures forall y: nat :: PageAligned(y) && x <= y ==> r <= y
  {
    (x + PAGE_SIZE - 1) / PAGE_SIZE * PAGE_SIZE
  }

  /** An address that is missing, unaligned or too low is replaced by MMAP_BASE. */
  function Hint(addr: nat): (r: nat)
    ensures PageAligned(r) && r >= MMAP_BASE
    ensures r == if addr % 4096 == 0 && addr >= 0x10_0000_0000 then addr else 0x10_0000_0000
  {
    if addr == 0 || addr % PAGE_SIZE != 0 || addr < MMAP_BASE then MMAP_BASE else addr
  }

  predicate Clashes(a: Vma, start: nat, length: nat) {
    start < a.end && start + length > a.start
  }

  /** The range meets no area. */
  predicate Fits(vmas: seq<Vma>, start: nat, length: nat) {
    forall i :: 0 <= i < |vmas| ==> !Clashes(vmas[i], start, length)
  }

  /** The least page-aligned address from the hint on whose range meets no area. */
  ghost predicate FirstFit(vmas: seq<Vma>, hint: nat, length: nat, start: nat) {
    && hint <= start && PageAligned(start) && Fits(vmas, start, length)
    && forall x: nat :: hint <= x < start && PageAligned(x) ==> !Fits(vmas, x, length)
  }

  /** An area holds the address. */
  ghost predicate InSome(vmas: seq<Vma>, va: nat) {
    exists i :: 0 <= i < |vmas| && vmas[i].start <= va < vmas[i].end
  }

  /** No address of the range lies in an area. */
  ghost predicate Open(vmas: seq<Vma>, start: nat, length: nat) {
    forall va: nat :: start <= va < start + length ==> !InSome(vmas, va)
  }

  /** An area without an address lies inside the range. */
  ghost predicate EmptyInside(vmas: seq<Vma>, start: nat, length: nat) {
    exists i :: 0 <= i < |vmas| && vmas[i].start == vmas[i].end && start < vmas[i].start < start + length
  }

  /** The test of do_mmap is about addresses, but for areas that have none. */
  lemma FitsByAddress(vmas: seq<Vma>, start: nat, length: nat)
    requires length > 0 && forall i :: 0 <= i < |vmas| ==> vmas[i].start <= vmas[i].end
    ensures Fits(vmas, start, length) <==> Open(vmas, start, length) && !EmptyInside(vmas, start, length)
  {
    if i :| 0 <= i < |vmas| && Clashes(vmas[i], start, length) {
      var a := vmas[i];
      if a.start < a.end {
        assert InSome(vmas, if start < a.start then a.start else start);
      }
    }
  }

  /** So the place found is the least page boundary where nothing lies in an area. */
  lemma FirstFitByAddress(vmas: seq<Vma>, hint: nat, length: nat, start: nat)
    requires length > 0 && forall i :: 0 <= i < |vmas| ==> vmas[i].start < vmas[i].end
    ensures FirstFit(vmas, hint, length, start) <==>
              && hint <= start && start % 4096 == 0 && Open(vmas, start, length)
              && forall x: nat :: hint <= x < start && x % 4096 == 0 ==> !Open(vmas, x, length)
  {
    hide Fits, Open;
    forall x: nat
      ensures Fits(vmas, x, length) <==> Open(vmas, x, length)
    {
      FitsByAddress(vmas, x, length);
    }
  }

  /** The order of the list plays no part. */
  lemma FirstFitIgnoresOrder(vmas: seq<Vma>, vmas': seq<Vma>, hint: nat, length: nat, start: nat, start': nat)
    requires forall a :: a in vmas <==> a in vmas'
    requires FirstFit(vmas, hint, length, start) && FirstFit(vmas', hint, length, start')
    ensures start == start'
  {
    assert forall i :: 0 <= i < |vmas| ==> vmas[i] in vmas';
    assert forall i :: 0 <= i < |vmas'| ==> vmas'[i] in vmas;
    assert Fits(vmas', start, length) && Fits(vmas, start', length);
  }

  /** A page boundary beyond every area. */
  function Top(vmas: seq<Vma>): (t: nat)
    ensures forall i :: 0 <= i < |vmas| ==> RoundUp(vmas[i].end) <= t
  {
    if vmas == [] then 0
    else
      var t := Top(vmas[..|vmas| - 1]);
      var r := RoundUp(vmas[|vmas| - 1].end);
      assert forall i :: 0 <= i < |vmas| - 1 ==> vmas[i] == vmas[..|vmas| - 1][i];
      if r > t then r else t
  }

  /** Every start that a clash skips clashes with the same area. */
  lemma SkippedStartsClash(a: Vma, start: nat, length: nat, x: nat)
    requires Clashes(a, start, length) && start <= x < RoundUp(a.end) && PageAligned(x)
    ensures Clashes(a, x, length)
  {
  }

  /** An area put where it fits keeps the list page-aligned and free of overlaps. */
  lemma FittingArea(vmas: seq<Vma>, a: Vma)
    requires PageAligned(a.start) && PageAligned(a.end) && a.start < a.end <= USER_END
    requires VmasOk(vmas) && Fits(vmas, a.start, a.end - a.start)
    ensures VmasOk([a] + vmas)
  {
  }

  /** The search of do_mmap: move past the first area in the way, then start over. */
  method FindGap(vmas: seq<Vma>, hint: nat, length: nat) returns (start: nat)
    requires PageAligned(hint)
    ensures FirstFit(vmas, hint, length, start)
  {
    hide RoundUp, PageAligned, Top;
    start := hint;
    var overlap := true;
    while overlap
      invariant hint <= start && PageAligned(start)
      invariant forall x: nat :: hint <= x < start && PageAligned(x) ==> !Fits(vmas, x, length)
      invariant !overlap ==> Fits(vmas, start, length)
      decreases overlap, Top(vmas) - start
    {
      overlap := false;
      var i := 0;
      ghost var was := start;
      while i < |vmas|
        invariant i <= |vmas| && !overlap && start == was
        invariant forall j :: 0 <= j < i ==> !Clashes(vmas[j], start, length)
      {
        if Clashes(vmas[i], start, length) {
          forall x: nat | start <= x < RoundUp(vmas[i].end) && PageAligned(x)
            ensures !Fits(vmas, x, length)
          {
            SkippedStartsClash(vmas[i], start, length, x);
          }
          start := RoundUp(vmas[i].end);
          overlap := true;
          break;
        }
        i := i + 1;
      }
    }
  }
}
