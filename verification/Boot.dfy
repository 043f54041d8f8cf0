/** Reserved memory and the first-fit allocator that serves buddy_init before the buddy lists exist. */
module Boot {
  import opened BuddySpec
  import opened BuddyAllocator

  const MAX_RESERVED_REGIONS: nat := 32
  const INT_SIZE: nat := 4

  /** The test of startup_alloc: the range start..end meets the region. */
  predicate Clash(r: Region, start: nat, end: nat) {
    !(end <= r.start || start >= r.end)
  }

  predicate Clear(regions: seq<Region>, start: nat, end: nat) {
    forall i :: 0 <= i < |regions| ==> !Clash(regions[i], start, end)
  }

  /** Page idx of the managed memory begins n pages that meet no region. */
  predicate ClearRun(regions: seq<Region>, base: nat, idx: nat, n: nat) {
    Clear(regions, base + idx * PAGE_SIZE, base + idx * PAGE_SIZE + n * PAGE_SIZE)
  }

  /** The lowest run of n pages within memory that meets no region. */
  ghost predicate FirstRun(regions: seq<Region>, base: nat, total: nat, n: nat, idx: nat) {
    idx + n <= total && ClearRun(regions, base, idx, n) && forall j: nat :: j < idx ==> !ClearRun(regions, base, j, n)
  }

  /** The test of startup_alloc is about bytes, but for regions that have none. */
  lemma ClearByAddress(regions: seq<Region>, start: nat, end: nat)
    requires start < end
    ensures Clear(regions, start, end) ==> !Meets(regions, start, end)
    ensures NoneEmpty(regions) && !Meets(regions, start, end) ==> Clear(regions, start, end)
  {
    if NoneEmpty(regions) {
      if i :| 0 <= i < |regions| && Clash(regions[i], start, end) {
        assert InRegions(regions, if start < regions[i].start then regions[i].start else start);
      }
    }
  }

  /** A byte of the n pages from page j on lies in a region. */
  ghost predicate RunMeets(regions: seq<Region>, base: nat, j: nat, n: nat) {
    Meets(regions, base + j * 4096, base + (j + n) * 4096)
  }

  /** So the run found is the lowest without a byte of a region. */
  lemma FirstRunByAddress(regions: seq<Region>, base: nat, total: nat, n: nat, idx: nat)
    requires n > 0 && NoneEmpty(regions)
    ensures FirstRun(regions, base, total, n, idx) <==>
              && idx + n <= total && !RunMeets(regions, base, idx, n)
              && forall j: nat :: j < idx ==> RunMeets(regions, base, j, n)
  {
    hide Clear, Meets, NoneEmpty;
    forall j: nat
      ensures ClearRun(regions, base, j, n) <==> !RunMeets(regions, base, j, n)
    {
      ClearByAddress(regions, base + j * 4096, base + (j + n) * 4096);
    }
  }

  /** Every start that the jump to the end of a clash skips clashes as well. */
  lemma SkippedRunsClash(regions: seq<Region>, base: nat, i: nat, idx: nat, n: nat, j: nat)
    requires i < |regions| && Clash(regions[i], base + idx * PAGE_SIZE, base + idx * PAGE_SIZE + n * PAGE_SIZE)
    requires idx <= j < (regions[i].end - base + PAGE_SIZE - 1) / PAGE_SIZE
    ensures !ClearRun(regions, base, j, n)
  {
  }

  /** Registering regions one by one in a table that ignores what does not fit. */
  ghost function Register(table: seq<Region>, found: seq<Region>): seq<Region>
    decreases |found|
  {
    if found == [] then table
    else Register(if |table| < MAX_RESERVED_REGIONS then table + [found[0]] else table, found[1..])
  }

  lemma {:induction false} RegisterAppend(table: seq<Region>, found: seq<Region>, rest: seq<Region>)
    ensures Register(table, found + rest) == Register(Register(table, found), rest)
    decreases |found|
  {
    if found == [] {
      assert found + rest == rest;
    } else {
      assert (found + rest)[1..] == found[1..] + rest;
      RegisterAppend(if |table| < MAX_RESERVED_REGIONS then table + [found[0]] else table, found[1..], rest);
    }
  }

  /** What fits is registered, in order and once each. */
  lemma {:induction false} RegisterFits(table: seq<Region>, found: seq<Region>)
    requires |table| + |found| <= MAX_RESERVED_REGIONS
    ensures Register(table, found) == table + found
    decreases |found|
  {
    if found != [] {
      RegisterFits(table + [found[0]], found[1..]);
      assert table + found == (table + [found[0]]) + found[1..];
    }
  }

  lemma {:induction false} RegisterLength(table: seq<Region>, found: seq<Region>)
    requires |table| <= MAX_RESERVED_REGIONS
    ensures var n := |table| + |found|; |Register(table, found)| == if n <= MAX_RESERVED_REGIONS then n
            else MAX_RESERVED_REGIONS
    decreases |found|
  {
    if found != [] {
      RegisterLength(if |table| < MAX_RESERVED_REGIONS then table + [found[0]] else table, found[1..]);
    }
  }

  /** There is room for n pages that meet no region. */
  ghost predicate HasClearRun(regions: seq<Region>, base: nat, total: nat, n: nat) {
    exists j: nat :: j + n <= total && ClearRun(regions, base, j, n)
  }

  /** The pages of an array with one int for each frame. */
  function ArrayPages(total: nat): nat {
    PagesFor(total * INT_SIZE)
  }

  /** Such an array, if it begins with page idx. */
  function ArrayAt(base: nat, total: nat, idx: nat): Region {
    Region(base + idx * PAGE_SIZE, base + idx * PAGE_SIZE + ArrayPages(total) * PAGE_SIZE)
  }

  /** Where buddy_init places frame_array and ref_count. */
  ghost predicate Placed(regions: seq<Region>, base: nat, total: nat, i: nat, j: nat) {
    && FirstRun(regions, base, total, ArrayPages(total), i)
    && FirstRun(Register(regions, [ArrayAt(base, total, i)]), base, total, ArrayPages(total), j)
  }

  ghost predicate CanPlaceArrays(regions: seq<Region>, base: nat, total: nat) {
    exists i: nat, j: nat :: Placed(regions, base, total, i, j)
  }

  /** Frame f belongs to the array at page idx. */
  predicate InArray(total: nat, idx: nat, f: nat) {
    idx <= f < idx + ArrayPages(total)
  }

  /** The region of an array touches its own pages. */
  lemma ArrayTouches(base: nat, total: nat, idx: nat, f: nat)
    ensures InArray(total, idx, f) <==> Touches(ArrayAt(base, total, idx), base + f * PAGE_SIZE)
  {
    if idx <= f {
      assert (f - idx) * PAGE_SIZE + idx * PAGE_SIZE == f * PAGE_SIZE;
    }
  }

  /** A run that meets no region has no page that a region touches. */
  lemma ClearIsUntouched(regions: seq<Region>, base: nat, total: nat, idx: nat, f: nat)
    requires ClearRun(regions, base, idx, ArrayPages(total)) && InArray(total, idx, f)
    ensures !Reserved(regions, base + f * PAGE_SIZE)
  {
    if i: nat :| i < |regions| && Touches(regions[i], base + f * PAGE_SIZE) {
      assert !Clash(regions[i], base + idx * PAGE_SIZE, base + idx * PAGE_SIZE + ArrayPages(total) * PAGE_SIZE);
    }
  }

  /**
   The regions registered in the end cover the frames of both arrays exactly when the table had room for both. With one
   entry left they do not cover those of ref_count, which become free; with none left both arrays lie at the same place.
   */
  lemma ArraysKeptBack(regions: seq<Region>, base: nat, total: nat, i: nat, j: nat)
    requires 0 < total && Placed(regions, base, total, i, j)
    ensures var after := Register(regions, [ArrayAt(base, total, i), ArrayAt(base, total, j)]);
            && ((forall f: nat :: InArray(total, i, f) || InArray(total, j, f) ==>
                   Reserved(after, base + f * PAGE_SIZE))
                <==> |regions| + 2 <= MAX_RESERVED_REGIONS)
            && (|regions| + 1 == MAX_RESERVED_REGIONS ==>
                  forall f: nat :: InArray(total, j, f) ==> !Reserved(after, base + f * PAGE_SIZE))
            && (|regions| >= MAX_RESERVED_REGIONS ==>
                  i == j && forall f: nat :: InArray(total, i, f) ==> !Reserved(after, base + f * PAGE_SIZE))
  {
    var a, b := ArrayAt(base, total, i), ArrayAt(base, total, j);
    var after := Register(regions, [a, b]);
    assert ArrayPages(total) > 0;
    RegisterBoth(regions, a, b);
    if |regions| + 2 <= MAX_RESERVED_REGIONS {
      RegisterFits(regions, [a, b]);
      forall f: nat | InArray(total, i, f) || InArray(total, j, f)
        ensures Reserved(after, base + f * PAGE_SIZE)
      {
        ArrayTouches(base, total, i, f);
        ArrayTouches(base, total, j, f);
        assert after[|regions|] == a && after[|regions| + 1] == b;
      }
    } else if |regions| < MAX_RESERVED_REGIONS {
      RegisterFits(regions, [a]);
      assert Register(regions + [a], [b]) == regions + [a];
      forall f: nat | InArray(total, j, f)
        ensures !Reserved(after, base + f * PAGE_SIZE)
      {
        ClearIsUntouched(regions + [a], base, total, j, f);
      }
      assert InArray(total, j, j);
    } else {
      assert Register(regions, [a]) == regions && after == regions;
      FirstRunIsUnique(regions, base, total, ArrayPages(total), i, j);
      forall f: nat | InArray(total, i, f)
        ensures !Reserved(after, base + f * PAGE_SIZE)
      {
        ClearIsUntouched(regions, base, total, i, f);
      }
      assert InArray(total, i, i);
    }
  }

  lemma FirstIsRun(regions: seq<Region>, base: nat, total: nat, n: nat, i: nat)
    requires FirstRun(regions, base, total, n, i)
    ensures HasClearRun(regions, base, total, n)
  {
  }

  lemma NoFirstRun(regions: seq<Region>, base: nat, total: nat)
    requires !HasClearRun(regions, base, total, ArrayPages(total))
    ensures !CanPlaceArrays(regions, base, total)
  {
    if i: nat, j: nat :| Placed(regions, base, total, i, j) {
      FirstIsRun(regions, base, total, ArrayPages(total), i);
    }
  }

  /** Without room for the second array there is no way to place both. */
  lemma NoSecondRun(regions: seq<Region>, base: nat, total: nat, i: nat)
    requires FirstRun(regions, base, total, ArrayPages(total), i)
    requires !HasClearRun(Register(regions, [ArrayAt(base, total, i)]), base, total, ArrayPages(total))
    ensures !CanPlaceArrays(regions, base, total)
  {
    if i': nat, j: nat :| Placed(regions, base, total, i', j) {
      FirstRunIsUnique(regions, base, total, ArrayPages(total), i, i');
      FirstIsRun(Register(regions, [ArrayAt(base, total, i)]), base, total, ArrayPages(total), j);
    }
  }

  class Startup {
    const base: nat
    const total: nat
    var regions: seq<Region>

    constructor (base: nat, size: nat, regions: seq<Region>)
      ensures this.base == base && total == size / PAGE_SIZE && this.regions == regions
    {
      this.base, total, this.regions := base, size / PAGE_SIZE, regions;
    }

    /** memory_reserve: a full table ignores the region. */
    method MemoryReserve(start: nat, size: nat)
      modifies this
      ensures regions == Register(old(regions), [Region(start, start + size)])
    {
      if |regions| < MAX_RESERVED_REGIONS {
        regions := regions + [Region(start, start + size)];
      }
    }

    /** startup_alloc: the lowest run of pages that meets no region, registered if the table has room. */
    method StartupAlloc(size: nat) returns (p: nat)
      requires 0 < base
      modifies this
      ensures p != NULL ==>
                && (exists idx: nat ::
                      p == base + idx * PAGE_SIZE && FirstRun(old(regions), base, total, PagesFor(size), idx))
                && regions == Register(old(regions), [Region(p, p + PagesFor(size) * PAGE_SIZE)])
      ensures p == NULL ==>
                && regions == old(regions)
                && !HasClearRun(regions, base, total, PagesFor(size))
    {
      var n := PagesFor(size);
      var idx := 0;
      while idx + n <= total
        invariant regions == old(regions)
        invariant forall j: nat :: j < idx ==> !ClearRun(regions, base, j, n)
        decreases total - idx
      {
        var ok := true;
        var startAddr := base + idx * PAGE_SIZE;
        var endAddr := startAddr + n * PAGE_SIZE;
        ghost var was := idx;
        var i := 0;
        while i < |regions|
          invariant i <= |regions| && ok && idx == was
          invariant forall k :: 0 <= k < i ==> !Clash(regions[k], startAddr, endAddr)
        {
          if Clash(regions[i], startAddr, endAddr) {
            ok := false;
            var clashEnd := (regions[i].end - base + PAGE_SIZE - 1) / PAGE_SIZE;
            forall j: nat | idx <= j < clashEnd
              ensures !ClearRun(regions, base, j, n)
            {
              SkippedRunsClash(regions, base, i, idx, n, j);
            }
            if clashEnd > idx {
              idx := clashEnd;
            } else {
              idx := idx + 1;
            }
            break;
          }
          i := i + 1;
        }
        if ok {
          assert FirstRun(regions, base, total, n, idx);
          MemoryReserve(startAddr, n * PAGE_SIZE);
          return startAddr;
        }
      }
      p := NULL;
    }

    /**
     buddy_init, once memory is known and the regions in use are registered: place frame_array and ref_count,
     then build the free blocks. No allocator, if an array finds no room, or if the table has none for both: the code
     then goes on with arrays that it does not keep back (ArraysKeptBack, InitShared).
     */
    method BuddyInit(size: nat) returns (buddy: Buddy?, frameArray: nat, refCount: nat)
      requires 0 < base && total == size / PAGE_SIZE <= MAX_PAGES
      modifies this
      ensures frameArray == NULL <==> !HasClearRun(old(regions), base, total, ArrayPages(total))
      ensures refCount != NULL <==> CanPlaceArrays(old(regions), base, total)
      ensures refCount == NULL ==>
                regions == if frameArray == NULL then old(regions) else Register(old(regions), [Array(frameArray)])
      ensures refCount != NULL ==>
                && regions == Register(old(regions), [Array(frameArray), Array(refCount)])
                && exists i: nat, j: nat ::
                     && Placed(old(regions), base, total, i, j)
                     && frameArray == base + i * PAGE_SIZE && refCount == base + j * PAGE_SIZE
      ensures buddy != null <==>
                CanPlaceArrays(old(regions), base, total) && |old(regions)| + 2 <= MAX_RESERVED_REGIONS
      ensures buddy != null ==>
                && buddy.Valid() && buddy.base == base && buddy.total == total && fresh(buddy.Repr)
                && regions == old(regions) + [Array(frameArray), Array(refCount)]
                && forall f: nat :: f < total ==>
                     (IsFree(buddy.frameArray[..], f) <==> !Reserved(regions, base + f * PAGE_SIZE))
    {
      hide Buddy.Valid, ClearRun, Reserved, PagesFor, FirstRun, HasClearRun;
      frameArray, refCount, buddy := NULL, NULL, null;
      var room := |regions| + 2 <= MAX_RESERVED_REGIONS;
      frameArray := StartupAlloc(total * INT_SIZE);
      ghost var was, n := old(regions), ArrayPages(total);
      if frameArray == NULL {
        NoFirstRun(was, base, total);
        return;
      }
      ghost var i: nat :| frameArray == base + i * PAGE_SIZE && FirstRun(was, base, total, n, i);
      assert HasClearRun(was, base, total, n) by { FirstIsRun(was, base, total, n, i); }
      assert Array(frameArray) == ArrayAt(base, total, i);
      ghost var mid := regions;
      assert mid == Register(was, [ArrayAt(base, total, i)]);
      refCount := StartupAlloc(total * INT_SIZE);
      if refCount == NULL {
        NoSecondRun(was, base, total, i);
        return;
      }
      ghost var j: nat :| refCount == base + j * PAGE_SIZE && FirstRun(mid, base, total, n, j);
      assert Placed(was, base, total, i, j);
      RegisterBoth(was, Array(frameArray), Array(refCount));
      if room {
        RegisterFits(was, [Array(frameArray), Array(refCount)]);
        buddy := new Buddy(base, size, regions);
        assert forall f: nat :: f < total ==> buddy.Addr(f) == base + f * PAGE_SIZE;
      }
    }

    /** The whole pages of an array at p with one int for each frame. */
    function Array(p: nat): Region {
      Region(p, p + PagesFor(total * INT_SIZE) * PAGE_SIZE)
    }
  }

  /**
   The loops of buddy_init over both arrays when these are one: every entry is left as a count, so that the search for
   free frames that follows finds none and the allocator has no block.
   */
  method InitShared(base: nat, total: nat, regions: seq<Region>) returns (a: array<int>)
    requires 0 < base
    ensures fresh(a) && a.Length == total
    ensures forall f: nat :: f < total ==>
              a[f] == (if Reserved(regions, base + f * PAGE_SIZE) then 1 else 0) && a[f] != FREE_PART
  {
    a := new int[total];
    for f := 0 to total
      invariant forall g: nat :: g < f ==> a[g] == 0
    {
      a[f] := FREE_PART;
      a[f] := 0;
    }
    for i := 0 to |regions|
      invariant forall f: nat :: f < total ==> a[f] == if Reserved(regions[..i], base + f * PAGE_SIZE) then 1 else 0
    {
      var r := regions[i];
      var startIdx := if r.start > base then (r.start - base) / PAGE_SIZE else 0;
      var endIdx := if r.end > base then (r.end - base + PAGE_SIZE - 1) / PAGE_SIZE else 0;
      ghost var was := a[..];
      if startIdx < total {
        var j := startIdx;
        while j < endIdx && j < total
          invariant startIdx <= j <= total && (j == startIdx || j <= endIdx)
          invariant forall f: nat :: f < total ==> a[f] == if startIdx <= f < j then 1 else was[f]
        {
          a[j] := Tag(j, 0);
          a[j] := 1;
          j := j + 1;
        }
      }
      forall f: nat | f < total
        ensures a[f] == if Reserved(regions[..i + 1], base + f * PAGE_SIZE) then 1 else 0
      {
        TouchedFrames(base, r, f);
        ReservedOneMore(regions, i, base + f * PAGE_SIZE);
      }
    }
    assert regions[..|regions|] == regions;
  }

  /** Three frames, and 31 times the first of them registered: the frame that holds ref_count is free. */
  lemma OneEntryIsTooFew(base: nat)
    ensures var regions := seq(31, _ => Region(base, base + PAGE_SIZE));
            && Placed(regions, base, 3, 1, 2)
            && !Reserved(Register(regions, [ArrayAt(base, 3, 1), ArrayAt(base, 3, 2)]), base + 2 * PAGE_SIZE)
  {
    var regions := seq(31, _ => Region(base, base + PAGE_SIZE));
    assert regions[0] == Region(base, base + PAGE_SIZE);
    assert ArrayPages(3) == 1;
    RegisterFits(regions, [ArrayAt(base, 3, 1)]);
    var more := regions + [ArrayAt(base, 3, 1)];
    assert more[0] == regions[0] && more[31] == ArrayAt(base, 3, 1);
    assert Placed(regions, base, 3, 1, 2);
    ArraysKeptBack(regions, base, 3, 1, 2);
    assert InArray(3, 2, 2);
  }

  /** With 32 entries both arrays are the second frame. */
  lemma FullTableSharesOnePlace(base: nat)
    ensures Placed(seq(32, _ => Region(base, base + PAGE_SIZE)), base, 3, 1, 1)
  {
    var regions := seq(32, _ => Region(base, base + PAGE_SIZE));
    assert regions[0] == Region(base, base + PAGE_SIZE);
    assert ArrayPages(3) == 1 && Register(regions, [ArrayAt(base, 3, 1)]) == regions;
  }

  lemma FirstRunIsUnique(regions: seq<Region>, base: nat, total: nat, n: nat, i: nat, j: nat)
    requires FirstRun(regions, base, total, n, i) && FirstRun(regions, base, total, n, j)
    ensures i == j
  {
    hide ClearRun;
  }

  lemma RegisterBoth(table: seq<Region>, r: Region, r': Region)
    ensures Register(Register(table, [r]), [r']) == Register(table, [r, r'])
  {
    RegisterAppend(table, [r], [r']);
    assert [r] + [r'] == [r, r'];
  }
}
