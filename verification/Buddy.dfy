/** The page-frame allocator of buddy.c: one object holds its global state. */
module BuddyAllocator {
  import opened Basics
  import opened Bits
  import opened ListH
  import opened BuddySpec
  import opened BuddyTheory

  const PAGE_SIZE: nat := 4096
  const NULL: nat := 0

  /** mem_region_t: the bytes from `start` up to, and not including, `end`. */
  datatype Region = Region(start: nat, end: nat)

  /** The region and the page starting at `page` have a byte in common (or an empty region points into the page). */
  predicate Touches(r: Region, page: nat) {
    r.start < page + PAGE_SIZE && page < r.end
  }

  ghost predicate Reserved(regions: seq<Region>, page: nat) {
    exists i :: 0 <= i < |regions| && Touches(regions[i], page)
  }

  /** A region holds the address. */
  ghost predicate InRegions(regions: seq<Region>, a: nat) {
    exists i :: 0 <= i < |regions| && regions[i].start <= a < regions[i].end
  }

  /** A byte of the range lies in a region. */
  ghost predicate Meets(regions: seq<Region>, start: nat, end: nat) {
    exists a: nat :: start <= a < end && InRegions(regions, a)
  }

  ghost predicate NoneEmpty(regions: seq<Region>) {
    forall i :: 0 <= i < |regions| ==> regions[i].start < regions[i].end
  }

  /** Pages are kept back for the bytes that lie in them, and for nothing else unless a region is empty. */
  lemma ReservedByAddress(regions: seq<Region>, page: nat)
    ensures Meets(regions, page, page + 4096) ==> Reserved(regions, page)
    ensures NoneEmpty(regions) && Reserved(regions, page) ==> Meets(regions, page, page + 4096)
  {
    if NoneEmpty(regions) {
      if i :| 0 <= i < |regions| && Touches(regions[i], page) {
        assert InRegions(regions, if page < regions[i].start then regions[i].start else page);
      }
    }
  }

  /** Pages needed for `size` bytes. */
  function PagesFor(size: nat): (pages: nat)
    ensures size <= pages * PAGE_SIZE < size + PAGE_SIZE
  {
    (size + PAGE_SIZE - 1) / PAGE_SIZE
  }

  /** pages_to_order: the least k such that a block of order k has room for that many pages. */
  method PagesToOrder(pages: nat) returns (order: nat)
    ensures pages <= Pow2(order)
    ensures forall k: nat :: k < order ==> Pow2(k) < pages
  {
    order := 0;
    var block := 1;
    while block < pages
      invariant block == Pow2(order)
      invariant forall k: nat :: k < order ==> Pow2(k) < pages
      decreases pages - block
    {
      block := 2 * block;
      order := order + 1;
    }
  }

  /** k is the order pages_to_order chooses. */
  ghost predicate FitsOrder(pages: nat, k: nat) {
    pages <= Pow2(k) && forall j: nat :: j < k ==> Pow2(j) < pages
  }

  /** A request is too large for any block beyond 256 MiB. */
  lemma LargestBlock(size: nat, k: nat)
    requires FitsOrder(PagesFor(size), k)
    ensures k > MAX_ORDER <==> size > 0x1000_0000
  {
    assert Pow2(4) == 16 && Pow2(8) == 16 * Pow2(4);
    assert Pow2(12) == 16 * Pow2(8) && Pow2(16) == 16 * Pow2(12);
    if k <= 16 {
      Pow2Monotone(k, 16);
    }
  }

  /** The first frame of every allocated block has a reference. */
  ghost predicate Referenced(fa: seq<int>, refs: seq<int>) {
    |refs| == |fa| && forall h: nat, k: nat :: LiveIn(fa, 0, 0, h, k, h) ==> refs[h] >= 1
  }

  class Buddy {
    const base: nat          // buddy_base_addr
    const limit: nat         // buddy_end_addr
    const total: nat         // buddy_total_pages
    const frameArray: array<int>
    const refCount: array<int>
    /** Slot f < total is the list_head inside frame f; slot total + k is free_list[k]. */
    const nodes: NodeSpace
    ghost var lists: seq<seq<nat>>

    ghost const Repr: set<object>

    ghost predicate Geometry()
    {
      && Repr == {this, frameArray, refCount, nodes.prev, nodes.next}
      && frameArray != refCount && nodes.Valid()
      && frameArray as object != nodes.prev && frameArray as object != nodes.next
      && refCount as object != nodes.prev && refCount as object != nodes.next
      && frameArray.Length == refCount.Length == total <= MAX_PAGES
      && nodes.next.Length == total + MAX_ORDER + 1
      && 0 < base && base + total * PAGE_SIZE <= limit < base + (total + 1) * PAGE_SIZE
    }

    /** The lists and the frame array agree outside the hole, and the frame array is well formed there. */
    ghost predicate Linked(lo: nat, hi: nat)
      reads this, frameArray, nodes.prev, nodes.next
    {
      && Geometry()
      && Rings(nodes.View(), total, lists)
      && WF(frameArray[..], lo, hi)
      && Listed(frameArray[..], lo, hi, lists)
    }

    /** Frame h heads an allocated block of order k. */
    ghost predicate LiveBlock(h: nat, k: nat)
      reads frameArray
    {
      LiveIn(frameArray[..], 0, 0, h, k, h)
    }

    ghost predicate Valid()
      reads this, frameArray, refCount, nodes.prev, nodes.next
    {
      Linked(0, 0) && Referenced(frameArray[..], refCount[..])
    }

    lemma Bounds()
      requires Valid()
      ensures frameArray.Length == refCount.Length == total <= MAX_PAGES && 0 < base && frameArray != refCount
      ensures base + total * PAGE_SIZE <= limit
      ensures Repr == {this, frameArray, refCount, nodes.prev, nodes.next}
    {
    }

    function Addr(f: nat): nat {
      base + f * PAGE_SIZE
    }

    /** buddy_init, once the frame array and the reference counts have been placed. */
    constructor (base: nat, size: nat, regions: seq<Region>)
      requires 0 < base && size / PAGE_SIZE <= MAX_PAGES
      ensures Valid() && this.base == base && total == size / PAGE_SIZE && fresh(Repr)
      ensures forall f: nat :: f < total ==> (IsFree(frameArray[..], f) <==> !Reserved(regions, Addr(f)))
      ensures forall f: nat :: f < total && Reserved(regions, Addr(f)) ==> LiveBlock(f, 0) && refCount[f] == 1
    {
      var n := size / PAGE_SIZE;
      var frames := new int[n](_ => FREE_PART);
      var counts := new int[n](_ => 0);
      var space := new NodeSpace(n + MAX_ORDER + 1);
      this.base, limit, total := base, base + size, n;
      frameArray, refCount, nodes := frames, counts, space;
      lists := seq(MAX_ORDER + 1, _ => []);
      Repr := {this, frames, counts, space.prev, space.next};
      new;
      InitLists();
      FlagReserved(regions);
      BuildFreeBlocks(regions);
    }

    /** buddy_init: every list starts as a ring of its own. */
    method InitLists()
      requires Geometry() && |lists| == MAX_ORDER + 1
      requires forall k: nat :: k <= MAX_ORDER ==> lists[k] == []
      modifies nodes.prev, nodes.next
      ensures Rings(nodes.View(), total, lists)
    {
      for i := 0 to MAX_ORDER + 1
        invariant forall k: nat :: k < i ==> Ring(nodes.View(), total + k, lists[k])
      {
        ghost var l := nodes.View();
        nodes.InitListHead(total + i);
        forall k: nat | k < i
          ensures Ring(nodes.View(), total + k, lists[k])
        {
          RingFrame(l, nodes.View(), total + k, lists[k]);
        }
      }
    }

    /** buddy_init: the frames that a region touches become allocated blocks of one page. */
    method FlagReserved(regions: seq<Region>)
      requires Geometry()
      requires forall f :: 0 <= f < total ==> frameArray[f] == FREE_PART && refCount[f] == 0
      modifies frameArray, refCount
      ensures Flagged(frameArray[..], regions, 0)
      ensures forall f: nat :: f < total ==> refCount[f] == if Reserved(regions, Addr(f)) then 1 else 0
    {
      for i := 0 to |regions|
        invariant forall f: nat :: f < total ==>
                    frameArray[f] == if Reserved(regions[..i], Addr(f)) then Tag(f, 0) else FREE_PART
        invariant forall f: nat :: f < total ==> refCount[f] == if Reserved(regions[..i], Addr(f)) then 1 else 0
      {
        FlagRegion(regions[i]);
        forall f: nat | f < total
          ensures Reserved(regions[..i + 1], Addr(f)) <==>
                    Reserved(regions[..i], Addr(f)) || Touches(regions[i], Addr(f))
        {
          ReservedOneMore(regions, i, Addr(f));
        }
      }
      assert regions[..|regions|] == regions;
    }

    method FlagRegion(r: Region)
      requires Geometry()
      modifies frameArray, refCount
      ensures forall f: nat :: f < total ==>
                frameArray[f] == if Touches(r, Addr(f)) then Tag(f, 0) else old(frameArray[f])
      ensures forall f: nat :: f < total ==> refCount[f] == if Touches(r, Addr(f)) then 1 else old(refCount[f])
    {
      var startIdx := if r.start > base then (r.start - base) / PAGE_SIZE else 0;
      var endIdx := if r.end > base then (r.end - base + PAGE_SIZE - 1) / PAGE_SIZE else 0;
      forall f: nat | f < total
        ensures Touches(r, Addr(f)) <==> startIdx <= f < endIdx
      {
        TouchedFrames(base, r, f);
      }
      if startIdx < total {
        var j := startIdx;
        while j < endIdx && j < total
          invariant startIdx <= j <= total && (j == startIdx || j <= endIdx)
          invariant forall f: nat :: f < total ==>
                      frameArray[f] == if startIdx <= f < j then Tag(f, 0) else old(frameArray[f])
          invariant forall f: nat :: f < total ==> refCount[f] == if startIdx <= f < j then 1 else old(refCount[f])
        {
          frameArray[j] := Tag(j, 0);
          refCount[j] := 1;
          j := j + 1;
        }
      }
    }

    /** From frame `from` on, the frame array shows exactly the reserved frames as allocated. */
    ghost predicate Flagged(fa: seq<int>, regions: seq<Region>, from: nat) {
      && |fa| == total
      && forall f: nat :: from <= f < total ==> fa[f] == if Reserved(regions, Addr(f)) then Tag(f, 0) else FREE_PART
    }

    /** buddy_init: all frames that no region touches go into free blocks, each as large as alignment allows. */
    method BuildFreeBlocks(regions: seq<Region>)
      requires Geometry() && Flagged(frameArray[..], regions, 0)
      requires Rings(nodes.View(), total, lists) && forall k: nat :: k <= MAX_ORDER ==> lists[k] == []
      modifies this`lists, frameArray, nodes.prev, nodes.next
      ensures Linked(0, 0)
      ensures forall f: nat :: f < total ==> (IsFree(frameArray[..], f) <==> !Reserved(regions, Addr(f)))
      ensures forall f: nat :: f < total && Reserved(regions, Addr(f)) ==> frameArray[f] == Tag(f, 0)
    {
      var idx := 0;
      BuiltStart(frameArray[..], regions);
      while idx < total
        invariant idx <= total && Linked(idx, total) && Built(frameArray[..], regions, idx)
      {
        if frameArray[idx] != FREE_PART {
          BuiltSkip(frameArray[..], regions, idx);
          idx := idx + 1;
        } else {
          idx := CarveBlock(idx, regions);
        }
      }
      CloseHole(frameArray[..], total);
    }

    /** The body of buddy_init's last loop at a free frame. */
    method CarveBlock(idx: nat, ghost regions: seq<Region>) returns (to: nat)
      requires idx < total && Linked(idx, total) && Built(frameArray[..], regions, idx)
      requires frameArray[idx] == FREE_PART
      modifies this`lists, frameArray, nodes.prev, nodes.next
      ensures idx < to <= total && Linked(to, total) && Built(frameArray[..], regions, to)
    {
      ghost var fa := frameArray[..];
      var order := LargestFit(idx);
      to := idx + Pow2(order);
      GreedyHasNoBuddy(fa, idx, order);
      PushBuilt(fa, regions, idx, order, to);
      BlockPush(idx, order, idx, total, to, total);
    }

    lemma BuiltStart(fa: seq<int>, regions: seq<Region>)
      requires Geometry() && Flagged(fa, regions, 0)
      ensures WF(fa, 0, total) && Built(fa, regions, 0)
      ensures forall i: nat, k: nat :: !Head(fa, 0, total, i, k)
    {
    }

    lemma BuiltSkip(fa: seq<int>, regions: seq<Region>, idx: nat)
      requires Geometry() && idx < total && WF(fa, idx, total) && Built(fa, regions, idx) && fa[idx] != FREE_PART
      ensures WF(fa, idx + 1, total) && Built(fa, regions, idx + 1)
      ensures forall i: nat, k: nat :: Head(fa, idx + 1, total, i, k) <==> Head(fa, idx, total, i, k)
    {
      SkipLive(fa, idx);
      var to := idx + 1;
      forall i: nat, k: nat | Head(fa, to, total, i, k) && k < MAX_ORDER
        ensures !FreeRun(fa, i, k + 1)
      {
        assert Head(fa, idx, total, i, k);
      }
    }

    /** buddy_init's progress: frames before `idx` are settled, with blocks as large as can be. */
    ghost predicate Built(fa: seq<int>, regions: seq<Region>, idx: nat) {
      && Flagged(fa, regions, idx)
      && (forall f: nat :: f < total ==> (IsFree(fa, f) <==> !Reserved(regions, Addr(f))))
      && (forall f: nat :: f < total && Reserved(regions, Addr(f)) ==> fa[f] == Tag(f, 0))
      && Largest(fa, idx)
    }

    lemma PushBuilt(fa: seq<int>, regions: seq<Region>, idx: nat, order: nat, to: nat)
      requires Geometry() && Built(fa, regions, idx) && WF(fa, idx, total)
      requires order <= MAX_ORDER && Aligned(idx, order) && to == idx + Pow2(order) <= total
      requires forall f :: idx <= f < to ==> fa[f] == FREE_PART
      requires order < MAX_ORDER ==> Blocked(fa, idx, order + 1)
      ensures Built(Push(fa, idx, order), regions, to)
    {
      var fb := Push(fa, idx, order);
      PushSameFree(fa, idx, order);
      if order < MAX_ORDER {
        BlockedNoRun(fa, idx, order + 1);
      }
      PushLargest(fa, idx, order, to);
      forall f: nat | f < total && Reserved(regions, Addr(f))
        ensures fb[f] == Tag(f, 0)
      {
        assert fa[f] == Tag(f, 0);
      }
    }

    lemma BlockedNoRun(fa: seq<int>, idx: nat, k: nat)
      requires |fa| == total && Blocked(fa, idx, k)
      requires forall f: nat :: idx <= f < total ==> fa[f] == FREE_PART || fa[f] >= ALLOC_BIT
      ensures !FreeRun(fa, idx, k)
    {
    }

    /** The aligned run of order k at idx does not fit or is not entirely free. */
    ghost predicate Blocked(fa: seq<int>, idx: nat, k: nat)
      requires |fa| == total
    {
      Aligned(idx, k) && idx + Pow2(k) <= total ==> exists f: nat :: InBlock(idx, k, f) && fa[f] != FREE_PART
    }

    /** The search inside buddy_init for the largest aligned run of free frames starting at idx. */
    method LargestFit(idx: nat) returns (order: nat)
      requires Geometry() && idx < total && frameArray[idx] == FREE_PART
      ensures order <= MAX_ORDER && Aligned(idx, order) && idx + Pow2(order) <= total
      ensures forall j :: idx <= j < idx + Pow2(order) ==> frameArray[j] == FREE_PART
      ensures order < MAX_ORDER ==> Blocked(frameArray[..], idx, order + 1)
    {
      hide FreeRun, WF, IsFree, And, Aligned, Blocked;
      order := MAX_ORDER;
      while order > 0
        invariant order <= MAX_ORDER
        invariant order < MAX_ORDER ==> Blocked(frameArray[..], idx, order + 1)
      {
        var blockPages := Pow2(order);
        MaskTest(idx, order);
        if And(idx, blockPages - 1) == 0 && idx + blockPages <= total {
          var allFree := AllFree(idx, order, blockPages);
          if allFree {
            break;
          }
        }
        NoRoom(idx, order);
        order := order - 1;
      }
      OneFits(idx);
    }

    lemma NoRoom(idx: nat, k: nat)
      requires Geometry()
      ensures !(Aligned(idx, k) && idx + Pow2(k) <= total) ==> Blocked(frameArray[..], idx, k)
    {
    }

    lemma OneFits(idx: nat)
      ensures Aligned(idx, 0) && Pow2(0) == 1
    {
    }

    /** Whether a run of frames is unused so far. */
    method AllFree(idx: nat, ghost order: nat, blockPages: nat) returns (allFree: bool)
      requires Geometry() && blockPages == Pow2(order) && idx + blockPages <= total
      ensures allFree ==> forall f :: idx <= f < idx + blockPages ==> frameArray[f] == FREE_PART
      ensures !allFree ==> Blocked(frameArray[..], idx, order)
    {
      allFree := true;
      var j := 0;
      while j < blockPages
        invariant j <= blockPages && allFree
        invariant forall f :: idx <= f < idx + j ==> frameArray[f] == FREE_PART
      {
        if frameArray[idx + j] != FREE_PART {
          assert InBlock(idx, order, idx + j);
          allFree := false;
          break;
        }
        j := j + 1;
      }
    }

    /** block_push: write the block into frame_array and put its first frame at the front of its list. */
    method BlockPush(idx: nat, order: nat, ghost lo: nat, ghost hi: nat, ghost lo': nat, ghost hi': nat)
      requires Linked(lo, hi) && order <= MAX_ORDER && Aligned(idx, order)
      requires Shrinks(lo, hi, idx, order, lo', hi')
      requires order < MAX_ORDER ==> !Head(frameArray[..], lo, hi, BuddyOf(idx, order), order)
      modifies this`lists, frameArray, nodes.prev, nodes.next
      ensures Linked(lo', hi')
      ensures frameArray[..] == Push(old(frameArray[..]), idx, order)
      ensures lists == old(lists)[order := [idx] + old(lists)[order]]
      ensures forall i: nat, k: nat :: Head(frameArray[..], lo', hi', i, k) <==>
                Head(old(frameArray[..]), lo, hi, i, k) || (i == idx && k == order)
    {
      ghost var fa, from := frameArray[..], lists;
      PushWF(fa, lo, hi, idx, order, lo', hi');
      MarkBlock(idx, order);
      LinkBlock(idx, order, fa);
      ListedAfterPush(fa, lo, hi, lo', hi', from, idx, order);
    }

    /** The marking half of block_push. */
    method MarkBlock(idx: nat, order: nat)
      requires Geometry() && idx + Pow2(order) <= total
      modifies frameArray
      ensures frameArray[..] == Push(old(frameArray[..]), idx, order)
    {
      frameArray[idx] := order;
      var count := Pow2(order);
      var i := 1;
      while i < count
        invariant 1 <= i <= count
        invariant forall f: nat :: f < total ==>
                    frameArray[f] == if f == idx then order else if idx < f < idx + i then FREE_PART
                      else old(frameArray[f])
      {
        frameArray[idx + i] := FREE_PART;
        i := i + 1;
      }
    }

    /** The list half of block_push; `fa` tells the lists apart. */
    method LinkBlock(idx: nat, order: nat, ghost fa: seq<int>)
      requires Geometry() && order <= MAX_ORDER && idx < total == |fa|
      requires Rings(nodes.View(), total, lists)
      requires forall k: nat, x: nat {:trigger x in lists[k]} :: k <= MAX_ORDER && x in lists[k] ==>
                 x < total && x != idx && fa[x] == k
      modifies this`lists, nodes.prev, nodes.next
      ensures lists == old(lists)[order := [idx] + old(lists)[order]]
      ensures Rings(nodes.View(), total, lists)
    {
      hide Ring, Apart;
      ghost var l := nodes.View();
      assert forall k: nat :: k <= MAX_ORDER ==> idx !in lists[k];
      nodes.InitListHead(idx);
      RingsFrame(l, nodes.View(), total, lists, idx);
      ghost var l1 := nodes.View();
      nodes.ListAdd(idx, total + order, lists[order]);
      RingsAdd(l1, nodes.View(), total, lists, fa, idx, order);
      lists := lists[order := [idx] + lists[order]];
    }

    /** block_pop: take the block out of its list. */
    method BlockPop(idx: nat, order: nat, ghost lo: nat, ghost hi: nat, ghost lo': nat, ghost hi': nat)
      requires Linked(lo, hi) && Head(frameArray[..], lo, hi, idx, order) && Grows(lo, hi, idx, order, lo', hi')
      modifies this`lists, nodes.prev, nodes.next
      ensures Linked(lo', hi')
      ensures forall k: nat :: k <= MAX_ORDER && k != order ==> lists[k] == old(lists)[k]
      ensures forall i: nat, k: nat :: Head(frameArray[..], lo', hi', i, k) <==>
                Head(frameArray[..], lo, hi, i, k) && i != idx
    {
      ghost var j := Position(frameArray[..], lo, hi, lists, idx, order);
      AbsorbHead(frameArray[..], lo, hi, idx, order, lo', hi');
      ListedAfterPop(frameArray[..], lo, hi, lo', hi', lists, nodes.View(), total, order, j);
      UnlinkBlock(idx, order, frameArray[..], j);
    }

    /** The list half of block_pop. */
    method UnlinkBlock(idx: nat, order: nat, ghost fa: seq<int>, ghost j: nat)
      requires Geometry() && order <= MAX_ORDER && |fa| == total
      requires Rings(nodes.View(), total, lists) && j < |lists[order]| && lists[order][j] == idx
      requires forall k: nat, x: nat {:trigger x in lists[k]} :: k <= MAX_ORDER && x in lists[k] ==>
                 x < total && fa[x] == k
      modifies this`lists, nodes.prev, nodes.next
      ensures lists == old(lists)[order := Without(old(lists)[order], j)]
      ensures Rings(nodes.View(), total, lists)
    {
      hide Ring, Apart;
      ghost var l := nodes.View();
      nodes.ListDel(idx, total + order, lists[order], j);
      RingsDel(l, nodes.View(), total, lists, fa, order, Without(lists[order], j));
      lists := lists[order := Without(lists[order], j)];
    }

    /** An address inside the managed range that buddy_alloc has handed out and that is still allocated. */
    ghost predicate Owns(ptr: nat)
      reads frameArray
    {
      ptr >= base && (ptr - base) % PAGE_SIZE == 0
        && (var f := (ptr - base) / PAGE_SIZE; exists k: nat :: LiveBlock(f, k))
    }

    /** buddy_alloc; `idx` and `order` name the block that is handed out. */
    method Alloc(size: nat) returns (ret: nat, ghost idx: nat, ghost order: nat)
      requires Valid()
      modifies Repr
      ensures Valid()
      ensures size > 0 ==> FitsOrder(PagesFor(size), order)
      ensures order > MAX_ORDER <==> size > 0x1000_0000
      ensures size > 0 ==> size <= Pow2(order) * PAGE_SIZE && (order > 0 ==> Pow2(order - 1) * PAGE_SIZE < size)
      ensures ret == NULL <==>
                size == 0 || order > MAX_ORDER || !exists i: nat :: FreeRun(old(frameArray[..]), i, order)
      ensures ret == NULL ==>
                frameArray[..] == old(frameArray[..]) && refCount[..] == old(refCount[..]) && lists == old(lists)
      ensures ret != NULL ==> ret == Addr(idx)
      ensures ret != NULL ==> Taken(old(frameArray[..]), frameArray[..], idx, order)
      ensures ret != NULL ==> SmallestAdequate(old(frameArray[..]), idx, order)
      ensures ret != NULL ==> refCount[..] == RefsSet(old(refCount[..]), idx, order)
    {
      hide WF, Rings, Listed, Referenced, Taken, SmallestAdequate, FreeRun;
      ret, idx, order := NULL, 0, 0;
      if size == 0 {
        return;
      }
      var pagesNeeded := (size + PAGE_SIZE - 1) / PAGE_SIZE;
      var targetOrder := PagesToOrder(pagesNeeded);
      LargestBlock(size, targetOrder);
      order := targetOrder;
      if targetOrder > MAX_ORDER {
        return;
      }
      var currentOrder := FindOrder(targetOrder);
      if currentOrder > MAX_ORDER {
        return;
      }
      ghost var fa := frameArray[..];
      var chosen := nodes.next[total + currentOrder];
      FirstMember(currentOrder);
      idx := chosen;
      TakeFrom(chosen, currentOrder, targetOrder);
      MarkAllocated(fa, chosen, targetOrder);
      ret := base + chosen * PAGE_SIZE;
    }

    lemma FirstMember(k: nat)
      requires Valid() && k <= MAX_ORDER && lists[k] != []
      ensures nodes.next[total + k] == lists[k][0]
    {
      assert Ring(nodes.View(), total + k, lists[k]);
    }

    /** buddy_alloc: the least order from the wanted one on whose list has a block. */
    method FindOrder(target: nat) returns (order: nat)
      requires Valid() && target <= MAX_ORDER
      ensures target <= order <= MAX_ORDER + 1
      ensures order > MAX_ORDER <==> !exists i: nat :: FreeRun(frameArray[..], i, target)
      ensures order <= MAX_ORDER ==> |lists[order]| > 0 && Head(frameArray[..], 0, 0, lists[order][0], order)
      ensures order <= MAX_ORDER ==> SmallestAdequate(frameArray[..], lists[order][0], target)
    {
      order := target;
      while order <= MAX_ORDER
        invariant target <= order <= MAX_ORDER + 1
        invariant forall k: nat :: target <= k < order ==> lists[k] == []
      {
        var empty := nodes.ListEmpty(total + order, lists[order]);
        if !empty {
          break;
        }
        order := order + 1;
      }
      ghost var fa := frameArray[..];
      NoBlockMeansNoRun(fa, target);
      forall i: nat, k: nat | target <= k < order
        ensures !Head(fa, 0, 0, i, k)
      {
        assert i !in lists[k];
      }
      if order <= MAX_ORDER {
        assert lists[order][0] in lists[order];
      }
    }

    /** buddy_alloc: a block comes off its list and is halved down to the wanted order; the right halves stay free. */
    method TakeFrom(idx: nat, from: nat, target: nat)
      requires Linked(0, 0) && target <= from && Head(frameArray[..], 0, 0, idx, from)
      modifies this`lists, frameArray, nodes.prev, nodes.next
      ensures Aligned(idx, target) && idx + Pow2(target) <= total && Linked(idx, idx + Pow2(target))
      ensures FreeRun(old(frameArray[..]), idx, target)
      ensures SameStatus(old(frameArray[..]), frameArray[..])
    {
      hide Listed, Rings, WF, SameStatus, FreeRun;
      ghost var fa := frameArray[..];
      var cur := from;
      SameStatusRefl(fa);
      HeadIsRun(fa, idx, from);
      BlockPop(idx, from, 0, 0, idx, idx + Pow2(from));
      while cur > target
        invariant target <= cur <= from && FreeRun(fa, idx, cur)
        invariant Linked(idx, idx + Pow2(cur))
        invariant SameStatus(fa, frameArray[..])
      {
        cur := cur - 1;
        ghost var fb := frameArray[..];
        SameStatusRun(fa, fb, idx, cur + 1);
        ReleaseUpperHalf(idx, cur);
        UpperHalf(fa, idx, cur);
        SameStatusTransitive(fa, fb, frameArray[..]);
      }
      RunFits(fa, idx, target);
    }

    /** One round of buddy_alloc's splitting loop. */
    method ReleaseUpperHalf(idx: nat, cur: nat)
      requires cur < MAX_ORDER && FreeRun(frameArray[..], idx, cur + 1) && Linked(idx, idx + Pow2(cur + 1))
      modifies this`lists, frameArray, nodes.prev, nodes.next
      ensures Linked(idx, idx + Pow2(cur))
      ensures SameStatus(old(frameArray[..]), frameArray[..])
    {
      hide WF, Rings, Listed, SameStatus, FreeRun;
      var buddyIdx := idx + Pow2(cur);
      UpperHalf(frameArray[..], idx, cur);
      RunFits(frameArray[..], idx, cur + 1);
      PushFree(frameArray[..], buddyIdx, cur);
      BlockPush(buddyIdx, cur, idx, idx + Pow2(cur + 1), idx, buddyIdx);
    }

    /** buddy_alloc: the tag and the count of every frame of the block. */
    method MarkAllocated(ghost fa: seq<int>, idx: nat, order: nat)
      requires Linked(idx, idx + Pow2(order)) && order <= MAX_ORDER
      requires WF(fa, 0, 0) && FreeRun(fa, idx, order) && SameStatus(fa, frameArray[..])
      requires Referenced(fa, refCount[..])
      modifies frameArray, refCount
      ensures Valid() && Taken(fa, frameArray[..], idx, order)
      ensures refCount[..] == RefsSet(old(refCount[..]), idx, order)
    {
      ghost var fb, refs := frameArray[..], refCount[..];
      FillWF(fb, idx, order);
      var i := 0;
      while i < Pow2(order)
        modifies frameArray, refCount
        invariant i <= Pow2(order)
        invariant frameArray[..] == seq(total, f requires 0 <= f < total => if idx <= f < idx + i then Tag(idx, order)
                  else fb[f])
        invariant refCount[..] == seq(total, f requires 0 <= f < total => if idx <= f < idx + i then 1 else refs[f])
      {
        frameArray[idx + i] := Tag(idx, order);
        refCount[idx + i] := 1;
        i := i + 1;
      }
      assert frameArray[..] == Fill(fb, idx, order);
      assert refCount[..] == RefsSet(refs, idx, order);
      forall h: nat, k: nat | LiveIn(frameArray[..], 0, 0, h, k, h)
        ensures refCount[h] >= 1
      {
        TakenLive(fa, frameArray[..], idx, order, h, k, h);
      }
    }

    /** buddy_free. */
    method Free(ptr: nat)
      requires Valid()
      requires base <= ptr < limit ==> Owns(ptr)
      modifies Repr
      ensures Valid()
      ensures !(base <= ptr < limit) ==> frameArray[..] == old(frameArray[..]) && refCount[..] == old(refCount[..])
      ensures base <= ptr < limit ==>
                var idx := (ptr - base) / PAGE_SIZE;
                && idx < total
                && refCount[..] == old(refCount[..])[idx := old(refCount[idx]) - 1]
                && (old(refCount[idx]) > 1 ==> frameArray[..] == old(frameArray[..]))
                && (old(refCount[idx]) == 1 ==>
                     Released(old(frameArray[..]), frameArray[..], idx, TagOrder(old(frameArray[idx]))))
    {
      if ptr == NULL || ptr < base || ptr >= limit {
        return;
      }
      var idx := (ptr - base) / PAGE_SIZE;
      ghost var live: nat :| LiveBlock(idx, live);
      TagRoundTrip(idx, live);
      assert LiveBlock(idx, live) && refCount[idx] >= 1;
      refCount[idx] := refCount[idx] - 1;
      if refCount[idx] > 0 {
        return;
      }
      var order := TagOrder(frameArray[idx]);
      ReleaseBlock(idx, order);
    }

    /** buddy_free, once no reference is left. */
    method ReleaseBlock(idx: nat, order: nat)
      requires Linked(0, 0) && LiveBlock(idx, order)
      requires ReferencedBut(frameArray[..], refCount[..], idx)
      modifies this`lists, frameArray, nodes.prev, nodes.next
      ensures Valid() && Released(old(frameArray[..]), frameArray[..], idx, order)
    {
      hide WF, Rings, Listed, LiveIn, Released;
      ghost var fa := frameArray[..];
      BlockFits(fa, idx, order);
      MarkFree(idx, order);
      ghost var fm := frameArray[..];
      var curIdx, curOrder := Coalesce(idx, order);
      PushFree(fm, curIdx, curOrder);
      InsertMerged(curIdx, curOrder);
      assert Released(fa, frameArray[..], idx, order) by {
        ReleasedBy(fa, fm, frameArray[..], idx, order);
      }
      ReferencedAfterRelease(fa, frameArray[..], refCount[..], idx, order);
    }

    /** buddy_free: the block that merging has led to becomes a free block. */
    method InsertMerged(idx: nat, order: nat)
      requires order <= MAX_ORDER && Aligned(idx, order) && idx + Pow2(order) <= total
      requires Linked(idx, idx + Pow2(order))
      requires order < MAX_ORDER ==> !Head(frameArray[..], idx, idx + Pow2(order), BuddyOf(idx, order), order)
      modifies this`lists, frameArray, nodes.prev, nodes.next
      ensures Linked(0, 0) && frameArray[..] == Push(old(frameArray[..]), idx, order)
    {
      hide WF, Ring, Listed;
      var to := idx + Pow2(order);
      BlockPush(idx, order, idx, to, to, to);
      CloseHole(frameArray[..], to);
      ListedOtherHole(frameArray[..], to, to, 0, 0, lists);
    }

    /** buddy_free: the frames of the block lose their tags. */
    method MarkFree(idx: nat, order: nat)
      requires Linked(0, 0) && LiveBlock(idx, order)
      modifies frameArray
      ensures Linked(idx, idx + Pow2(order)) && Aligned(idx, order) && idx + Pow2(order) <= total
      ensures forall f: nat :: f < total ==>
                frameArray[f] == if InBlock(idx, order, f) then FREE_PART else old(frameArray[f])
    {
      ghost var fa := frameArray[..];
      AbsorbLive(fa, idx, order);
      var j := 0;
      while j < Pow2(order)
        invariant j <= Pow2(order)
        invariant forall f: nat :: f < total ==> frameArray[f] == if idx <= f < idx + j then FREE_PART else fa[f]
      {
        frameArray[idx + j] := FREE_PART;
        j := j + 1;
      }
      HoleIrrelevant(fa, frameArray[..], idx, idx + Pow2(order));
    }

    /** buddy_free: as long as the other half of the next larger block is free, take it in. */
    method Coalesce(idx: nat, order: nat) returns (curIdx: nat, curOrder: nat)
      requires order <= MAX_ORDER && FreeRun(frameArray[..], idx, order)
      requires Linked(idx, idx + Pow2(order))
      modifies this`lists, nodes.prev, nodes.next
      ensures curOrder <= MAX_ORDER && FreeRun(frameArray[..], curIdx, curOrder)
      ensures Linked(curIdx, curIdx + Pow2(curOrder))
      ensures curOrder < MAX_ORDER ==>
                !Head(frameArray[..], curIdx, curIdx + Pow2(curOrder), BuddyOf(curIdx, curOrder), curOrder)
    {
      hide WF, Rings, Listed, FreeRun;
      curIdx, curOrder := idx, order;
      while curOrder < MAX_ORDER
        invariant curOrder <= MAX_ORDER && FreeRun(frameArray[..], curIdx, curOrder)
        invariant Linked(curIdx, curIdx + Pow2(curOrder))
      {
        var buddyIdx := Xor(curIdx, Pow2(curOrder));
        if buddyIdx >= total {
          break;
        }
        if frameArray[buddyIdx] != curOrder {
          break;
        }
        curIdx := TakeBuddy(curIdx, curOrder, buddyIdx);
        curOrder := curOrder + 1;
      }
    }

    /** buddy_free: the other half leaves its list, and the lower of the two begins the larger block. */
    method TakeBuddy(idx: nat, order: nat, buddyIdx: nat) returns (merged: nat)
      requires order < MAX_ORDER && FreeRun(frameArray[..], idx, order) && Linked(idx, idx + Pow2(order))
      requires buddyIdx == BuddyOf(idx, order) && buddyIdx < total && frameArray[buddyIdx] == order
      modifies this`lists, nodes.prev, nodes.next
      ensures Linked(merged, merged + Pow2(order + 1))
      ensures FreeRun(frameArray[..], merged, order + 1)
    {
      MergeWithBuddy(frameArray[..], idx, order);
      BlockPop(buddyIdx, order, idx, idx + Pow2(order), Parent(idx, order), Parent(idx, order) + Pow2(order + 1));
      merged := if buddyIdx < idx then buddyIdx else idx;
    }

    /** get_page_ref. */
    method GetPageRef(ptr: nat)
      requires Valid()
      requires base <= ptr < limit ==> ptr < Addr(total)
      modifies refCount
      ensures Valid()
      ensures base <= ptr < limit ==>
                var idx := (ptr - base) / PAGE_SIZE;
                idx < total && refCount[..] == old(refCount[..])[idx := old(refCount[idx]) + 1]
      ensures !(base <= ptr < limit) ==> refCount[..] == old(refCount[..])
    {
      if ptr != NULL && ptr >= base && ptr < limit {
        var idx := (ptr - base) / PAGE_SIZE;
        refCount[idx] := refCount[idx] + 1;
      }
    }

    /** get_page_ref_count. */
    method GetPageRefCount(ptr: nat) returns (ret: int)
      requires Valid()
      requires base <= ptr < limit ==> ptr < Addr(total)
      ensures ret == if base <= ptr < limit then refCount[(ptr - base) / PAGE_SIZE] else 0
    {
      ret := 0;
      if ptr != NULL && ptr >= base && ptr < limit {
        var idx := (ptr - base) / PAGE_SIZE;
        ret := refCount[idx];
      }
    }
  }

  /** The block that is handed out starts a free block of the smallest adequate order that had one. */
  ghost predicate SmallestAdequate(fa: seq<int>, idx: nat, order: nat) {
    exists m: nat :: order <= m && Head(fa, 0, 0, idx, m) && forall i: nat, k: nat :: order <= k < m ==>
        !Head(fa, 0, 0, i, k)
  }

  ghost function RefsSet(refs: seq<int>, idx: nat, order: nat): seq<int> {
    seq(|refs|, f requires 0 <= f < |refs| => if InBlock(idx, order, f) then 1 else refs[f])
  }

  /** One ring per order. */
  ghost predicate Rings(l: Links, total: nat, lists: seq<seq<nat>>) {
    && |lists| == MAX_ORDER + 1
    && (forall k: nat :: k <= MAX_ORDER ==> Ring(l, total + k, lists[k]))
  }

  lemma ListsApart(lists: seq<seq<nat>>, total: nat, fa: seq<int>, order: nat, k: nat)
    requires |lists| == MAX_ORDER + 1 && order <= MAX_ORDER && k <= MAX_ORDER && k != order && total == |fa|
    requires forall m: nat, x: nat {:trigger x in lists[m]} :: m <= MAX_ORDER && x in lists[m] ==>
               x < total && fa[x] == m
    ensures Apart(total + k, lists[k], [total + order] + lists[order])
  {
  }

  lemma RingsAdd(l: Links, l': Links, total: nat, lists: seq<seq<nat>>, fa: seq<int>, idx: nat, order: nat)
    requires Rings(l, total, lists) && order <= MAX_ORDER && idx < total == |fa|
    requires forall m: nat, x: nat {:trigger x in lists[m]} :: m <= MAX_ORDER && x in lists[m] ==>
               x < total && x != idx && fa[x] == m
    requires Ring(l', total + order, [idx] + lists[order])
    requires forall h, t :: Ring(l, h, t) && Apart(h, t, [idx, total + order] + lists[order]) ==> Ring(l', h, t)
    ensures Rings(l', total, lists[order := [idx] + lists[order]])
  {
    forall k: nat | k <= MAX_ORDER && k != order
      ensures Ring(l', total + k, lists[k])
    {
      ListsApart(lists, total, fa, order, k);
      assert Apart(total + k, lists[k], [idx, total + order] + lists[order]);
    }
  }

  lemma RingsDel(l: Links, l': Links, total: nat, lists: seq<seq<nat>>, fa: seq<int>, order: nat, t: seq<nat>)
    requires Rings(l, total, lists) && order <= MAX_ORDER && total == |fa|
    requires forall m: nat, x: nat {:trigger x in lists[m]} :: m <= MAX_ORDER && x in lists[m] ==>
               x < total && fa[x] == m
    requires Ring(l', total + order, t)
    requires forall h, t :: Ring(l, h, t) && Apart(h, t, [total + order] + lists[order]) ==> Ring(l', h, t)
    ensures Rings(l', total, lists[order := t])
  {
  }

  ghost function Position(fa: seq<int>, lo: nat, hi: nat, lists: seq<seq<nat>>, idx: nat, order: nat): (j: nat)
    requires |lists| == MAX_ORDER + 1 && Listed(fa, lo, hi, lists) && order <= MAX_ORDER && Head(fa, lo, hi, idx, order)
    ensures j < |lists[order]| && lists[order][j] == idx
  {
    assert idx in lists[order];
    var j: nat :| j < |lists[order]| && lists[order][j] == idx;
    j
  }

  lemma ListedAfterPop(fa: seq<int>, lo: nat, hi: nat, lo': nat, hi': nat, lists: seq<seq<nat>>, l: Links, total: nat,
                       order: nat, j: nat)
    requires Rings(l, total, lists) && Listed(fa, lo, hi, lists) && order <= MAX_ORDER && j < |lists[order]|
    requires forall i: nat, k: nat :: Head(fa, lo', hi', i, k) <==> Head(fa, lo, hi, i, k) && i != lists[order][j]
    ensures Listed(fa, lo', hi', lists[order := Without(lists[order], j)])
  {
    var s := lists[order];
    assert Ring(l, total + order, s);
    forall x: nat
      ensures x in Without(s, j) <==> x in s && x != s[j]
    {
      if x in s && x != s[j] {
        var i :| 0 <= i < |s| && s[i] == x;
        assert Without(s, j)[if i < j then i else i - 1] == x;
      }
      if x in Without(s, j) {
        var i :| 0 <= i < |s| - 1 && Without(s, j)[i] == x;
        assert s[if i < j then i else i + 1] == x;
      }
    }
    assert s[j] in s && Head(fa, lo, hi, s[j], order);
  }

  /** Rewriting a node that is on no list keeps all lists. */
  lemma RingsFrame(l: Links, l': Links, total: nat, lists: seq<seq<nat>>, idx: nat)
    requires Rings(l, total, lists) && idx < total && (forall k: nat :: k <= MAX_ORDER ==> idx !in lists[k])
    requires |l'.next| == |l.next| && |l'.prev| == |l.prev|
    requires forall x :: 0 <= x < |l.next| && x != idx ==> l'.next[x] == l.next[x]
    requires forall x :: 0 <= x < |l.prev| && x != idx ==> l'.prev[x] == l.prev[x]
    ensures Rings(l', total, lists)
  {
  }

  /** The lists hold exactly the block heads of their order. */
  ghost predicate Listed(fa: seq<int>, lo: nat, hi: nat, lists: seq<seq<nat>>)
    requires |lists| == MAX_ORDER + 1
  {
    forall k: nat, i: nat :: k <= MAX_ORDER ==> (i in lists[k] <==> Head(fa, lo, hi, i, k))
  }

  lemma ListedOtherHole(fa: seq<int>, lo: nat, hi: nat, lo': nat, hi': nat, lists: seq<seq<nat>>)
    requires |lists| == MAX_ORDER + 1 && Listed(fa, lo, hi, lists)
    requires forall i: nat, k: nat :: Head(fa, lo', hi', i, k) <==> Head(fa, lo, hi, i, k)
    ensures Listed(fa, lo', hi', lists)
  {
    hide Head;
  }

  lemma ListedAfterPush(fa: seq<int>, lo: nat, hi: nat, lo': nat, hi': nat, lists: seq<seq<nat>>, idx: nat, order: nat)
    requires |lists| == MAX_ORDER + 1 && Listed(fa, lo, hi, lists) && order <= MAX_ORDER && idx + Pow2(order) <= |fa|
    requires forall i: nat, k: nat :: Head(Push(fa, idx, order), lo', hi', i, k) <==>
               Head(fa, lo, hi, i, k) || (i == idx && k == order)
    ensures Listed(Push(fa, idx, order), lo', hi', lists[order := [idx] + lists[order]])
  {
  }

  /** The flagging loop's index arithmetic selects the frames the region touches. */
  lemma TouchedFrames(base: nat, r: Region, f: nat)
    ensures Touches(r, base + f * PAGE_SIZE) <==>
              && (if r.start > base then (r.start - base) / PAGE_SIZE else 0) <= f
              && f < (if r.end > base then (r.end - base + PAGE_SIZE - 1) / PAGE_SIZE else 0)
  {
  }

  lemma ReservedOneMore(regions: seq<Region>, i: nat, page: nat)
    requires i < |regions|
    ensures Reserved(regions[..i + 1], page) <==> Reserved(regions[..i], page) || Touches(regions[i], page)
  {
  }

  /** A frame that is allocated on its own may leave the unprocessed part. */
  lemma SkipLive(fa: seq<int>, idx: nat)
    requires idx < |fa| && WF(fa, idx, |fa|) && fa[idx] == Tag(idx, 0)
    ensures WF(fa, idx + 1, |fa|)
    ensures forall i: nat, k: nat :: Head(fa, idx + 1, |fa|, i, k) <==> Head(fa, idx, |fa|, i, k)
  {
    var lo, hi := idx + 1, |fa|;
    forall i: nat, k: nat | Head(fa, lo, hi, i, k)
      ensures Head(fa, idx, hi, i, k) && WholeBlock(fa, lo, hi, i, k)
    {
      assert Head(fa, idx, hi, i, k);
      assert WholeBlock(fa, idx, hi, i, k);
    }
    assert LiveIn(fa, lo, hi, idx, 0, idx);
    forall f | 0 <= f < |fa| && !(lo <= f < hi)
      ensures FrameOk(fa, lo, hi, f)
    {
      if f < idx {
        FrameOkKept(fa, idx, hi, fa, lo, hi, f);
      }
    }
  }

  lemma UpperHalf(fa: seq<int>, idx: nat, k: nat)
    requires FreeRun(fa, idx, k + 1)
    ensures Aligned(idx, k) && Aligned(idx + Pow2(k), k)
    ensures BuddyOf(idx + Pow2(k), k) == idx
    ensures FreeRun(fa, idx, k) && FreeRun(fa, idx + Pow2(k), k)
  {
    AlignedWeaken(idx, k, k + 1);
    XorIsOtherHalf(idx, k);
    BuddyIsInvolution(idx, k);
    assert forall f: nat :: InBlock(idx, k, f) ==> InBlock(idx, k + 1, f);
    var up := idx + Pow2(k);
    assert forall f: nat :: InBlock(up, k, f) ==> InBlock(idx, k + 1, f);
  }

  /** A free run and its free buddy make up the enclosing run. */
  lemma MergeWithBuddy(fa: seq<int>, idx: nat, k: nat)
    requires FreeRun(fa, idx, k) && k < MAX_ORDER && WF(fa, idx, idx + Pow2(k))
    requires BuddyOf(idx, k) < |fa| && fa[BuddyOf(idx, k)] == k
    ensures Head(fa, idx, idx + Pow2(k), BuddyOf(idx, k), k)
    ensures FreeRun(fa, Parent(idx, k), k + 1)
    ensures Parent(idx, k) == if BuddyOf(idx, k) < idx then BuddyOf(idx, k) else idx
    ensures Grows(idx, idx + Pow2(k), BuddyOf(idx, k), k, Parent(idx, k), Parent(idx, k) + Pow2(k + 1))
  {
    XorIsOtherHalf(idx, k);
    var b := BuddyOf(idx, k);
    assert WholeBlock(fa, idx, idx + Pow2(k), b, k);
    forall f: nat | InBlock(Parent(idx, k), k + 1, f)
      ensures IsFree(fa, f)
    {
      assert InBlock(idx, k, f) || InBlock(b, k, f);
    }
  }

  ghost predicate ReferencedBut(fa: seq<int>, refs: seq<int>, idx: nat) {
    |refs| == |fa| && forall h: nat, k: nat :: LiveIn(fa, 0, 0, h, k, h) && h != idx ==> refs[h] >= 1
  }

  lemma ReferencedAfterRelease(fa: seq<int>, fb: seq<int>, refs: seq<int>, idx: nat, order: nat)
    requires |fa| <= MAX_PAGES && Released(fa, fb, idx, order) && ReferencedBut(fa, refs, idx)
    ensures Referenced(fb, refs)
  {
    forall h: nat, k: nat | LiveIn(fb, 0, 0, h, k, h)
      ensures refs[h] >= 1
    {
      ReleasedLive(fa, fb, idx, order, h, k, h);
      assert InBlock(idx, order, idx) && !IsFree(fb, h);
    }
  }

  lemma BlockFits(fa: seq<int>, idx: nat, order: nat)
    requires LiveIn(fa, 0, 0, idx, order, idx)
    ensures order <= MAX_ORDER && Aligned(idx, order) && idx + Pow2(order) <= |fa|
  {
  }

  lemma ReleasedBy(fa: seq<int>, fm: seq<int>, fb: seq<int>, idx: nat, order: nat)
    requires LiveIn(fa, 0, 0, idx, order, idx) && |fm| == |fa| && SameStatus(fm, fb)
    requires forall f: nat :: f < |fa| ==> fm[f] == if InBlock(idx, order, f) then FREE_PART else fa[f]
    ensures Released(fa, fb, idx, order)
  {
  }

  /** The same frames are free, and the allocated ones carry the same tags. */
  ghost predicate SameStatus(fa: seq<int>, fb: seq<int>) {
    SameFree(fa, fb) && forall f: nat :: f < |fa| && !IsFree(fa, f) ==> fb[f] == fa[f]
  }

  lemma SameStatusRefl(fa: seq<int>)
    ensures SameStatus(fa, fa)
  {
  }

  lemma RunFits(fa: seq<int>, i: nat, k: nat)
    requires FreeRun(fa, i, k)
    ensures Aligned(i, k) && i + Pow2(k) <= |fa|
  {
  }

  lemma SameStatusRun(fa: seq<int>, fb: seq<int>, i: nat, k: nat)
    requires SameStatus(fa, fb) && FreeRun(fa, i, k)
    ensures FreeRun(fb, i, k)
  {
  }

  lemma SameStatusTransitive(fa: seq<int>, fb: seq<int>, fc: seq<int>)
    requires SameStatus(fa, fb) && SameStatus(fb, fc)
    ensures SameStatus(fa, fc)
  {
  }

  /** Writing a free block over free frames changes the status of no frame. */
  lemma PushFree(fa: seq<int>, idx: nat, order: nat)
    requires FreeRun(fa, idx, order) && order <= MAX_ORDER
    ensures SameStatus(fa, Push(fa, idx, order)) && FreeRun(Push(fa, idx, order), idx, order)
  {
  }

  /** Every block so far is the largest that could start where it starts. */
  ghost predicate Largest(fa: seq<int>, idx: nat) {
    forall i: nat, k: nat :: Head(fa, idx, |fa|, i, k) && k < MAX_ORDER ==> !FreeRun(fa, i, k + 1)
  }

  lemma PushLargest(fa: seq<int>, idx: nat, order: nat, to: nat)
    requires WF(fa, idx, |fa|) && Largest(fa, idx)
    requires order <= MAX_ORDER && Aligned(idx, order) && to == idx + Pow2(order) <= |fa|
    requires forall f :: idx <= f < to ==> fa[f] == FREE_PART
    requires order < MAX_ORDER ==> !FreeRun(fa, idx, order + 1)
    ensures Largest(Push(fa, idx, order), to)
  {
    var fb := Push(fa, idx, order);
    PushSameFree(fa, idx, order);
    PushHeads(fa, idx, |fa|, idx, order, to, |fa|);
    forall i: nat, k: nat | Head(fb, to, |fa|, i, k) && k < MAX_ORDER
      ensures !FreeRun(fb, i, k + 1)
    {
      SameFreeSameRun(fa, fb, i, k + 1);
    }
  }

  lemma PushSameFree(fa: seq<int>, idx: nat, order: nat)
    requires order <= MAX_ORDER && idx + Pow2(order) <= |fa|
    requires forall f :: idx <= f < idx + Pow2(order) ==> fa[f] == FREE_PART
    ensures SameFree(fa, Push(fa, idx, order))
  {
  }

  /** Taking the largest block at each step leaves no free buddy to the left. */
  lemma GreedyHasNoBuddy(fa: seq<int>, idx: nat, order: nat)
    requires order <= MAX_ORDER && Aligned(idx, order) && idx + Pow2(order) <= |fa|
    requires forall i: nat, k: nat :: Head(fa, idx, |fa|, i, k) ==> WholeBlock(fa, idx, |fa|, i, k)
    requires forall f :: idx <= f < idx + Pow2(order) ==> fa[f] == FREE_PART
    requires Largest(fa, idx)
    ensures order < MAX_ORDER ==> !Head(fa, idx, |fa|, BuddyOf(idx, order), order)
  {
    hide Xor, Aligned, FreeRun;
    XorIsOtherHalf(idx, order);
    var b := BuddyOf(idx, order);
    if Head(fa, idx, |fa|, b, order) {
      assert WholeBlock(fa, idx, |fa|, b, order);
      TwoHalves(order);
      HalvesAreRun(fa, b, order);
    }
  }

  lemma TwoHalves(k: nat)
    ensures Pow2(k + 1) == 2 * Pow2(k)
  {
  }

  lemma HalvesAreRun(fa: seq<int>, b: nat, k: nat)
    requires Aligned(b, k + 1) && b + Pow2(k + 1) <= |fa| && IsFree(fa, b)
    requires forall f :: b < f < b + Pow2(k) ==> fa[f] == FREE_PART
    requires forall f :: b + Pow2(k) <= f < b + Pow2(k + 1) ==> fa[f] == FREE_PART
    ensures FreeRun(fa, b, k + 1)
  {
  }
}
