/**
 The circular doubly linked list of list.h. A `list_head` is a slot of a node space; the embedded
 `prev` and `next` pointers are slot numbers.
 */
module ListH {
  import opened Basics

  datatype Links = Links(prev: seq<nat>, next: seq<nat>)

  /** Starting at `head` and following `next` visits exactly `s` and returns to `head`; `prev` walks it backwards. */
  ghost predicate Ring(l: Links, head: nat, s: seq<nat>) {
    && head < |l.prev| == |l.next|
    && head !in s
    && (forall i :: 0 <= i < |s| ==> s[i] < |l.next|)
    && (forall i, j :: 0 <= i < j < |s| ==> s[i] != s[j])
    && l.next[head] == (if s == [] then head else s[0])
    && l.prev[head] == (if s == [] then head else s[|s| - 1])
    && (forall i {:trigger l.next[s[i]]} :: 0 <= i < |s| ==> l.next[s[i]] == if i + 1 < |s| then s[i + 1] else head)
    && (forall i {:trigger l.prev[s[i]]} :: 0 <= i < |s| ==> l.prev[s[i]] == if 0 < i then s[i - 1] else head)
  }

  /** No node of the ring at `h` belongs to `nodes`. */
  ghost predicate Apart(h: nat, t: seq<nat>, nodes: seq<nat>) {
    h !in nodes && forall x :: x in t ==> x !in nodes
  }

  lemma RingFrame(l: Links, l': Links, h: nat, t: seq<nat>)
    requires Ring(l, h, t) && |l'.next| == |l.next| && |l'.prev| == |l.prev|
    requires l'.next[h] == l.next[h] && l'.prev[h] == l.prev[h]
    requires forall x :: x in t ==> l'.next[x] == l.next[x] && l'.prev[x] == l.prev[x]
    ensures Ring(l', h, t)
  {
  }

  /** The links of a ring after the neighbours of s[j] have been joined. */
  ghost predicate Joined(l: Links, l': Links, head: nat, s: seq<nat>, j: nat)
    requires Ring(l, head, s) && j < |s|
  {
    var before := if j > 0 then s[j - 1] else head;
    var after := if j + 1 < |s| then s[j + 1] else head;
    && |l'.next| == |l.next| && |l'.prev| == |l.prev|
    && (forall x :: 0 <= x < |l.next| && x != s[j] ==> l'.next[x] == if x == before then after else l.next[x])
    && (forall x :: 0 <= x < |l.next| && x != s[j] ==> l'.prev[x] == if x == after then before else l.prev[x])
  }

  /** The i-th member of a ring of members s, where -1 and |s| stand for the list head. */
  ghost function Member(head: nat, s: seq<nat>, i: int): nat {
    if 0 <= i < |s| then s[i] else head
  }

  lemma JoinedNext(l: Links, l': Links, head: nat, s: seq<nat>, j: nat, o: nat)
    requires Ring(l, head, s) && j < |s| && Joined(l, l', head, s, j) && o < |s| && o != j
    ensures l'.next[s[o]] == Member(head, s, if o + 1 == j then o + 2 else o + 1)
    ensures l'.prev[s[o]] == Member(head, s, if o - 1 == j then o - 2 else o - 1)
  {
  }

  lemma JoinedHead(l: Links, l': Links, head: nat, s: seq<nat>, j: nat)
    requires Ring(l, head, s) && j < |s| && Joined(l, l', head, s, j)
    ensures |l'.next| == |l.next| == |l'.prev| && head < |l.next|
    ensures l'.next[head] == if j == 0 then Member(head, s, 1) else s[0]
    ensures l'.prev[head] == if j == |s| - 1 then Member(head, s, |s| - 2) else s[|s| - 1]
  {
    assert s[j] in s && (j > 0 ==> s[j - 1] in s) && (j + 1 < |s| ==> s[j + 1] in s);
  }

  lemma EndsWithout(head: nat, s: seq<nat>, j: nat, t: seq<nat>)
    requires j < |s| && |t| == |s| - 1 && forall i :: 0 <= i < |t| ==> t[i] == s[if i < j then i else i + 1]
    ensures Member(head, t, 0) == if j == 0 then Member(head, s, 1) else s[0]
    ensures Member(head, t, |t| - 1) == if j == |s| - 1 then Member(head, s, |s| - 2) else s[|s| - 1]
  {
  }

  lemma MemberWithout(head: nat, s: seq<nat>, j: nat, t: seq<nat>, i: nat)
    requires j < |s| && |t| == |s| - 1 && forall i :: 0 <= i < |t| ==> t[i] == s[if i < j then i else i + 1]
    requires i < |t|
    ensures var o := if i < j then i else i + 1;
            && o < |s| && o != j && t[i] == s[o]
            && Member(head, s, if o + 1 == j then o + 2 else o + 1) == Member(head, t, i + 1)
            && Member(head, s, if o - 1 == j then o - 2 else o - 1) == Member(head, t, i - 1)
  {
  }

  lemma DistinctWithout(l: Links, head: nat, s: seq<nat>, j: nat, t: seq<nat>)
    requires Ring(l, head, s) && j < |s|
    requires |t| == |s| - 1 && forall i :: 0 <= i < |t| ==> t[i] == s[if i < j then i else i + 1]
    ensures head < |l.next| == |l.prev| && head !in t
    ensures forall i :: 0 <= i < |t| ==> t[i] < |l.next|
    ensures forall i, k :: 0 <= i < k < |t| ==> t[i] != t[k]
  {
  }

  /** A ring, in terms of its members. */
  lemma RingByMembers(l: Links, head: nat, t: seq<nat>)
    requires head < |l.next| == |l.prev| && head !in t && forall i :: 0 <= i < |t| ==> t[i] < |l.next|
    requires forall i, k :: 0 <= i < k < |t| ==> t[i] != t[k]
    requires l.next[head] == Member(head, t, 0) && l.prev[head] == Member(head, t, |t| - 1)
    requires forall i: nat :: i < |t| ==>
               l.next[t[i]] == Member(head, t, i + 1) && l.prev[t[i]] == Member(head, t, i - 1)
    ensures Ring(l, head, t)
  {
  }

  /** Joining the neighbours of s[j] leaves the ring without it. */
  lemma RingWithout(l: Links, l': Links, head: nat, s: seq<nat>, j: nat, t: seq<nat>)
    requires Ring(l, head, s) && j < |s| && Joined(l, l', head, s, j)
    requires |t| == |s| - 1 && forall i :: 0 <= i < |t| ==> t[i] == s[if i < j then i else i + 1]
    ensures Ring(l', head, t)
  {
    hide Ring, Joined, Member;
    JoinedHead(l, l', head, s, j);
    EndsWithout(head, s, j, t);
    DistinctWithout(l, head, s, j, t);
    forall i: nat | i < |t|
      ensures l'.next[t[i]] == Member(head, t, i + 1) && l'.prev[t[i]] == Member(head, t, i - 1)
    {
      MemberWithout(head, s, j, t, i);
      JoinedNext(l, l', head, s, j, if i < j then i else i + 1);
    }
    RingByMembers(l', head, t);
  }

  /** Linking `node` between the head and its successor makes it the first member. */
  lemma AddedFirst(l: Links, l': Links, head: nat, s: seq<nat>, node: nat, t: seq<nat>)
    requires Ring(l, head, s) && node < |l.next| && node != head && node !in s
    requires l'.prev == l.prev[l.next[head] := node][node := head]
    requires l'.next == l.next[node := l.next[head]][head := node]
    requires |t| == |s| + 1 && t[0] == node && forall i :: 0 < i < |t| ==> t[i] == s[i - 1]
    ensures Ring(l', head, t)
    ensures l.next[head] == head || l.next[head] in s
  {
  }

  lemma Neighbours(l: Links, head: nat, s: seq<nat>, j: nat)
    requires Ring(l, head, s) && j < |s|
    ensures s[j] < |l.prev| == |l.next|
    ensures l.prev[s[j]] == (if j > 0 then s[j - 1] else head) && l.next[s[j]] == if j + 1 < |s| then s[j + 1] else head
    ensures head < |l.next| && forall i :: 0 <= i < |s| ==> s[i] < |l.next|
  {
  }

  lemma AloneIsRing(l: Links, node: nat)
    requires node < |l.next| == |l.prev| && l.next[node] == node && l.prev[node] == node
    ensures Ring(l, node, [])
  {
  }

  /** Rings that avoid the rewritten nodes are untouched. */
  lemma RingsElsewhere(l: Links, l': Links, nodes: seq<nat>)
    requires |l'.next| == |l.next| && |l'.prev| == |l.prev|
    requires forall x :: 0 <= x < |l.next| && x !in nodes ==> l'.next[x] == l.next[x]
    requires forall x :: 0 <= x < |l.prev| && x !in nodes ==> l'.prev[x] == l.prev[x]
    ensures forall h, t :: Ring(l, h, t) && Apart(h, t, nodes) ==> Ring(l', h, t)
  {
  }

  class NodeSpace {
    const prev: array<nat>
    const next: array<nat>

    ghost predicate Valid() {
      prev != next && prev.Length == next.Length
    }

    ghost function View(): Links
      reads prev, next
    {
      Links(prev[..], next[..])
    }

    constructor (size: nat)
      ensures Valid() && fresh(prev) && fresh(next) && next.Length == size
    {
      prev := new nat[size](_ => 0);
      next := new nat[size](_ => 0);
    }

    /** INIT_LIST_HEAD: the node becomes an empty ring; no other node is touched. */
    method InitListHead(head: nat)
      requires Valid() && head < next.Length
      modifies prev, next
      ensures Ring(View(), head, [])
      ensures forall x :: 0 <= x < next.Length && x != head ==> next[x] == old(next[x]) && prev[x] == old(prev[x])
    {
      next[head] := head;
      prev[head] := head;
    }

    /** list_add: `node` becomes the first member of the ring at `head`. */
    method ListAdd(node: nat, head: nat, ghost s: seq<nat>)
      requires Valid() && Ring(View(), head, s)
      requires node < next.Length && node != head && node !in s
      modifies prev, next
      ensures Ring(View(), head, [node] + s)
      ensures forall h, t :: Ring(old(View()), h, t) && Apart(h, t, [node, head] + s) ==> Ring(View(), h, t)
    {
      ghost var l := View();
      var after := next[head];
      prev[after] := node;
      next[node] := after;
      prev[node] := head;
      next[head] := node;
      AddedFirst(l, View(), head, s, node, [node] + s);
      RingsElsewhere(l, View(), [node, head] + s);
    }

    /** list_del: `node` leaves whatever ring it is in and becomes an empty ring of its own. */
    method ListDel(node: nat, ghost head: nat, ghost s: seq<nat>, ghost j: nat)
      requires Valid() && Ring(View(), head, s) && j < |s| && s[j] == node
      modifies prev, next
      ensures Ring(View(), head, Without(s, j))
      ensures Ring(View(), node, [])
      ensures forall h, t :: Ring(old(View()), h, t) && Apart(h, t, [head] + s) ==> Ring(View(), h, t)
    {
      hide Ring, Apart;
      ghost var l := View();
      Neighbours(l, head, s, j);
      var before, after := prev[node], next[node];
      prev[after] := before;
      next[before] := after;
      next[node] := node;
      prev[node] := node;
      RingWithout(l, View(), head, s, j, Without(s, j));
      assert before in [head] + s && after in [head] + s;
      RingsElsewhere(l, View(), [head] + s);
      AloneIsRing(View(), node);
    }

    /** list_empty. */
    method ListEmpty(head: nat, ghost s: seq<nat>) returns (empty: bool)
      requires Valid() && Ring(View(), head, s)
      ensures empty <==> s == []
    {
      empty := next[head] == head;
      assert s != [] ==> s[0] in s;
    }
  }
}
