/** The circular run queue and the choice of the next thread. */
module RunQueue {
  import opened Basics

  /** Position i of a ring of n threads, at most once around. */
  function Wrap(i: nat, n: nat): (r: nat)
    requires i < 2 * n
    ensures r < n
  {
    if i < n then i else i - n
  }

  /** The `next` fields lead around the ring, and nowhere else. */
  ghost predicate Cycle(next: map<nat, nat>, ring: seq<nat>) {
    && (forall i, j :: 0 <= i < j < |ring| ==> ring[i] != ring[j])
    && forall i: nat :: i < |ring| ==> ring[i] in next && next[ring[i]] == ring[Wrap(i + 1, |ring|)]
  }

  /** The thread e places behind position c is running. */
  ghost predicate Runs(ring: seq<nat>, running: set<nat>, c: nat, e: nat)
    requires c < |ring| && e <= |ring|
  {
    ring[Wrap(c + e, |ring|)] in running
  }

  /** How far the search goes from position c: to the first running thread, or once around. */
  ghost function Reach(ring: seq<nat>, running: set<nat>, c: nat, d: nat): (r: nat)
    requires c < |ring| && 1 <= d <= |ring|
    ensures d <= r <= |ring|
    decreases |ring| - d
  {
    if d == |ring| || Runs(ring, running, c, d) then d else Reach(ring, running, c, d + 1)
  }

  /** The search stops at the first running thread behind the current one, and if there is none, at the current one. */
  lemma {:induction false} ReachIsFirst(ring: seq<nat>, running: set<nat>, c: nat, d: nat)
    requires c < |ring| && 1 <= d <= |ring|
    ensures var r := Reach(ring, running, c, d);
            && (r < |ring| ==> Runs(ring, running, c, r))
            && forall e: nat :: d <= e < r ==> !Runs(ring, running, c, e)
    decreases |ring| - d
  {
    if d < |ring| && !Runs(ring, running, c, d) {
      ReachIsFirst(ring, running, c, d + 1);
    }
  }

  /** The thread that schedule chooses when `prev` is the current one. */
  ghost predicate IsNext(ring: seq<nat>, running: set<nat>, prev: nat, chosen: nat) {
    exists c: nat :: c < |ring| && ring[c] == prev && chosen == ring[Wrap(c + Reach(ring, running, c, 1), |ring|)]
  }

  /** How many places behind c position j is. */
  function Distance(c: nat, j: nat, n: nat): (d: nat)
    requires c < n && j < n && c != j
    ensures 1 <= d < n && Wrap(c + d, n) == j
  {
    if j > c then j - c else j + n - c
  }

  lemma NobodyElse(ring: seq<nat>, running: set<nat>, c: nat)
    requires c < |ring| && forall e: nat :: 1 <= e < |ring| ==> !Runs(ring, running, c, e)
    ensures forall p :: p in ring && p != ring[c] ==> p !in running
  {
    forall p | p in ring && p != ring[c]
      ensures p !in running
    {
      var j: nat :| j < |ring| && ring[j] == p;
      assert !Runs(ring, running, c, Distance(c, j, |ring|));
    }
  }

  /** If the current thread is chosen again, no other is running. */
  lemma NextRuns(next: map<nat, nat>, ring: seq<nat>, running: set<nat>, prev: nat, chosen: nat)
    requires Cycle(next, ring) && IsNext(ring, running, prev, chosen)
    ensures chosen in ring
    ensures chosen != prev ==> chosen in running
    ensures chosen == prev ==> forall p :: p in ring && p != prev ==> p !in running
  {
    hide Cycle, Reach, Runs;
    var c: nat :| c < |ring| && ring[c] == prev && chosen == ring[Wrap(c + Reach(ring, running, c, 1), |ring|)];
    NextRunsFrom(next, ring, running, c);
  }

  lemma NextRunsFrom(next: map<nat, nat>, ring: seq<nat>, running: set<nat>, c: nat)
    requires Cycle(next, ring) && c < |ring|
    ensures var chosen := ring[Wrap(c + Reach(ring, running, c, 1), |ring|)];
            && (chosen != ring[c] ==> chosen in running)
            && (chosen == ring[c] ==> forall p :: p in ring && p != ring[c] ==> p !in running)
  {
    hide Cycle, Reach;
    var r := Reach(ring, running, c, 1);
    ReachIsFirst(ring, running, c, 1);
    if r == |ring| {
      NobodyElse(ring, running, c);
    } else {
      assert Runs(ring, running, c, r);
      SamePlaceOnly(next, ring, c, Wrap(c + r, |ring|));
    }
  }

  lemma SamePlaceOnly(next: map<nat, nat>, ring: seq<nat>, i: nat, j: nat)
    requires Cycle(next, ring) && i < |ring| && j < |ring| && i != j
    ensures ring[i] != ring[j]
  {
  }

  /** The thread behind position i of the ring. */
  function Behind(ring: seq<nat>, i: nat): nat
    requires i < |ring|
  {
    ring[Wrap(i + 1, |ring|)]
  }

  /** The first of `wanted` in the ring, counted from behind its head. */
  ghost predicate FirstBehind(ring: seq<nat>, wanted: set<nat>, p: nat) {
    exists i: nat :: i < |ring| && p == Behind(ring, i) && p in wanted
      && forall j: nat :: j < i ==> Behind(ring, j) !in wanted
  }

  /** The position after k calls of schedule in a row. */
  ghost function Turns(ring: seq<nat>, running: set<nat>, c: nat, k: nat): nat
    requires c < |ring|
    decreases k
  {
    if k == 0 then c else Turns(ring, running, Wrap(c + Reach(ring, running, c, 1), |ring|), k - 1)
  }

  /** Round robin: a running thread d places behind the current one has its turn within d calls. */
  lemma {:induction false} EveryoneGetsATurn(ring: seq<nat>, running: set<nat>, c: nat, d: nat) returns (k: nat)
    requires c < |ring| && 1 <= d <= |ring| && Runs(ring, running, c, d)
    ensures 1 <= k <= d && Turns(ring, running, c, k) == Wrap(c + d, |ring|)
    decreases d
  {
    var e, n := Reach(ring, running, c, 1), |ring|;
    ReachIsFirst(ring, running, c, 1);
    assert e <= d;
    var c' := Wrap(c + e, n);
    if e == d {
      k := 1;
      assert Turns(ring, running, c', 0) == c';
    } else {
      assert Wrap(c' + (d - e), n) == Wrap(c + d, n);
      var k' := EveryoneGetsATurn(ring, running, c', d - e);
      k := k' + 1;
    }
  }

  class Scheduler {
    var queue: Option<nat>
    /** The `next` field of each thread. */
    var next: map<nat, nat>
    /** The threads in the order of their `next` fields, from the head of the queue on. */
    ghost var ring: seq<nat>

    ghost predicate Valid()
      reads this
    {
      Cycle(next, ring) && (if ring == [] then queue == None else queue == Some(ring[0]))
    }

    lemma PlaceOf(task: nat) returns (i: nat)
      requires Valid() && task in ring
      ensures i < |ring| && ring[i] == task && forall j :: 0 <= j < |ring| && ring[j] == task ==> j == i
    {
      i :| i < |ring| && ring[i] == task;
    }

    constructor ()
      ensures Valid() && ring == []
    {
      queue, next, ring := None, map[], [];
    }

    /** enqueue: a new thread goes behind the head. */
    method Enqueue(task: nat)
      requires Valid() && task !in ring
      modifies this
      ensures Valid() && ring == if old(ring) == [] then [task] else [old(ring)[0], task] + old(ring)[1..]
    {
      if queue == None {
        queue := Some(task);
        next := next[task := task];
        ring := [task];
      } else {
        var tail := next[queue.value];
        next := next[queue.value := task];
        next := next[task := tail];
        EnqueueCycle(old(next), next, ring, task);
        ring := [ring[0], task] + ring[1..];
      }
    }

    /** dequeue: a thread that is in the queue leaves it; one that is not changes nothing. */
    method Dequeue(task: nat)
      requires Valid()
      modifies this
      ensures Valid()
      ensures task !in old(ring) ==> ring == old(ring) && queue == old(queue) && next == old(next)
      ensures forall i: nat :: i < |old(ring)| && old(ring)[i] == task ==> ring == Without(old(ring), i)
    {
      if queue == None {
        return;
      }
      var prev, curr := None, queue.value;
      ghost var at := 0;
      while true
        invariant at < |ring| && curr == ring[at] && prev == None
        invariant forall i: nat :: i < at ==> next[ring[i]] != task
        decreases |ring| - at
      {
        if next[curr] == task {
          prev := Some(curr);
          assert task == ring[Wrap(at + 1, |ring|)];
          break;
        }
        curr := next[curr];
        if curr == queue.value {
          SamePlace(next, ring, 0, Wrap(at + 1, |ring|));
          break;
        }
        at := at + 1;
      }
      if prev == None {
        NotNext(next, ring, task);
        return;
      }
      ghost var pos := Wrap(at + 1, |ring|);
      if next[task] == task {
        SamePlace(next, ring, pos, Wrap(pos + 1, |ring|));
        queue := None;
        ring := [];
      } else {
        next := next[prev.value := next[task]];
        if queue == Some(task) {
          queue := Some(next[task]);
        }
        DequeueCycle(old(next), next, ring, at, pos);
        ring := Without(ring, pos);
      }
    }

    /** The search of do_stop and do_waitpid, from the head once around. */
    method Contains(task: nat) returns (found: bool)
      requires Valid()
      ensures found <==> task in ring
    {
      if queue == None {
        return false;
      }
      var curr := queue.value;
      ghost var at := 0;
      while true
        invariant at < |ring| && curr == ring[at] && forall i :: 0 <= i < at ==> ring[i] != task
        decreases |ring| - at
      {
        if curr == task {
          return true;
        }
        Around(at);
        curr := next[curr];
        if curr == queue.value {
          return false;
        }
        at := at + 1;
      }
    }

    /** The search of kill_zombies, from behind the head once around. */
    method SearchBehind(wanted: set<nat>) returns (p: Option<nat>)
      requires Valid()
      ensures p == None ==> forall q :: q in wanted ==> q !in ring
      ensures p.Some? ==> p.value in wanted && FirstBehind(ring, wanted, p.value)
    {
      if queue == None {
        return None;
      }
      var curr := queue.value;
      ghost var at := 0;
      while true
        invariant at < |ring| && curr == ring[at]
        invariant forall i: nat :: i < at ==> Behind(ring, i) !in wanted
        decreases |ring| - at
      {
        var other := next[curr];
        assert other == Behind(ring, at);
        if other in wanted {
          return Some(other);
        }
        Around(at);
        curr := other;
        if curr == queue.value {
          NoneBehind(ring, wanted);
          return None;
        }
        at := at + 1;
      }
    }

    /** Going on from one place leads to the head only from the last. */
    lemma Around(at: nat)
      requires Valid() && at < |ring|
      ensures next[ring[at]] == queue.value <==> at == |ring| - 1
      ensures at < |ring| - 1 ==> next[ring[at]] == ring[at + 1]
    {
      if next[ring[at]] == ring[0] {
        SamePlace(next, ring, 0, Wrap(at + 1, |ring|));
      }
    }

    /**
     schedule, the choice of the next thread: the search starts behind the current one and ends there if nobody else
     runs.
     */
    method Schedule(prev: nat, running: set<nat>) returns (chosen: nat)
      requires Valid() && prev in ring
      ensures IsNext(ring, running, prev, chosen)
    {
      hide Cycle, Wrap, Runs;
      ghost var c := PlaceOf(prev);
      NextPlace(c, 0);
      chosen := next[prev];
      ghost var d := 1;
      while chosen !in running && chosen != prev
        invariant 1 <= d <= |ring| && chosen == ring[Wrap(c + d, |ring|)]
        invariant Reach(ring, running, c, 1) == Reach(ring, running, c, d)
        decreases |ring| - d
      {
        NextPlace(c, d);
        SearchOn(ring, running, c, d);
        chosen := next[chosen];
        d := d + 1;
      }
      SearchEnds(next, ring, running, c, d);
    }

    lemma NextPlace(c: nat, d: nat)
      requires Valid() && c < |ring| && d <= |ring|
      ensures ring[c] in next && Wrap(c, |ring|) == c
      ensures d < |ring| ==>
                ring[Wrap(c + d, |ring|)] in next && next[ring[Wrap(c + d, |ring|)]] == ring[Wrap(c + d + 1, |ring|)]
      ensures d == |ring| ==> ring[Wrap(c + d, |ring|)] == ring[c]
    {
    }
  }

  lemma NoneBehind(ring: seq<nat>, wanted: set<nat>)
    requires forall i: nat :: i < |ring| ==> Behind(ring, i) !in wanted
    ensures forall q :: q in wanted ==> q !in ring
  {
    forall j: nat | j < |ring|
      ensures ring[j] !in wanted
    {
      assert Behind(ring, if j == 0 then |ring| - 1 else j - 1) == ring[j];
    }
  }

  lemma SearchOn(ring: seq<nat>, running: set<nat>, c: nat, d: nat)
    requires c < |ring| && 1 <= d <= |ring| && ring[Wrap(c + d, |ring|)] !in running
    ensures d < |ring| ==> Reach(ring, running, c, d) == Reach(ring, running, c, d + 1)
  {
  }

  lemma SearchEnds(next: map<nat, nat>, ring: seq<nat>, running: set<nat>, c: nat, d: nat)
    requires Cycle(next, ring) && c < |ring| && 1 <= d <= |ring|
    requires ring[Wrap(c + d, |ring|)] in running || ring[Wrap(c + d, |ring|)] == ring[c]
    ensures Reach(ring, running, c, d) == d
  {
    if d < |ring| {
      SamePlaceOnly(next, ring, c, Wrap(c + d, |ring|));
    }
  }

  lemma EnqueueCycle(next: map<nat, nat>, next': map<nat, nat>, ring: seq<nat>, task: nat)
    requires Cycle(next, ring) && ring != [] && task !in ring
    requires next' == next[ring[0] := task][task := next[ring[0]]]
    ensures Cycle(next', [ring[0], task] + ring[1..])
  {
  }

  lemma SamePlace(next: map<nat, nat>, ring: seq<nat>, i: nat, j: nat)
    requires Cycle(next, ring) && i < |ring| && j < |ring| && ring[i] == ring[j]
    ensures i == j
  {
  }

  /** If no thread of the ring leads to the task, it is not in the ring. */
  lemma NotNext(next: map<nat, nat>, ring: seq<nat>, task: nat)
    requires Cycle(next, ring) && forall i: nat :: i < |ring| ==> next[ring[i]] != task
    ensures task !in ring
  {
    forall i: nat | i < |ring|
      ensures ring[i] != task
    {
      var before := if i == 0 then |ring| - 1 else i - 1;
      assert next[ring[before]] == ring[Wrap(before + 1, |ring|)];
    }
  }

  lemma DequeueCycle(next: map<nat, nat>, next': map<nat, nat>, ring: seq<nat>, at: nat, pos: nat)
    requires Cycle(next, ring) && |ring| > 1 && at < |ring| && pos == Wrap(at + 1, |ring|)
    requires next' == next[ring[at] := next[ring[pos]]]
    ensures Cycle(next', Without(ring, pos))
  {
    var t, n := Without(ring, pos), |ring|;
    forall i, j | 0 <= i < j < n - 1
      ensures t[i] != t[j]
    {
      assert ring[if i < pos then i else i + 1] != ring[if j < pos then j else j + 1];
    }
    forall i: nat | i < n - 1
      ensures t[i] in next' && next'[t[i]] == t[Wrap(i + 1, n - 1)]
    {
      DequeuedAt(next, next', ring, at, pos, i);
    }
  }

  lemma DequeuedAt(next: map<nat, nat>, next': map<nat, nat>, ring: seq<nat>, at: nat, pos: nat, i: nat)
    requires Cycle(next, ring) && |ring| > 1 && at < |ring| && pos == Wrap(at + 1, |ring|) && i < |ring| - 1
    requires next' == next[ring[at] := next[ring[pos]]]
    ensures var t := Without(ring, pos); t[i] in next' && next'[t[i]] == t[Wrap(i + 1, |ring| - 1)]
  {
    var n := |ring|;
    var j := if i < pos then i else i + 1;
    if j == at {
      assert next[ring[pos]] == ring[Wrap(pos + 1, n)];
    } else {
      assert ring[j] != ring[at];
      assert next[ring[j]] == ring[Wrap(j + 1, n)];
    }
  }
}
