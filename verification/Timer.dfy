/** The software timer queue: many timers on one hardware deadline. */
module Timer {

  datatype Event = Event(expire: nat, callback: nat, arg: nat)

  /** What a running callback registers, when it does so, and whether kmalloc has room for the event. */
  datatype Request = Request(at: nat, callback: nat, arg: nat, ticks: nat, room: bool)

  /**
   One test of the dispatch loop: the clock reading, and what the callback does if the head is due: the timers it
   registers, and whether it asks for another thread to be scheduled, as preempt_callback does.
   */
  datatype Round = Round(reading: nat, requests: seq<Request>, preempt: bool)

  /** The deadline programmed when nothing is pending. */
  const NEVER: nat := 0xFFFF_FFFF_FFFF_FFFF

  ghost predicate Sorted(s: seq<Event>) {
    forall i, j :: 0 <= i < j < |s| ==> s[i].expire <= s[j].expire
  }

  /** The events with one deadline, in the order of the list. */
  ghost function WithDeadline(s: seq<Event>, x: nat): seq<Event> {
    if s == [] then [] else (if s[0].expire == x then [s[0]] else []) + WithDeadline(s[1..], x)
  }

  /** A new event goes behind all events that are not later. */
  ghost function Insert(s: seq<Event>, e: Event): seq<Event> {
    if s == [] || e.expire < s[0].expire then [e] + s else [s[0]] + Insert(s[1..], e)
  }

  /** Events by deadline, and for one deadline in order of registration. */
  ghost function ByDeadline(s: seq<Event>): seq<Event> {
    if s == [] then [] else Insert(ByDeadline(s[..|s| - 1]), s[|s| - 1])
  }

  lemma {:induction false} InsertSorted(s: seq<Event>, e: Event)
    requires Sorted(s)
    ensures Sorted(Insert(s, e))
    ensures |Insert(s, e)| == |s| + 1
    ensures forall x :: x in Insert(s, e) <==> x in s || x == e
  {
    if s != [] && e.expire >= s[0].expire {
      InsertSorted(s[1..], e);
      var t := Insert(s[1..], e);
      forall i | 0 <= i < |t|
        ensures s[0].expire <= t[i].expire
      {
        assert t[i] in t;
        assert t[i] == e || t[i] in s[1..];
      }
      assert s == [s[0]] + s[1..];
    }
  }

  lemma WithDeadlineCons(s: seq<Event>, x: nat)
    requires s != []
    ensures WithDeadline(s, x) == (if s[0].expire == x then [s[0]] else []) + WithDeadline(s[1..], x)
  {
  }

  lemma Associative(r: seq<Event>, s: seq<Event>, t: seq<Event>)
    ensures (r + s) + t == r + (s + t)
  {
  }

  lemma {:induction false} WithDeadlineAppend(s: seq<Event>, t: seq<Event>, x: nat)
    ensures WithDeadline(s + t, x) == WithDeadline(s, x) + WithDeadline(t, x)
  {
    if s == [] {
      assert s + t == t;
    } else {
      hide WithDeadline;
      WithDeadlineAppend(s[1..], t, x);
      WithDeadlineCons(s, x);
      WithDeadlineCons(s + t, x);
      assert (s + t)[1..] == s[1..] + t;
      Associative(if s[0].expire == x then [s[0]] else [], WithDeadline(s[1..], x), WithDeadline(t, x));
    }
  }

  lemma {:induction false} NoneWithDeadline(s: seq<Event>, x: nat)
    requires forall i :: 0 <= i < |s| ==> s[i].expire != x
    ensures WithDeadline(s, x) == []
  {
    if s != [] {
      NoneWithDeadline(s[1..], x);
    }
  }

  lemma {:induction false} InsertKeepsTies(s: seq<Event>, e: Event, x: nat)
    requires Sorted(s)
    ensures WithDeadline(Insert(s, e), x) == WithDeadline(s, x) + (if e.expire == x then [e] else [])
  {
    if s == [] || e.expire < s[0].expire {
      WithDeadlineAppend([e], s, x);
      assert WithDeadline([e], x) == if e.expire == x then [e] else [];
      if e.expire == x {
        NoneWithDeadline(s, x);
      }
    } else {
      InsertKeepsTies(s[1..], e, x);
      assert Insert(s, e)[1..] == Insert(s[1..], e);
    }
  }

  /** The list is ordered by deadline, and ties are in order of registration. */
  lemma {:induction false} ByDeadlineIsStable(s: seq<Event>)
    ensures Sorted(ByDeadline(s)) && |ByDeadline(s)| == |s|
    ensures forall x: nat :: WithDeadline(ByDeadline(s), x) == WithDeadline(s, x)
  {
    if s != [] {
      var front, e := s[..|s| - 1], s[|s| - 1];
      ByDeadlineIsStable(front);
      InsertSorted(ByDeadline(front), e);
      forall x: nat
        ensures WithDeadline(ByDeadline(s), x) == WithDeadline(s, x)
      {
        InsertKeepsTies(ByDeadline(front), e, x);
        WithDeadlineAppend(front, [e], x);
        assert s == front + [e];
        assert WithDeadline([e], x) == if e.expire == x then [e] else [];
      }
    }
  }

  lemma {:induction false} WithDeadlineMembers(s: seq<Event>, x: nat)
    ensures forall e :: e in WithDeadline(s, x) <==> e in s && e.expire == x
  {
    if s != [] {
      WithDeadlineMembers(s[1..], x);
      assert s == [s[0]] + s[1..];
    }
  }

  lemma NothingFromNothing(s: seq<Event>)
    requires forall x: nat :: WithDeadline(s, x) == []
    ensures s == []
  {
    if s != [] {
      WithDeadlineMembers(s, s[0].expire);
    }
  }

  /** There is only one such order. */
  lemma {:induction false} StableOrderIsUnique(s: seq<Event>, t: seq<Event>)
    requires Sorted(s) && Sorted(t)
    requires forall x: nat :: WithDeadline(s, x) == WithDeadline(t, x)
    ensures s == t
  {
    if s == [] {
      NothingFromNothing(t);
    } else if t == [] {
      NothingFromNothing(s);
    } else {
      HeadIsEarliest(s, t);
      HeadIsEarliest(t, s);
      assert WithDeadline(s, s[0].expire) == WithDeadline(t, s[0].expire);
      assert WithDeadline(s, s[0].expire)[0] == s[0] && WithDeadline(t, t[0].expire)[0] == t[0];
      forall x: nat
        ensures WithDeadline(s[1..], x) == WithDeadline(t[1..], x)
      {
        assert WithDeadline(s, x) == WithDeadline(t, x);
        var first := if s[0].expire == x then [s[0]] else [];
        assert WithDeadline(s[1..], x) == WithDeadline(s, x)[|first|..];
        assert WithDeadline(t[1..], x) == WithDeadline(t, x)[|first|..];
      }
      StableOrderIsUnique(s[1..], t[1..]);
      assert s == [s[0]] + s[1..] && t == [t[0]] + t[1..];
    }
  }

  lemma HeadIsEarliest(s: seq<Event>, t: seq<Event>)
    requires Sorted(s) && s != [] && t != []
    requires forall x: nat :: WithDeadline(s, x) == WithDeadline(t, x)
    ensures s[0].expire <= t[0].expire
  {
    WithDeadlineMembers(s, t[0].expire);
    WithDeadlineMembers(t, t[0].expire);
    assert t[0] in t && t[0] in WithDeadline(t, t[0].expire);
    assert t[0] in s;
  }

  lemma {:induction false} InsertAt(s: seq<Event>, e: Event, k: nat)
    requires k <= |s| && (forall i :: 0 <= i < k ==> s[i].expire <= e.expire) && (k < |s| ==> e.expire < s[k].expire)
    ensures Insert(s, e) == s[..k] + [e] + s[k..]
  {
    if k > 0 {
      InsertAt(s[1..], e, k - 1);
      assert s[1..][..k - 1] == s[1..k] && s[1..][k - 1..] == s[k..];
      assert s[..k] == [s[0]] + s[1..k];
    }
  }

  /** Events that are not later than the new one stay in front of it. */
  lemma {:induction false} InsertPast(past: seq<Event>, s: seq<Event>, e: Event)
    requires forall i :: 0 <= i < |past| ==> past[i].expire <= e.expire
    ensures Insert(past + s, e) == past + Insert(s, e)
  {
    if past == [] {
      assert past + s == s;
    } else {
      InsertPast(past[1..], s, e);
      assert (past + s)[1..] == past[1..] + s && (past + s)[0] == past[0];
      assert Insert(past + s, e) == [past[0]] + Insert(past[1..] + s, e);
      assert past == [past[0]] + past[1..];
    }
  }

  /** The clock does not run backwards from t through a callback. */
  ghost predicate InOrder(requests: seq<Request>, t: nat) {
    requests != [] ==> requests[0].at >= t && InOrder(requests[1..], requests[0].at)
  }

  function EndOf(requests: seq<Request>, t: nat): nat {
    if requests == [] then t else EndOf(requests[1..], requests[0].at)
  }

  ghost predicate Monotone(rounds: seq<Round>, t: nat) {
    rounds != [] ==>
      && rounds[0].reading >= t && InOrder(rounds[0].requests, rounds[0].reading)
      && Monotone(rounds[1..], EndOf(rounds[0].requests, rounds[0].reading))
  }

  /** The events that requests make, where there is room for them. */
  ghost function Registered(requests: seq<Request>): seq<Event> {
    if requests == [] then []
    else (if requests[0].room then [Event(requests[0].at + requests[0].ticks, requests[0].callback, requests[0].arg)]
      else [])
         + Registered(requests[1..])
  }

  /** The events that the callbacks of the first k events make; an event without a callback makes none. */
  ghost function RegisteredBy(rounds: seq<Round>, events: seq<Event>, k: nat): seq<Event>
    requires k <= |rounds| && k <= |events|
  {
    if k == 0 then []
    else RegisteredBy(rounds, events, k - 1)
         + if events[k - 1].callback == 0 then [] else Registered(rounds[k - 1].requests)
  }

  /** A callback of the first k events has asked for another thread. */
  ghost predicate Preempted(rounds: seq<Round>, events: seq<Event>, k: nat)
    requires k <= |rounds| && k <= |events|
  {
    exists j: nat :: j < k && events[j].callback != 0 && rounds[j].preempt
  }

  lemma {:induction false} RegisteredByPrefix(rounds: seq<Round>, events: seq<Event>, more: seq<Event>, k: nat)
    requires k <= |rounds| && k <= |events|
    ensures RegisteredBy(rounds, events + more, k) == RegisteredBy(rounds, events, k)
    ensures Preempted(rounds, events + more, k) == Preempted(rounds, events, k)
  {
    assert forall j: nat :: j < k ==> (events + more)[j] == events[j];
    hide Registered;
    if k > 0 {
      RegisteredByPrefix(rounds, events, more, k - 1);
    }
  }

  lemma {:induction false} EndsLater(requests: seq<Request>, t: nat)
    requires InOrder(requests, t)
    ensures EndOf(requests, t) >= t
  {
    if requests != [] {
      EndsLater(requests[1..], requests[0].at);
    }
  }

  lemma MonotoneNext(rounds: seq<Round>, t: nat)
    requires Monotone(rounds, t) && rounds != []
    ensures rounds[0].reading >= t && InOrder(rounds[0].requests, rounds[0].reading)
    ensures Monotone(rounds[1..], EndOf(rounds[0].requests, rounds[0].reading))
            && Monotone(rounds[1..], rounds[0].reading)
  {
    EndsLater(rounds[0].requests, rounds[0].reading);
  }

  lemma PendingSorted(added: seq<Event>, fired: seq<Event>, queue: seq<Event>)
    requires fired + queue == ByDeadline(added)
    ensures Sorted(queue)
  {
    ByDeadlineIsStable(added);
    var all, n := fired + queue, |fired|;
    forall i, j | 0 <= i < j < |queue|
      ensures queue[i].expire <= queue[j].expire
    {
      assert queue[i] == all[n + i] && queue[j] == all[n + j];
    }
  }

  lemma AddedInOrder(added: seq<Event>, fired: seq<Event>, queue: seq<Event>, event: Event)
    requires fired + queue == ByDeadline(added)
    requires forall i :: 0 <= i < |fired| ==> fired[i].expire <= event.expire
    ensures fired + Insert(queue, event) == ByDeadline(added + [event])
  {
    InsertPast(fired, queue, event);
    assert (added + [event])[..|added|] == added;
  }

  class TimerQueue {
    /** timer_head and what hangs on it. */
    var queue: seq<Event>
    /** The last value given to sbi_set_timer. */
    var deadline: nat
    /** need_resched */
    var needResched: bool

    /** Everything registered so far, everything fired so far and when, and the last clock reading. */
    ghost var added: seq<Event>
    ghost var fired: seq<Event>
    ghost var firedAt: seq<nat>
    ghost var now: nat

    /**
     All through a run: what has fired, then what is pending, are the events registered so far in order of deadline,
     ties in order of registration; nothing has fired early.
     */
    ghost predicate Valid()
      reads this
    {
      && fired + queue == ByDeadline(added)
      && |firedAt| == |fired| && (forall i :: 0 <= i < |fired| ==> fired[i].expire <= firedAt[i] <= now)
      && (forall i, j :: 0 <= i < j < |fired| ==> firedAt[i] <= firedAt[j])
    }

    /** Between operations: the hardware deadline is the list head's. */
    ghost predicate Programmed()
      reads this
    {
      deadline == if queue == [] then NEVER else queue[0].expire
    }

    constructor ()
      ensures Valid() && queue == [] && added == [] && fired == [] && now == 0
      ensures Programmed()
    {
      queue, deadline, needResched, added, fired, firedAt, now := [], NEVER, false, [], [], [], 0;
    }

    /** add_timer_ticks at time `cycles`; nothing happens if kmalloc has no room for the event. */
    method AddTimerTicks(callback: nat, arg: nat, ticks: nat, cycles: nat, room: bool)
      requires Valid() && now <= cycles
      modifies this
      ensures Valid() && now == cycles && fired == old(fired) && firedAt == old(firedAt)
      ensures added == if room then old(added) + [Event(cycles + ticks, callback, arg)] else old(added)
      ensures queue == if room then Insert(old(queue), Event(cycles + ticks, callback, arg)) else old(queue)
      ensures needResched == old(needResched) && (old(Programmed()) ==> Programmed())
    {
      hide ByDeadline, Insert;
      now := cycles;
      if !room {
        return;
      }
      var event := Event(cycles + ticks, callback, arg);
      PendingSorted(added, fired, queue);
      AddedInOrder(added, fired, queue, event);
      ghost var was := queue;
      if queue == [] || event.expire < queue[0].expire {
        InsertAt(queue, event, 0);
        queue := [event] + queue;
        deadline := queue[0].expire;
      } else {
        var curr := 0;
        while curr + 1 < |queue| && queue[curr + 1].expire <= event.expire
          invariant curr < |queue| && queue == was
          invariant forall i :: 0 <= i <= curr ==> queue[i].expire <= event.expire
        {
          curr := curr + 1;
        }
        InsertAt(queue, event, curr + 1);
        queue := queue[..curr + 1] + [event] + queue[curr + 1..];
      }
      added := added + [event];
    }

    /** A callback registers its timers, and perhaps asks for another thread. */
    method RunCallback(requests: seq<Request>, preempt: bool)
      requires Valid() && InOrder(requests, now)
      modifies this
      ensures Valid() && now == EndOf(requests, old(now)) >= old(now) && needResched == (old(needResched) || preempt)
      ensures fired == old(fired) && firedAt == old(firedAt) && added == old(added) + Registered(requests)
    {
      hide ByDeadline, Insert;
      var j := 0;
      while j < |requests|
        invariant j <= |requests| && Valid() && InOrder(requests[j..], now)
        invariant EndOf(requests[j..], now) == EndOf(requests, old(now)) && now >= old(now)
        invariant fired == old(fired) && firedAt == old(firedAt) && needResched == old(needResched)
        invariant added + Registered(requests[j..]) == old(added) + Registered(requests)
      {
        var r := requests[j];
        assert requests[j..][1..] == requests[j + 1..];
        AddTimerTicks(r.callback, r.arg, r.ticks, r.at, r.room);
        j := j + 1;
      }
      if preempt {
        needResched := true;
      }
    }

    /** One due event: it leaves the list, and its callback runs. */
    method Fire(r: Round)
      requires Valid() && queue != [] && queue[0].expire <= r.reading && now <= r.reading
               && InOrder(r.requests, r.reading)
      modifies this
      ensures Valid() && fired == old(fired) + [old(queue)[0]] && firedAt == old(firedAt) + [r.reading]
      ensures var live := old(queue)[0].callback != 0;
              && added == old(added) + (if live then Registered(r.requests) else [])
              && needResched == (old(needResched) || (live && r.preempt))
              && now == (if live then EndOf(r.requests, r.reading) else r.reading) >= r.reading
    {
      hide ByDeadline, InOrder, EndOf, Registered;
      now := r.reading;
      var event := queue[0];
      assert fired + queue == (fired + [event]) + queue[1..];
      queue, fired, firedAt := queue[1..], fired + [event], firedAt + [now];
      if event.callback != 0 {
        RunCallback(r.requests, r.preempt);
      }
    }

    lemma Pending()
      requires Valid()
      ensures Sorted(queue) && |firedAt| == |fired|
    {
      PendingSorted(added, fired, queue);
    }

    /**
     core_timer_handler, as far as the given rounds take it; `finished` if it comes to its end, and then `reschedule`
     says whether it calls schedule.
     */
    method CoreTimerHandler(rounds: seq<Round>) returns (finished: bool, reschedule: bool)
      requires Valid() && Monotone(rounds, now)
      modifies this
      ensures Valid() && now >= old(now)
      ensures |fired| >= |old(fired)| && fired[..|old(fired)|] == old(fired)
      ensures var k, events := |fired| - |old(fired)|, fired[|old(fired)|..];
              && k <= |rounds| && added == old(added) + RegisteredBy(rounds, events, k)
              && |firedAt| == |fired| && (forall j: nat :: j < k ==> firedAt[|old(fired)| + j] == rounds[j].reading)
              && (reschedule <==> finished && Preempted(rounds, events, k))
      ensures finished ==> Programmed() && forall i :: 0 <= i < |queue| ==> queue[i].expire > now
      ensures !finished ==> |fired| == |old(fired)| + |rounds|
    {
      hide Valid, RegisteredBy, Monotone, InOrder, EndOf, Registered, Preempted;
      ClearResched();
      var i := 0;
      ghost var events: seq<Event> := [];
      NoneYet(rounds);
      while i < |rounds|
        invariant i <= |rounds| && Valid() && Monotone(rounds[i..], now) && now >= old(now)
        invariant |events| == i && fired == old(fired) + events && |firedAt| == |fired|
        invariant added == old(added) + RegisteredBy(rounds, events, i)
        invariant needResched == Preempted(rounds, events, i)
        invariant forall j: nat :: j < i ==> firedAt[|old(fired)| + j] == rounds[j].reading
      {
        Pending();
        MonotoneNext(rounds[i..], now);
        assert rounds[i..][1..] == rounds[i + 1..];
        if queue == [] || queue[0].expire > rounds[i].reading {
          Wait(rounds[i].reading);
          return true, needResched;
        }
        NextEvent(rounds, events, queue[0]);
        events := events + [queue[0]];
        Fire(rounds[i]);
        i := i + 1;
      }
      finished, reschedule := false, false;
    }

    /** Nothing is due at the given time: the hardware deadline becomes the list head's. */
    method Wait(reading: nat)
      requires Valid() && now <= reading && (queue == [] || queue[0].expire > reading)
      modifies this`now, this`deadline
      ensures Valid() && Programmed() && now == reading && forall i :: 0 <= i < |queue| ==> queue[i].expire > now
    {
      hide ByDeadline;
      Pending();
      now := reading;
      deadline := if queue != [] then queue[0].expire else NEVER;
    }

    method ClearResched()
      requires Valid()
      modifies this`needResched
      ensures Valid() && !needResched && |firedAt| == |fired|
    {
      hide ByDeadline;
      needResched := false;
    }
  }

  lemma NoneYet(rounds: seq<Round>)
    ensures !Preempted(rounds, [], 0) && RegisteredBy(rounds, [], 0) == []
  {
  }

  /** What one more event adds. */
  lemma NextEvent(rounds: seq<Round>, events: seq<Event>, event: Event)
    requires |events| < |rounds|
    ensures RegisteredBy(rounds, events + [event], |events| + 1) == RegisteredBy(rounds, events, |events|)
            + (if event.callback == 0 then [] else Registered(rounds[|events|].requests))
    ensures Preempted(rounds, events + [event], |events| + 1) <==>
              Preempted(rounds, events, |events|) || (event.callback != 0 && rounds[|events|].preempt)
  {
    hide Registered;
    RegisteredByPrefix(rounds, events, [event], |events|);
    LastPreempts(rounds, events + [event], |events|);
  }

  lemma LastPreempts(rounds: seq<Round>, events: seq<Event>, k: nat)
    requires k < |rounds| && k < |events|
    ensures Preempted(rounds, events, k + 1) <==>
              Preempted(rounds, events, k) || (events[k].callback != 0 && rounds[k].preempt)
  {
  }

  /**
   Every event fires at most once and none is lost: fired and pending events are the registered ones, with multiplicity.
   */
  lemma {:induction false} NothingLost(s: seq<Event>)
    ensures multiset(ByDeadline(s)) == multiset(s)
  {
    if s != [] {
      var front, e := s[..|s| - 1], s[|s| - 1];
      NothingLost(front);
      InsertMultiset(ByDeadline(front), e);
      assert s == front + [e];
    }
  }

  lemma {:induction false} InsertMultiset(s: seq<Event>, e: Event)
    ensures multiset(Insert(s, e)) == multiset(s) + multiset{e}
  {
    if s != [] && e.expire >= s[0].expire {
      InsertMultiset(s[1..], e);
      assert s == [s[0]] + s[1..];
    }
  }
}
