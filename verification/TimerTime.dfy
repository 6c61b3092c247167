/** When a timer is queued (udap/timer.cpp): the run alone decides, by the call that made
    the timer, the clock of the ticks and what was canceled or removed before. */
module TimerTime {
  import opened Bytes
  import opened Timer

  predicate EndsNow(s: State, e: Event, r: Ref) {
    (e.Cancel? || e.Remove?) && e.id in s.table && s.table[e.id] == r
  }

  predicate RemovesNow(s: State, e: Event, r: Ref) {
    e.Remove? && e.id in s.table && s.table[e.id] == r
  }

  /** r was canceled or removed somewhere in the run from s. */
  ghost predicate Ended(s: State, events: seq<Event>, r: Ref)
    decreases |events|
  {
    events != [] && Allowed(s, events[0]) && (EndsNow(s, events[0], r) || Ended(Next(s, events[0]), events[1..], r))
  }

  ghost predicate Removed(s: State, events: seq<Event>, r: Ref)
    decreases |events|
  {
    events != [] && Allowed(s, events[0]) && (RemovesNow(s, events[0], r) || Removed(Next(s, events[0]), events[1..], r))
  }

  /** The object of a timer made at `t0` for `d` still says so, and what befell it. */
  ghost predicate Knows(s: State, r: Ref, t0: u64, d: u64, ended: bool, removed: bool)
  {
    && r in s.log.born
    && (r in s.heap ==>
          var o := s.heap[r];
          && o.started == t0 && o.timeout == d && (o.canceled <==> ended)
          && (s.log.queued[r] == 0 ==> (o.func <==> !removed)))
  }

  lemma {:induction false} BornKnows(s: State, r: Ref, d: u64, t0: u64)
    requires Inv(s) && Allowed(s, CallLater(r, d, t0))
    ensures Knows(Next(s, CallLater(r, d, t0)), r, t0, d, false, false)
  {
  }

  lemma {:induction false} VisitKnows(s: State, id: u32, now: u64, job: JobId, r: Ref, t0: u64, d: u64, ended: bool, removed: bool)
    requires Inv(s) && Allowed(s, Visit(id, now, job)) && Knows(s, r, t0, d, ended, removed)
    ensures Knows(OnVisit(s, id, now, job), r, t0, d, ended, removed)
  {
  }

  lemma {:induction false} JobKnows(s: State, e: Event, r: Ref, t0: u64, d: u64, ended: bool, removed: bool)
    requires Inv(s) && Allowed(s, e) && Knows(s, r, t0, d, ended, removed) && (e.Test? || e.Take? || e.Call? || e.Finish?)
    ensures Knows(Next(s, e), r, t0, d, ended, removed)
  {
    assert JobInv(s, e.job);
    match e
    case Test(j) =>
    case Take(j) =>
    case Call(j) =>
    case Finish(j) =>
  }

  lemma {:induction false} KnowsNext(s: State, e: Event, r: Ref, t0: u64, d: u64, ended: bool, removed: bool)
    requires Inv(s) && Allowed(s, e) && Knows(s, r, t0, d, ended, removed)
    ensures Knows(Next(s, e), r, t0, d, ended || EndsNow(s, e, r), removed || RemovesNow(s, e, r))
  {
    match e
    case CallLater(ref, timeout, now) =>
    case Cancel(id) =>
    case Remove(id) =>
    case Visit(id, now, job) => VisitKnows(s, id, now, job, r, t0, d, ended, removed);
    case Stop =>
    case _ => JobKnows(s, e, r, t0, d, ended, removed);
  }

  lemma {:induction false} KnowsRun(s: State, events: seq<Event>, t: State, r: Ref, t0: u64, d: u64, ended: bool, removed: bool)
    requires Inv(s) && Run(s, events, t) && Knows(s, r, t0, d, ended, removed)
    ensures Knows(t, r, t0, d, ended || Ended(s, events, r), removed || Removed(s, events, r))
    decreases |events|
  {
    if events != [] {
      var e := events[0];
      NextKeeps(s, e);
      KnowsNext(s, e, r, t0, d, ended, removed);
      KnowsRun(Next(s, e), events[1..], t, r, t0, d, ended || EndsNow(s, e, r), removed || RemovesNow(s, e, r));
    }
  }

  lemma {:induction false} BornStays(s: State, e: Event, r: Ref)
    requires Allowed(s, e)
    ensures r in Next(s, e).log.born <==> r in s.log.born || (e.CallLater? && e.ref == r)
  {
  }

  /** A timer is made only once. */
  lemma {:induction false} MadeOnce(s: State, events: seq<Event>, t: State, r: Ref, d: u64, t0: u64)
    requires r in s.log.born && Run(s, events, t)
    ensures CallLater(r, d, t0) !in events
    decreases |events|
  {
    if events != [] {
      BornStays(s, events[0], r);
      MadeOnce(Next(s, events[0]), events[1..], t, r, d, t0);
      assert events == [events[0]] + events[1..];
    }
  }

  lemma {:induction false} MadeKnows(s: State, events: seq<Event>, t: State, r: Ref, d: u64, t0: u64)
    requires Inv(s) && Run(s, events, t) && r !in s.log.born && CallLater(r, d, t0) in events
    ensures Knows(t, r, t0, d, Ended(s, events, r), Removed(s, events, r))
    decreases |events|
  {
    var e, u := events[0], Next(s, events[0]);
    assert events == [e] + events[1..];
    NextKeeps(s, e);
    assert TimerInv(s, r);
    assert !EndsNow(s, e, r);
    if e == CallLater(r, d, t0) {
      BornKnows(s, r, d, t0);
      KnowsRun(u, events[1..], t, r, t0, d, false, false);
    } else {
      BornStays(s, e, r);
      if r in u.log.born {
        MadeOnce(u, events[1..], t, r, d, t0);
      }
      MadeKnows(u, events[1..], t, r, d, t0);
    }
  }

  // ----- when a timer is queued and when it is freed ---------------------------------------

  /** In every run a visit queues a timer if and only if it was never queued nor removed,
      and its time has come by the clock of the visit or it was canceled; and it frees the
      timer if and only if its job has finished, under the same condition on the time. */
  lemma {:induction false} VisitedExactly(events: seq<Event>, s: State, r: Ref, d: u64, t0: u64, id: u32, now: u64, job: JobId)
    requires Run(Initial, events, s) && CallLater(r, d, t0) in events
    requires Allowed(s, Visit(id, now, job)) && s.table[id] == r
    ensures var t, due := Next(s, Visit(id, now, job)), Minus64(now, t0) >= d || Ended(Initial, events, r);
            && (t.log.queued[r] != s.log.queued[r] <==> due && s.log.queued[r] == 0 && !Removed(Initial, events, r))
            && (r !in t.heap <==> due && s.log.finished[r] == 1)
  {
    InitialInv();
    RunKeeps(Initial, events, s);
    MadeKnows(Initial, events, s, r, d, t0);
    assert TimerInv(s, r);
  }

  /** A visit queues no other timer than the one visited. */
  lemma {:induction false} OnlyVisited(s: State, e: Event, r: Ref)
    requires Allowed(s, e) && !(e.Visit? && s.table[e.id] == r)
    ensures Next(s, e).log.queued[r] == s.log.queued[r]
  {
  }

  ghost predicate AllEarly(events: seq<Event>, d: u64, t0: u64)
  {
    forall i {:trigger events[i]} :: 0 <= i < |events| && events[i].Visit? ==> Minus64(events[i].now, t0) < d
  }

  lemma {:induction false} EarlyRun(s: State, events: seq<Event>, t: State, r: Ref, d: u64, t0: u64, removed: bool)
    requires Inv(s) && Run(s, events, t) && Knows(s, r, t0, d, false, removed) && s.log.queued[r] == 0
    requires AllEarly(events, d, t0) && !Ended(s, events, r)
    ensures t.log.queued[r] == 0
    decreases |events|
  {
    if events != [] {
      var e := events[0];
      NextKeeps(s, e);
      KnowsNext(s, e, r, t0, d, false, removed);
      if !(e.Visit? && s.table[e.id] == r) {
        OnlyVisited(s, e, r);
      }
      EarlyRun(Next(s, e), events[1..], t, r, d, t0, removed || RemovesNow(s, e, r));
    }
  }

  lemma {:induction false} MadeEarlyRun(s: State, events: seq<Event>, t: State, r: Ref, d: u64, t0: u64)
    requires Inv(s) && Run(s, events, t) && r !in s.log.born && CallLater(r, d, t0) in events
    requires AllEarly(events, d, t0) && !Ended(s, events, r)
    ensures t.log.queued[r] == 0
    decreases |events|
  {
    var e, u := events[0], Next(s, events[0]);
    assert events == [e] + events[1..];
    NextKeeps(s, e);
    assert TimerInv(s, r);
    if e == CallLater(r, d, t0) {
      BornKnows(s, r, d, t0);
      OnlyVisited(s, e, r);
      EarlyRun(u, events[1..], t, r, d, t0, false);
    } else {
      BornStays(s, e, r);
      if r in u.log.born {
        MadeOnce(u, events[1..], t, r, d, t0);
      }
      MadeEarlyRun(u, events[1..], t, r, d, t0);
    }
  }

  /** No handler is called before its time: as long as every tick comes less than the
      timeout after the call that made the timer, and it is not canceled, it is neither
      queued nor called. */
  lemma {:induction false} NeverEarly(events: seq<Event>, t: State, r: Ref, d: u64, t0: u64)
    requires Run(Initial, events, t) && CallLater(r, d, t0) in events
    requires AllEarly(events, d, t0) && !Ended(Initial, events, r)
    ensures t.log.queued[r] == 0 && t.log.calls[r] == 0
  {
    InitialInv();
    RunKeeps(Initial, events, t);
    MadeEarlyRun(Initial, events, t, r, d, t0);
    assert TimerInv(t, r);
  }

  // ----- a whole tick ------------------------------------------------------------------------

  lemma {:induction false} OtherVisit(s: State, id: u32, now: u64, job: JobId, other: u32)
    requires Consistent(s, job) && id in s.table && other in s.table && id != other
    ensures var t, r := OnVisit(s, id, now, job), s.table[other];
            && other in t.table && t.table[other] == r && r in t.heap && t.heap[r] == s.heap[r]
            && t.log.queued[r] == s.log.queued[r]
  {
  }

  lemma {:induction false} UnvisitedStays(s: State, order: seq<u32>, now: u64, job: JobId, id: u32)
    requires Consistent(s, job) && id in s.table && id !in order
    ensures var t, r := Visited(s, order, now, job), s.table[id];
            && Consistent(t, job + |order|) && id in t.table && t.table[id] == r && r in t.heap && t.heap[r] == s.heap[r]
            && t.log.queued[r] == s.log.queued[r]
    decreases |order|
  {
    VisitedConsistent(s, order, now, job);
    if order != [] {
      var k := |order| - 1;
      UnvisitedStays(s, order[..k], now, job, id);
      var t := Visited(s, order[..k], now, job);
      if order[k] in t.table {
        OtherVisit(t, order[k], now, job + k, id);
      }
    }
  }

  /** The timer r, once it has been visited, is not queued again by the others. */
  lemma {:induction false} QueuedStays(s: State, order: seq<u32>, k: nat, now: u64, job: JobId, r: Ref)
    requires Consistent(s, job) && k <= |order|
    requires forall id {:trigger s.table[id]} :: id in s.table && s.table[id] == r ==> id in order[..k]
    requires forall i, j {:trigger order[i], order[j]} :: 0 <= i < j < |order| ==> order[i] != order[j]
    ensures Visited(s, order, now, job).log.queued[r] == Visited(s, order[..k], now, job).log.queued[r]
    decreases |order|
  {
    if k < |order| {
      var n := |order| - 1;
      assert order[..n][..k] == order[..k];
      QueuedStays(s, order[..n], k, now, job, r);
      var t := Visited(s, order[..n], now, job);
      TableShrinks(s, order[..n], now, job);
      assert order[n] in t.table ==> t.table[order[n]] != r;
    } else {
      assert order[..k] == order;
    }
  }

  lemma {:induction false} TableShrinks(s: State, order: seq<u32>, now: u64, job: JobId)
    ensures forall id :: id in Visited(s, order, now, job).table ==> id in s.table && s.table[id] == Visited(s, order, now, job).table[id]
    decreases |order|
  {
    if order != [] {
      TableShrinks(s, order[..|order| - 1], now, job);
    }
  }

  /** One tick queues every timer in the table that is due, and no other: those whose
      handler is set and was not queued before, and whose time has come or that were
      canceled. */
  lemma {:induction false} TickQueuesDue(s: State, order: seq<u32>, now: u64, job: JobId, id: u32)
    requires Consistent(s, job) && Once(order, s.table.Keys) && id in s.table
    ensures var r, o := s.table[id], s.heap[s.table[id]];
            Visited(s, order, now, job).log.queued[r] == s.log.queued[r]
              + if o.func && o.calledAt == 0 && (Minus64(now, o.started) >= o.timeout || o.canceled) then 1 else 0
  {
    InOrder(order, s.table.Keys, id);
    var k :| 0 <= k < |order| && order[k] == id;
    assert id !in order[..k];
    UnvisitedStays(s, order[..k], now, job, id);
    VisitedSnoc(s, order[..k], id, now, job);
    assert order[..k] + [id] == order[..k + 1];
    assert order[..k + 1][k] == id;
    QueuedStays(s, order, k + 1, now, job, s.table[id]);
  }

  lemma {:induction false} InOrder(order: seq<u32>, seen: set<u32>, id: u32)
    requires Once(order, seen) && id in seen
    ensures id in order
  {
    var got := set i | 0 <= i < |order| :: order[i];
    Distinct(order, got);
    if id !in order {
      assert got <= seen - {id};
      Fewer(got, seen - {id});
    }
  }

  lemma {:induction false} Distinct(order: seq<u32>, got: set<u32>)
    requires got == set i | 0 <= i < |order| :: order[i]
    requires forall i, k {:trigger order[i], order[k]} :: 0 <= i < k < |order| ==> order[i] != order[k]
    ensures |got| == |order|
    decreases |order|
  {
    if order != [] {
      var n := |order| - 1;
      var less := set i | 0 <= i < n :: order[..n][i];
      Distinct(order[..n], less);
      assert got == less + {order[n]};
      assert order[n] !in less;
    }
  }

  lemma {:induction false} Fewer(a: set<u32>, b: set<u32>)
    requires a <= b
    ensures |a| <= |b|
  {
    assert b == a + (b - a);
  }
}
