/** What removing a timer can and cannot do (udap/timer.cpp): exactly when a worker calls
    a function pointer that remove has cleared, and exactly when a removed timer can
    still be freed. */
module TimerRemoval {
  import opened Bytes
  import opened Timer

  // ----- the cleared pointer --------------------------------------------------------------

  /** A worker is between testing the pointer of r and calling it, and the pointer is, or
      was when taken, null. */
  ghost predicate Exposing(s: State, r: Ref, j: JobId)
  {
    && j in s.jobs && s.jobs[j].ref == r
    && ((s.jobs[j].phase == Tested && r in s.heap && !s.heap[r].func) || s.jobs[j].phase == Taken(false))
  }

  ghost predicate Exposed(s: State, r: Ref)
  {
    exists j {:trigger Exposing(s, r, j)} :: Exposing(s, r, j)
  }

  ghost predicate Raced(s: State, r: Ref)
  {
    s.log.nullCalls[r] == 1 || Exposed(s, r)
  }

  ghost predicate TestedNow(s: State, r: Ref)
  {
    exists j {:trigger s.jobs[j]} :: j in s.jobs && s.jobs[j].ref == r && s.jobs[j].phase == Tested
  }

  /** The removal of r while a worker has tested its pointer and not taken it yet. */
  ghost predicate Hits(s: State, e: Event, r: Ref)
  {
    e.Remove? && e.id in s.table && s.table[e.id] == r && TestedNow(s, r)
  }

  lemma RacedCallLater(s: State, ref: Ref, timeout: u64, now: u64, r: Ref)
    requires Inv(s) && ref !in s.log.born
    ensures Raced(OnCallLater(s, ref, timeout, now), r) <==> Raced(s, r)
  {
    var t := OnCallLater(s, ref, timeout, now);
    assert TimerInv(s, r);
    if Exposed(t, r) {
      var k :| Exposing(t, r, k);
      assert k in s.jobs ==> JobInv(s, k);
      assert Exposing(s, r, k);
    }
    if Exposed(s, r) {
      var k :| Exposing(s, r, k);
      assert JobInv(s, k);
      assert Exposing(t, r, k);
    }
  }

  lemma RacedCancel(s: State, id: u32, r: Ref)
    requires Inv(s)
    ensures Raced(OnCancel(s, id), r) <==> Raced(s, r)
  {
    var t := OnCancel(s, id);
    assert TimerInv(s, r);
    if Exposed(t, r) {
      var k :| Exposing(t, r, k);
      assert k in s.jobs ==> JobInv(s, k);
      assert Exposing(s, r, k);
    }
    if Exposed(s, r) {
      var k :| Exposing(s, r, k);
      assert JobInv(s, k);
      assert Exposing(t, r, k);
    }
  }

  lemma RacedVisit(s: State, id: u32, now: u64, job: JobId, r: Ref)
    requires Inv(s) && Allowed(s, Visit(id, now, job))
    ensures Raced(OnVisit(s, id, now, job), r) <==> Raced(s, r)
  {
    var t := OnVisit(s, id, now, job);
    assert TimerInv(s, r);
    assert TimerInv(s, s.table[id]);
    if Exposed(t, r) {
      var k :| Exposing(t, r, k);
      assert k in s.jobs ==> JobInv(s, k);
      assert Exposing(s, r, k);
    }
    if Exposed(s, r) {
      var k :| Exposing(s, r, k);
      assert JobInv(s, k);
      assert k in t.jobs && t.jobs[k] == s.jobs[k];
      assert Exposing(t, r, k);
    }
  }

  lemma RacedTest(s: State, j: JobId, r: Ref)
    requires Inv(s) && At(s, j, Queued)
    ensures Raced(OnTest(s, j), r) <==> Raced(s, r)
  {
    var t := OnTest(s, j);
    assert TimerInv(s, r);
    if Exposed(t, r) {
      var k :| Exposing(t, r, k);
      assert k in s.jobs ==> JobInv(s, k);
      assert Exposing(s, r, k);
    }
    if Exposed(s, r) {
      var k :| Exposing(s, r, k);
      assert JobInv(s, k);
      assert Exposing(t, r, k);
    }
  }

  lemma RacedTake(s: State, j: JobId, r: Ref)
    requires Inv(s) && At(s, j, Tested)
    ensures Raced(OnTake(s, j), r) <==> Raced(s, r)
  {
    var t := OnTake(s, j);
    assert TimerInv(s, r);
    assert JobInv(s, j);
    if Exposed(t, r) {
      var k :| Exposing(t, r, k);
      assert k in s.jobs ==> JobInv(s, k);
      assert Exposing(s, r, k);
    }
    if Exposed(s, r) {
      var k :| Exposing(s, r, k);
      assert JobInv(s, k);
      assert Exposing(t, r, k);
    }
  }

  lemma RacedCall(s: State, j: JobId, r: Ref)
    requires Inv(s) && Allowed(s, Call(j))
    ensures Raced(OnCall(s, j), r) <==> Raced(s, r)
  {
    var t := OnCall(s, j);
    assert JobInv(s, j) && TimerInv(s, r);
    if s.jobs[j].ref == r {
      forall k | k in s.jobs && s.jobs[k].ref == r
        ensures k == j
      {
      }
      assert forall k :: !Exposing(t, r, k);
      assert Exposing(s, r, j) <==> !s.jobs[j].phase.call;
    } else {
      assert t.log.nullCalls[r] == s.log.nullCalls[r];
      assert forall k :: k in s.jobs && s.jobs[k].ref == r ==> t.jobs[k] == s.jobs[k];
      if Exposed(t, r) {
        var k :| Exposing(t, r, k);
        assert Exposing(s, r, k);
      }
      if Exposed(s, r) {
        var k :| Exposing(s, r, k);
        assert Exposing(t, r, k);
      }
    }
  }

  lemma RacedFinish(s: State, j: JobId, r: Ref)
    requires Inv(s) && At(s, j, Returned)
    ensures Raced(OnFinish(s, j), r) <==> Raced(s, r)
  {
    var t := OnFinish(s, j);
    assert TimerInv(s, r);
    assert JobInv(s, j);
    if Exposed(t, r) {
      var k :| Exposing(t, r, k);
      assert k in s.jobs ==> JobInv(s, k);
      assert Exposing(s, r, k);
    }
    if Exposed(s, r) {
      var k :| Exposing(s, r, k);
      assert JobInv(s, k);
      assert k != j && t.jobs[k] == s.jobs[k];
      assert Exposing(t, r, k);
    }
  }

  lemma RacedRemove(s: State, id: u32, r: Ref)
    requires Inv(s)
    ensures Raced(OnRemove(s, id), r) <==> Raced(s, r) || Hits(s, Remove(id), r)
  {
    var t := OnRemove(s, id);
    assert TimerInv(s, r);
    assert id in s.table ==> s.table[id] in s.heap;
    if Exposed(t, r) {
      var k :| Exposing(t, r, k);
      assert k in s.jobs ==> JobInv(s, k);
      assert t.jobs[k] == s.jobs[k];
      assert Exposing(s, r, k) || Hits(s, Remove(id), r);
    }
    if Exposed(s, r) {
      var k :| Exposing(s, r, k);
      assert JobInv(s, k);
      assert Exposing(t, r, k);
    }
    if Hits(s, Remove(id), r) {
      var k :| k in s.jobs && s.jobs[k].ref == r && s.jobs[k].phase == Tested;
      assert Exposing(t, r, k);
    }
  }

  /** One step: a race begins with such a removal and with nothing else, and is never
      undone. */
  lemma RacedStep(s: State, e: Event, r: Ref)
    requires Inv(s) && Allowed(s, e)
    ensures Raced(Next(s, e), r) <==> Raced(s, r) || Hits(s, e, r)
  {
    match e
    case CallLater(ref, timeout, now) => RacedCallLater(s, ref, timeout, now, r);
    case Cancel(id) => RacedCancel(s, id, r);
    case Remove(id) => RacedRemove(s, id, r);
    case Visit(id, now, job) => RacedVisit(s, id, now, job, r);
    case Test(j) => RacedTest(s, j, r);
    case Take(j) => RacedTake(s, j, r);
    case Call(j) => RacedCall(s, j, r);
    case Finish(j) => RacedFinish(s, j, r);
    case Stop =>
      assert Next(s, Stop).jobs == s.jobs && Next(s, Stop).heap == s.heap;
      assert forall k :: Exposing(Next(s, Stop), r, k) == Exposing(s, r, k);
  }

  /** Somewhere in the run r is removed between test and take. */
  ghost predicate RemovalHits(s: State, events: seq<Event>, r: Ref)
    decreases |events|
  {
    events != [] && Allowed(s, events[0]) && (Hits(s, events[0], r) || RemovalHits(Next(s, events[0]), events[1..], r))
  }

  lemma {:induction false} RunRaced(s: State, events: seq<Event>, t: State, r: Ref)
    requires Inv(s) && Run(s, events, t)
    ensures Raced(t, r) <==> Raced(s, r) || RemovalHits(s, events, r)
    decreases |events|
  {
    if events != [] {
      NextKeeps(s, events[0]);
      RacedStep(s, events[0], r);
      RunRaced(Next(s, events[0]), events[1..], t, r);
    }
  }

  /** In every interleaving: a worker calls a cleared pointer of r, or is about to, if and
      only if r was removed between the test and the taking of the pointer; and once the
      job of r has finished, it has called it if and only if that happened. */
  lemma NullCallExactly(events: seq<Event>, t: State, r: Ref)
    requires Run(Initial, events, t)
    ensures Raced(t, r) <==> RemovalHits(Initial, events, r)
    ensures t.log.finished[r] == 1 ==> (t.log.nullCalls[r] == 1 <==> RemovalHits(Initial, events, r))
    ensures t.log.nullCalls[r] <= 1
  {
    InitialInv();
    RunKeeps(Initial, events, t);
    RunRaced(Initial, events, t, r);
    assert TimerInv(t, r);
    if Exposed(t, r) {
      var k :| Exposing(t, r, k);
      assert JobInv(t, k);
    }
  }

  /** Such a removal can happen whenever a worker has tested the pointer, and then the next
      two steps of that worker make the call. */
  lemma RemovalMayRace(s: State, j: JobId, id: u32) returns (t: State)
    requires Inv(s) && At(s, j, Tested) && id in s.table && s.table[id] == s.jobs[j].ref
    ensures Run(s, [Remove(id), Take(j), Call(j)], t) && t.log.nullCalls[s.jobs[j].ref] == 1
  {
    var r := s.jobs[j].ref;
    assert JobInv(s, j) && TimerInv(s, r);
    var s1 := OnRemove(s, id);
    var s2 := OnTake(s1, j);
    assert s2.jobs[j] == Job(r, Taken(false));
    t := OnCall(s2, j);
    assert Run(t, [], t);
    RunCons(s2, Call(j), [], t);
    RunCons(s1, Take(j), [Call(j)] + [], t);
    RunCons(s, Remove(id), [Take(j)] + ([Call(j)] + []), t);
    assert [Remove(id)] + ([Take(j)] + ([Call(j)] + [])) == [Remove(id), Take(j), Call(j)];
  }

  // ----- freeing a removed timer ----------------------------------------------------------

  /** A timer that was removed before it was queued. */
  ghost predicate Stranded(s: State, r: Ref)
  {
    r in s.heap && !s.heap[r].func && s.log.queued[r] == 0
  }

  lemma {:induction false} StrandedForever(s: State, events: seq<Event>, t: State, r: Ref)
    requires Inv(s) && Stranded(s, r) && Run(s, events, t)
    ensures r in t.heap
    decreases |events|
  {
    if events != [] {
      var u := Next(s, events[0]);
      NextKeeps(s, events[0]);
      StrandedStays(s, events[0], r);
      StrandedForever(u, events[1..], t, r);
    }
  }

  lemma StrandedStays(s: State, e: Event, r: Ref)
    requires Inv(s) && Stranded(s, r) && Allowed(s, e)
    ensures Stranded(Next(s, e), r)
  {
    assert TimerInv(s, r);
    forall j | j in s.jobs
      ensures s.jobs[j].ref != r
    {
      assert JobInv(s, j);
    }
    match e
    case CallLater(ref, timeout, now) =>
    case Cancel(id) =>
    case Remove(id) =>
    case Visit(id, now, job) =>
    case Test(j) =>
    case Take(j) =>
    case Call(j) =>
    case Finish(j) =>
    case Stop =>
  }

  /** A visit to a canceled timer frees it if and only if its job has finished. */
  lemma VisitFreesExactly(s: State, id: u32, now: u64, job: JobId)
    requires Inv(s) && Allowed(s, Visit(id, now, job)) && s.heap[s.table[id]].canceled
    ensures s.table[id] !in OnVisit(s, id, now, job).heap <==> s.log.finished[s.table[id]] == 1
  {
    assert TimerInv(s, s.table[id]);
  }

  /** A timer that was queued and has not finished has a job. */
  ghost predicate HasJob(s: State, r: Ref)
  {
    exists j {:trigger s.jobs[j]} :: j in s.jobs && s.jobs[j].ref == r
  }

  ghost predicate Busy(s: State, r: Ref)
  {
    s.log.queued[r] == 1 && s.log.finished[r] == 0 ==> HasJob(s, r)
  }

  lemma BusyStays(s: State, e: Event, r: Ref)
    requires Inv(s) && Allowed(s, e) && Busy(s, r)
    ensures Busy(Next(s, e), r)
  {
    var t := Next(s, e);
    assert TimerInv(s, r);
    if e.Visit? {
      BusyVisit(s, e.id, e.now, e.job, r);
    } else if t.log.queued[r] == 1 && t.log.finished[r] == 0 {
      assert s.log.queued[r] == 1 && s.log.finished[r] == 0;
      var j :| j in s.jobs && s.jobs[j].ref == r;
      assert j in t.jobs && t.jobs[j].ref == r;
    }
  }

  lemma BusyVisit(s: State, id: u32, now: u64, job: JobId, r: Ref)
    requires Inv(s) && Allowed(s, Visit(id, now, job)) && Busy(s, r)
    ensures Busy(OnVisit(s, id, now, job), r)
  {
    var t := OnVisit(s, id, now, job);
    if Queues(s.heap[s.table[id]], now) && s.table[id] == r {
      assert job in t.jobs && t.jobs[job].ref == r;
    } else if t.log.queued[r] == 1 && t.log.finished[r] == 0 {
      assert t.log.queued[r] == s.log.queued[r];
      var j :| j in s.jobs && s.jobs[j].ref == r;
      assert j in t.jobs && t.jobs[j].ref == r;
    }
  }

  lemma {:induction false} BusyAlways(s: State, events: seq<Event>, t: State, r: Ref)
    requires Inv(s) && Busy(s, r) && Run(s, events, t)
    ensures Busy(t, r)
    decreases |events|
  {
    if events != [] {
      NextKeeps(s, events[0]);
      BusyStays(s, events[0], r);
      BusyAlways(Next(s, events[0]), events[1..], t, r);
    }
  }

  /** Once stopped, nothing is freed. */
  lemma {:induction false} StoppedForever(s: State, events: seq<Event>, t: State, r: Ref)
    requires !s.running && r in s.heap && Run(s, events, t)
    ensures r in t.heap
    decreases |events|
  {
    if events != [] {
      var u := Next(s, events[0]);
      assert !u.running && r in u.heap;
      StoppedForever(u, events[1..], t, r);
    }
  }

  lemma {:induction false} Unused(taken: set<nat>) returns (n: nat)
    ensures n !in taken && forall k :: k in taken ==> k < n
    decreases taken
  {
    if taken == {} {
      n := 0;
    } else {
      var k :| k in taken;
      var m := Unused(taken - {k});
      n := if k >= m then k + 1 else m;
      assert forall i :: i in taken ==> i == k || i in taken - {k};
    }
  }

  /** The scheduler runs, and r is removed but still in the table. */
  ghost predicate Removed(s: State, id: u32, r: Ref)
  {
    Inv(s) && s.running && id in s.table && s.table[id] == r && s.heap[r].canceled && !s.heap[r].func
  }

  lemma FreedAfterFinish(s: State, id: u32, r: Ref) returns (after: seq<Event>, t: State)
    requires Removed(s, id, r) && s.log.finished[r] == 1
    ensures Run(s, after, t) && r !in t.heap
  {
    var job := Unused(s.jobs.Keys);
    VisitFreesExactly(s, id, 1, job);
    t := OnVisit(s, id, 1, job);
    assert Run(t, [], t);
    RunCons(s, Visit(id, 1, job), [], t);
    after := [Visit(id, 1, job)] + [];
  }

  /** The remaining steps of the job, one by one, and then the visit. */
  lemma FreedAfterStep(s: State, e: Event, rest: seq<Event>, t: State) returns (after: seq<Event>)
    requires Allowed(s, e) && Run(Next(s, e), rest, t)
    ensures Run(s, after, t)
  {
    RunCons(s, e, rest, t);
    after := [e] + rest;
  }

  lemma FreedFromReturned(s: State, id: u32, r: Ref, j: JobId) returns (after: seq<Event>, t: State)
    requires Removed(s, id, r) && At(s, j, Returned) && s.jobs[j].ref == r
    ensures Run(s, after, t) && r !in t.heap
  {
    assert JobInv(s, j);
    FinishKeeps(s, j);
    var u := OnFinish(s, j);
    after, t := FreedAfterFinish(u, id, r);
    after := FreedAfterStep(s, Finish(j), after, t);
  }

  lemma FreedFromTaken(s: State, id: u32, r: Ref, j: JobId) returns (after: seq<Event>, t: State)
    requires Removed(s, id, r) && Allowed(s, Call(j)) && s.jobs[j].ref == r
    ensures Run(s, after, t) && r !in t.heap
  {
    CallKeeps(s, j);
    var u := OnCall(s, j);
    after, t := FreedFromReturned(u, id, r, j);
    after := FreedAfterStep(s, Call(j), after, t);
  }

  lemma FreedFromTested(s: State, id: u32, r: Ref, j: JobId) returns (after: seq<Event>, t: State)
    requires Removed(s, id, r) && At(s, j, Tested) && s.jobs[j].ref == r
    ensures Run(s, after, t) && r !in t.heap
  {
    TakeKeeps(s, j);
    var u := OnTake(s, j);
    after, t := FreedFromTaken(u, id, r, j);
    after := FreedAfterStep(s, Take(j), after, t);
  }

  lemma FreedFromQueued(s: State, id: u32, r: Ref, j: JobId) returns (after: seq<Event>, t: State)
    requires Removed(s, id, r) && At(s, j, Queued) && s.jobs[j].ref == r
    ensures Run(s, after, t) && r !in t.heap
  {
    TestKeeps(s, j);
    var u := OnTest(s, j);
    after, t := FreedFromReturned(u, id, r, j);
    after := FreedAfterStep(s, Test(j), after, t);
  }

  lemma FreedFromJob(s: State, id: u32, r: Ref, j: JobId) returns (after: seq<Event>, t: State)
    requires Removed(s, id, r) && j in s.jobs && s.jobs[j].ref == r
    ensures Run(s, after, t) && r !in t.heap
  {
    assert JobInv(s, j);
    match s.jobs[j].phase
    case Queued => after, t := FreedFromQueued(s, id, r, j);
    case Tested => after, t := FreedFromTested(s, id, r, j);
    case Taken(_) => after, t := FreedFromTaken(s, id, r, j);
    case Returned => after, t := FreedFromReturned(s, id, r, j);
  }

  lemma CanBeFreed(s: State, id: u32, r: Ref) returns (after: seq<Event>, t: State)
    requires Removed(s, id, r) && s.log.queued[r] == 1 && Busy(s, r)
    ensures Run(s, after, t) && r !in t.heap
  {
    assert TimerInv(s, r);
    if s.log.finished[r] == 1 {
      after, t := FreedAfterFinish(s, id, r);
    } else {
      var j :| j in s.jobs && s.jobs[j].ref == r;
      after, t := FreedFromJob(s, id, r, j);
    }
  }

  /** These steps free r. */
  ghost predicate FreedBy(s: State, r: Ref, after: seq<Event>, t: State)
  {
    Run(s, after, t) && r !in t.heap
  }

  /** In every run: a timer that is removed can still be freed if and only if it had been
      queued by then and the scheduler runs. Otherwise no continuation frees it, because
      only its job marks it done. */
  lemma RemovedIsFreedExactly(before: seq<Event>, s: State, id: u32)
    requires Run(Initial, before, s) && id in s.table
    ensures (exists after, t :: FreedBy(OnRemove(s, id), s.table[id], after, t))
            <==> s.running && s.log.queued[s.table[id]] == 1
  {
    var r, u := s.table[id], OnRemove(s, id);
    InitialInv();
    RunKeeps(Initial, before, s);
    assert TimerInv(s, r);
    RemoveKeeps(s, id);
    if s.running && s.log.queued[r] == 1 {
      BusyAlways(Initial, before, s, r);
      BusyStays(s, Remove(id), r);
      var after, t := CanBeFreed(u, id, r);
      assert FreedBy(u, r, after, t);
    } else {
      forall after, t | Run(u, after, t)
        ensures !FreedBy(u, r, after, t)
      {
        if s.running {
          StrandedForever(u, after, t, r);
        } else {
          StoppedForever(u, after, t, r);
        }
      }
    }
  }
}
