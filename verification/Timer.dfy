/** The timer scheduler (udap/timer.cpp): callers, the ticking thread and the worker
    threads that run the queued jobs, interleaved step by step.

    The table is used under a lock; a job reads and writes its timer without one, so
    timer::exec is four steps: test the function pointer, take it and clear it, call
    it, mark the timer done. */
module Timer {
  import opened Bytes

  const IDS: nat := 0x1_0000_0000
  type u32 = v: nat | v < IDS
  type Ref = nat
  type JobId = nat

  /** `func` says whether the function pointer is set. */
  datatype Object = Object(started: u64, timeout: u64, calledAt: u64, func: bool, done: bool, canceled: bool)

  datatype Phase = Queued | Tested | Taken(call: bool) | Returned
  datatype Job = Job(ref: Ref, phase: Phase)

  /** What happened so far: the timers that ever existed and, per timer, the jobs
      queued and finished, the calls of its handler, and calls of a function pointer
      that had been cleared. */
  datatype Log = Log(
    born: set<Ref>, queued: multiset<Ref>, finished: multiset<Ref>, calls: multiset<Ref>, nullCalls: multiset<Ref>)

  /** `heap` holds the timers that exist; `table` maps ids to timers; `jobs` are
      queued or running. */
  datatype State = State(
    running: bool, ids: u32, table: map<u32, Ref>, heap: map<Ref, Object>, jobs: map<JobId, Job>, log: Log)

  datatype Event =
    | CallLater(ref: Ref, timeout: u64, now: u64)
    | Cancel(id: u32)
    | Remove(id: u32)
    | Visit(id: u32, now: u64, job: JobId)
    | Test(job: JobId)
    | Take(job: JobId)
    | Call(job: JobId)
    | Finish(job: JobId)
    | Stop

  const Initial := State(true, 0, map[], map[], map[], Log({}, multiset{}, multiset{}, multiset{}, multiset{}))

  // ----- steps ----------------------------------------------------------------------

  predicate At(s: State, j: JobId, phase: Phase) {
    j in s.jobs && s.jobs[j].phase == phase && s.jobs[j].ref in s.heap
  }

  /** The clock is positive; an allocation and a job are new. */
  predicate Allowed(s: State, e: Event)
  {
    match e
    case CallLater(ref, _, _) => ref !in s.log.born
    case Cancel(_) => true
    case Remove(_) => true
    case Visit(id, now, job) => s.running && id in s.table && s.table[id] in s.heap && now > 0 && job !in s.jobs
    case Test(j) => At(s, j, Queued)
    case Take(j) => At(s, j, Tested)
    case Call(j) => j in s.jobs && s.jobs[j].phase.Taken? && s.jobs[j].ref in s.heap
    case Finish(j) => At(s, j, Returned)
    case Stop => true
  }

  function Set(s: State, r: Ref, o: Object): (t: State) {
    s.(heap := s.heap[r := o])
  }

  /** call_later: an id that wraps around replaces the timer it had. */
  function OnCallLater(s: State, ref: Ref, timeout: u64, now: u64): (t: State)
  {
    var id := (s.ids + 1) % IDS;
    s.(ids := id, table := s.table[id := ref], log := s.log.(born := s.log.born + {ref}),
       heap := s.heap[ref := Object(now, timeout, 0, true, false, false)])
  }

  function OnCancel(s: State, id: u32): (t: State)
  {
    if id in s.table && s.table[id] in s.heap then Set(s, s.table[id], s.heap[s.table[id]].(canceled := true)) else s
  }

  function OnRemove(s: State, id: u32): (t: State)
  {
    if id in s.table && s.table[id] in s.heap
    then Set(s, s.table[id], s.heap[s.table[id]].(func := false, canceled := true)) else s
  }

  predicate Hit(o: Object, now: u64) {
    Minus64(now, o.started) >= o.timeout || o.canceled
  }

  predicate Queues(o: Object, now: u64) {
    Hit(o, now) && o.func && o.calledAt == 0
  }

  predicate Frees(o: Object, now: u64) {
    Hit(o, now) && !Queues(o, now) && o.done
  }

  function Enqueued(s: State, r: Ref, now: u64, job: JobId): (t: State)
    requires r in s.heap
  {
    Set(s, r, s.heap[r].(calledAt := now)).(jobs := s.jobs[job := Job(r, Queued)], log := s.log.(queued := s.log.queued + multiset{r}))
  }

  /** One round of the loop in tick_all. */
  function OnVisit(s: State, id: u32, now: u64, job: JobId): (t: State)
    requires id in s.table && s.table[id] in s.heap
  {
    var ref := s.table[id];
    var o := s.heap[ref];
    if Queues(o, now) then Enqueued(s, ref, now, job)
    else if Frees(o, now) then s.(table := s.table - {id}, heap := s.heap - {ref})
    else s
  }

  function OnTest(s: State, j: JobId): (t: State)
    requires At(s, j, Queued)
  {
    var job := s.jobs[j];
    s.(jobs := s.jobs[j := job.(phase := if s.heap[job.ref].func then Tested else Returned)])
  }

  function OnTake(s: State, j: JobId): (t: State)
    requires At(s, j, Tested)
  {
    var job := s.jobs[j];
    var o := s.heap[job.ref];
    Set(s, job.ref, o.(func := false)).(jobs := s.jobs[j := job.(phase := Taken(o.func))])
  }

  function OnCall(s: State, j: JobId): (t: State)
    requires j in s.jobs && s.jobs[j].phase.Taken?
  {
    var job := s.jobs[j];
    var t := s.(jobs := s.jobs[j := job.(phase := Returned)]);
    if job.phase.call then t.(log := t.log.(calls := t.log.calls + multiset{job.ref}))
    else t.(log := t.log.(nullCalls := t.log.nullCalls + multiset{job.ref}))
  }

  function OnFinish(s: State, j: JobId): (t: State)
    requires At(s, j, Returned)
  {
    var ref := s.jobs[j].ref;
    Set(s, ref, s.heap[ref].(done := true)).(jobs := s.jobs - {j}, log := s.log.(finished := s.log.finished + multiset{ref}))
  }

  function Next(s: State, e: Event): (t: State)
    requires Allowed(s, e)
  {
    match e
    case CallLater(ref, timeout, now) => OnCallLater(s, ref, timeout, now)
    case Cancel(id) => OnCancel(s, id)
    case Remove(id) => OnRemove(s, id)
    case Visit(id, now, job) => OnVisit(s, id, now, job)
    case Test(j) => OnTest(s, j)
    case Take(j) => OnTake(s, j)
    case Call(j) => OnCall(s, j)
    case Finish(j) => OnFinish(s, j)
    case Stop => s.(running := false, table := map[])
  }

  // ----- what every state satisfies ----------------------------------------------------

  /** The job of a timer: none before it is queued or after it is done, one in
      between, and how far that one has come bounds the calls. */
  ghost predicate TimerInv(s: State, r: Ref)
  {
    && s.log.queued[r] <= 1 && s.log.finished[r] <= s.log.queued[r] && s.log.calls[r] + s.log.nullCalls[r] <= 1
    && (s.log.queued[r] == 0 ==> s.log.calls[r] + s.log.nullCalls[r] == 0)
    && (r !in s.log.born ==> s.log.queued[r] == 0)
    && (r in s.heap ==> r in s.log.born)
    && (r in s.log.born && r !in s.heap ==> s.log.finished[r] == 1)
    && (r in s.heap ==>
          var o := s.heap[r];
          && (o.calledAt == 0 <==> s.log.queued[r] == 0)
          && (o.done <==> s.log.finished[r] == 1)
          && (s.log.calls[r] + s.log.nullCalls[r] == 1 ==> !o.func))
  }

  /** A job is the only one of its timer, which exists and is not done; and nothing
      was called for it before its last step. */
  ghost predicate JobInv(s: State, j: JobId)
    requires j in s.jobs
  {
    var r := s.jobs[j].ref;
    && r in s.heap && s.log.queued[r] == 1 && s.log.finished[r] == 0
    && (s.jobs[j].phase != Returned ==> s.log.calls[r] + s.log.nullCalls[r] == 0)
    && (s.jobs[j].phase.Taken? ==> !s.heap[r].func)
  }

  ghost predicate Inv(s: State)
  {
    && (forall r {:trigger TimerInv(s, r)} :: TimerInv(s, r))
    && (forall j {:trigger JobInv(s, j)} :: j in s.jobs ==> JobInv(s, j))
    && (forall j, k {:trigger s.jobs[j], s.jobs[k]} :: j in s.jobs && k in s.jobs && s.jobs[j].ref == s.jobs[k].ref ==> j == k)
    && (forall id {:trigger s.table[id]} :: id in s.table ==> s.table[id] in s.heap)
    && (forall id, d {:trigger s.table[id], s.table[d]} :: id in s.table && d in s.table && s.table[id] == s.table[d] ==> id == d)
  }

  // every step keeps the invariant

  lemma CallLaterKeeps(s: State, ref: Ref, timeout: u64, now: u64)
    requires Inv(s) && ref !in s.log.born
    ensures Inv(OnCallLater(s, ref, timeout, now))
  {
    var t := OnCallLater(s, ref, timeout, now);
    forall id | id in s.table
      ensures s.table[id] != ref
    {
      assert TimerInv(s, s.table[id]);
    }
    forall r
      ensures TimerInv(t, r)
    {
      assert TimerInv(s, r);
      assert TimerInv(s, ref);
    }
    forall k | k in t.jobs
      ensures JobInv(t, k)
    {
      assert k in s.jobs ==> JobInv(s, k) && TimerInv(s, s.jobs[k].ref);
    }
  }

  lemma CancelKeeps(s: State, id: u32)
    requires Inv(s)
    ensures Inv(OnCancel(s, id))
  {
    var t := OnCancel(s, id);
    forall r
      ensures TimerInv(t, r)
    {
      assert TimerInv(s, r);
    }
    forall k | k in t.jobs
      ensures JobInv(t, k)
    {
      assert k in s.jobs ==> JobInv(s, k) && TimerInv(s, s.jobs[k].ref);
    }
  }

  lemma RemoveKeeps(s: State, id: u32)
    requires Inv(s)
    ensures Inv(OnRemove(s, id))
  {
    var t := OnRemove(s, id);
    forall r
      ensures TimerInv(t, r)
    {
      assert TimerInv(s, r);
    }
    forall k | k in t.jobs
      ensures JobInv(t, k)
    {
      assert k in s.jobs ==> JobInv(s, k) && TimerInv(s, s.jobs[k].ref);
    }
  }

  /** A timer that is queued had no job, one that is freed has none any more. */
  lemma VisitedHasNoJob(s: State, r: Ref, now: u64, j: JobId)
    requires Inv(s) && r in s.heap && (Queues(s.heap[r], now) || Frees(s.heap[r], now)) && j in s.jobs
    ensures s.jobs[j].ref != r
  {
    assert JobInv(s, j) && TimerInv(s, r);
  }

  lemma EnqueuedKeeps(s: State, r: Ref, now: u64, job: JobId)
    requires Inv(s) && r in s.heap && Queues(s.heap[r], now) && now > 0 && job !in s.jobs
    ensures Inv(Enqueued(s, r, now, job))
  {
    var t := Enqueued(s, r, now, job);
    assert TimerInv(s, r);
    forall q
      ensures TimerInv(t, q)
    {
      assert TimerInv(s, q);
    }
    forall k | k in t.jobs
      ensures JobInv(t, k) && (k != job ==> t.jobs[k].ref != r)
    {
      if k != job {
        assert JobInv(s, k);
        VisitedHasNoJob(s, r, now, k);
      }
    }
  }

  lemma FreedKeeps(s: State, id: u32, now: u64)
    requires Inv(s) && id in s.table && Frees(s.heap[s.table[id]], now)
    ensures Inv(s.(table := s.table - {id}, heap := s.heap - {s.table[id]}))
  {
    var r := s.table[id];
    var t := s.(table := s.table - {id}, heap := s.heap - {r});
    forall q
      ensures TimerInv(t, q)
    {
      assert TimerInv(s, q);
    }
    forall k | k in t.jobs
      ensures JobInv(t, k)
    {
      assert JobInv(s, k);
      VisitedHasNoJob(s, r, now, k);
    }
  }

  lemma VisitKeeps(s: State, id: u32, now: u64, job: JobId)
    requires Inv(s) && Allowed(s, Visit(id, now, job))
    ensures Inv(OnVisit(s, id, now, job))
  {
    var o := s.heap[s.table[id]];
    if Queues(o, now) {
      EnqueuedKeeps(s, s.table[id], now, job);
    } else if Frees(o, now) {
      FreedKeeps(s, id, now);
    }
  }

  lemma TestKeeps(s: State, j: JobId)
    requires Inv(s) && At(s, j, Queued)
    ensures Inv(OnTest(s, j))
  {
    var t := OnTest(s, j);
    forall r
      ensures TimerInv(t, r)
    {
      assert TimerInv(s, r);
    }
    forall k | k in t.jobs
      ensures JobInv(t, k)
    {
      assert k in s.jobs ==> JobInv(s, k) && TimerInv(s, s.jobs[k].ref);
    }
  }

  lemma TakeKeeps(s: State, j: JobId)
    requires Inv(s) && At(s, j, Tested)
    ensures Inv(OnTake(s, j))
  {
    var t := OnTake(s, j);
    forall r
      ensures TimerInv(t, r)
    {
      assert TimerInv(s, r);
      assert JobInv(s, j);
    }
    forall k | k in t.jobs
      ensures JobInv(t, k)
    {
      assert k in s.jobs ==> JobInv(s, k) && TimerInv(s, s.jobs[k].ref);
    }
  }

  lemma CallKeepsTimers(s: State, j: JobId, r: Ref)
    requires Inv(s) && Allowed(s, Call(j))
    ensures TimerInv(OnCall(s, j), r)
  {
    var t, ref := OnCall(s, j), s.jobs[j].ref;
    assert JobInv(s, j) && TimerInv(s, r);
    if r == ref {
      assert t.log.calls[r] + t.log.nullCalls[r] == 1;
    } else {
      assert t.log.calls[r] == s.log.calls[r] && t.log.nullCalls[r] == s.log.nullCalls[r];
    }
  }

  lemma CallKeepsJobs(s: State, j: JobId, k: JobId)
    requires Inv(s) && Allowed(s, Call(j)) && k in s.jobs
    ensures JobInv(OnCall(s, j), k)
  {
    var t, ref := OnCall(s, j), s.jobs[j].ref;
    assert JobInv(s, k);
    if k != j {
      assert s.jobs[k].ref != ref;
      assert t.log.calls[s.jobs[k].ref] == s.log.calls[s.jobs[k].ref] && t.log.nullCalls[s.jobs[k].ref] == s.log.nullCalls[s.jobs[k].ref];
    }
  }

  lemma CallKeeps(s: State, j: JobId)
    requires Inv(s) && Allowed(s, Call(j))
    ensures Inv(OnCall(s, j))
  {
    var t := OnCall(s, j);
    forall r
      ensures TimerInv(t, r)
    {
      CallKeepsTimers(s, j, r);
    }
    forall k | k in t.jobs
      ensures JobInv(t, k)
    {
      CallKeepsJobs(s, j, k);
    }
  }

  lemma FinishKeeps(s: State, j: JobId)
    requires Inv(s) && At(s, j, Returned)
    ensures Inv(OnFinish(s, j))
  {
    var t := OnFinish(s, j);
    forall r
      ensures TimerInv(t, r)
    {
      assert TimerInv(s, r);
      assert JobInv(s, j);
    }
    forall k | k in t.jobs
      ensures JobInv(t, k)
    {
      assert k in s.jobs ==> JobInv(s, k) && TimerInv(s, s.jobs[k].ref);
    }
  }

  lemma StopKeeps(s: State)
    requires Inv(s)
    ensures Inv(Next(s, Stop))
  {
    var t := Next(s, Stop);
    forall r
      ensures TimerInv(t, r)
    {
      assert TimerInv(s, r);
    }
    forall k | k in t.jobs
      ensures JobInv(t, k)
    {
      assert JobInv(s, k);
    }
  }

  lemma NextKeeps(s: State, e: Event)
    requires Inv(s) && Allowed(s, e)
    ensures Inv(Next(s, e))
  {
    match e
    case CallLater(ref, timeout, now) => CallLaterKeeps(s, ref, timeout, now);
    case Cancel(id) => CancelKeeps(s, id);
    case Remove(id) => RemoveKeeps(s, id);
    case Visit(id, now, job) => VisitKeeps(s, id, now, job);
    case Test(j) => TestKeeps(s, j);
    case Take(j) => TakeKeeps(s, j);
    case Call(j) => CallKeeps(s, j);
    case Finish(j) => FinishKeeps(s, j);
    case Stop => StopKeeps(s);
  }

  ghost predicate Run(s: State, events: seq<Event>, t: State)
    decreases |events|
  {
    if events == [] then s == t
    else Allowed(s, events[0]) && Run(Next(s, events[0]), events[1..], t)
  }

  lemma {:induction false} RunKeeps(s: State, events: seq<Event>, t: State)
    requires Inv(s) && Run(s, events, t)
    ensures Inv(t)
    decreases |events|
  {
    if events != [] {
      NextKeeps(s, events[0]);
      RunKeeps(Next(s, events[0]), events[1..], t);
    }
  }

  lemma InitialInv()
    ensures Inv(Initial)
  {
    forall r
      ensures TimerInv(Initial, r)
    {
    }
  }

  /** In every interleaving a timer has at most one job, ever; its handler is called
      at most once; and a timer that was freed had its job queued and finished. */
  lemma AtMostOnce(events: seq<Event>, s: State, r: Ref, j: JobId, k: JobId)
    requires Run(Initial, events, s)
    ensures s.log.queued[r] <= 1 && s.log.calls[r] <= 1
    ensures j in s.jobs && k in s.jobs && s.jobs[j].ref == r && s.jobs[k].ref == r ==> j == k
    ensures r in s.log.born && r !in s.heap ==> s.log.queued[r] == 1 && s.log.finished[r] == 1 && !(j in s.jobs && s.jobs[j].ref == r)
  {
    InitialInv();
    RunKeeps(Initial, events, s);
    assert TimerInv(s, r);
    assert j in s.jobs ==> JobInv(s, j);
  }

  // ----- removal ------------------------------------------------------------------------

  /** The handler of r has not been called, and no worker holds it any more. */
  ghost predicate Disarmed(s: State, r: Ref)
  {
    && r in s.log.born && s.log.calls[r] == 0
    && (r in s.heap ==> !s.heap[r].func)
    && forall j {:trigger s.jobs[j]} :: j in s.jobs && s.jobs[j].ref == r ==> s.jobs[j].phase != Taken(true)
  }

  lemma DisarmedStays(s: State, e: Event, r: Ref)
    requires Allowed(s, e) && Disarmed(s, r)
    ensures Disarmed(Next(s, e), r)
  {
    match e
    case CallLater(ref, timeout, now) =>
    case Cancel(id) =>
    case Remove(id) =>
    case Visit(id, now, job) =>
    case Test(j) =>
    case Take(j) =>
    case Call(j) =>
    case Finish(j) =>
    case Stop =>
  }

  lemma {:induction false} DisarmedForever(s: State, events: seq<Event>, t: State, r: Ref)
    requires Disarmed(s, r) && Run(s, events, t)
    ensures t.log.calls[r] == 0
    decreases |events|
  {
    if events != [] {
      DisarmedStays(s, events[0], r);
      DisarmedForever(Next(s, events[0]), events[1..], t, r);
    }
  }

  /** A handler never runs if its timer is removed before a worker has taken the
      function pointer, whatever happens later. */
  lemma RemovedBeforeTakenNeverRuns(before: seq<Event>, s: State, id: u32, after: seq<Event>, t: State)
    requires Run(Initial, before, s) && id in s.table && s.log.calls[s.table[id]] == 0
    requires forall j {:trigger s.jobs[j]} :: j in s.jobs && s.jobs[j].ref == s.table[id] ==> s.jobs[j].phase != Taken(true)
    requires Run(OnRemove(s, id), after, t)
    ensures t.log.calls[s.table[id]] == 0
  {
    InitialInv();
    RunKeeps(Initial, before, s);
    assert TimerInv(s, s.table[id]);
    DisarmedForever(OnRemove(s, id), after, t, s.table[id]);
  }

  lemma RunCons(s: State, e: Event, rest: seq<Event>, t: State)
    requires Allowed(s, e) && Run(Next(s, e), rest, t)
    ensures Run(s, [e] + rest, t)
  {
    assert ([e] + rest)[1..] == rest;
  }

  // ----- the scheduler --------------------------------------------------------------------

  lemma {:induction false} RunSnoc(s: State, events: seq<Event>, t: State, e: Event)
    requires Run(s, events, t) && Allowed(t, e)
    ensures Run(s, events + [e], Next(t, e))
    decreases |events|
  {
    if events == [] {
      RunCons(s, e, [], Next(t, e));
      assert [] + [e] == [e] + [];
    } else {
      RunSnoc(Next(s, events[0]), events[1..], t, e);
      RunCons(s, events[0], events[1..] + [e], Next(t, e));
      assert [events[0]] + (events[1..] + [e]) == events + [e];
    }
  }

  /** The table names existing timers, each once, and job numbers are used in order. */
  ghost predicate Consistent(s: State, nextJob: JobId)
  {
    && (forall id {:trigger s.table[id]} :: id in s.table ==> s.table[id] in s.heap)
    && (forall id, d {:trigger s.table[id], s.table[d]} :: id in s.table && d in s.table && s.table[id] == s.table[d] ==> id == d)
    && (forall j {:trigger s.jobs[j]} :: j in s.jobs ==> j < nextJob)
  }

  lemma VisitConsistent(s: State, id: u32, now: u64, nextJob: JobId)
    requires Consistent(s, nextJob) && id in s.table
    ensures var t := OnVisit(s, id, now, nextJob);
            Consistent(t, nextJob + 1) && s.table.Keys - {id} <= t.table.Keys <= s.table.Keys && t.running == s.running
  {
  }

  /** An uninterrupted exec is the four steps of the run. */
  lemma ExecIsARun(s: State, j: JobId)
    requires At(s, j, Queued)
    ensures var ref := s.jobs[j].ref;
            var o := s.heap[ref];
            var log := s.log.(finished := s.log.finished + multiset{ref}, calls := if o.func then s.log.calls + multiset{ref} else s.log.calls);
            Run(s, if o.func then [Test(j), Take(j), Call(j), Finish(j)] else [Test(j), Finish(j)],
                s.(heap := s.heap[ref := o.(func := false, done := true)], jobs := s.jobs - {j}, log := log))
  {
    var ref := s.jobs[j].ref;
    var t := OnTest(s, j);
    if s.heap[ref].func {
      var u := OnTake(t, j);
      assert u.jobs[j] == Job(ref, Taken(true));
      var v := OnCall(u, j);
      ExecFinishes(v, j);
      RunCons(u, Call(j), [Finish(j)], OnFinish(v, j));
      RunCons(t, Take(j), [Call(j)] + [Finish(j)], OnFinish(v, j));
      RunCons(s, Test(j), [Take(j)] + ([Call(j)] + [Finish(j)]), OnFinish(v, j));
      assert [Test(j)] + ([Take(j)] + ([Call(j)] + [Finish(j)])) == [Test(j), Take(j), Call(j), Finish(j)];
      assert OnFinish(v, j).jobs == s.jobs - {j};
      assert OnFinish(v, j).heap == s.heap[ref := s.heap[ref].(func := false, done := true)];
    } else {
      ExecFinishes(t, j);
      RunCons(s, Test(j), [Finish(j)], OnFinish(t, j));
      assert [Test(j)] + [Finish(j)] == [Test(j), Finish(j)];
      assert OnFinish(t, j).jobs == s.jobs - {j};
    }
  }

  lemma ExecFinishes(s: State, j: JobId)
    requires At(s, j, Returned)
    ensures Run(s, [Finish(j)], OnFinish(s, j))
  {
    assert Run(OnFinish(s, j), [], OnFinish(s, j));
    RunCons(s, Finish(j), [], OnFinish(s, j));
    assert [Finish(j)] + [] == [Finish(j)];
  }

  class Scheduler {
    var running: bool
    var ids: u32
    var table: map<u32, Ref>
    var heap: map<Ref, Object>
    var jobs: map<JobId, Job>
    var nextJob: JobId
    ghost var log: Log

    ghost function Abs(): (s: State)
      reads this
    {
      State(running, ids, table, heap, jobs, log)
    }

    ghost predicate Valid()
      reads this
    {
      Consistent(Abs(), nextJob)
    }

    constructor ()
      ensures Valid() && Abs() == Initial
    {
      running, ids, table, heap, jobs, nextJob := true, 0, map[], map[], map[], 0;
      log := Log({}, multiset{}, multiset{}, multiset{}, multiset{});
    }

    method CallLater(ref: Ref, timeout: u64, now: u64) returns (id: u32)
      modifies this`ids, this`heap, this`table, this`log
      ensures Abs() == OnCallLater(old(Abs()), ref, timeout, now) && id == ids
    {
      ids := (ids + 1) % IDS;
      id := ids;
      heap := heap[ref := Object(now, timeout, 0, true, false, false)];
      table := table[id := ref];
      log := log.(born := log.born + {ref});
    }

    method Cancel(id: u32)
      requires Valid()
      modifies this`heap
      ensures Valid() && Abs() == OnCancel(old(Abs()), id)
    {
      if id !in table {
        return;
      }
      heap := heap[table[id] := heap[table[id]].(canceled := true)];
    }

    method Remove(id: u32)
      requires Valid()
      modifies this`heap
      ensures Valid() && Abs() == OnRemove(old(Abs()), id)
    {
      if id !in table {
        return;
      }
      var o := heap[table[id]];
      heap := heap[table[id] := o.(func := false, canceled := true)];
    }

    /** timer::exec without interruption; the handler's last argument is 0 unless the
        timer was queued before its time. */
    method Exec(j: JobId) returns (left: Option<nat>)
      requires At(Abs(), j, Queued)
      modifies this`heap, this`jobs, this`log
      ensures var ref := old(jobs[j]).ref;
              var o := old(heap)[ref];
              && jobs == old(jobs) - {j}
              && heap == old(heap)[ref := o.(func := false, done := true)]
              && log == old(log).(finished := old(log).finished + multiset{ref},
                                  calls := if o.func then old(log).calls + multiset{ref} else old(log).calls)
              && (left.Some? <==> o.func)
              && (o.func ==> left.value == if Minus64(o.calledAt, o.started) >= o.timeout then 0 else Minus64(o.calledAt, o.started))
    {
      var ref := jobs[j].ref;
      var o := heap[ref];
      left := None;
      if o.func {
        var diff := Minus64(o.calledAt, o.started);
        heap := heap[ref := o.(func := false)];
        log := log.(calls := log.calls + multiset{ref});
        left := Some(if diff >= o.timeout then 0 else diff);
      }
      heap := heap[ref := heap[ref].(done := true)];
      log := log.(finished := log.finished + multiset{ref});
      jobs := jobs - {j};
    }

    /** The body of the loop in tick_all. */
    method VisitOne(id: u32, now: u64)
      requires id in table && table[id] in heap
      modifies this`table, this`heap, this`jobs, this`nextJob, this`log
      ensures Abs() == OnVisit(old(Abs()), id, now, old(nextJob)) && nextJob == old(nextJob) + 1
    {
      var ref := table[id];
      var o := heap[ref];
      if Minus64(now, o.started) >= o.timeout || o.canceled {
        if o.func && o.calledAt == 0 {
          heap := heap[ref := o.(calledAt := now)];
          jobs := jobs[nextJob := Job(ref, Queued)];
          log := log.(queued := log.queued + multiset{ref});
        } else if o.done {
          table := table - {id};
          heap := heap - {ref};
        }
      }
      nextJob := nextJob + 1;
    }

    /** One round of the loop, `order` so far and `todo` still to visit. */
    method TickOne(ghost s0: State, ghost n0: JobId, order: seq<u32>, ghost todo: set<u32>, id: u32, now: u64) returns (next: seq<u32>)
      requires Consistent(s0, n0) && id in todo && todo <= s0.table.Keys
      requires Abs() == Visited(s0, order, now, n0) && nextJob == n0 + |order| && Once(order, s0.table.Keys - todo)
      modifies this`table, this`heap, this`jobs, this`nextJob, this`log
      ensures next == order + [id]
      ensures Abs() == Visited(s0, next, now, n0) && nextJob == n0 + |next| && Once(next, s0.table.Keys - (todo - {id}))
    {
      NextVisit(s0, order, id, now, n0);
      OneMore(order, s0.table.Keys, todo, id);
      VisitOne(id, now);
      next := order + [id];
    }

    /** udap_timer_tick_all: one visit to every entry of the table, in some order. */
    method TickAll(now: u64) returns (order: seq<u32>)
      requires Valid() && now > 0
      modifies this`table, this`heap, this`jobs, this`nextJob, this`log
      ensures Abs() == Visited(old(Abs()), order, now, old(nextJob))
      ensures Once(order, if running then old(table.Keys) else {})
    {
      order := [];
      if !running {
        return;
      }
      ghost var s0, n0 := Abs(), nextJob;
      var todo := table.Keys;
      while todo != {}
        invariant Abs() == Visited(s0, order, now, n0) && nextJob == n0 + |order|
        invariant todo <= s0.table.Keys && Once(order, s0.table.Keys - todo)
        decreases todo
      {
        var id :| id in todo;
        order := TickOne(s0, n0, order, todo, id, now);
        todo := todo - {id};
      }
      assert s0.table.Keys - {} == s0.table.Keys;
    }
  }

  /** Exactly the ids `seen`, each once. */
  ghost predicate Once(order: seq<u32>, seen: set<u32>)
  {
    && |order| == |seen|
    && (forall i {:trigger order[i]} :: 0 <= i < |order| ==> order[i] in seen)
    && forall i, k {:trigger order[i], order[k]} :: 0 <= i < k < |order| ==> order[i] != order[k]
  }

  lemma OneMore(order: seq<u32>, all: set<u32>, todo: set<u32>, id: u32)
    requires id in todo && todo <= all && Once(order, all - todo)
    ensures Once(order + [id], all - (todo - {id}))
  {
    assert all - (todo - {id}) == (all - todo) + {id};
  }

  /** The visits of one tick, the last one outermost. */
  function Visited(s: State, order: seq<u32>, now: u64, job: JobId): (t: State)
  {
    if order == [] then s
    else
      var k := |order| - 1;
      VisitIfThere(Visited(s, order[..k], now, job), order[k], now, job + k)
  }

  function VisitIfThere(s: State, id: u32, now: u64, job: JobId): (t: State)
  {
    if id in s.table && s.table[id] in s.heap then OnVisit(s, id, now, job) else s
  }

  lemma {:induction false} VisitedConsistent(s: State, order: seq<u32>, now: u64, job: JobId)
    requires Consistent(s, job)
    ensures var t := Visited(s, order, now, job);
            && Consistent(t, job + |order|) && t.running == s.running
            && forall id :: id in s.table && id !in order ==> id in t.table
    decreases |order|
  {
    if order != [] {
      var k := |order| - 1;
      VisitedConsistent(s, order[..k], now, job);
      var t := Visited(s, order[..k], now, job);
      if order[k] in t.table {
        VisitConsistent(t, order[k], now, job + k);
      }
    }
  }

  lemma NextVisit(s: State, order: seq<u32>, id: u32, now: u64, job: JobId)
    requires Consistent(s, job) && id in s.table && id !in order
    ensures var t := Visited(s, order, now, job);
            && id in t.table && t.table[id] in t.heap
            && Visited(s, order + [id], now, job) == OnVisit(t, id, now, job + |order|)
  {
    VisitedConsistent(s, order, now, job);
    VisitedSnoc(s, order, id, now, job);
  }

  lemma VisitedSnoc(s: State, order: seq<u32>, id: u32, now: u64, job: JobId)
    ensures Visited(s, order + [id], now, job) == VisitIfThere(Visited(s, order, now, job), id, now, job + |order|)
  {
    assert (order + [id])[..|order|] == order;
  }

  function VisitsAt(order: seq<u32>, now: u64, job: JobId): (v: seq<Event>)
  {
    if order == [] then [] else VisitsAt(order[..|order| - 1], now, job) + [Visit(order[|order| - 1], now, job + |order| - 1)]
  }

  /** A tick is a run of visits, each to an entry that is there, so everything that
      holds of runs holds across it. */
  lemma {:induction false} TickIsARun(s: State, order: seq<u32>, now: u64, job: JobId)
    requires Consistent(s, job) && s.running && now > 0 && Once(order, s.table.Keys)
    ensures Run(s, VisitsAt(order, now, job), Visited(s, order, now, job))
  {
    var k := 0;
    while k < |order|
      invariant k <= |order| && Run(s, VisitsAt(order[..k], now, job), Visited(s, order[..k], now, job))
    {
      OneMoreVisit(s, order, k, now, job);
      k := k + 1;
    }
    assert order[..k] == order;
  }

  lemma OneMoreVisit(s: State, order: seq<u32>, k: nat, now: u64, job: JobId)
    requires Consistent(s, job) && s.running && now > 0 && Once(order, s.table.Keys) && k < |order|
    requires Run(s, VisitsAt(order[..k], now, job), Visited(s, order[..k], now, job))
    ensures Run(s, VisitsAt(order[..k + 1], now, job), Visited(s, order[..k + 1], now, job))
  {
    var t := Visited(s, order[..k], now, job);
    assert order[..k + 1][..k] == order[..k] && order[..k] + [order[k]] == order[..k + 1];
    NextVisit(s, order[..k], order[k], now, job);
    VisitedConsistent(s, order[..k], now, job);
    VisitSnoc(s, VisitsAt(order[..k], now, job), t, order[k], now, job + k);
  }

  lemma VisitSnoc(s: State, before: seq<Event>, t: State, id: u32, now: u64, job: JobId)
    requires Run(s, before, t) && Consistent(t, job) && t.running && id in t.table && now > 0
    ensures Run(s, before + [Visit(id, now, job)], OnVisit(t, id, now, job))
  {
    VisitAllowed(t, id, now, job);
    RunSnoc(s, before, t, Visit(id, now, job));
  }

  lemma VisitAllowed(s: State, id: u32, now: u64, job: JobId)
    requires Consistent(s, job) && s.running && id in s.table && now > 0
    ensures Allowed(s, Visit(id, now, job)) && Next(s, Visit(id, now, job)) == OnVisit(s, id, now, job)
  {
  }
}
