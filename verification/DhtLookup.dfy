/** Lookups of the DHT (udap/dht.cpp): recursive forwarding between routers, and the
    table of pending transactions with its bounded retry. */
module DhtLookup {
  import opened Bytes
  import opened DhtMetric

  // ----- recursive forwarding -------------------------------------------------------

  /** Refused: the request is dropped without an answer. */
  datatype Decision = GiveSelf | GiveKnown | NotFound | Ask(next: Key) | Refused

  /** LookupRouterRelayed, given the nearest node that is neither the requester nor
      this router. */
  function Decide(our: Key, closest: Option<Key>, requester: Key, target: Key, recursive: bool): (d: Decision)
  {
    if target == our then GiveSelf
    else match closest
         case None => NotFound
         case Some(next) =>
           if next == target then GiveKnown
           else if !recursive || Less(Distance(requester, target), Distance(our, target)) then NotFound
           else Ask(next)
  }

  /** k is the node this router asks: the nearest to the target in `nodes` besides the
      requester and this router. */
  ghost predicate NearestOther(nodes: set<Key>, our: Key, from: Key, target: Key, k: Key)
  {
    && k in nodes && k != from && k != our && Distance(k, target) != AllOnes
    && forall o :: o in nodes && o != from && o != our && o != k ==> Less(Distance(k, target), Distance(o, target))
  }

  /** What the answer to a request that is handled must be, by keys and nodes alone. */
  ghost predicate Answers(our: Key, nodes: set<Key>, from: Key, target: Key, recursive: bool, d: Decision)
  {
    && (d == GiveSelf <==> target == our)
    && (d == GiveKnown <==> target != our && target in nodes && target != from)
    && (forall k: Key :: d == Ask(k) <==>
          && recursive && target != our && (target in nodes ==> target == from)
          && NearestOther(nodes, our, from, target, k) && !Less(Distance(from, target), Distance(our, target)))
    && d != Refused
  }

  lemma {:induction false} DecideAnswers(our: Key, nodes: set<Key>, from: Key, target: Key, recursive: bool)
    ensures Answers(our, nodes, from, target, recursive, Decide(our, Closest(nodes, target, {from, our}), from, target, recursive))
  {
    forall k: Key
      ensures Decide(our, Closest(nodes, target, {from, our}), from, target, recursive) == Ask(k) <==>
                && recursive && target != our && (target in nodes ==> target == from)
                && NearestOther(nodes, our, from, target, k) && !Less(Distance(from, target), Distance(our, target))
    {
      DecideExactly(our, nodes, from, target, recursive, k);
    }
    DecideExactly(our, nodes, from, target, recursive, target);
  }

  lemma {:induction false} DecideExactly(our: Key, nodes: set<Key>, from: Key, target: Key, recursive: bool, k: Key)
    ensures var d := Decide(our, Closest(nodes, target, {from, our}), from, target, recursive);
            && (d == GiveSelf <==> target == our)
            && (d == GiveKnown <==> target != our && target in nodes && target != from)
            && (d == Ask(k) <==>
                  && recursive && target != our && (target in nodes ==> target == from)
                  && NearestOther(nodes, our, from, target, k) && !Less(Distance(from, target), Distance(our, target)))
            && d != Refused
  {
    KnownIsClosest(nodes, target, {from, our});
    assert IsClosest(nodes, target, {from, our}, k) <==> NearestOther(nodes, our, from, target, k);
    var c := Closest(nodes, target, {from, our});
    if c.Some? && NearestOther(nodes, our, from, target, k) {
      ClosestIsUnique(nodes, target, {from, our}, c.value, k);
    }
  }

  /** Routers along one recursive lookup: each but the first was asked by the one
      before it, and each but the first and the last asked the next one, whatever
      its table of nodes was at the time. The first may have asked itself. */
  ghost predicate Chain(target: Key, routers: seq<Key>, tables: seq<set<Key>>)
  {
    && |routers| >= 2 && |tables| == |routers|
    && forall i {:trigger Forwards(target, routers, tables, i)} :: 0 < i < |routers| - 1 ==> Forwards(target, routers, tables, i)
  }

  ghost predicate Forwards(target: Key, routers: seq<Key>, tables: seq<set<Key>>, i: nat)
    requires 0 < i < |routers| - 1 && |tables| == |routers|
  {
    Decide(routers[i], Closest(tables[i], target, {routers[i - 1], routers[i]}), routers[i - 1], target, true) == Ask(routers[i + 1])
  }

  /** A router that was asked never asks itself or the router that asked it. */
  lemma NeighboursDiffer(target: Key, routers: seq<Key>, tables: seq<set<Key>>, i: nat)
    requires Chain(target, routers, tables) && 0 < i && i + 1 < |routers|
    ensures routers[i] != routers[i + 1]
  {
    assert Forwards(target, routers, tables, i);
  }

  /** A router that forwards is strictly closer to the target than the one that asked
      it, exactly when that is another router; and only the first can ask itself. */
  lemma ForwarderIsCloser(target: Key, routers: seq<Key>, tables: seq<set<Key>>, i: nat)
    requires Chain(target, routers, tables) && 0 < i < |routers| - 1
    ensures Less(Distance(routers[i], target), Distance(routers[i - 1], target)) <==> routers[i - 1] != routers[i]
    ensures i > 1 ==> routers[i - 1] != routers[i]
  {
    assert Forwards(target, routers, tables, i);
    var d, e := Distance(routers[i], target), Distance(routers[i - 1], target);
    LessOrder(d, e, d);
    if routers[i] != routers[i - 1] {
      DifferentDistance(target, routers[i], routers[i - 1]);
    }
    if i > 1 {
      NeighboursDiffer(target, routers, tables, i - 1);
    }
  }

  lemma {:induction false} ChainDescends(target: Key, routers: seq<Key>, tables: seq<set<Key>>, i: nat, j: nat)
    requires Chain(target, routers, tables) && i < j < |routers| - 1 && (i > 0 || routers[0] != routers[1])
    ensures Less(Distance(routers[j], target), Distance(routers[i], target))
    decreases j - i
  {
    ForwarderIsCloser(target, routers, tables, j);
    if i + 1 < j {
      ChainDescends(target, routers, tables, i, j - 1);
      LessOrder(Distance(routers[j], target), Distance(routers[j - 1], target), Distance(routers[i], target));
    }
  }

  /** No router forwards twice in one chain. The one that started it does not forward
      either, unless it asked itself; then it does so once, as the first. */
  lemma NobodyForwardsTwice(target: Key, routers: seq<Key>, tables: seq<set<Key>>, i: nat, j: nat)
    requires Chain(target, routers, tables) && i < j < |routers| - 1
    ensures i > 0 ==> routers[i] != routers[j]
    ensures i == 0 ==> (routers[i] == routers[j] <==> j == 1 && routers[0] == routers[1])
  {
    if i > 0 || routers[0] != routers[1] {
      ChainDescends(target, routers, tables, i, j);
      LessOrder(Distance(routers[i], target), Distance(routers[i], target), Distance(routers[i], target));
    } else if j > 1 {
      ChainDescends(target, routers, tables, 1, j);
      LessOrder(Distance(routers[j], target), Distance(routers[j], target), Distance(routers[j], target));
    }
  }

  /** A lookup that reaches a router that knows the target ends there: it answers with
      the target's contact, or its own if it is the target, unless the target itself is
      the one that started the lookup and asked this router. */
  lemma {:induction false} ChainFinds(target: Key, routers: seq<Key>, tables: seq<set<Key>>)
    requires Chain(target, routers, tables)
    requires var n := |routers| - 1; target == routers[n] || target in tables[n]
    ensures var n := |routers| - 1;
            var d := Decide(routers[n], Closest(tables[n], target, {routers[n - 1], routers[n]}), routers[n - 1], target, true);
            && (n > 1 ==> routers[n - 1] != target)
            && (target == routers[n] ==> d == GiveSelf)
            && (target != routers[n] && routers[n - 1] != target ==> d == GiveKnown)
            && (target != routers[n] && routers[n - 1] == target ==> n == 1 && d != GiveKnown)
  {
    var n := |routers| - 1;
    DecideExactly(routers[n], tables[n], routers[n - 1], target, true, target);
    if n > 1 {
      assert Forwards(target, routers, tables, n - 1);
      DecideExactly(routers[n - 1], tables[n - 1], routers[n - 2], target, true, routers[n]);
    }
  }

  function Elements(s: seq<Key>): (e: set<Key>)
  {
    set i | 0 <= i < |s| :: s[i]
  }

  lemma {:induction false} DistinctCount(s: seq<Key>)
    requires forall i, j :: 0 <= i < j < |s| ==> s[i] != s[j]
    ensures |Elements(s)| == |s|
  {
    if s != [] {
      var n := |s| - 1;
      DistinctCount(s[..n]);
      assert Elements(s) == Elements(s[..n]) + {s[n]};
      assert s[n] !in Elements(s[..n]);
    }
  }

  lemma SubsetSize(a: set<Key>, b: set<Key>)
    requires a <= b
    ensures |a| <= |b|
  {
    assert b == a + (b - a);
  }

  /** So every chain ends: among the routers of a network it visits at most one more
      than there are, or two more if the first asked itself. */
  lemma ChainIsFinite(target: Key, routers: seq<Key>, tables: seq<set<Key>>, network: set<Key>)
    requires Chain(target, routers, tables) && forall i :: 0 <= i < |routers| ==> routers[i] in network
    ensures |routers| <= |network| + if routers[0] == routers[1] then 2 else 1
  {
    var from := if routers[0] == routers[1] then 1 else 0;
    var askers := routers[from..|routers| - 1];
    forall i, j | 0 <= i < j < |askers|
      ensures askers[i] != askers[j]
    {
      NobodyForwardsTwice(target, routers, tables, i + from, j + from);
    }
    DistinctCount(askers);
    SubsetSize(Elements(askers), network);
  }

  // ----- pending transactions -------------------------------------------------------

  const JOB_TIMEOUT: nat := 30_000
  const MAX_PEERS: nat := 3

  type Job = nat

  datatype Owner = Owner(node: Key, txid: u64)

  /** `lookup` numbers the lookup this transaction is part of. */
  datatype Search = Search(
    job: Option<Job>, started: u64, requester: Key, requesterTX: u64, target: Key, exclude: set<Key>, lookup: nat)

  /** `asked[l]` are the peers that lookup number l asked, in order; `calls` counts
      the calls of job hooks; `jobs` are the jobs that were ever queued. */
  datatype State = State(
    our: Key, pending: map<Owner, Search>, ids: u64, asked: seq<seq<Key>>, calls: multiset<Job>, jobs: set<Job>)

  datatype Event =
    | ViaJob(job: Job, target: Key, nodes: set<Key>, junk: Key, now: u64)
    | FindRouter(from: Key, txid: u64, target: Key, recursive: bool, allowTransit: bool, nodes: set<Key>, now: u64)
    | GotRouter(from: Key, txid: u64, found: bool, nodes: set<Key>, now: u64)
    | Cleanup(now: u64)

  const ZeroKey: Key := Filled(0)

  /** LookupRouter: one more peer is asked, unless one of the keys is zero. */
  function LookupRouter(s: State, target: Key, whoasked: Key, txid: u64, peer: Key, job: Option<Job>, exclude: set<Key>, lookup: nat, now: u64): (t: State)
    requires lookup < |s.asked|
  {
    if target == ZeroKey || whoasked == ZeroKey || peer == ZeroKey then s
    else
      var id := (s.ids + 1) % U64;
      s.(ids := id, asked := s.asked[lookup := s.asked[lookup] + [peer]],
         pending := s.pending[Owner(peer, id) := Search(job, now, whoasked, if txid == 0 then id else txid, target, exclude, lookup)])
  }

  function NewLookup(s: State, target: Key, whoasked: Key, txid: u64, peer: Key, job: Option<Job>, now: u64): (t: State)
  {
    LookupRouter(s.(asked := s.asked + [[]]), target, whoasked, txid, peer, job, {}, |s.asked|, now)
  }

  function Completed(s: State, p: Search): (t: State)
  {
    if p.job.Some? then s.(calls := s.calls + multiset{p.job.value}) else s
  }

  function Removed(s: State, o: Owner): (t: State)
  {
    s.(pending := s.pending - {o})
  }

  predicate IsExpired(p: Search, now: u64) {
    Minus64(now, p.started) >= JOB_TIMEOUT
  }

  /** The pending transactions of `seen` that a sweep ends, and their jobs. */
  function Expired(s: State, seen: set<Owner>, now: u64): (e: set<Owner>)
  {
    set o | o in seen && o in s.pending && IsExpired(s.pending[o], now)
  }

  function JobsOf(s: State, owners: set<Owner>): (j: set<Job>)
  {
    set o | o in owners && o in s.pending && s.pending[o].job.Some? :: s.pending[o].job.value
  }

  /** A peer that is asked next, if a miss is to be retried. */
  ghost function NextPeer(p: Search, from: Key, nodes: set<Key>): (r: Option<Key>)
  {
    if |p.exclude + {from}| < MAX_PEERS then Closest(nodes, p.target, p.exclude + {from}) else None
  }

  ghost function OnViaJob(s: State, e: Event): (t: State)
    requires e.ViaJob?
  {
    var queued := s.(jobs := s.jobs + {e.job});
    if e.nodes == {} then queued.(calls := queued.calls + multiset{e.job})
    else
      var closest := Closest(e.nodes, e.target, {});
      NewLookup(queued, e.target, s.our, 0, if closest.Some? then closest.value else e.junk, Some(e.job), e.now)
  }

  ghost function OnFindRouter(s: State, e: Event): (t: State)
    requires e.FindRouter?
  {
    if !e.allowTransit || Owner(e.from, e.txid) in s.pending then s
    else match Decide(s.our, Closest(e.nodes, e.target, {e.from, s.our}), e.from, e.target, e.recursive)
         case Ask(next) => NewLookup(s, e.target, e.from, e.txid, next, None, e.now)
         case _ => s
  }

  /** GotRouterMessage::HandleMessage: a retry is queued without the job. */
  ghost function OnGotRouter(s: State, e: Event): (t: State)
    requires e.GotRouter? && forall o :: o in s.pending ==> s.pending[o].lookup < |s.asked|
  {
    var o := Owner(e.from, e.txid);
    if o !in s.pending then s
    else
      var p := s.pending[o];
      if e.found then Removed(Completed(s, p), o)
      else match NextPeer(p, e.from, e.nodes)
           case Some(next) =>
             Removed(LookupRouter(s, p.target, p.requester, p.requesterTX, next, None, p.exclude + {e.from}, p.lookup, e.now), o)
           case None => Removed(Completed(s, p), o)
  }

  function OnCleanup(s: State, now: u64): (t: State)
  {
    var ended := Expired(s, s.pending.Keys, now);
    s.(pending := s.pending - ended, calls := s.calls + multiset(JobsOf(s, ended)))
  }

  // ----- what every state satisfies --------------------------------------------------

  ghost predicate Distinct(s: seq<Key>)
  {
    forall i, j {:trigger s[i], s[j]} :: 0 <= i < j < |s| ==> s[i] != s[j]
  }

  /** A pending transaction and what its lookup has asked so far. */
  ghost predicate Tracks(asked: seq<seq<Key>>, o: Owner, p: Search)
  {
    && p.lookup < |asked|
    && o.node !in p.exclude && |p.exclude| < MAX_PEERS
    && Elements(asked[p.lookup]) == p.exclude + {o.node}
  }

  ghost predicate AskedInv(asked: seq<seq<Key>>)
  {
    forall l {:trigger asked[l]} :: 0 <= l < |asked| ==> Distinct(asked[l]) && |asked[l]| <= MAX_PEERS
  }

  ghost predicate TracksInv(s: State)
  {
    forall o {:trigger s.pending[o]} :: o in s.pending ==> Tracks(s.asked, o, s.pending[o])
  }

  /** A lookup has one transaction at most. */
  ghost predicate OneEach(s: State)
  {
    forall o, q {:trigger s.pending[o], s.pending[q]} ::
      o in s.pending && q in s.pending && s.pending[o].lookup == s.pending[q].lookup ==> o == q
  }

  ghost predicate Inv(s: State)
  {
    AskedInv(s.asked) && TracksInv(s) && OneEach(s) && JobsInv(s)
  }

  /** A job is with one transaction at most, and with none once its hook was called. */
  ghost predicate JobsInv(s: State)
  {
    && (forall o, q {:trigger s.pending[o], s.pending[q]} ::
          o in s.pending && q in s.pending && s.pending[o].job.Some? && s.pending[o].job == s.pending[q].job ==> o == q)
    && (forall o {:trigger s.pending[o]} :: o in s.pending && s.pending[o].job.Some? ==>
          s.pending[o].job.value in s.jobs && s.pending[o].job.value !in s.calls)
    && (forall j :: j in s.calls ==> j in s.jobs && s.calls[j] == 1)
  }

  ghost predicate Allowed(s: State, e: Event)
  {
    e.ViaJob? ==> e.job !in s.jobs
  }

  ghost function Next(s: State, e: Event): (t: State)
    requires Inv(s)
  {
    match e
    case ViaJob(_, _, _, _, _) => OnViaJob(s, e)
    case FindRouter(_, _, _, _, _, _, _) => OnFindRouter(s, e)
    case GotRouter(_, _, _, _, _) => OnGotRouter(s, e)
    case Cleanup(now) => OnCleanup(s, now)
  }

  lemma AskedOneMore(a: seq<Key>, peer: Key, exclude: set<Key>)
    requires Distinct(a) && peer !in exclude && |exclude| < MAX_PEERS && Elements(a) == exclude
    ensures Distinct(a + [peer]) && |a + [peer]| <= MAX_PEERS && Elements(a + [peer]) == exclude + {peer}
  {
    var b := a + [peer];
    DistinctCount(a);
    forall i | 0 <= i < |a|
      ensures a[i] != peer
    {
      assert a[i] in Elements(a);
    }
    assert b[|a|] == peer && forall i :: 0 <= i < |a| ==> b[i] == a[i];
  }

  /** A lookup without a transaction of its own that has asked exactly the excluded
      peers, and a job that is with nobody. */
  ghost predicate MayAsk(s: State, peer: Key, job: Option<Job>, exclude: set<Key>, lookup: nat)
  {
    && lookup < |s.asked|
    && peer !in exclude && |exclude| < MAX_PEERS && Elements(s.asked[lookup]) == exclude
    && (forall o {:trigger s.pending[o]} :: o in s.pending ==> s.pending[o].lookup != lookup)
    && (job.Some? ==> job.value in s.jobs && job.value !in s.calls && NotCarried(s, job.value))
  }

  ghost predicate NotCarried(s: State, job: Job)
  {
    forall o {:trigger s.pending[o]} :: o in s.pending ==> s.pending[o].job != Some(job)
  }

  lemma LookupKeepsTracks(s: State, target: Key, whoasked: Key, txid: u64, peer: Key, job: Option<Job>, exclude: set<Key>, lookup: nat, now: u64)
    requires Inv(s) && MayAsk(s, peer, job, exclude, lookup)
    ensures var t := LookupRouter(s, target, whoasked, txid, peer, job, exclude, lookup, now);
            AskedInv(t.asked) && TracksInv(t)
  {
    var t := LookupRouter(s, target, whoasked, txid, peer, job, exclude, lookup, now);
    if t != s {
      AskedOneMore(s.asked[lookup], peer, exclude);
      var mine := Owner(peer, t.ids);
      forall o | o in t.pending
        ensures Tracks(t.asked, o, t.pending[o])
      {
        if o == mine {
          assert t.pending[o].lookup == lookup && t.pending[o].exclude == exclude;
        } else {
          assert t.pending[o] == s.pending[o] && Tracks(s.asked, o, s.pending[o]);
          assert t.asked[s.pending[o].lookup] == s.asked[s.pending[o].lookup];
        }
      }
    }
  }

  lemma LookupKeepsOneEach(s: State, target: Key, whoasked: Key, txid: u64, peer: Key, job: Option<Job>, exclude: set<Key>, lookup: nat, now: u64)
    requires Inv(s) && MayAsk(s, peer, job, exclude, lookup)
    ensures OneEach(LookupRouter(s, target, whoasked, txid, peer, job, exclude, lookup, now))
  {
  }

  lemma LookupKeepsJobs(s: State, target: Key, whoasked: Key, txid: u64, peer: Key, job: Option<Job>, exclude: set<Key>, lookup: nat, now: u64)
    requires Inv(s) && MayAsk(s, peer, job, exclude, lookup)
    ensures JobsInv(LookupRouter(s, target, whoasked, txid, peer, job, exclude, lookup, now))
  {
  }

  lemma LookupKeeps(s: State, target: Key, whoasked: Key, txid: u64, peer: Key, job: Option<Job>, exclude: set<Key>, lookup: nat, now: u64)
    requires Inv(s) && MayAsk(s, peer, job, exclude, lookup)
    ensures Inv(LookupRouter(s, target, whoasked, txid, peer, job, exclude, lookup, now))
  {
    LookupKeepsTracks(s, target, whoasked, txid, peer, job, exclude, lookup, now);
    LookupKeepsOneEach(s, target, whoasked, txid, peer, job, exclude, lookup, now);
    LookupKeepsJobs(s, target, whoasked, txid, peer, job, exclude, lookup, now);
  }

  lemma NewLookupKeeps(s: State, target: Key, whoasked: Key, txid: u64, peer: Key, job: Option<Job>, now: u64)
    requires Inv(s)
    requires job.Some? ==> job.value in s.jobs && job.value !in s.calls && NotCarried(s, job.value)
    ensures Inv(NewLookup(s, target, whoasked, txid, peer, job, now))
  {
    var t := s.(asked := s.asked + [[]]);
    forall o | o in s.pending
      ensures Tracks(t.asked, o, s.pending[o])
    {
      assert Tracks(s.asked, o, s.pending[o]);
    }
    LookupKeeps(t, target, whoasked, txid, peer, job, {}, |s.asked|, now);
  }

  lemma RemovedKeeps(s: State, o: Owner)
    requires Inv(s) && o in s.pending
    ensures Inv(Removed(s, o)) && Inv(Removed(Completed(s, s.pending[o]), o))
  {
  }

  /** Asking another peer and then removing the transaction is the same as the other
      way round. */
  lemma AskThenRemove(s: State, o: Owner, target: Key, whoasked: Key, txid: u64, peer: Key, job: Option<Job>, exclude: set<Key>, lookup: nat, now: u64)
    requires lookup < |s.asked| && peer != o.node
    ensures Removed(LookupRouter(s, target, whoasked, txid, peer, job, exclude, lookup, now), o)
         == LookupRouter(Removed(s, o), target, whoasked, txid, peer, job, exclude, lookup, now)
  {
    var id := (s.ids + 1) % U64;
    var p := Search(job, now, whoasked, if txid == 0 then id else txid, target, exclude, lookup);
    assert s.pending[Owner(peer, id) := p] - {o} == (s.pending - {o})[Owner(peer, id) := p];
  }

  lemma RetryKeeps(s: State, o: Owner, next: Key, now: u64)
    requires Inv(s) && o in s.pending
    requires var p := s.pending[o]; next !in p.exclude + {o.node} && |p.exclude + {o.node}| < MAX_PEERS
    ensures var p := s.pending[o];
            Inv(Removed(LookupRouter(s, p.target, p.requester, p.requesterTX, next, None, p.exclude + {o.node}, p.lookup, now), o))
  {
    var p := s.pending[o];
    RemovedKeeps(s, o);
    LookupKeeps(Removed(s, o), p.target, p.requester, p.requesterTX, next, None, p.exclude + {o.node}, p.lookup, now);
    AskThenRemove(s, o, p.target, p.requester, p.requesterTX, next, None, p.exclude + {o.node}, p.lookup, now);
  }

  lemma CleanupKeeps(s: State, now: u64)
    requires Inv(s)
    ensures Inv(OnCleanup(s, now))
  {
    var ended := Expired(s, s.pending.Keys, now);
    var jobs := JobsOf(s, ended);
    assert forall j :: j in jobs ==> j !in s.calls && j in s.jobs;
  }

  lemma GotRouterKeeps(s: State, e: Event)
    requires Inv(s) && e.GotRouter?
    ensures Inv(OnGotRouter(s, e))
  {
    var o := Owner(e.from, e.txid);
    if o in s.pending {
      RemovedKeeps(s, o);
      var next := NextPeer(s.pending[o], e.from, e.nodes);
      if next.Some? {
        RetryKeeps(s, o, next.value, e.now);
      }
    }
  }

  lemma NextKeeps(s: State, e: Event)
    requires Inv(s) && Allowed(s, e)
    ensures Inv(Next(s, e))
  {
    match e
    case ViaJob(job, target, nodes, junk, now) =>
      var queued := s.(jobs := s.jobs + {job});
      var closest := Closest(nodes, target, {});
      NewLookupKeeps(queued, target, s.our, 0, if closest.Some? then closest.value else junk, Some(job), now);
    case FindRouter(from, txid, target, recursive, allow, nodes, now) =>
      var d := Decide(s.our, Closest(nodes, target, {from, s.our}), from, target, recursive);
      if d.Ask? {
        NewLookupKeeps(s, target, from, txid, d.next, None, now);
      }
    case GotRouter(_, _, _, _, _) => GotRouterKeeps(s, e);
    case Cleanup(now) => CleanupKeeps(s, now);
  }

  ghost predicate Run(s: State, events: seq<Event>, t: State)
    requires Inv(s)
    decreases |events|
  {
    if events == [] then s == t
    else
      Allowed(s, events[0]) && (NextKeeps(s, events[0]); Run(Next(s, events[0]), events[1..], t))
  }

  lemma {:induction false} RunKeeps(s: State, events: seq<Event>, t: State)
    requires Inv(s) && Run(s, events, t)
    ensures Inv(t)
    decreases |events|
  {
    if events != [] {
      NextKeeps(s, events[0]);
      RunKeeps(Next(s, events[0]), events[1..], t);
    }
  }

  function Initial(our: Key, ids: u64): (s: State) {
    State(our, map[], ids, [], multiset{}, {})
  }

  /** In every run of lookups, answers, misses and timeouts, a lookup asks at most
      three peers, all different, and no job hook is called twice. */
  lemma LookupsAreBounded(our: Key, ids: u64, events: seq<Event>, s: State, l: nat, job: Job)
    requires Run(Initial(our, ids), events, s)
    ensures l < |s.asked| ==> |s.asked[l]| <= 3 && Distinct(s.asked[l])
    ensures s.calls[job] <= 1
  {
    RunKeeps(Initial(our, ids), events, s);
  }

  /** A job whose transaction is gone without a call of its hook. */
  ghost predicate Lost(s: State, job: Job)
  {
    job in s.jobs && job !in s.calls && NotCarried(s, job)
  }

  /** A job nobody carries is neither called nor carried by the next state, unless it
      is the one being queued. */
  lemma OnViaJobSpares(s: State, e: Event, job: Job)
    requires e.ViaJob? && e.job != job
    ensures var t := OnViaJob(s, e); (NotCarried(s, job) ==> NotCarried(t, job)) && t.calls[job] == s.calls[job] && s.jobs <= t.jobs
  {
  }

  lemma OnFindRouterSpares(s: State, e: Event, job: Job)
    requires e.FindRouter?
    ensures var t := OnFindRouter(s, e); (NotCarried(s, job) ==> NotCarried(t, job)) && t.calls == s.calls && t.jobs == s.jobs
  {
  }

  lemma CompletedSpares(s: State, o: Owner, job: Job)
    requires o in s.pending
    ensures var t := Removed(Completed(s, s.pending[o]), o);
            && (NotCarried(s, job) ==> NotCarried(t, job) && t.calls[job] == s.calls[job])
            && s.calls <= t.calls && t.jobs == s.jobs
  {
  }

  /** A retry drops the job of the transaction it replaces. */
  lemma RetrySpares(s: State, o: Owner, next: Key, now: u64, job: Job)
    requires o in s.pending && s.pending[o].lookup < |s.asked|
    ensures var p := s.pending[o];
            var t := Removed(LookupRouter(s, p.target, p.requester, p.requesterTX, next, None, p.exclude + {o.node}, p.lookup, now), o);
            && ((forall q {:trigger s.pending[q]} :: q in s.pending && q != o ==> s.pending[q].job != Some(job)) ==> NotCarried(t, job))
            && t.calls == s.calls && t.jobs == s.jobs
  {
  }

  lemma OnGotRouterSpares(s: State, e: Event, job: Job)
    requires e.GotRouter? && TracksInv(s)
    ensures var t := OnGotRouter(s, e);
            && (NotCarried(s, job) ==> NotCarried(t, job) && t.calls[job] == s.calls[job])
            && s.calls <= t.calls && t.jobs == s.jobs
  {
    var o := Owner(e.from, e.txid);
    if o in s.pending {
      CompletedSpares(s, o, job);
      var next := NextPeer(s.pending[o], e.from, e.nodes);
      if next.Some? {
        RetrySpares(s, o, next.value, e.now, job);
      }
    }
  }

  lemma OnCleanupSpares(s: State, now: u64, job: Job)
    ensures var t := OnCleanup(s, now);
            && (NotCarried(s, job) ==> NotCarried(t, job) && t.calls[job] == s.calls[job])
            && s.calls <= t.calls && t.jobs == s.jobs
  {
    assert NotCarried(s, job) ==> job !in JobsOf(s, Expired(s, s.pending.Keys, now));
  }

  lemma NextSpares(s: State, e: Event, job: Job)
    requires Inv(s) && Allowed(s, e) && job in s.jobs
    ensures var t := Next(s, e);
            && job in t.jobs && s.calls[job] <= t.calls[job]
            && (NotCarried(s, job) ==> NotCarried(t, job) && t.calls[job] == s.calls[job])
  {
    match e
    case ViaJob(_, _, _, _, _) => OnViaJobSpares(s, e, job);
    case FindRouter(_, _, _, _, _, _, _) => OnFindRouterSpares(s, e, job);
    case GotRouter(_, _, _, _, _) => OnGotRouterSpares(s, e, job);
    case Cleanup(now) => OnCleanupSpares(s, now, job);
  }

  lemma {:induction false} LostForever(s: State, events: seq<Event>, t: State, job: Job)
    requires Inv(s) && Lost(s, job) && Run(s, events, t)
    ensures t.calls[job] == 0
    decreases |events|
  {
    if events != [] {
      NextKeeps(s, events[0]);
      NextSpares(s, events[0], job);
      LostForever(Next(s, events[0]), events[1..], t, job);
    }
  }

  /** Whether a miss is retried: fewer than three peers were asked, and there is another. */
  lemma {:induction false} RetryExactly(p: Search, from: Key, nodes: set<Key>, k: Key)
    ensures NextPeer(p, from, nodes).Some? <==>
            |p.exclude + {from}| < 3 && exists n :: n in nodes && n !in p.exclude + {from} && Distance(n, p.target) != AllOnes
    ensures NextPeer(p, from, nodes) == Some(k) <==>
            && |p.exclude + {from}| < 3 && k in nodes && k !in p.exclude + {from} && Distance(k, p.target) != AllOnes
            && forall o :: o in nodes && o !in p.exclude + {from} && o != k ==> Less(Distance(k, p.target), Distance(o, p.target))
  {
    var e := p.exclude + {from};
    ClosestExists(nodes, p.target, e);
    assert forall n :: n in Eligible(nodes, p.target, e) <==> n in nodes && n !in e && Distance(n, p.target) != AllOnes;
    var c := Closest(nodes, p.target, p.exclude + {from});
    if c.Some? && IsClosest(nodes, p.target, p.exclude + {from}, k) {
      ClosestIsUnique(nodes, p.target, p.exclude + {from}, c.value, k);
    }
  }

  /** A sweep ends a transaction 30 seconds after it was started and not before, and calls
      the hook of its job then. */
  lemma {:induction false} SweptExactly(s: State, now: u64, o: Owner)
    requires JobsInv(s) && o in s.pending && s.pending[o].started <= now
    ensures var t, p, stays := OnCleanup(s, now), s.pending[o], now < s.pending[o].started + 30_000;
            && (o in t.pending <==> stays) && (stays ==> t.pending[o] == p)
            && (p.job.Some? ==> t.calls[p.job.value] == s.calls[p.job.value] + if stays then 0 else 1)
  {
    var ended := Expired(s, s.pending.Keys, now);
    assert o in ended <==> now >= s.pending[o].started + 30_000;
    if s.pending[o].job.Some? {
      assert s.pending[o].job.value in JobsOf(s, ended) <==> o in ended;
    }
  }

  /** The hook is not called at least once: an answer without a router is passed to
      the hook exactly when no further peer is asked. When one is asked, the retry
      does not carry the job, and no later event ever calls its hook. */
  lemma MissCallsHookOrLosesIt(s: State, from: Key, txid: u64, nodes: set<Key>, now: u64, events: seq<Event>, t: State)
    requires Inv(s) && Owner(from, txid) in s.pending && s.pending[Owner(from, txid)].job.Some?
    requires var miss := GotRouter(from, txid, false, nodes, now);
             Inv(Next(s, miss)) && Run(Next(s, miss), events, t)
    ensures var p := s.pending[Owner(from, txid)];
            t.calls[p.job.value] ==
              if |p.exclude + {from}| < 3 && exists n :: n in nodes && n !in p.exclude + {from} && Distance(n, p.target) != AllOnes then 0 else 1
  {
    var p := s.pending[Owner(from, txid)];
    RetryExactly(p, from, nodes, from);
    var u := Next(s, GotRouter(from, txid, false, nodes, now));
    if NextPeer(p, from, nodes).Some? {
      RetrySpares(s, Owner(from, txid), NextPeer(p, from, nodes).value, now, p.job.value);
      LostForever(u, events, t, p.job.value);
    } else {
      assert u == Removed(Completed(s, p), Owner(from, txid));
      CalledStays(u, events, t, p.job.value);
    }
  }

  lemma {:induction false} CalledStays(s: State, events: seq<Event>, t: State, job: Job)
    requires Inv(s) && job in s.calls && Run(s, events, t)
    ensures t.calls[job] == 1
    decreases |events|
  {
    if events != [] {
      NextKeeps(s, events[0]);
      NextSpares(s, events[0], job);
      CalledStays(Next(s, events[0]), events[1..], t, job);
    }
  }

  // ----- the class ----------------------------------------------------------------------

  /** Each handler takes the state to the next one of a run, so `NextKeeps` keeps the
      invariant over any sequence of calls. */
  class Context {
    const our: Key
    const allowTransit: bool
    var nodes: set<Key>
    var pending: map<Owner, Search>
    var ids: u64
    var asked: seq<seq<Key>>
    var calls: multiset<Job>
    var jobs: set<Job>

    ghost function Abs(): (s: State)
      reads this
    {
      State(our, pending, ids, asked, calls, jobs)
    }

    constructor (us: Key, transit: bool, randomIds: u64)
      ensures Abs() == Initial(us, randomIds) && allowTransit == transit
    {
      our, allowTransit, ids := us, transit, randomIds;
      nodes, pending, asked, calls, jobs := {}, map[], [], multiset{}, {};
    }

    /** LookupRouter: the message to the peer is recorded in `asked`. */
    method LookupPeer(target: Key, whoasked: Key, txid: u64, peer: Key, job: Option<Job>, exclude: set<Key>, lookup: nat, now: u64)
      requires lookup < |asked|
      modifies this`pending, this`ids, this`asked
      ensures Abs() == LookupRouter(old(Abs()), target, whoasked, txid, peer, job, exclude, lookup, now)
      ensures if target == Filled(0) || whoasked == Filled(0) || peer == Filled(0) then Abs() == old(Abs())
              else
                && ids == (if old(ids) == U64 - 1 then 0 else old(ids) + 1)
                && asked[lookup] == old(asked)[lookup] + [peer]
                && pending == old(pending)[Owner(peer, ids) := Search(job, now, whoasked, if txid == 0 then ids else txid, target, exclude, lookup)]
    {
      if target == ZeroKey || whoasked == ZeroKey || peer == ZeroKey {
        return;
      }
      ids := (ids + 1) % U64;
      var requesterTX := if txid == 0 then ids else txid;
      pending := pending[Owner(peer, ids) := Search(job, now, whoasked, requesterTX, target, exclude, lookup)];
      asked := asked[lookup := asked[lookup] + [peer]];
    }

    /** LookupRouterViaJob; `junk` is what the uninitialised peer key holds. */
    method LookupViaJob(job: Job, target: Key, junk: Key, now: u64)
      modifies this`pending, this`ids, this`asked, this`calls, this`jobs
      ensures Abs() == OnViaJob(old(Abs()), ViaJob(job, target, nodes, junk, now))
      ensures nodes == {} ==> calls == old(calls) + multiset{job} && pending == old(pending)
      ensures nodes != {} ==> calls == old(calls) && |asked| == |old(asked)| + 1
    {
      jobs := jobs + {job};
      var found, peer := FindClosest(nodes, target, junk);
      if found {
        asked := asked + [[]];
        LookupPeer(target, our, 0, peer, Some(job), {}, |asked| - 1, now);
      } else {
        calls := calls + multiset{job};
      }
    }

    /** LookupRouterRelayed. */
    method LookupRelayed(from: Key, txid: u64, target: Key, recursive: bool, now: u64) returns (d: Decision)
      modifies this`pending, this`ids, this`asked
      ensures d == Decide(our, Closest(nodes, target, {from, our}), from, target, recursive)
      ensures Abs() == if d.Ask? then NewLookup(old(Abs()), target, from, txid, d.next, None, now) else old(Abs())
    {
      d := NotFound;
      if target == our {
        return GiveSelf;
      }
      var found, next := FindCloseExcluding(nodes, target, ZeroKey, {from, our});
      if !found {
        return;
      }
      if next == target {
        return GiveKnown;
      }
      if recursive && !Less(Distance(from, target), Distance(our, target)) {
        asked := asked + [[]];
        LookupPeer(target, from, txid, next, None, {}, |asked| - 1, now);
        return Ask(next);
      }
    }

    /** FindRouterMessage::HandleMessage. */
    method HandleFindRouter(from: Key, txid: u64, target: Key, recursive: bool, now: u64) returns (d: Decision)
      modifies this`pending, this`ids, this`asked
      ensures Abs() == OnFindRouter(old(Abs()), FindRouter(from, txid, target, recursive, allowTransit, nodes, now))
      ensures d == Refused <==> !allowTransit || Owner(from, txid) in old(pending)
      ensures d != Refused ==> Answers(our, nodes, from, target, recursive, d)
      ensures Abs() == if d.Ask? then NewLookup(old(Abs()), target, from, txid, d.next, None, now) else old(Abs())
    {
      if !allowTransit || Owner(from, txid) in pending {
        return Refused;
      }
      DecideAnswers(our, nodes, from, target, recursive);
      d := LookupRelayed(from, txid, target, recursive, now);
    }

    /** GotRouterMessage::HandleMessage; true if the transaction was pending. */
    method HandleGotRouter(from: Key, txid: u64, found: bool, now: u64) returns (known: bool)
      requires TracksInv(Abs())
      modifies this`pending, this`ids, this`asked, this`calls
      ensures Abs() == OnGotRouter(old(Abs()), GotRouter(from, txid, found, nodes, now))
      ensures known == (Owner(from, txid) in old(pending))
      ensures !known ==> Abs() == old(Abs())
      ensures known && found ==>
                var o := Owner(from, txid);
                && pending == old(pending) - {o} && asked == old(asked)
                && calls == old(calls) + if old(pending)[o].job.Some? then multiset{old(pending)[o].job.value} else multiset{}
    {
      var o := Owner(from, txid);
      if o !in pending {
        return false;
      }
      var p := pending[o];
      assert Tracks(asked, o, p);
      if found {
        Complete(p);
      } else {
        IterateOrComplete(p, from, now);
      }
      pending := pending - {o};
      return true;
    }

    /** The answer without a router: the next peer is asked, or the search is over. */
    method IterateOrComplete(p: Search, from: Key, now: u64)
      requires p.lookup < |asked|
      modifies this`pending, this`ids, this`asked, this`calls
      ensures Abs() == match NextPeer(p, from, nodes)
                       case Some(next) =>
                         LookupRouter(old(Abs()), p.target, p.requester, p.requesterTX, next, None, p.exclude + {from}, p.lookup, now)
                       case None => Completed(old(Abs()), p)
    {
      var exclude := p.exclude + {from};
      var close, next := false, ZeroKey;
      if |exclude| < MAX_PEERS {
        close, next := FindCloseExcluding(nodes, p.target, ZeroKey, exclude);
      }
      if close {
        LookupPeer(p.target, p.requester, p.requesterTX, next, None, exclude, p.lookup, now);
      } else {
        Complete(p);
      }
    }

    /** SearchJob::Completed. */
    method Complete(p: Search)
      modifies this`calls
      ensures Abs() == Completed(old(Abs()), p)
    {
      if p.job.Some? {
        calls := calls + multiset{p.job.value};
      }
    }

    /** One round of the sweep: what has expired is ended and erased. */
    method SweepOne(ghost s: State, ghost todo: set<Owner>, o: Owner, now: u64)
      requires JobsInv(s) && o in todo && todo <= s.pending.Keys
      requires pending == PendingAfter(s, s.pending.Keys - todo, now) && calls == CallsAfter(s, s.pending.Keys - todo, now)
      modifies this`pending, this`calls
      ensures pending == PendingAfter(s, s.pending.Keys - (todo - {o}), now)
      ensures calls == CallsAfter(s, s.pending.Keys - (todo - {o}), now)
    {
      SweepStep(s, todo, o, now);
      var p := pending[o];
      if IsExpired(p, now) {
        Complete(p);
        pending := pending - {o};
      }
    }

    /** CleanupTX: the loop over the table. */
    method CleanupTX(now: u64)
      requires JobsInv(Abs())
      modifies this`pending, this`calls
      ensures Abs() == OnCleanup(old(Abs()), now)
    {
      ghost var s := Abs();
      SweepEnds(s, now);
      var todo := pending.Keys;
      while todo != {}
        invariant todo <= s.pending.Keys
        invariant pending == PendingAfter(s, s.pending.Keys - todo, now)
        invariant calls == CallsAfter(s, s.pending.Keys - todo, now)
        decreases todo
      {
        var o :| o in todo;
        SweepOne(s, todo, o, now);
        todo := todo - {o};
      }
    }
  }

  /** The table and the calls when the sweep has looked at `seen`. */
  function PendingAfter(s: State, seen: set<Owner>, now: u64): (m: map<Owner, Search>)
  {
    s.pending - Expired(s, seen, now)
  }

  function CallsAfter(s: State, seen: set<Owner>, now: u64): (c: multiset<Job>)
  {
    s.calls + multiset(JobsOf(s, Expired(s, seen, now)))
  }

  lemma SweepEnds(s: State, now: u64)
    ensures var none := s.pending.Keys - s.pending.Keys;
            PendingAfter(s, none, now) == s.pending && CallsAfter(s, none, now) == s.calls
    ensures var all := s.pending.Keys - {};
            OnCleanup(s, now) == s.(pending := PendingAfter(s, all, now), calls := CallsAfter(s, all, now))
  {
    assert Expired(s, s.pending.Keys - s.pending.Keys, now) == {};
    assert s.pending.Keys - {} == s.pending.Keys;
  }

  /** One more transaction of those to do looked at by the sweep. */
  lemma SweepStep(s: State, todo: set<Owner>, o: Owner, now: u64)
    requires JobsInv(s) && o in todo && todo <= s.pending.Keys
    ensures var seen, next := s.pending.Keys - todo, s.pending.Keys - (todo - {o});
            && o in PendingAfter(s, seen, now) && PendingAfter(s, seen, now)[o] == s.pending[o]
            && PendingAfter(s, next, now) ==
               (if IsExpired(s.pending[o], now) then PendingAfter(s, seen, now) - {o} else PendingAfter(s, seen, now))
            && CallsAfter(s, next, now) ==
               (if IsExpired(s.pending[o], now) && s.pending[o].job.Some? then CallsAfter(s, seen, now) + multiset{s.pending[o].job.value}
                else CallsAfter(s, seen, now))
  {
    var seen, next := s.pending.Keys - todo, s.pending.Keys - (todo - {o});
    assert next == seen + {o};
    var e := Expired(s, seen, now);
    if IsExpired(s.pending[o], now) {
      assert Expired(s, next, now) == e + {o};
      JobsOfOneMore(s, e, o);
    } else {
      assert Expired(s, next, now) == e;
    }
  }

  lemma JobsOfOneMore(s: State, e: set<Owner>, o: Owner)
    requires JobsInv(s) && o in s.pending && o !in e
    ensures multiset(JobsOf(s, e + {o})) ==
            multiset(JobsOf(s, e)) + if s.pending[o].job.Some? then multiset{s.pending[o].job.value} else multiset{}
  {
    if s.pending[o].job.Some? {
      assert JobsOf(s, e + {o}) == JobsOf(s, e) + {s.pending[o].job.value};
      assert s.pending[o].job.value !in JobsOf(s, e);
    } else {
      assert JobsOf(s, e + {o}) == JobsOf(s, e);
    }
  }
}
