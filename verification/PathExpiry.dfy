/** How long transit hops and own paths live, in numbers (udap/path.cpp,
    udap/transit_hop.cpp, udap/pathset.cpp). */
module PathExpiry {
  import opened Bytes
  import opened PathContext

  // ----- one sweep ----------------------------------------------------------------------

  /** A sweep keeps a hop that has an entry up to and including the end of its lifetime,
      and deletes it after. A clock behind the start of the hop counts as 2^64 further. */
  lemma {:induction false} HopSweptExactly(s: Context, id: PathId, p: Ptr, now: u64)
    requires Inv(s) && Entry(s.transit, id, p)
    ensures s.hops[p].started <= now ==> (p in ExpirePaths(s, now).hops <==> now <= s.hops[p].started + s.hops[p].lifetime)
    ensures now < s.hops[p].started ==> (p in ExpirePaths(s, now).hops <==> now + U64 <= s.hops[p].started + s.hops[p].lifetime)
  {
    DeadAre(s, now, p);
  }

  /** The same for the place of an own path: an established path has the lifetime of its
      first hop, one that is being built has 30 seconds, any other goes at once. */
  lemma {:induction false} OwnSweptExactly(s: Context, k: OwnKey, now: u64)
    requires Inv(s) && k in s.kept && s.paths[s.kept[k]].buildStarted <= now
    ensures var path, stays := s.paths[s.kept[k]], k in ExpirePaths(s, now).kept;
            && (path.status == Established ==> (stays <==> now <= path.buildStarted + path.hops[0].lifetime))
            && (path.status == Building ==> (stays <==> now <= path.buildStarted + 30_000))
            && (path.status == Timeout || path.status == Expired ==> !stays)
            && (stays <==> s.kept[k] in ExpirePaths(s, now).paths)
            && (stays ==> ExpirePaths(s, now).kept[k] == s.kept[k] && ExpirePaths(s, now).paths[s.kept[k]] == path)
  {
    assert PathDead(s, k, now) <==> PathExpired(s.paths[s.kept[k]], now);
  }

  // ----- the life of a transit hop ----------------------------------------------------------

  predicate Shares(a: HopInfo, b: HopInfo) {
    a.txID == b.txID || a.txID == b.rxID || a.rxID == b.txID || a.rxID == b.rxID
  }

  /** No other hop uses an id of p. */
  ghost predicate Alone(s: Context, p: Ptr)
    requires p in s.hops
  {
    forall q :: q in s.hops && q != p ==> !Shares(s.hops[q].info, s.hops[p].info)
  }

  /** A later step neither brings its ids in again nor sweeps outside its time. */
  predicate Undisturbed(op: Op, hop: TransitHop)
  {
    match op
    case Put(_, other) => !Shares(other.info, hop.info)
    case Expire(now) => hop.started <= now <= hop.started + hop.lifetime
    case _ => true
  }

  lemma {:induction false} InTimeIsSpared(s: Context, p: Ptr, now: u64)
    requires Inv(s) && Reachable(s, p) && Alone(s, p) && Undisturbed(Expire(now), s.hops[p])
    ensures Spared(s, p, now)
  {
  }

  lemma {:induction false} StepLeavesAlone(s: Context, op: Op, p: Ptr)
    requires Inv(s) && Allowed(s, op) && Reachable(s, p) && Alone(s, p) && Undisturbed(op, s.hops[p])
    ensures Inv(Next(s, op)) && Reachable(Next(s, op), p) && Alone(Next(s, op), p) && Next(s, op).hops[p] == s.hops[p]
  {
    NextKeeps(s, op);
    if op.Expire? {
      InTimeIsSpared(s, p, op.now);
      SweepSpares(s, p, op.now);
    }
  }

  lemma {:induction false} RunLeavesAlone(s: Context, ops: seq<Op>, t: Context, p: Ptr)
    requires Inv(s) && Run(s, ops, t) && Reachable(s, p) && Alone(s, p)
    requires forall op :: op in ops ==> Undisturbed(op, s.hops[p])
    ensures Inv(t) && Reachable(t, p) && Alone(t, p) && t.hops[p] == s.hops[p]
    decreases |ops|
  {
    if ops != [] {
      assert ops[0] in ops;
      assert forall op :: op in ops[1..] ==> op in ops;
      StepLeavesAlone(s, ops[0], p);
      RunLeavesAlone(Next(s, ops[0]), ops[1..], t, p);
    }
  }

  /** From the moment a hop with ids of its own is accepted, as long as every sweep falls
      into its lifetime and nobody brings its ids in again: both neighbours find this very
      hop under both ids. The first sweep after its lifetime deletes it, and then no entry
      under its ids is left. */
  lemma {:induction false} HopLivesItsTime(before: seq<Op>, s: Context, p: Ptr, hop: TransitHop, after: seq<Op>, t: Context, now: u64)
    requires Run(Empty, before, s) && p !in s.hops && (forall q :: q in s.hops ==> !Shares(s.hops[q].info, hop.info))
    requires Run(PutTransitHop(s, p, hop), after, t) && (forall op :: op in after ==> Undisturbed(op, hop))
    ensures GetByDownstream(t, hop.info.downstream, hop.info.rxID) == Some(p) == GetByDownstream(t, hop.info.downstream, hop.info.txID)
    ensures hop.info.txID !in t.own ==> GetByUpstream(t, hop.info.upstream, hop.info.txID) == Transit(p)
    ensures hop.info.rxID !in t.own ==> GetByUpstream(t, hop.info.upstream, hop.info.rxID) == Transit(p)
    ensures hop.started + hop.lifetime < now ==>
              var u := ExpirePaths(t, now);
              p !in u.hops && forall q :: !Entry(u.transit, hop.info.txID, q) && !Entry(u.transit, hop.info.rxID, q)
  {
    var start := PutTransitHop(s, p, hop);
    RunKeeps(Empty, before, s);
    PutKeeps(s, p, hop);
    PutIsReachable(s, p, hop);
    RunLeavesAlone(start, after, t, p);
    AloneIsFound(t, p, hop.info.txID);
    AloneIsFound(t, p, hop.info.rxID);
    if hop.started + hop.lifetime < now {
      GoneForGood(t, p, now);
    }
  }

  lemma {:induction false} AloneIsFound(s: Context, p: Ptr, id: PathId)
    requires Inv(s) && Reachable(s, p) && Alone(s, p) && Uses(s.hops[p], id)
    ensures GetByDownstream(s, s.hops[p].info.downstream, id) == Some(p)
    ensures id !in s.own ==> GetByUpstream(s, s.hops[p].info.upstream, id) == Transit(p)
  {
    assert Entry(s.transit, id, p);
    forall q | Entry(s.transit, id, q)
      ensures q == p
    {
      assert Uses(s.hops[q], id);
    }
  }

  lemma {:induction false} GoneForGood(s: Context, p: Ptr, now: u64)
    requires Inv(s) && Reachable(s, p) && s.hops[p].started + s.hops[p].lifetime < now
    ensures var u, info := ExpirePaths(s, now), s.hops[p].info;
            p !in u.hops && forall q :: !Entry(u.transit, info.txID, q) && !Entry(u.transit, info.rxID, q)
  {
    var info := s.hops[p].info;
    HopSweptExactly(s, info.txID, p, now);
    DeadAre(s, now, p);
    forall q
      ensures !Entry(ExpirePaths(s, now).transit, info.txID, q) && !Entry(ExpirePaths(s, now).transit, info.rxID, q)
    {
      SweptEntries(s, now, info.txID, q);
      SweptEntries(s, now, info.rxID, q);
    }
  }

  // ----- the life of an own path ---------------------------------------------------------------

  /** The path lies in its place, and its id leads there. */
  ghost predicate Owned(s: Context, k: OwnKey, p: Ptr, path: Path)
  {
    && k in s.kept && s.kept[k] == p && p in s.paths && s.paths[p] == path
    && k.rxid in s.own && s.own[k.rxid] == k.owner
  }

  predicate SweepsWithin(op: Op, start: u64, life: nat)
  {
    op.Expire? ==> start <= op.now <= start + life
  }

  lemma {:induction false} StepKeepsOwned(s: Context, op: Op, k: OwnKey, p: Ptr, path: Path, life: nat)
    requires Inv(s) && Allowed(s, op) && Owned(s, k, p, path) && |path.hops| > 0 && SweepsWithin(op, path.buildStarted, life)
    requires (path.status == Established && life == path.hops[0].lifetime) || (path.status == Building && life == 30_000 && op != Confirm(p))
    ensures Inv(Next(s, op)) && Owned(Next(s, op), k, p, path)
  {
    NextKeeps(s, op);
    if op.Expire? {
      OwnSweptExactly(s, k, op.now);
    }
  }

  lemma {:induction false} RunKeepsOwned(s: Context, ops: seq<Op>, t: Context, k: OwnKey, p: Ptr, path: Path, life: nat)
    requires Inv(s) && Run(s, ops, t) && Owned(s, k, p, path) && |path.hops| > 0
    requires forall op :: op in ops ==> SweepsWithin(op, path.buildStarted, life)
    requires (path.status == Established && life == path.hops[0].lifetime) || (path.status == Building && life == 30_000 && Confirm(p) !in ops)
    ensures Inv(t) && Owned(t, k, p, path)
    decreases |ops|
  {
    if ops != [] {
      assert ops[0] in ops;
      assert forall op :: op in ops[1..] ==> op in ops;
      StepKeepsOwned(s, ops[0], k, p, path, life);
      RunKeepsOwned(Next(s, ops[0]), ops[1..], t, k, p, path, life);
    }
  }

  /** A path that is being built, in its place: once confirmed, messages of its first hop
      find it for as long as sweeps fall into its lifetime, and the first sweep after that
      deletes it. */
  lemma {:induction false} ConfirmedLivesItsTime(u: Context, k: OwnKey, p: Ptr, path: Path, after: seq<Op>, t: Context, now: u64)
    requires Inv(u) && Owned(u, k, p, path) && path.status == Building
    requires Run(Next(u, Confirm(p)), after, t) && forall op :: op in after ==> SweepsWithin(op, path.buildStarted, path.hops[0].lifetime)
    ensures p in t.paths && t.paths[p] == path.(status := Established) && GetByUpstream(t, k.upstream, k.rxid) == OwnPath(p)
    ensures path.buildStarted + path.hops[0].lifetime < now ==>
              p !in ExpirePaths(t, now).paths && GetByUpstream(ExpirePaths(t, now), k.upstream, k.rxid) != OwnPath(p)
  {
    var confirmed := path.(status := Established);
    NextKeeps(u, Confirm(p));
    RunKeepsOwned(Next(u, Confirm(p)), after, t, k, p, confirmed, path.hops[0].lifetime);
    if path.buildStarted + path.hops[0].lifetime < now {
      OwnSweptExactly(t, k, now);
      ExpireKeeps(t, now);
    }
  }

  /** A new path whose place and ids are free is found for 30 seconds of sweeps, confirmed
      or not; the first sweep after that deletes it if it was not confirmed. */
  lemma {:induction false} BuildingLivesItsTime(before: seq<Op>, s: Context, owner: Ptr, p: Ptr, path: Path, building: seq<Op>, u: Context, now: u64)
    requires Run(Empty, before, s) && Allowed(s, AddOwn(owner, p, path)) && path.status == Building
    requires KeyOf(owner, path) !in s.kept && path.hops[0].txID !in s.own && path.hops[0].rxID !in s.own
    requires Run(AddOwnPath(s, owner, p, path), building, u) && Confirm(p) !in building
    requires forall op :: op in building ==> SweepsWithin(op, path.buildStarted, 30_000)
    ensures Inv(u) && Owned(u, KeyOf(owner, path), p, path)
    ensures GetByUpstream(u, path.hops[0].router.pubkey, path.hops[0].rxID) == OwnPath(p)
    ensures path.buildStarted + 30_000 < now ==> p !in ExpirePaths(u, now).paths
  {
    var k := KeyOf(owner, path);
    RunKeeps(Empty, before, s);
    NextKeeps(s, AddOwn(owner, p, path));
    RunKeepsOwned(AddOwnPath(s, owner, p, path), building, u, k, p, path, 30_000);
    if path.buildStarted + 30_000 < now {
      OwnSweptExactly(u, k, now);
    }
  }
}
