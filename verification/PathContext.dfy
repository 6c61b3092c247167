/** The tables of a router: the transit hops it relays for and the paths it owns
    (udap/path.cpp, udap/pathset.cpp, udap/transit_hop.cpp). Hops, paths and path
    sets are allocated objects; a `Ptr` names one, and `hops` and `paths` hold
    those that have not been deleted. */
module PathContext {
  import opened Bytes

  type RouterId = bytes
  type PathId = bytes
  type Ptr = nat

  const PATH_BUILD_TIMEOUT: nat := 30_000
  const DEFAULT_PATH_LIFETIME: u64 := 600_000

  datatype HopInfo = HopInfo(txID: PathId, rxID: PathId, upstream: RouterId, downstream: RouterId)
  datatype TransitHop = TransitHop(info: HopInfo, pathKey: bytes, started: u64, lifetime: u64)

  datatype Contact = Contact(pubkey: RouterId, enckey: bytes)
  datatype HopConfig = HopConfig(
    txID: PathId, rxID: PathId, router: Contact, commkey: bytes, shared: bytes,
    upstream: RouterId, nonce: bytes, lifetime: u64)
  datatype Status = Building | Established | Timeout | Expired
  datatype Path = Path(hops: seq<HopConfig>, status: Status, buildStarted: u64)

  /** Where a path set keeps a path. */
  datatype OwnKey = OwnKey(owner: Ptr, upstream: RouterId, rxid: PathId)

  /** `transit` is the multimap from path ids to hops, equal keys in insertion
      order; `own` maps path ids to path sets; `kept` is the map of every set. */
  datatype Context = Context(
    transit: seq<(PathId, Ptr)>, hops: map<Ptr, TransitHop>,
    builders: set<Ptr>, own: map<PathId, Ptr>, kept: map<OwnKey, Ptr>, paths: map<Ptr, Path>)

  datatype Handler = NoHandler | OwnPath(path: Ptr) | Transit(hop: Ptr)

  // ----- lookups ------------------------------------------------------------------

  predicate Entry(m: seq<(PathId, Ptr)>, id: PathId, p: Ptr) {
    (id, p) in m
  }

  /** The first value under `id` that passes the check. */
  function First(m: seq<(PathId, Ptr)>, id: PathId, check: Ptr -> bool): (r: Option<Ptr>)
    ensures r.Some? ==> Entry(m, id, r.value) && check(r.value)
    ensures r.None? ==> forall p :: Entry(m, id, p) ==> !check(p)
  {
    if m == [] then None
    else if m[0].0 == id && check(m[0].1) then Some(m[0].1)
    else First(m[1..], id, check)
  }

  /** MapGet and MapHas. */
  method MapGet(m: seq<(PathId, Ptr)>, id: PathId, check: Ptr -> bool) returns (r: Option<Ptr>)
    ensures r == First(m, id, check)
    ensures match r
            case Some(p) => exists i :: 0 <= i < |m| && m[i] == (id, p) && check(p) && forall j :: 0 <= j < i && m[j].0 == id ==> !check(m[j].1)
            case None => forall j :: 0 <= j < |m| && m[j].0 == id ==> !check(m[j].1)
  {
    var i := 0;
    while i < |m|
      invariant i <= |m| && First(m, id, check) == First(m[i..], id, check)
      invariant forall j :: 0 <= j < i && m[j].0 == id ==> !check(m[j].1)
    {
      if m[i].0 == id && check(m[i].1) {
        return Some(m[i].1);
      }
      assert m[i..][1..] == m[i + 1..];
      i := i + 1;
    }
    return None;
  }

  /** The source reads every hop it passes without asking whether it still exists; that
      the test below changes nothing is `LookupsAreLive`. */
  function GetByDownstream(s: Context, remote: RouterId, id: PathId): (r: Option<Ptr>)
  {
    First(s.transit, id, p => p in s.hops && s.hops[p].info.downstream == remote)
  }

  function GetByUpstream(s: Context, remote: RouterId, id: PathId): (h: Handler)
  {
    if id in s.own && OwnKey(s.own[id], remote, id) in s.kept then OwnPath(s.kept[OwnKey(s.own[id], remote, id)])
    else match First(s.transit, id, p => p in s.hops && s.hops[p].info.upstream == remote)
         case None => NoHandler
         case Some(p) => Transit(p)
  }

  predicate HasTransitHop(s: Context, info: HopInfo)
  {
    First(s.transit, info.txID, p => p in s.hops && s.hops[p].info == info).Some?
  }

  // ----- updates --------------------------------------------------------------------

  function PutTransitHop(s: Context, p: Ptr, hop: TransitHop): (t: Context)
  {
    s.(transit := s.transit + [(hop.info.txID, p), (hop.info.rxID, p)], hops := s.hops[p := hop])
  }

  function Emplace<K(==), V>(m: map<K, V>, k: K, v: V): (r: map<K, V>)
  {
    if k in m then m else m[k := v]
  }

  function KeyOf(owner: Ptr, path: Path): (k: OwnKey)
    requires |path.hops| > 0
  {
    OwnKey(owner, path.hops[0].router.pubkey, path.hops[0].rxID)
  }

  /** AddOwnPath: emplace keeps what is there already. */
  function AddOwnPath(s: Context, owner: Ptr, p: Ptr, path: Path): (t: Context)
    requires |path.hops| > 0
  {
    s.(kept := Emplace(s.kept, KeyOf(owner, path), p), paths := s.paths[p := path],
       own := Emplace(Emplace(s.own, path.hops[0].txID, owner), path.hops[0].rxID, owner))
  }

  predicate HopExpired(hop: TransitHop, now: u64) {
    Minus64(now, hop.started) > hop.lifetime
  }

  predicate PathExpired(path: Path, now: u64)
    requires |path.hops| > 0
  {
    match path.status
    case Established => Minus64(now, path.buildStarted) > path.hops[0].lifetime
    case Building => Minus64(now, path.buildStarted) > PATH_BUILD_TIMEOUT
    case _ => true
  }

  /** What every state of a router satisfies: the tables name live objects only,
      each under its own ids, and no two places of path sets name one path. */
  ghost predicate Inv(s: Context)
  {
    && (forall id, p :: Entry(s.transit, id, p) ==>
          p in s.hops && (id == s.hops[p].info.txID || id == s.hops[p].info.rxID))
    && (forall p :: p in s.paths ==> |s.paths[p].hops| > 0)
    && (forall k :: k in s.kept ==> k.owner in s.builders && s.kept[k] in s.paths && KeyOf(k.owner, s.paths[s.kept[k]]) == k)
    && (forall k, l :: k in s.kept && l in s.kept && s.kept[k] == s.kept[l] ==> k == l)
    && (forall id :: id in s.own ==> s.own[id] in s.builders)
  }

  /** The hops a sweep over the multimap finds expired. */
  function Dead(m: seq<(PathId, Ptr)>, hops: map<Ptr, TransitHop>, now: u64): (d: set<Ptr>)
  {
    set e | e in m && e.1 in hops && HopExpired(hops[e.1], now) :: e.1
  }

  predicate Uses(hop: TransitHop, id: PathId) {
    hop.info.txID == id || hop.info.rxID == id
  }

  function IdsOf(hops: map<Ptr, TransitHop>, d: set<Ptr>): (ids: set<PathId>)
  {
    (set q | q in d && q in hops :: hops[q].info.txID) + (set q | q in d && q in hops :: hops[q].info.rxID)
  }

  lemma IdsOfAre(hops: map<Ptr, TransitHop>, d: set<Ptr>, id: PathId)
    ensures id in IdsOf(hops, d) <==> exists q :: q in d && q in hops && Uses(hops[q], id)
  {
  }

  /** The multimap without the given ids. */
  function Without(m: seq<(PathId, Ptr)>, ids: set<PathId>): (r: seq<(PathId, Ptr)>)
  {
    if m == [] then []
    else if m[0].0 in ids then Without(m[1..], ids)
    else [m[0]] + Without(m[1..], ids)
  }

  lemma {:induction false} WithoutEntry(m: seq<(PathId, Ptr)>, ids: set<PathId>, id: PathId, p: Ptr)
    ensures Entry(Without(m, ids), id, p) <==> Entry(m, id, p) && id !in ids
  {
    if m != [] {
      WithoutEntry(m[1..], ids, id, p);
      assert Entry(m, id, p) <==> m[0] == (id, p) || Entry(m[1..], id, p);
      if m[0].0 !in ids {
        var rest := Without(m[1..], ids);
        assert Entry([m[0]] + rest, id, p) <==> m[0] == (id, p) || Entry(rest, id, p);
      }
    }
  }

  predicate PathDead(s: Context, k: OwnKey, now: u64) {
    k in s.kept && s.kept[k] in s.paths && |s.paths[s.kept[k]].hops| > 0 && PathExpired(s.paths[s.kept[k]], now)
  }

  function ExpirePaths(s: Context, now: u64): (t: Context)
  {
    var dead := Dead(s.transit, s.hops, now);
    s.(transit := Without(s.transit, IdsOf(s.hops, dead)), hops := s.hops - dead,
       kept := map k | k in s.kept && !PathDead(s, k, now) :: s.kept[k],
       paths := s.paths - (set k | k in s.kept && PathDead(s, k, now) :: s.kept[k]))
  }

  /** HandlePathConfirmMessage on a path that is being built. */
  function Confirmed(path: Path): (q: Path) {
    if path.status == Building then path.(status := Established) else path
  }

  // ----- runs -------------------------------------------------------------------------

  datatype Op =
    | Put(p: Ptr, hop: TransitHop)
    | NewBuilder(b: Ptr)
    | AddOwn(owner: Ptr, p: Ptr, path: Path)
    | Confirm(p: Ptr)
    | Expire(now: u64)

  /** An allocator never hands out a live object; a path has at least one hop. */
  predicate Allowed(s: Context, op: Op)
  {
    match op
    case Put(p, hop) => p !in s.hops
    case NewBuilder(b) => true
    case AddOwn(owner, p, path) => owner in s.builders && p !in s.paths && |path.hops| > 0
    case Confirm(p) => p in s.paths
    case Expire(now) => true
  }

  function Next(s: Context, op: Op): (t: Context)
    requires Allowed(s, op)
  {
    match op
    case Put(p, hop) => PutTransitHop(s, p, hop)
    case NewBuilder(b) => s.(builders := s.builders + {b})
    case AddOwn(owner, p, path) => AddOwnPath(s, owner, p, path)
    case Confirm(p) => s.(paths := s.paths[p := Confirmed(s.paths[p])])
    case Expire(now) => ExpirePaths(s, now)
  }

  const Empty := Context([], map[], {}, map[], map[], map[])

  ghost predicate Run(s: Context, ops: seq<Op>, t: Context)
    decreases |ops|
  {
    if ops == [] then s == t
    else Allowed(s, ops[0]) && Run(Next(s, ops[0]), ops[1..], t)
  }

  lemma PutKeeps(s: Context, p: Ptr, hop: TransitHop)
    requires Inv(s) && p !in s.hops
    ensures Inv(PutTransitHop(s, p, hop))
  {
    var t := PutTransitHop(s, p, hop);
    forall id, q | Entry(t.transit, id, q)
      ensures q in t.hops && (id == t.hops[q].info.txID || id == t.hops[q].info.rxID)
    {
      if Entry(s.transit, id, q) {
        assert q != p;
      }
    }
  }

  lemma SweptEntries(s: Context, now: u64, id: PathId, p: Ptr)
    ensures Entry(ExpirePaths(s, now).transit, id, p) <==>
            Entry(s.transit, id, p) && !(exists q :: q in Dead(s.transit, s.hops, now) && q in s.hops && Uses(s.hops[q], id))
  {
    var dead := Dead(s.transit, s.hops, now);
    WithoutEntry(s.transit, IdsOf(s.hops, dead), id, p);
    IdsOfAre(s.hops, dead, id);
  }

  lemma ExpireKeepsTransit(s: Context, now: u64)
    requires Inv(s)
    ensures var t := ExpirePaths(s, now);
            forall id, p :: Entry(t.transit, id, p) ==>
              p in t.hops && (id == t.hops[p].info.txID || id == t.hops[p].info.rxID)
  {
    var t := ExpirePaths(s, now);
    forall id, p | Entry(t.transit, id, p)
      ensures p in t.hops && (id == t.hops[p].info.txID || id == t.hops[p].info.rxID)
    {
      SweptEntries(s, now, id, p);
      assert Uses(s.hops[p], id);
    }
  }

  lemma ExpireKeeps(s: Context, now: u64)
    requires Inv(s)
    ensures Inv(ExpirePaths(s, now))
  {
    var t := ExpirePaths(s, now);
    ExpireKeepsTransit(s, now);
    forall k | k in t.kept
      ensures t.kept[k] in t.paths
    {
      assert !PathDead(s, k, now);
    }
  }

  lemma AddOwnKeeps(s: Context, owner: Ptr, p: Ptr, path: Path)
    requires Inv(s) && owner in s.builders && p !in s.paths && |path.hops| > 0
    ensures Inv(AddOwnPath(s, owner, p, path))
  {
    var t := AddOwnPath(s, owner, p, path);
    assert forall k :: k in s.kept ==> s.kept[k] != p;
    forall k, l | k in t.kept && l in t.kept && t.kept[k] == t.kept[l]
      ensures k == l
    {
    }
  }

  lemma ConfirmKeeps(s: Context, p: Ptr)
    requires Inv(s) && p in s.paths
    ensures Inv(s.(paths := s.paths[p := Confirmed(s.paths[p])]))
  {
  }

  lemma NextKeeps(s: Context, op: Op)
    requires Inv(s) && Allowed(s, op)
    ensures Inv(Next(s, op))
  {
    match op
    case Put(p, hop) => PutKeeps(s, p, hop);
    case NewBuilder(b) =>
    case AddOwn(owner, p, path) => AddOwnKeeps(s, owner, p, path);
    case Confirm(p) => ConfirmKeeps(s, p);
    case Expire(now) => ExpireKeeps(s, now);
  }

  lemma {:induction false} RunKeeps(s: Context, ops: seq<Op>, t: Context)
    requires Inv(s) && Run(s, ops, t)
    ensures Inv(t)
    decreases |ops|
  {
    if ops != [] {
      NextKeeps(s, ops[0]);
      RunKeeps(Next(s, ops[0]), ops[1..], t);
    }
  }

  /** The neighbour tests as the source runs them: on a live hop they read the hop, on a
      deleted one whatever the memory holds. */
  ghost predicate ReadsDownstream(s: Context, remote: RouterId, check: Ptr -> bool)
  {
    forall p {:trigger check(p)} :: p in s.hops ==> check(p) == (s.hops[p].info.downstream == remote)
  }

  ghost predicate ReadsUpstream(s: Context, remote: RouterId, check: Ptr -> bool)
  {
    forall p {:trigger check(p)} :: p in s.hops ==> check(p) == (s.hops[p].info.upstream == remote)
  }

  /** In every run every entry a lookup passes, found or skipped, is a live hop under one
      of its own ids, and every place in a path set holds a live path. */
  lemma EntriesAreLive(ops: seq<Op>, s: Context, id: PathId, p: Ptr)
    requires Run(Empty, ops, s)
    ensures Entry(s.transit, id, p) ==> p in s.hops && Uses(s.hops[p], id)
    ensures forall k :: k in s.kept ==> s.kept[k] in s.paths
    ensures id in s.own ==> s.own[id] in s.builders
  {
    RunKeeps(Empty, ops, s);
  }

  /** So the lookups never look at deleted memory: whatever a deleted hop would read as,
      the outcome is the same. */
  lemma {:induction false} FirstIgnoresDeleted(s: Context, m: seq<(PathId, Ptr)>, id: PathId, check: Ptr -> bool, other: Ptr -> bool)
    requires forall p :: Entry(m, id, p) ==> p in s.hops
    requires forall p {:trigger check(p)} {:trigger other(p)} :: p in s.hops ==> check(p) == other(p)
    ensures First(m, id, check) == First(m, id, other)
    decreases |m|
  {
    if m != [] {
      assert m[0].0 == id ==> Entry(m, id, m[0].1);
      forall p | Entry(m[1..], id, p)
        ensures p in s.hops
      {
        assert Entry(m, id, p);
      }
      FirstIgnoresDeleted(s, m[1..], id, check, other);
    }
  }

  /** In every run no lookup returns a deleted object, whatever deleted memory reads as,
      and what it returns belongs to the neighbour and the id that were asked for. */
  lemma LookupsAreLive(ops: seq<Op>, s: Context, remote: RouterId, id: PathId, down: Ptr -> bool, up: Ptr -> bool)
    requires Run(Empty, ops, s)
    requires ReadsDownstream(s, remote, down) && ReadsUpstream(s, remote, up)
    ensures First(s.transit, id, down) == GetByDownstream(s, remote, id)
    ensures match First(s.transit, id, down)
            case Some(p) => p in s.hops && s.hops[p].info.downstream == remote && Uses(s.hops[p], id)
            case None => forall p :: Entry(s.transit, id, p) ==> p in s.hops && s.hops[p].info.downstream != remote
    ensures GetByUpstream(s, remote, id).OwnPath? || First(s.transit, id, up) ==
            match GetByUpstream(s, remote, id) case Transit(p) => Some(p) case _ => None
    ensures match GetByUpstream(s, remote, id)
            case OwnPath(p) => p in s.paths && |s.paths[p].hops| > 0
              && s.paths[p].hops[0].router.pubkey == remote && s.paths[p].hops[0].rxID == id
            case Transit(p) => p in s.hops && s.hops[p].info.upstream == remote && Uses(s.hops[p], id)
            case NoHandler => forall p :: Entry(s.transit, id, p) ==> p in s.hops && s.hops[p].info.upstream != remote
  {
    RunKeeps(Empty, ops, s);
    FirstIgnoresDeleted(s, s.transit, id, down, p => p in s.hops && s.hops[p].info.downstream == remote);
    FirstIgnoresDeleted(s, s.transit, id, up, p => p in s.hops && s.hops[p].info.upstream == remote);
  }

  /** More than `life` has passed since `start`; a clock that went back counts as having
      gone all the way round. */
  predicate Late(start: u64, life: nat, now: u64) {
    if start <= now then start + life < now else start + life < now + U64
  }

  /** A sweep at `now` leaves hop p alone: it is not over its time, and no hop that is
      uses one of its ids. */
  ghost predicate Spared(s: Context, p: Ptr, now: u64)
    requires p in s.hops
  {
    forall id, q {:trigger Entry(s.transit, id, q)} :: Entry(s.transit, id, q) && q in s.hops && Late(s.hops[q].started, s.hops[q].lifetime, now) ==>
      q != p && !Uses(s.hops[q], s.hops[p].info.txID) && !Uses(s.hops[q], s.hops[p].info.rxID)
  }

  lemma {:induction false} DeadAre(s: Context, now: u64, q: Ptr)
    requires Inv(s)
    ensures q in Dead(s.transit, s.hops, now) <==>
            exists id :: Entry(s.transit, id, q) && q in s.hops && Late(s.hops[q].started, s.hops[q].lifetime, now)
  {
    if q in Dead(s.transit, s.hops, now) {
      var e :| e in s.transit && e.1 == q && HopExpired(s.hops[q], now);
      assert Entry(s.transit, e.0, q);
    }
    if id :| Entry(s.transit, id, q) && Late(s.hops[q].started, s.hops[q].lifetime, now) {
      assert (id, q) in s.transit && HopExpired(s.hops[q], now);
    }
  }

  lemma {:induction false} SparedAre(s: Context, p: Ptr, now: u64)
    requires Inv(s) && p in s.hops
    ensures Spared(s, p, now) <==> forall q :: q in Dead(s.transit, s.hops, now) ==>
              q != p && !Uses(s.hops[q], s.hops[p].info.txID) && !Uses(s.hops[q], s.hops[p].info.rxID)
  {
    forall q
      ensures q in Dead(s.transit, s.hops, now) <==>
              exists id :: Entry(s.transit, id, q) && q in s.hops && Late(s.hops[q].started, s.hops[q].lifetime, now)
    {
      DeadAre(s, now, q);
    }
  }

  ghost predicate Reachable(s: Context, p: Ptr)
  {
    p in s.hops && Entry(s.transit, s.hops[p].info.txID, p) && Entry(s.transit, s.hops[p].info.rxID, p)
  }

  /** One sweep keeps a reachable hop reachable exactly when it spares it. */
  lemma SweepSpares(s: Context, p: Ptr, now: u64)
    requires Inv(s) && Reachable(s, p)
    ensures Reachable(ExpirePaths(s, now), p) <==> Spared(s, p, now)
    ensures Spared(s, p, now) ==> ExpirePaths(s, now).hops[p] == s.hops[p]
  {
    var dead := Dead(s.transit, s.hops, now);
    SparedAre(s, p, now);
    SweptEntries(s, now, s.hops[p].info.txID, p);
    SweptEntries(s, now, s.hops[p].info.rxID, p);
    assert (s.hops[p].info.txID, p) in s.transit;
    assert p in dead ==> Uses(s.hops[p], s.hops[p].info.txID);
  }

  /** Every sweep of the run spares p. */
  ghost predicate AlwaysSpared(s: Context, ops: seq<Op>, p: Ptr)
    decreases |ops|
  {
    ops == [] || (
      && Allowed(s, ops[0])
      && (ops[0].Expire? ==> p in s.hops && Spared(s, p, ops[0].now))
      && AlwaysSpared(Next(s, ops[0]), ops[1..], p))
  }

  /** A hop that every sweep spares is reachable under both its ids to the end of
      the run, unchanged. */
  lemma {:induction false} StaysReachable(s: Context, ops: seq<Op>, t: Context, p: Ptr)
    requires Inv(s) && Reachable(s, p) && Run(s, ops, t) && AlwaysSpared(s, ops, p)
    ensures Reachable(t, p) && t.hops[p] == s.hops[p]
    decreases |ops|
  {
    if ops != [] {
      NextKeeps(s, ops[0]);
      if ops[0].Expire? {
        SweepSpares(s, p, ops[0].now);
      }
      StaysReachable(Next(s, ops[0]), ops[1..], t, p);
    }
  }

  lemma PutIsReachable(s: Context, p: Ptr, hop: TransitHop)
    ensures Reachable(PutTransitHop(s, p, hop), p) && PutTransitHop(s, p, hop).hops[p] == hop
  {
    var t := PutTransitHop(s, p, hop);
    assert t.transit[|s.transit|] == (hop.info.txID, p) && t.transit[|s.transit| + 1] == (hop.info.rxID, p);
  }

  /** From the moment a hop is accepted, in any run, and for as long as every sweep
      spares it. */
  lemma AcceptedHopStays(before: seq<Op>, s: Context, p: Ptr, hop: TransitHop, after: seq<Op>, t: Context)
    requires Run(Empty, before, s) && p !in s.hops
    requires Run(PutTransitHop(s, p, hop), after, t) && AlwaysSpared(PutTransitHop(s, p, hop), after, p)
    ensures Reachable(t, p) && t.hops[p] == hop
    ensures GetByDownstream(t, hop.info.downstream, hop.info.rxID).Some?
    ensures GetByDownstream(t, hop.info.downstream, hop.info.txID).Some?
    ensures GetByUpstream(t, hop.info.upstream, hop.info.txID) != NoHandler
    ensures GetByUpstream(t, hop.info.upstream, hop.info.rxID) != NoHandler
  {
    RunKeeps(Empty, before, s);
    PutKeeps(s, p, hop);
    PutIsReachable(s, p, hop);
    StaysReachable(PutTransitHop(s, p, hop), after, t, p);
    RunKeeps(PutTransitHop(s, p, hop), after, t);
    ReachableIsFound(t, p, hop.info.rxID);
    ReachableIsFound(t, p, hop.info.txID);
  }

  /** A lookup from a neighbour under either id finds the hop, unless an earlier one
      answers for the same neighbour and id. */
  lemma ReachableIsFound(s: Context, p: Ptr, id: PathId)
    requires Inv(s) && Reachable(s, p) && Uses(s.hops[p], id)
    ensures var d := GetByDownstream(s, s.hops[p].info.downstream, id);
            d.Some? && (d.value == p || (Entry(s.transit, id, d.value) && s.hops[d.value].info.downstream == s.hops[p].info.downstream))
    ensures GetByUpstream(s, s.hops[p].info.upstream, id) != NoHandler
  {
    assert Entry(s.transit, id, p);
  }

  // ----- the class ---------------------------------------------------------------------

  lemma {:induction false} WithoutTwice(m: seq<(PathId, Ptr)>, ids: set<PathId>, more: set<PathId>)
    ensures Without(Without(m, ids), more) == Without(m, ids + more)
  {
    if m != [] {
      WithoutTwice(m[1..], ids, more);
      if m[0].0 !in ids {
        WithoutCons(m[0], Without(m[1..], ids), more);
      }
    }
  }

  lemma WithoutCons(e: (PathId, Ptr), m: seq<(PathId, Ptr)>, ids: set<PathId>)
    ensures Without([e] + m, ids) == if e.0 in ids then Without(m, ids) else [e] + Without(m, ids)
  {
    assert ([e] + m)[1..] == m;
  }

  lemma {:induction false} WithoutNone(m: seq<(PathId, Ptr)>)
    ensures Without(m, {}) == m
  {
    if m != [] {
      WithoutNone(m[1..]);
    }
  }

  /** Erasing under both ids of one more hop. */
  lemma ErasedBoth(m: seq<(PathId, Ptr)>, hops: map<Ptr, TransitHop>, d: set<Ptr>, p: Ptr)
    requires p in hops
    ensures Without(Without(Without(m, IdsOf(hops, d)), {hops[p].info.txID}), {hops[p].info.rxID})
         == Without(m, IdsOf(hops, d + {p}))
  {
    var ids, tx, rx := IdsOf(hops, d), hops[p].info.txID, hops[p].info.rxID;
    WithoutTwice(m, ids, {tx});
    WithoutTwice(m, ids + {tx}, {rx});
    forall id
      ensures id in IdsOf(hops, d + {p}) <==> id in ids + {tx} + {rx}
    {
      IdsOfAre(hops, d + {p}, id);
      IdsOfAre(hops, d, id);
    }
    assert IdsOf(hops, d + {p}) == ids + {tx} + {rx};
  }

  lemma DeadNext(m: seq<(PathId, Ptr)>, hops: map<Ptr, TransitHop>, now: u64, i: nat)
    requires i < |m| && m[i].1 in hops
    ensures Dead(m[..i + 1], hops, now) == Dead(m[..i], hops, now) + if HopExpired(hops[m[i].1], now) then {m[i].1} else {}
  {
    assert m[..i + 1] == m[..i] + [m[i]];
    assert m[i] in m[..i + 1];
  }

  /** The path sets when only the places `seen` have been visited. */
  predicate PathSwept(s: Context, seen: set<OwnKey>, k: OwnKey, now: u64)
  {
    k in seen && PathDead(s, k, now)
  }

  function KeptAfter(s: Context, seen: set<OwnKey>, now: u64): (m: map<OwnKey, Ptr>)
  {
    map k | k in s.kept && !PathSwept(s, seen, k, now) :: s.kept[k]
  }

  function PathsAfter(s: Context, seen: set<OwnKey>, now: u64): (m: map<Ptr, Path>)
  {
    s.paths - (set k | k in s.kept && PathSwept(s, seen, k, now) :: s.kept[k])
  }

  lemma {:induction false} SweptNext(s: Context, seen: set<OwnKey>, k: OwnKey, now: u64)
    requires k in s.kept && k !in seen
    ensures forall l {:trigger PathSwept(s, seen + {k}, l, now)} {:trigger PathSwept(s, seen, l, now)} ::
              PathSwept(s, seen + {k}, l, now) <==> PathSwept(s, seen, l, now) || (l == k && PathDead(s, k, now))
  {
  }

  lemma {:induction false} OwnThere(s: Context, seen: set<OwnKey>, k: OwnKey, now: u64)
    requires Inv(s) && k in s.kept && k !in seen
    ensures k in KeptAfter(s, seen, now) && KeptAfter(s, seen, now)[k] == s.kept[k]
    ensures s.kept[k] in PathsAfter(s, seen, now) && PathsAfter(s, seen, now)[s.kept[k]] == s.paths[s.kept[k]]
  {
  }

  lemma {:induction false} KeptStep(s: Context, seen: set<OwnKey>, k: OwnKey, now: u64)
    requires k in s.kept && k !in seen
    ensures KeptAfter(s, seen + {k}, now) == if PathDead(s, k, now) then KeptAfter(s, seen, now) - {k} else KeptAfter(s, seen, now)
  {
    SweptNext(s, seen, k, now);
  }

  lemma {:induction false} PathsStep(s: Context, seen: set<OwnKey>, k: OwnKey, now: u64)
    requires k in s.kept && k !in seen
    ensures PathsAfter(s, seen + {k}, now) == if PathDead(s, k, now) then PathsAfter(s, seen, now) - {s.kept[k]} else PathsAfter(s, seen, now)
  {
    SweptNext(s, seen, k, now);
    assert PathDead(s, k, now) ==> PathSwept(s, seen + {k}, k, now);
  }

  lemma {:induction false} OwnStep(s: Context, seen: set<OwnKey>, k: OwnKey, now: u64)
    requires Inv(s) && k in s.kept && k !in seen
    ensures k in KeptAfter(s, seen, now) && KeptAfter(s, seen, now)[k] == s.kept[k]
    ensures s.kept[k] in PathsAfter(s, seen, now) && PathsAfter(s, seen, now)[s.kept[k]] == s.paths[s.kept[k]]
    ensures KeptAfter(s, seen + {k}, now) == if PathDead(s, k, now) then KeptAfter(s, seen, now) - {k} else KeptAfter(s, seen, now)
    ensures PathsAfter(s, seen + {k}, now) == if PathDead(s, k, now) then PathsAfter(s, seen, now) - {s.kept[k]} else PathsAfter(s, seen, now)
  {
    OwnThere(s, seen, k, now);
    KeptStep(s, seen, k, now);
    PathsStep(s, seen, k, now);
  }

  lemma OwnDone(s: Context, now: u64)
    ensures KeptAfter(s, s.kept.Keys, now) == ExpirePaths(s, now).kept
    ensures PathsAfter(s, s.kept.Keys, now) == ExpirePaths(s, now).paths
  {
    assert forall k :: k in s.kept ==> PathSwept(s, s.kept.Keys, k, now) == PathDead(s, k, now);
  }

  class PathTables {
    var transit: seq<(PathId, Ptr)>
    var hops: map<Ptr, TransitHop>
    var builders: set<Ptr>
    var own: map<PathId, Ptr>
    var kept: map<OwnKey, Ptr>
    var paths: map<Ptr, Path>

    ghost function State(): (s: Context)
      reads this
    {
      Context(transit, hops, builders, own, kept, paths)
    }

    constructor ()
      ensures State() == Empty && Inv(State())
    {
      transit, hops, builders, own, kept, paths := [], map[], {}, map[], map[], map[];
    }

    method AcceptHop(p: Ptr, hop: TransitHop)
      requires Inv(State()) && p !in hops
      modifies this
      ensures State() == PutTransitHop(old(State()), p, hop) && Inv(State())
    {
      PutKeeps(State(), p, hop);
      hops := hops[p := hop];
      transit := transit + [(hop.info.txID, p)];
      transit := transit + [(hop.info.rxID, p)];
      assert transit == old(transit) + [(hop.info.txID, p), (hop.info.rxID, p)];
    }

    method AddOwn(owner: Ptr, p: Ptr, path: Path)
      requires Inv(State()) && owner in builders && p !in paths && |path.hops| > 0
      modifies this
      ensures State() == AddOwnPath(old(State()), owner, p, path) && Inv(State())
      ensures forall k :: k in old(kept) ==> k in kept && kept[k] == old(kept)[k]
      ensures forall id :: id in old(own) ==> id in own && own[id] == old(own)[id]
    {
      NextKeeps(State(), Op.AddOwn(owner, p, path));
      paths := paths[p := path];
      kept := Emplace(kept, KeyOf(owner, path), p);
      own := Emplace(own, path.hops[0].txID, owner);
      own := Emplace(own, path.hops[0].rxID, owner);
    }

    /** The first half of the sweep over the transit hops. */
    method Collect(now: u64) returns (removePaths: set<Ptr>)
      requires Inv(State())
      ensures removePaths == Dead(transit, hops, now)
    {
      removePaths := {};
      var i := 0;
      while i < |transit|
        invariant i <= |transit| && removePaths == Dead(transit[..i], hops, now)
      {
        assert Entry(transit, transit[i].0, transit[i].1);
        DeadNext(transit, hops, now, i);
        if HopExpired(hops[transit[i].1], now) {
          removePaths := removePaths + {transit[i].1};
        }
        i := i + 1;
      }
      assert transit[..|transit|] == transit;
    }

    /** The second half: erase both ids and delete, hop by hop. */
    method EraseAll(dead: set<Ptr>)
      requires dead <= hops.Keys
      modifies this`transit, this`hops
      ensures transit == Without(old(transit), IdsOf(old(hops), dead)) && hops == old(hops) - dead
    {
      ghost var m0, h0 := transit, hops;
      var removePaths := dead;
      ghost var done: set<Ptr> := {};
      assert IdsOf(hops, done) == {};
      WithoutNone(transit);
      while removePaths != {}
        invariant done !! removePaths && done + removePaths == dead
        invariant hops == h0 - done && transit == Without(m0, IdsOf(h0, done))
        decreases removePaths
      {
        var p :| p in removePaths;
        assert p in dead && hops[p] == h0[p];
        ErasedBoth(m0, h0, done, p);
        transit := Without(transit, {hops[p].info.txID});
        transit := Without(transit, {hops[p].info.rxID});
        hops := hops - {p};
        removePaths := removePaths - {p};
        done := done + {p};
      }
      assert done == dead;
    }

    method ExpireTransit(now: u64)
      requires Inv(State())
      modifies this`transit, this`hops
      ensures transit == ExpirePaths(old(State()), now).transit && hops == ExpirePaths(old(State()), now).hops
    {
      var dead := Collect(now);
      EraseAll(dead);
    }

    /** ExpirePaths of every path set. */
    method ExpireOwn(now: u64)
      requires Inv(State())
      modifies this`kept, this`paths
      ensures kept == ExpirePaths(old(State()), now).kept && paths == ExpirePaths(old(State()), now).paths
    {
      ghost var s := State();
      var todo := kept.Keys;
      ghost var seen: set<OwnKey> := {};
      assert forall k :: !PathSwept(s, seen, k, now);
      while todo != {}
        invariant seen !! todo && seen + todo == s.kept.Keys
        invariant kept == KeptAfter(s, seen, now) && paths == PathsAfter(s, seen, now)
        decreases todo
      {
        var k :| k in todo;
        OwnStep(s, seen, k, now);
        if PathExpired(paths[kept[k]], now) {
          paths := paths - {kept[k]};
          kept := kept - {k};
        }
        todo := todo - {k};
        seen := seen + {k};
      }
      assert seen == s.kept.Keys;
      OwnDone(s, now);
    }

    method Sweep(now: u64)
      requires Inv(State())
      modifies this
      ensures State() == ExpirePaths(old(State()), now) && Inv(State())
      ensures forall id, p :: Entry(old(transit), id, p) && old(hops)[p].started <= now ==>
                (p in hops <==> now <= old(hops)[p].started + old(hops)[p].lifetime)
    {
      ExpireKeeps(State(), now);
      ghost var s := State();
      SweptInTime(s, now);
      ExpireTransit(now);
      SweepOwnAlone(s, State(), now);
      ExpireOwn(now);
    }
  }

  lemma {:induction false} SweptInTime(s: Context, now: u64)
    requires Inv(s)
    ensures forall id, p :: Entry(s.transit, id, p) && s.hops[p].started <= now ==>
              (p in ExpirePaths(s, now).hops <==> now <= s.hops[p].started + s.hops[p].lifetime)
  {
    forall id, p | Entry(s.transit, id, p) && s.hops[p].started <= now
      ensures p in ExpirePaths(s, now).hops <==> now <= s.hops[p].started + s.hops[p].lifetime
    {
      DeadAre(s, now, p);
    }
  }

  /** Expiring own paths looks at the own paths only. */
  lemma SweepOwnAlone(s: Context, t: Context, now: u64)
    requires Inv(s) && t == s.(transit := ExpirePaths(s, now).transit, hops := ExpirePaths(s, now).hops)
    ensures Inv(t) && ExpirePaths(t, now).kept == ExpirePaths(s, now).kept && ExpirePaths(t, now).paths == ExpirePaths(s, now).paths
  {
    ExpireKeeps(s, now);
    assert forall k :: PathDead(t, k, now) == PathDead(s, k, now);
  }
}
