/** A path that was built undisturbed over a network is a path that relays: the
    tables the commit messages leave behind are those the journeys need. */
module BuildThenRelay {
  import opened Bytes
  import opened Crypto
  import opened PathContext
  import opened PathBuild
  import opened RelayCommit
  import opened OnionRelay

  /** What the client prepared, over ids as the Path constructor chains them. */
  lemma PreparedIsLinked(c: Primitives, hops: seq<HopConfig>, frames: seq<bytes>)
    requires Prepared(c, hops, frames)
    requires forall i :: 0 <= i < |hops| - 1 ==> hops[i].txID == hops[i + 1].rxID
    ensures Linked(hops)
  {
    forall i | 0 <= i < |hops|
      ensures hops[i].upstream == NextHop(hops, i)
    {
      assert HopReady(c, hops, i, frames[i]);
    }
  }

  /** The ids along a path: hop i listens on number i and sends on number i + 1. */
  function IdAt(hops: seq<HopConfig>, k: nat): (id: PathId)
    requires k <= |hops| && |hops| > 0
  {
    if k < |hops| then hops[k].rxID else hops[k - 1].txID
  }

  ghost predicate DistinctIds(hops: seq<HopConfig>)
    requires |hops| > 0
  {
    forall k, l {:trigger IdAt(hops, k), IdAt(hops, l)} :: 0 <= k < l <= |hops| ==> IdAt(hops, k) != IdAt(hops, l)
  }

  predicate OnPath(hops: seq<HopConfig>, id: PathId)
    requires |hops| > 0
  {
    exists k {:trigger IdAt(hops, k)} :: 0 <= k <= |hops| && IdAt(hops, k) == id
  }

  /** No router knows an id of the path. */
  ghost predicate Unknown(net: Network, hops: seq<HopConfig>)
    requires |hops| > 0
  {
    && (forall r, id, q {:trigger Entry(net[r].transit, id, q)} :: r in net && OnPath(hops, id) ==> !Entry(net[r].transit, id, q))
    && (forall r, id {:trigger id in net[r].own} :: r in net && OnPath(hops, id) ==> id !in net[r].own)
    && (forall r, k {:trigger k in net[r].kept} :: r in net && k in net[r].kept ==> k.rxid != IdAt(hops, 0))
  }

  /** The network once the first i hops have accepted. */
  ghost function After(net: Network, client: RouterId, hops: seq<HopConfig>, envs: seq<Env>, i: nat): (n: Network)
    requires i <= |hops| == |envs| && forall k :: 0 <= k < |hops| ==> hops[k].router.pubkey in net
    ensures n.Keys == net.Keys
  {
    if i == 0 then net
    else
      var was := After(net, client, hops, envs, i - 1);
      var r := hops[i - 1].router.pubkey;
      was[r := PutTransitHop(was[r], envs[i - 1].p, HopAt(client, hops, envs, i - 1))]
  }

  /** An undisturbed build over `net`: every router takes part, allocates a fresh
      object, and handles the message on the tables it has at that time. */
  ghost predicate Undisturbed(c: Primitives, net: Network, client: RouterId, hops: seq<HopConfig>, routers: seq<Router>, envs: seq<Env>)
  {
    && |hops| > 0 && AllWilling(c, client, hops, routers, envs)
    && (forall k :: 0 <= k < |hops| ==> hops[k].router.pubkey in net)
    && (forall k {:trigger routers[k]} :: 0 <= k < |hops| ==>
          var was := After(net, client, hops, envs, k)[hops[k].router.pubkey];
          routers[k].ctx == was && envs[k].p !in was.hops)
  }

  /** Hop i is in place at its router. */
  ghost predicate Placed(net: Network, client: RouterId, hops: seq<HopConfig>, envs: seq<Env>, i: nat)
    requires i < |hops| == |envs|
  {
    var r := hops[i].router.pubkey;
    && r in net && Reachable(net[r], envs[i].p) && net[r].hops[envs[i].p] == HopAt(client, hops, envs, i)
  }

  /** Entries under an id of the path are those of the first i hops. */
  ghost predicate OnlyOurs(net: Network, hops: seq<HopConfig>, envs: seq<Env>, i: nat)
    requires 0 < |hops| == |envs| && i <= |hops|
  {
    forall r, id, q {:trigger Entry(net[r].transit, id, q)} :: r in net && OnPath(hops, id) && Entry(net[r].transit, id, q) ==>
      exists k {:trigger envs[k]} :: 0 <= k < i && hops[k].router.pubkey == r && q == envs[k].p && (id == hops[k].txID || id == hops[k].rxID)
  }

  lemma PutEntries(s: Context, p: Ptr, hop: TransitHop, id: PathId, q: Ptr)
    ensures Entry(PutTransitHop(s, p, hop).transit, id, q) <==>
            Entry(s.transit, id, q) || (q == p && (id == hop.info.txID || id == hop.info.rxID))
  {
    var t := PutTransitHop(s, p, hop).transit;
    assert t[|s.transit|] == (hop.info.txID, p) && t[|s.transit| + 1] == (hop.info.rxID, p);
  }

  lemma {:induction false} OnlyOursAfter(c: Primitives, net: Network, client: RouterId, hops: seq<HopConfig>, routers: seq<Router>, envs: seq<Env>, i: nat)
    requires Undisturbed(c, net, client, hops, routers, envs) && Unknown(net, hops) && i <= |hops|
    ensures OnlyOurs(After(net, client, hops, envs, i), hops, envs, i)
  {
    if i > 0 {
      var k := i - 1;
      OnlyOursAfter(c, net, client, hops, routers, envs, k);
      var was, now := After(net, client, hops, envs, k), After(net, client, hops, envs, i);
      forall r, id, q | r in now && OnPath(hops, id) && Entry(now[r].transit, id, q)
        ensures exists j {:trigger envs[j]} :: 0 <= j < i && hops[j].router.pubkey == r && q == envs[j].p && (id == hops[j].txID || id == hops[j].rxID)
      {
        if r == hops[k].router.pubkey {
          PutEntries(was[r], envs[k].p, HopAt(client, hops, envs, k), id, q);
        }
        if Entry(was[r].transit, id, q) {
          var j :| 0 <= j < k && hops[j].router.pubkey == r && q == envs[j].p && (id == hops[j].txID || id == hops[j].rxID);
          assert q == envs[j].p;
        } else {
          assert q == envs[k].p;
        }
      }
    }
  }

  lemma {:induction false} PlacedAfter(c: Primitives, net: Network, client: RouterId, hops: seq<HopConfig>, routers: seq<Router>, envs: seq<Env>, i: nat, j: nat)
    requires Undisturbed(c, net, client, hops, routers, envs) && j < i <= |hops|
    ensures Placed(After(net, client, hops, envs, i), client, hops, envs, j)
    decreases i
  {
    var k := i - 1;
    var was := After(net, client, hops, envs, k);
    var r := hops[k].router.pubkey;
    assert routers[k].ctx == was[r];
    if j < k {
      PlacedAfter(c, net, client, hops, routers, envs, k, j);
      StillPlaced(was[hops[j].router.pubkey], envs[j].p, envs[k].p, HopAt(client, hops, envs, k));
    } else {
      PutIsReachable(was[r], envs[k].p, HopAt(client, hops, envs, k));
    }
  }

  lemma StillPlaced(s: Context, p: Ptr, q: Ptr, hop: TransitHop)
    requires Reachable(s, p)
    ensures q !in s.hops ==> Reachable(PutTransitHop(s, q, hop), p) && PutTransitHop(s, q, hop).hops[p] == s.hops[p]
  {
    if q !in s.hops {
      PutEntries(s, q, hop, s.hops[p].info.txID, p);
      PutEntries(s, q, hop, s.hops[p].info.rxID, p);
    }
  }

  lemma IdsOnPath(hops: seq<HopConfig>, i: nat)
    requires Linked(hops) && i < |hops|
    ensures hops[i].rxID == IdAt(hops, i) && hops[i].txID == IdAt(hops, i + 1)
    ensures OnPath(hops, hops[i].rxID) && OnPath(hops, hops[i].txID)
  {
    if i + 1 < |hops| {
      assert Apart(hops, i);
    }
    assert hops[i].rxID == IdAt(hops, i) && hops[i].txID == IdAt(hops, i + 1);
  }

  /** At the router of hop i an id of hop i leads to hop i only. */
  lemma AnswersAlone(net: Network, hops: seq<HopConfig>, envs: seq<Env>, i: nat, id: PathId, q: Ptr)
    requires Linked(hops) && DistinctIds(hops) && i < |hops| == |envs| && OnlyOurs(net, hops, envs, |hops|)
    requires id == hops[i].txID || id == hops[i].rxID
    requires hops[i].router.pubkey in net && Entry(net[hops[i].router.pubkey].transit, id, q)
    ensures q == envs[i].p
  {
    IdsOnPath(hops, i);
    var r := hops[i].router.pubkey;
    var k :| 0 <= k < |hops| && hops[k].router.pubkey == r && q == envs[k].p && (id == hops[k].txID || id == hops[k].rxID);
    IdsOnPath(hops, k);
    var m := if id == hops[i].rxID then i else i + 1;
    var l := if id == hops[k].rxID then k else k + 1;
    assert IdAt(hops, m) == IdAt(hops, l);
    assert m == l;
    assert k + 1 == i ==> Apart(hops, k);
    assert i + 1 == k ==> Apart(hops, i);
  }

  lemma InstalledAfter(net: Network, client: RouterId, hops: seq<HopConfig>, envs: seq<Env>, i: nat)
    requires Linked(hops) && DistinctIds(hops) && i < |hops| == |envs| && OnlyOurs(net, hops, envs, |hops|)
    requires Placed(net, client, hops, envs, i)
    requires hops[i].txID !in net[hops[i].router.pubkey].own
    ensures Installed(net, client, hops, i, envs[i].p)
  {
    var s, p := net[hops[i].router.pubkey], envs[i].p;
    assert Entry(s.transit, UpId(hops, i), p) && Entry(s.transit, hops[i].txID, p);
    var d := GetByDownstream(s, Neighbour(client, hops, i), UpId(hops, i));
    if d.Some? {
      AnswersAlone(net, hops, envs, i, UpId(hops, i), d.value);
    }
    var u := GetByUpstream(s, hops[i].upstream, hops[i].txID);
    if u.Transit? {
      AnswersAlone(net, hops, envs, i, hops[i].txID, u.hop);
    }
  }

  /** The client's table with its new path. */
  function WithOwn(net: Network, client: RouterId, owner: Ptr, own: Ptr, path: Path): (n: Network)
    requires client in net && |path.hops| > 0
  {
    net[client := AddOwnPath(net[client], owner, own, path)]
  }

  lemma {:induction false} OthersUntouched(net: Network, client: RouterId, hops: seq<HopConfig>, envs: seq<Env>, i: nat, r: RouterId)
    requires i <= |hops| == |envs| && (forall k :: 0 <= k < |hops| ==> hops[k].router.pubkey in net) && r in net
    ensures After(net, client, hops, envs, i)[r].own == net[r].own && After(net, client, hops, envs, i)[r].kept == net[r].kept
    ensures (forall k :: 0 <= k < i ==> hops[k].router.pubkey != r) ==> After(net, client, hops, envs, i)[r] == net[r]
  {
    if i > 0 {
      OthersUntouched(net, client, hops, envs, i - 1, r);
    }
  }

  function Ptrs(envs: seq<Env>): (ps: seq<Ptr>)
    ensures |ps| == |envs| && forall i {:trigger ps[i]} :: 0 <= i < |ps| ==> ps[i] == envs[i].p
  {
    if envs == [] then [] else [envs[0].p] + Ptrs(envs[1..])
  }

  /** Hop i accepts the client's message as the routers before it passed it on, and
      its tables become those of the next network. */
  ghost predicate AcceptedAt(c: Primitives, net: Network, client: RouterId, hops: seq<HopConfig>, frames: seq<bytes>, routers: seq<Router>, envs: seq<Env>, i: nat)
    requires Sized(c) && Undisturbed(c, net, client, hops, routers, envs) && i < |hops|
  {
    var f := FramesAt(c, client, hops, frames, routers, envs, i);
    && f.Some? && Willing(c, client, hops, i, routers[i], envs[i])
    && var o := HandleCommit(c, routers[i], Neighbour(client, hops, i), f.value, envs[i]);
       o.Accepted? && o.ctx == After(net, client, hops, envs, i + 1)[hops[i].router.pubkey]
  }

  lemma AcceptedAsModelled(c: Primitives, net: Network, client: RouterId, hops: seq<HopConfig>, frames: seq<bytes>, routers: seq<Router>, envs: seq<Env>, i: nat)
    requires Prepared(c, hops, frames) && Undisturbed(c, net, client, hops, routers, envs) && i < |hops|
    ensures AcceptedAt(c, net, client, hops, frames, routers, envs, i)
  {
    PathIsBuilt(c, client, hops, frames, routers, envs, i);
    var f := FramesAt(c, client, hops, frames, routers, envs, i).value;
    HopAccepts(c, client, hops, frames, i, routers[i], envs[i], f);
    assert routers[i].ctx == After(net, client, hops, envs, i)[hops[i].router.pubkey];
  }

  lemma OwnedAfter(net: Network, client: RouterId, hops: seq<HopConfig>, owner: Ptr, own: Ptr, path: Path)
    requires Linked(hops) && DistinctIds(hops) && Unknown(net, hops) && client in net && path.hops == hops
    ensures Owned(WithOwn(net, client, owner, own, path), client, hops, own)
  {
    IdsOnPath(hops, 0);
    assert IdAt(hops, 0) != IdAt(hops, 1);
    assert KeyOf(owner, path) !in net[client].kept;
  }

  lemma InstalledFinally(c: Primitives, net: Network, client: RouterId, hops: seq<HopConfig>, routers: seq<Router>, envs: seq<Env>,
                         owner: Ptr, own: Ptr, path: Path, i: nat)
    requires Undisturbed(c, net, client, hops, routers, envs) && Linked(hops) && DistinctIds(hops) && Unknown(net, hops)
    requires client in net && path.hops == hops && i < |hops| && hops[i].router.pubkey != client
    ensures Installed(WithOwn(After(net, client, hops, envs, |hops|), client, owner, own, path), client, hops, i, envs[i].p)
  {
    var built := After(net, client, hops, envs, |hops|);
    OnlyOursAfter(c, net, client, hops, routers, envs, |hops|);
    PlacedAfter(c, net, client, hops, routers, envs, |hops|, i);
    OthersUntouched(net, client, hops, envs, |hops|, hops[i].router.pubkey);
    IdsOnPath(hops, i);
    InstalledAfter(built, client, hops, envs, i);
    var final := WithOwn(built, client, owner, own, path);
    assert final[hops[i].router.pubkey] == built[hops[i].router.pubkey];
  }

  lemma OwnedFinally(net: Network, client: RouterId, hops: seq<HopConfig>, envs: seq<Env>, owner: Ptr, own: Ptr, path: Path)
    requires Linked(hops) && DistinctIds(hops) && Unknown(net, hops) && |envs| == |hops|
    requires (forall k :: 0 <= k < |hops| ==> hops[k].router.pubkey in net)
    requires client in net && path.hops == hops && forall i :: 0 <= i < |hops| ==> hops[i].router.pubkey != client
    ensures Owned(WithOwn(After(net, client, hops, envs, |hops|), client, owner, own, path), client, hops, own)
  {
    OthersUntouched(net, client, hops, envs, |hops|, client);
    OwnedAfter(net, client, hops, owner, own, path);
  }

  /** Built undisturbed with fresh, distinct ids, over routers other than the client,
      the path stands: every hop answers its neighbours with the client's key for
      it, and the owner finds the path. */
  lemma BuiltPathStands(c: Primitives, net: Network, client: RouterId, hops: seq<HopConfig>, routers: seq<Router>, envs: seq<Env>,
                        owner: Ptr, own: Ptr, path: Path)
    requires Undisturbed(c, net, client, hops, routers, envs) && Linked(hops) && DistinctIds(hops) && Unknown(net, hops)
    requires client in net && path.hops == hops && forall i :: 0 <= i < |hops| ==> hops[i].router.pubkey != client
    ensures PathStands(WithOwn(After(net, client, hops, envs, |hops|), client, owner, own, path), client, hops, Ptrs(envs), own)
  {
    var final, ps := WithOwn(After(net, client, hops, envs, |hops|), client, owner, own, path), Ptrs(envs);
    forall i {:trigger Installed(final, client, hops, i, ps[i])} | 0 <= i < |hops|
      ensures Installed(final, client, hops, i, ps[i])
    {
      InstalledFinally(c, net, client, hops, routers, envs, owner, own, path, i);
    }
    OwnedFinally(net, client, hops, envs, owner, own, path);
  }

  lemma RelayOverBuilt(c: Primitives, net: Network, client: RouterId, hops: seq<HopConfig>, routers: seq<Router>, envs: seq<Env>,
                       owner: Ptr, own: Ptr, path: Path, x: bytes, y: bytes, trace: seq<Delivery>, end: Reaction)
    requires Undisturbed(c, net, client, hops, routers, envs) && Linked(hops) && DistinctIds(hops) && Unknown(net, hops)
    requires client in net && path.hops == hops && forall i :: 0 <= i < |hops| ==> hops[i].router.pubkey != client
    requires Sized(c) && |y| == KEY
    requires Journey(c, WithOwn(After(net, client, hops, envs, |hops|), client, owner, own, path), trace, end)
    ensures trace[0] == OwnerSends(c, client, hops, x, y) ==>
              && |trace| == |hops| && (forall i :: 0 <= i < |hops| ==> trace[i].to == hops[i].router.pubkey)
              && end == AtFarthest(hops[|hops| - 1].router.pubkey, envs[|hops| - 1].p, x)
    ensures trace[0] == HopSendsDown(c, hops[|hops| - 1].router.pubkey, HopAt(client, hops, envs, |hops| - 1), x, y) ==>
              && |trace| == |hops| && (forall k :: 0 <= k < |hops| ==> trace[|hops| - 1 - k].to == Neighbour(client, hops, k))
              && end == AtOwner(client, own, x)
  {
    BuiltPathStands(c, net, client, hops, routers, envs, owner, own, path);
    var final, ps := WithOwn(After(net, client, hops, envs, |hops|), client, owner, own, path), Ptrs(envs);
    if trace[0] == OwnerSends(c, client, hops, x, y) {
      UpstreamJourney(c, final, client, hops, ps, own, x, y, trace, end);
    }
    if trace[0] == HopSendsDown(c, hops[|hops| - 1].router.pubkey, HopAt(client, hops, envs, |hops| - 1), x, y) {
      LastHopFinally(c, net, client, hops, routers, envs, owner, own, path);
      DownstreamJourney(c, final, client, hops, ps, own, x, y, trace, end);
    }
  }

  /** From keys to plaintext: every hop accepts what the client prepared, and whatever
      is then sent along the path, in either direction, arrives as plaintext at the
      other end after visiting the hops in order. */
  lemma BuildThenRelay(c: Primitives, net: Network, client: RouterId, hops: seq<HopConfig>, frames: seq<bytes>, routers: seq<Router>, envs: seq<Env>,
                       owner: Ptr, own: Ptr, path: Path, x: bytes, y: bytes, trace: seq<Delivery>, end: Reaction)
    requires Prepared(c, hops, frames) && forall i :: 0 <= i < |hops| - 1 ==> hops[i].txID == hops[i + 1].rxID
    requires Undisturbed(c, net, client, hops, routers, envs) && DistinctIds(hops) && Unknown(net, hops)
    requires client in net && path.hops == hops && forall i :: 0 <= i < |hops| ==> hops[i].router.pubkey != client
    requires |y| == KEY
    requires Journey(c, WithOwn(After(net, client, hops, envs, |hops|), client, owner, own, path), trace, end)
    ensures forall i {:trigger AcceptedAt(c, net, client, hops, frames, routers, envs, i)} :: 0 <= i < |hops| ==>
              AcceptedAt(c, net, client, hops, frames, routers, envs, i)
    ensures trace[0] == OwnerSends(c, client, hops, x, y) ==>
              && |trace| == |hops| && (forall i :: 0 <= i < |hops| ==> trace[i].to == hops[i].router.pubkey)
              && end == AtFarthest(hops[|hops| - 1].router.pubkey, envs[|hops| - 1].p, x)
    ensures trace[0] == HopSendsDown(c, hops[|hops| - 1].router.pubkey, HopAt(client, hops, envs, |hops| - 1), x, y) ==>
              && |trace| == |hops| && (forall k :: 0 <= k < |hops| ==> trace[|hops| - 1 - k].to == Neighbour(client, hops, k))
              && end == AtOwner(client, own, x)
  {
    PreparedIsLinked(c, hops, frames);
    forall i {:trigger AcceptedAt(c, net, client, hops, frames, routers, envs, i)} | 0 <= i < |hops|
      ensures AcceptedAt(c, net, client, hops, frames, routers, envs, i)
    {
      AcceptedAsModelled(c, net, client, hops, frames, routers, envs, i);
    }
    RelayOverBuilt(c, net, client, hops, routers, envs, owner, own, path, x, y, trace, end);
  }

  lemma LastHopFinally(c: Primitives, net: Network, client: RouterId, hops: seq<HopConfig>, routers: seq<Router>, envs: seq<Env>,
                       owner: Ptr, own: Ptr, path: Path)
    requires Undisturbed(c, net, client, hops, routers, envs) && client in net && path.hops == hops
    requires hops[|hops| - 1].router.pubkey != client
    ensures var last := |hops| - 1;
            var final := WithOwn(After(net, client, hops, envs, |hops|), client, owner, own, path);
            var s := final[hops[last].router.pubkey];
            envs[last].p in s.hops && s.hops[envs[last].p] == HopAt(client, hops, envs, last)
  {
    PlacedAfter(c, net, client, hops, routers, envs, |hops|, |hops| - 1);
  }
}
