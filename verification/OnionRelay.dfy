/** Relaying data along a built path (udap/path.cpp, udap/transit_hop.cpp,
    udap/relay_up_down.cpp): one layer of xor per hop. A network is the tables of
    its routers; a message handed to a link arrives as it was sent. */
module OnionRelay {
  import opened Bytes
  import opened Crypto
  import opened PathContext
  import opened PathBuild
  import opened RelayCommit

  type Network = map<RouterId, Context>

  /** The path id, the layer nonce and the payload. */
  datatype Message = Up(pathid: PathId, y: bytes, x: bytes) | Down(pathid: PathId, y: bytes, x: bytes)
  datatype Delivery = Delivery(from: RouterId, to: RouterId, msg: Message)

  /** What handling a message leads to: the next message, a routing message for the
      farthest hop or for the owner of the path, or nothing. */
  datatype Reaction =
    | Sent(next: Delivery)
    | AtFarthest(router: RouterId, hop: Ptr, text: bytes)
    | AtOwner(router: RouterId, path: Ptr, text: bytes)
    | Dropped

  // ----- layers -----------------------------------------------------------------

  /** The layers of all hops, first hop first. */
  function Layers(c: Primitives, x: bytes, hops: seq<HopConfig>, y: bytes): (r: bytes)
    requires Sized(c) && |y| == KEY
    ensures |r| == |x|
    decreases |hops|
  {
    if hops == [] then x else Layers(c, Crypt(c, x, hops[0].shared, y), hops[1..], y)
  }

  /** What has passed all hops downstream, the last hop first. */
  function Wrapped(c: Primitives, x: bytes, hops: seq<HopConfig>, y: bytes): (r: bytes)
    requires Sized(c) && |y| == KEY
    ensures |r| == |x|
    decreases |hops|
  {
    if hops == [] then x else Crypt(c, Wrapped(c, x, hops[1..], y), hops[0].shared, y)
  }

  lemma {:induction false} LayerMovesIn(c: Primitives, x: bytes, hops: seq<HopConfig>, k: bytes, y: bytes)
    requires Sized(c) && |y| == KEY
    ensures Crypt(c, Layers(c, x, hops, y), k, y) == Layers(c, Crypt(c, x, k, y), hops, y)
    decreases |hops|
  {
    if hops != [] {
      LayerMovesIn(c, Crypt(c, x, hops[0].shared, y), hops[1..], k, y);
      LayersCommute(c, x, hops[0].shared, y, k, y);
    }
  }

  /** The front hop takes its own layer off and leaves the others. */
  lemma Peeled(c: Primitives, x: bytes, hops: seq<HopConfig>, y: bytes)
    requires Sized(c) && |y| == KEY && hops != []
    ensures Crypt(c, Layers(c, x, hops, y), hops[0].shared, y) == Layers(c, x, hops[1..], y)
  {
    var k := hops[0].shared;
    LayerMovesIn(c, Crypt(c, x, k, y), hops[1..], k, y);
    LayersCommute(c, x, k, y, k, y);
  }

  /** The owner's layers undo what all hops have put on. */
  lemma {:induction false} Unwrapped(c: Primitives, x: bytes, hops: seq<HopConfig>, y: bytes)
    requires Sized(c) && |y| == KEY
    ensures Layers(c, Wrapped(c, x, hops, y), hops, y) == x
    decreases |hops|
  {
    if hops != [] {
      var k := hops[0].shared;
      LayersCommute(c, Wrapped(c, x, hops[1..], y), k, y, k, y);
      Unwrapped(c, x, hops[1..], y);
    }
  }

  /** The loop of Path::HandleUpstream and Path::HandleDownstream over the buffer. */
  method ApplyLayers(c: Primitives, hops: seq<HopConfig>, buf: array<byte>, y: bytes)
    requires Sized(c) && |y| == KEY
    modifies buf
    ensures buf[..] == Layers(c, old(buf[..]), hops, y)
  {
    var i := 0;
    while i < |hops|
      invariant i <= |hops|
      invariant Layers(c, buf[..], hops[i..], y) == Layers(c, old(buf[..]), hops, y)
    {
      XChaCha20All(c, buf, hops[i].shared, y);
      assert hops[i..][1..] == hops[i + 1..];
      i := i + 1;
    }
    assert hops[|hops|..] == [];
  }

  // ----- handlers ------------------------------------------------------------------

  /** Path::HandleUpstream: what the owner hands to the first hop. */
  function OwnerSends(c: Primitives, client: RouterId, hops: seq<HopConfig>, x: bytes, y: bytes): (d: Delivery)
    requires Sized(c) && |y| == KEY && hops != []
  {
    Delivery(client, hops[0].router.pubkey, Up(hops[0].txID, y, Layers(c, x, hops, y)))
  }

  function HopHandlesUp(c: Primitives, us: RouterId, p: Ptr, hop: TransitHop, x: bytes, y: bytes): (r: Reaction)
    requires Sized(c) && |y| == KEY
  {
    var x2 := Crypt(c, x, hop.pathKey, y);
    if hop.info.upstream == us then AtFarthest(us, p, x2)
    else Sent(Delivery(us, hop.info.upstream, Up(hop.info.txID, y, x2)))
  }

  /** TransitHop::HandleDownstream, also the tail of SendRoutingMessage. */
  function HopSendsDown(c: Primitives, us: RouterId, hop: TransitHop, x: bytes, y: bytes): (d: Delivery)
    requires Sized(c) && |y| == KEY
  {
    Delivery(us, hop.info.downstream, Down(hop.info.rxID, y, Crypt(c, x, hop.pathKey, y)))
  }

  /** TransitHop::HandleUpstream on the buffer. */
  method HandleUpstream(c: Primitives, us: RouterId, p: Ptr, hop: TransitHop, buf: array<byte>, y: bytes) returns (r: Reaction)
    requires Sized(c) && |y| == KEY
    modifies buf
    ensures r == HopHandlesUp(c, us, p, hop, old(buf[..]), y)
  {
    XChaCha20All(c, buf, hop.pathKey, y);
    if hop.info.upstream == us {
      return AtFarthest(us, p, buf[..]);
    }
    return Sent(Delivery(us, hop.info.upstream, Up(hop.info.txID, y, buf[..])));
  }

  method HandleDownstream(c: Primitives, us: RouterId, hop: TransitHop, buf: array<byte>, y: bytes) returns (d: Delivery)
    requires Sized(c) && |y| == KEY
    modifies buf
    ensures d == HopSendsDown(c, us, hop, old(buf[..]), y)
  {
    XChaCha20All(c, buf, hop.pathKey, y);
    return Delivery(us, hop.info.downstream, Down(hop.info.rxID, y, buf[..]));
  }

  /** RelayUpstreamMessage::HandleMessage and RelayDownstreamMessage::HandleMessage. */
  function Handle(c: Primitives, net: Network, d: Delivery): (r: Reaction)
    requires Sized(c)
  {
    if d.to !in net || |d.msg.y| != KEY then Dropped
    else
      var ctx := net[d.to];
      match d.msg
      case Up(id, y, x) => (
        match GetByDownstream(ctx, d.from, id)
        case None => Dropped
        case Some(p) => HopHandlesUp(c, d.to, p, ctx.hops[p], x, y)
      )
      case Down(id, y, x) =>
        match GetByUpstream(ctx, d.from, id)
        case NoHandler => Dropped
        case OwnPath(p) => if p in ctx.paths then AtOwner(d.to, p, Layers(c, x, ctx.paths[p].hops, y)) else Dropped
        case Transit(p) => Sent(HopSendsDown(c, d.to, ctx.hops[p], x, y))
  }

  /** A relay message is dropped exactly if no hop, and for messages from upstream no own
      path, knows the router it came from under the id it carries. */
  lemma {:induction false} StrangersAreDropped(c: Primitives, net: Network, d: Delivery)
    requires Sized(c) && d.to in net && |d.msg.y| == KEY && Inv(net[d.to])
    ensures var ctx, id := net[d.to], d.msg.pathid;
            match d.msg
            case Up(_, _, _) =>
              Handle(c, net, d) == Dropped <==> forall p :: Entry(ctx.transit, id, p) ==> ctx.hops[p].info.downstream != d.from
            case Down(_, _, _) =>
              Handle(c, net, d) == Dropped <==>
                && !(id in ctx.own && OwnKey(ctx.own[id], d.from, id) in ctx.kept)
                && forall p :: Entry(ctx.transit, id, p) ==> ctx.hops[p].info.upstream != d.from
  {
  }

  // ----- journeys -------------------------------------------------------------------

  /** A complete run of one message: each delivery is what the one before led to,
      and the last one led to no other. */
  ghost predicate Journey(c: Primitives, net: Network, trace: seq<Delivery>, end: Reaction)
    requires Sized(c)
  {
    && |trace| > 0 && !end.Sent?
    && (forall i :: 0 <= i < |trace| - 1 ==> Handle(c, net, trace[i]) == Sent(trace[i + 1]))
    && Handle(c, net, trace[|trace| - 1]) == end
  }

  lemma JourneyNext(c: Primitives, net: Network, trace: seq<Delivery>, end: Reaction, i: nat)
    requires Sized(c) && Journey(c, net, trace, end) && i < |trace|
    ensures Handle(c, net, trace[i]) == if i + 1 < |trace| then Sent(trace[i + 1]) else end
  {
    if i + 1 < |trace| {
      assert Handle(c, net, trace[i]) == Sent(trace[i + 1]);
    }
  }

  /** The id under which hop i is addressed from downstream: the client uses the id
      the first hop sends upstream with. */
  function UpId(hops: seq<HopConfig>, i: nat): (id: PathId)
    requires i < |hops|
  {
    if i == 0 then hops[0].txID else hops[i].rxID
  }

  /** Hop i answers for its neighbours with the client's key. */
  ghost predicate Installed(net: Network, client: RouterId, hops: seq<HopConfig>, i: nat, p: Ptr)
    requires i < |hops|
  {
    var r := hops[i].router.pubkey;
    && r in net && p in net[r].hops
    && net[r].hops[p].info == InfoAt(client, hops, i) && net[r].hops[p].pathKey == hops[i].shared
    && GetByDownstream(net[r], Neighbour(client, hops, i), UpId(hops, i)) == Some(p)
    && (i + 1 < |hops| ==> GetByUpstream(net[r], hops[i].upstream, hops[i].txID) == Transit(p))
  }

  /** The owner finds its path under the id the first hop answers with. */
  ghost predicate Owned(net: Network, client: RouterId, hops: seq<HopConfig>, p: Ptr)
    requires |hops| > 0
  {
    && client in net && p in net[client].paths && net[client].paths[p].hops == hops
    && GetByUpstream(net[client], hops[0].router.pubkey, hops[0].rxID) == OwnPath(p)
  }

  /** Ids link neighbouring hops, and upstream routers are the path's own. */
  ghost predicate Linked(hops: seq<HopConfig>)
  {
    && |hops| > 0
    && (forall i {:trigger NextHop(hops, i)} :: 0 <= i < |hops| ==> hops[i].upstream == NextHop(hops, i))
    && (forall i {:trigger Apart(hops, i)} :: 0 <= i < |hops| - 1 ==> Apart(hops, i) && hops[i].txID == hops[i + 1].rxID)
  }

  /** Every hop of the path is installed, hop i as ps[i]. */
  ghost predicate PathStands(net: Network, client: RouterId, hops: seq<HopConfig>, ps: seq<Ptr>, own: Ptr)
  {
    && Linked(hops) && |ps| == |hops| && Owned(net, client, hops, own)
    && forall i {:trigger Installed(net, client, hops, i, ps[i])} :: 0 <= i < |hops| ==> Installed(net, client, hops, i, ps[i])
  }

  function UpDelivery(c: Primitives, client: RouterId, hops: seq<HopConfig>, x: bytes, y: bytes, i: nat): (d: Delivery)
    requires Sized(c) && |y| == KEY && i < |hops|
  {
    Delivery(Neighbour(client, hops, i), hops[i].router.pubkey, Up(UpId(hops, i), y, Layers(c, x, hops[i..], y)))
  }

  lemma UpStep(c: Primitives, net: Network, client: RouterId, hops: seq<HopConfig>, ps: seq<Ptr>, own: Ptr, x: bytes, y: bytes, i: nat)
    requires Sized(c) && |y| == KEY && PathStands(net, client, hops, ps, own) && i < |hops|
    ensures Handle(c, net, UpDelivery(c, client, hops, x, y, i)) ==
            if i + 1 == |hops| then AtFarthest(hops[i].router.pubkey, ps[i], x)
            else Sent(UpDelivery(c, client, hops, x, y, i + 1))
  {
    assert Installed(net, client, hops, i, ps[i]);
    assert hops[i].upstream == NextHop(hops, i);
    Peeled(c, x, hops[i..], y);
    assert hops[i..][1..] == hops[i + 1..] && hops[i..][0] == hops[i];
    if i + 1 < |hops| {
      assert Apart(hops, i);
    } else {
      assert hops[i + 1..] == [];
    }
  }

  /** Whatever the owner sends upstream visits the hops in order; every hop but the
      last passes it on unparsed, and the last one parses the plaintext. */
  lemma UpstreamJourney(c: Primitives, net: Network, client: RouterId, hops: seq<HopConfig>, ps: seq<Ptr>, own: Ptr, x: bytes, y: bytes, trace: seq<Delivery>, end: Reaction)
    requires Sized(c) && |y| == KEY && PathStands(net, client, hops, ps, own)
    requires Journey(c, net, trace, end) && trace[0] == OwnerSends(c, client, hops, x, y)
    ensures |trace| == |hops| && (forall i :: 0 <= i < |hops| ==> trace[i].to == hops[i].router.pubkey)
    ensures end == AtFarthest(hops[|hops| - 1].router.pubkey, ps[|hops| - 1], x)
  {
    assert hops[0..] == hops;
    var n := |hops|;
    UpTrace(c, net, client, hops, ps, own, x, y, trace, end, 0);
  }

  lemma {:induction false} UpTrace(c: Primitives, net: Network, client: RouterId, hops: seq<HopConfig>, ps: seq<Ptr>, own: Ptr, x: bytes, y: bytes, trace: seq<Delivery>, end: Reaction, i: nat)
    requires Sized(c) && |y| == KEY && PathStands(net, client, hops, ps, own) && i < |hops|
    requires Journey(c, net, trace, end) && i < |trace| && trace[i] == UpDelivery(c, client, hops, x, y, i)
    ensures |trace| == |hops| && (forall k :: i <= k < |hops| ==> trace[k].to == hops[k].router.pubkey)
    ensures end == AtFarthest(hops[|hops| - 1].router.pubkey, ps[|hops| - 1], x)
    decreases |hops| - i
  {
    UpStep(c, net, client, hops, ps, own, x, y, i);
    JourneyNext(c, net, trace, end, i);
    if i + 1 < |hops| {
      UpTrace(c, net, client, hops, ps, own, x, y, trace, end, i + 1);
    }
  }

  /** What arrives at the downstream neighbour of hop i. */
  function DownDelivery(c: Primitives, client: RouterId, hops: seq<HopConfig>, x: bytes, y: bytes, i: nat): (d: Delivery)
    requires Sized(c) && |y| == KEY && i < |hops|
  {
    Delivery(hops[i].router.pubkey, Neighbour(client, hops, i), Down(hops[i].rxID, y, Wrapped(c, x, hops[i..], y)))
  }

  lemma DownStep(c: Primitives, net: Network, client: RouterId, hops: seq<HopConfig>, ps: seq<Ptr>, own: Ptr, x: bytes, y: bytes, i: nat)
    requires Sized(c) && |y| == KEY && PathStands(net, client, hops, ps, own) && i < |hops|
    ensures Handle(c, net, DownDelivery(c, client, hops, x, y, i)) ==
            if i == 0 then AtOwner(client, own, x) else Sent(DownDelivery(c, client, hops, x, y, i - 1))
  {
    if i == 0 {
      assert hops[0..] == hops;
      Unwrapped(c, x, hops, y);
    } else {
      var k := i - 1;
      assert Installed(net, client, hops, k, ps[k]);
      assert Apart(hops, k) && hops[k].upstream == NextHop(hops, k);
      assert hops[k..][1..] == hops[i..] && hops[k..][0] == hops[k];
    }
  }

  /** What the farthest hop sends downstream reaches the owner of the path, as
      plaintext, after every other hop has passed it on. */
  lemma DownstreamJourney(c: Primitives, net: Network, client: RouterId, hops: seq<HopConfig>, ps: seq<Ptr>, own: Ptr, x: bytes, y: bytes, trace: seq<Delivery>, end: Reaction)
    requires Sized(c) && |y| == KEY && PathStands(net, client, hops, ps, own)
    requires Journey(c, net, trace, end)
    requires var last := |hops| - 1;
             var r := hops[last].router.pubkey;
             r in net && ps[last] in net[r].hops && trace[0] == HopSendsDown(c, r, net[r].hops[ps[last]], x, y)
    ensures |trace| == |hops| && (forall k :: 0 <= k < |hops| ==> trace[|hops| - 1 - k].to == Neighbour(client, hops, k))
    ensures end == AtOwner(client, own, x)
  {
    var last := |hops| - 1;
    assert Installed(net, client, hops, last, ps[last]);
    assert hops[last..] == [hops[last]];
    assert Wrapped(c, x, hops[last..], y) == Crypt(c, x, hops[last].shared, y);
    DownTrace(c, net, client, hops, ps, own, x, y, trace, end, last);
  }

  lemma {:induction false} DownTrace(c: Primitives, net: Network, client: RouterId, hops: seq<HopConfig>, ps: seq<Ptr>, own: Ptr, x: bytes, y: bytes, trace: seq<Delivery>, end: Reaction, i: nat)
    requires Sized(c) && |y| == KEY && PathStands(net, client, hops, ps, own) && i < |hops|
    requires var at := |hops| - 1 - i;
             Journey(c, net, trace, end) && at < |trace| && trace[at] == DownDelivery(c, client, hops, x, y, i)
    ensures |trace| == |hops| && (forall k :: 0 <= k <= i ==> trace[|hops| - 1 - k].to == Neighbour(client, hops, k))
    ensures end == AtOwner(client, own, x)
    decreases i
  {
    DownStep(c, net, client, hops, ps, own, x, y, i);
    JourneyNext(c, net, trace, end, |hops| - 1 - i);
    if i > 0 {
      DownTrace(c, net, client, hops, ps, own, x, y, trace, end, i - 1);
    }
  }

  /** The journeys above exist: both directions always get through. */
  lemma UpstreamArrives(c: Primitives, net: Network, client: RouterId, hops: seq<HopConfig>, ps: seq<Ptr>, own: Ptr, x: bytes, y: bytes)
    requires Sized(c) && |y| == KEY && PathStands(net, client, hops, ps, own)
    ensures exists trace: seq<Delivery> :: |trace| > 0 && trace[0] == OwnerSends(c, client, hops, x, y)
              && Journey(c, net, trace, AtFarthest(hops[|hops| - 1].router.pubkey, ps[|hops| - 1], x))
  {
    assert hops[0..] == hops;
    var trace := UpFrom(c, net, client, hops, ps, own, x, y, 0);
  }

  lemma {:induction false} UpFrom(c: Primitives, net: Network, client: RouterId, hops: seq<HopConfig>, ps: seq<Ptr>, own: Ptr, x: bytes, y: bytes, i: nat)
    returns (trace: seq<Delivery>)
    requires Sized(c) && |y| == KEY && PathStands(net, client, hops, ps, own) && i < |hops|
    ensures |trace| > 0 && trace[0] == UpDelivery(c, client, hops, x, y, i)
    ensures Journey(c, net, trace, AtFarthest(hops[|hops| - 1].router.pubkey, ps[|hops| - 1], x))
    decreases |hops| - i
  {
    UpStep(c, net, client, hops, ps, own, x, y, i);
    trace := [UpDelivery(c, client, hops, x, y, i)];
    if i + 1 < |hops| {
      var rest := UpFrom(c, net, client, hops, ps, own, x, y, i + 1);
      JourneyCons(c, net, trace[0], rest, AtFarthest(hops[|hops| - 1].router.pubkey, ps[|hops| - 1], x));
      trace := trace + rest;
    }
  }

  lemma JourneyCons(c: Primitives, net: Network, first: Delivery, rest: seq<Delivery>, end: Reaction)
    requires Sized(c) && Journey(c, net, rest, end) && Handle(c, net, first) == Sent(rest[0])
    ensures Journey(c, net, [first] + rest, end)
  {
    var trace := [first] + rest;
    forall i | 0 <= i < |trace| - 1
      ensures Handle(c, net, trace[i]) == Sent(trace[i + 1])
    {
      if i > 0 {
        assert trace[i] == rest[i - 1] && trace[i + 1] == rest[i - 1 + 1];
      }
    }
  }

  lemma DownstreamArrives(c: Primitives, net: Network, client: RouterId, hops: seq<HopConfig>, ps: seq<Ptr>, own: Ptr, x: bytes, y: bytes)
    requires Sized(c) && |y| == KEY && PathStands(net, client, hops, ps, own)
    ensures exists trace: seq<Delivery> :: |trace| > 0 && trace[0] == DownDelivery(c, client, hops, x, y, |hops| - 1)
              && Journey(c, net, trace, AtOwner(client, own, x))
  {
    var trace := DownFrom(c, net, client, hops, ps, own, x, y, |hops| - 1);
  }

  lemma {:induction false} DownFrom(c: Primitives, net: Network, client: RouterId, hops: seq<HopConfig>, ps: seq<Ptr>, own: Ptr, x: bytes, y: bytes, i: nat)
    returns (trace: seq<Delivery>)
    requires Sized(c) && |y| == KEY && PathStands(net, client, hops, ps, own) && i < |hops|
    ensures |trace| > 0 && trace[0] == DownDelivery(c, client, hops, x, y, i)
    ensures Journey(c, net, trace, AtOwner(client, own, x))
    decreases i
  {
    DownStep(c, net, client, hops, ps, own, x, y, i);
    trace := [DownDelivery(c, client, hops, x, y, i)];
    if i > 0 {
      var rest := DownFrom(c, net, client, hops, ps, own, x, y, i - 1);
      JourneyCons(c, net, trace[0], rest, AtOwner(client, own, x));
      trace := trace + rest;
    }
  }
}
