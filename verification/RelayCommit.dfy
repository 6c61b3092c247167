/** A hop handling a commit message (LR_CommitMessage and LRCMFrameDecrypt in
    udap/relay_commit.cpp), and the run of a commit message along its path. */
module RelayCommit {
  import opened Bytes
  import opened Crypto
  import opened EncryptedFrame
  import opened PathContext
  import opened PathBuild
  import Bencode
  import CR = CommitRecord

  /** A router as far as commit messages go; `sk` is its encryption key. */
  datatype Router = Router(pubkey: RouterId, sk: bytes, allowTransit: bool, ctx: Context)

  /** What the allocator, the clock, the random generator and uninitialised memory
      contribute to one message. */
  datatype Env = Env(p: Ptr, now: u64, noise: nat -> byte, blank: CR.Record, beyond: byte)

  datatype Outcome =
    | Refused
    | Accepted(hop: TransitHop, ctx: Context, frames: seq<bytes>, farthest: bool)

  /** The record behind the overhead of a decrypted frame. */
  function ReadRecord(data: bytes, e: Env): (r: Option<CR.Record>)
  {
    match CR.Decode(Bencode.ReaderOf(Bencode.Input(data, e.beyond)), OVERHEAD, e.blank)
    case None => None
    case Some((r, _)) => Some(r)
  }

  function HandleCommit(c: Primitives, r: Router, from: RouterId, frames: seq<bytes>, e: Env): (o: Outcome)
    requires Sized(c) && |r.sk| == 2 * KEY
  {
    if |frames| != MAXHOPS || !r.allowTransit then Refused
    else match FrontRecord(c, r.sk, frames[0], e)
         case None => Refused
         case Some(rec) => Accept(c, r, from, frames, rec, e)
  }

  /** The record in a frame sealed for us. */
  function FrontRecord(c: Primitives, sk: bytes, f: bytes, e: Env): (r: Option<CR.Record>)
    requires Sized(c) && |sk| == 2 * KEY
  {
    match Opened(c, sk, f)
    case None => None
    case Some(body) => ReadRecord(f[..OVERHEAD] + body, e)
  }

  /** AsyncFrameDecrypter::Decrypt and the decoding of the record. */
  method OpenRecord(c: Primitives, sk: bytes, front: bytes, e: Env) returns (r: Option<CR.Record>)
    requires Sized(c) && |sk| == 2 * KEY
    ensures r == FrontRecord(c, sk, front, e)
  {
    var data := new byte[|front|](i requires 0 <= i < |front| => front[i]);
    assert data[..] == front;
    var ok := DecryptInPlace(c, data, sk);
    if !ok {
      return None;
    }
    return ReadRecord(data[..], e);
  }

  /** The front frame goes, and a frame of random bytes comes behind the others; the
      source passes the constructor the size of the front frame less the overhead. */
  function Rotate(frames: seq<bytes>, e: Env): (f: seq<bytes>)
    requires |frames| == MAXHOPS && |frames[0]| > OVERHEAD
  {
    frames[1..] + [RandomFrame(e.noise, |frames[0]| - OVERHEAD)]
  }

  function Accept(c: Primitives, r: Router, from: RouterId, frames: seq<bytes>, rec: CR.Record, e: Env): (o: Outcome)
    requires Sized(c) && |r.sk| == 2 * KEY && |frames| == MAXHOPS && |frames[0]| > OVERHEAD
  {
    var info := HopInfo(rec.txid, rec.rxid, rec.nextHop, from);
    if HasTransitHop(r.ctx, info) then Refused
    else match DhServer(c, rec.commkey, r.sk, rec.tunnelNonce)
         case None => Refused
         case Some(key) =>
           var hop := TransitHop(info, key, e.now, DEFAULT_PATH_LIFETIME);
           Accepted(hop, PutTransitHop(r.ctx, e.p, hop), Rotate(frames, e), info.upstream == r.pubkey)
  }

  /** Whatever arrives: a message that is passed on carries the same number of
      frames, the ones behind the front frame unchanged and one of random bytes as
      large as the front frame was, and the hop is not accepted twice. */
  lemma RotationKeepsShape(c: Primitives, r: Router, from: RouterId, frames: seq<bytes>, e: Env)
    requires Sized(c) && |r.sk| == 2 * KEY
    ensures var o := HandleCommit(c, r, from, frames, e);
            o.Accepted? ==>
              && |frames| == |o.frames| == MAXHOPS
              && (forall i :: 0 <= i < MAXHOPS - 1 ==> o.frames[i] == frames[i + 1])
              && |o.frames[MAXHOPS - 1]| == |frames[0]|
              && o.hop.info.downstream == from && !HasTransitHop(r.ctx, o.hop.info)
  {
  }

  /** One hop of any route: what router `r` accepted from `from` is passed on. */
  datatype Leg = Leg(r: Router, from: RouterId, e: Env)

  /** `msgs` are a message on its way over any routers, honest keys or not. */
  ghost predicate Route(c: Primitives, legs: seq<Leg>, msgs: seq<seq<bytes>>)
    requires Sized(c)
  {
    && |msgs| == |legs| + 1
    && forall k {:trigger legs[k]} :: 0 <= k < |legs| ==>
         && |legs[k].r.sk| == 2 * KEY
         && var o := HandleCommit(c, legs[k].r, legs[k].from, msgs[k], legs[k].e);
            o.Accepted? && o.frames == msgs[k + 1]
  }

  /** Along any route the message carries eight frames, and the sizes go round: after
      k hops frame j has the size of frame j + k of the original. */
  lemma SizesGoRound(c: Primitives, legs: seq<Leg>, msgs: seq<seq<bytes>>, k: nat, j: nat)
    requires Sized(c) && Route(c, legs, msgs) && 0 < k <= |legs| && j < MAXHOPS
    ensures |msgs[0]| == |msgs[k]| == MAXHOPS && |msgs[k][j]| == |msgs[0][(j + k) % MAXHOPS]|
  {
    forall i | 0 <= i < |legs|
      ensures ShiftedAt(msgs, i)
    {
      LegSizes(c, legs[i], msgs[i], msgs[i + 1]);
    }
    ShiftedOften(msgs, k, j);
  }

  predicate Shifted(before: seq<bytes>, after: seq<bytes>)
  {
    |before| == |after| == MAXHOPS && forall j {:trigger after[j]} :: 0 <= j < MAXHOPS ==> |after[j]| == |before[(j + 1) % MAXHOPS]|
  }

  predicate ShiftedAt(msgs: seq<seq<bytes>>, i: nat)
    requires i + 1 < |msgs|
  {
    Shifted(msgs[i], msgs[i + 1])
  }

  lemma {:induction false} ShiftedOften(msgs: seq<seq<bytes>>, k: nat, j: nat)
    requires 0 < k < |msgs| && j < MAXHOPS
    requires forall i {:trigger ShiftedAt(msgs, i)} :: 0 <= i < |msgs| - 1 ==> ShiftedAt(msgs, i)
    ensures |msgs[0]| == |msgs[k]| == MAXHOPS && |msgs[k][j]| == |msgs[0][(j + k) % MAXHOPS]|
    decreases k
  {
    assert ShiftedAt(msgs, k - 1);
    NextPlace(j, k);
    if k > 1 {
      ShiftedOften(msgs, k - 1, (j + 1) % MAXHOPS);
    }
  }

  lemma LegSizes(c: Primitives, leg: Leg, before: seq<bytes>, after: seq<bytes>)
    requires Sized(c) && |leg.r.sk| == 2 * KEY
    requires var o := HandleCommit(c, leg.r, leg.from, before, leg.e); o.Accepted? && o.frames == after
    ensures Shifted(before, after)
  {
    RotationKeepsShape(c, leg.r, leg.from, before, leg.e);
    ShiftedByOne(before, after);
  }

  lemma ShiftedByOne(before: seq<bytes>, after: seq<bytes>)
    requires |before| == |after| == MAXHOPS
    requires (forall i :: 0 <= i < MAXHOPS - 1 ==> after[i] == before[i + 1]) && |after[MAXHOPS - 1]| == |before[0]|
    ensures Shifted(before, after)
  {
  }

  lemma NextPlace(j: nat, k: nat)
    requires k > 0
    ensures ((j + 1) % MAXHOPS + (k - 1)) % MAXHOPS == (j + k) % MAXHOPS
  {
  }

  /** A live hop has the same ids and neighbours, and the table leads to it. */
  ghost predicate Present(s: Context, info: HopInfo)
  {
    exists p :: Entry(s.transit, info.txID, p) && p in s.hops && s.hops[p].info == info
  }

  /** A message is accepted exactly if it has eight frames, transit is allowed, the front
      frame opens with our key to a record, the hop it asks for is not there yet, and the
      key exchange with the client is not refused. */
  lemma {:induction false} AcceptsExactly(c: Primitives, r: Router, from: RouterId, frames: seq<bytes>, e: Env)
    requires Sized(c) && |r.sk| == 2 * KEY
    ensures |frames| != 8 || !r.allowTransit ==> HandleCommit(c, r, from, frames, e) == Refused
    ensures |frames| == 8 && r.allowTransit ==>
              match FrontRecord(c, r.sk, frames[0], e)
              case None => HandleCommit(c, r, from, frames, e) == Refused
              case Some(rec) =>
                HandleCommit(c, r, from, frames, e).Accepted? <==>
                  && !Present(r.ctx, HopInfo(rec.txid, rec.rxid, rec.nextHop, from))
                  && DhServer(c, rec.commkey, r.sk, rec.tunnelNonce).Some?
  {
  }

  /** HandleMessage, AsyncDecrypt and HandleDecrypted as one sequence of steps. */
  method HandleMessage(c: Primitives, r: Router, tables: PathTables, from: RouterId, message: seq<bytes>, e: Env)
    returns (accepted: bool, hop: TransitHop, frames: seq<bytes>, farthest: bool)
    requires Sized(c) && |r.sk| == 2 * KEY && Inv(tables.State()) && tables.State() == r.ctx && e.p !in tables.hops
    modifies tables
    ensures Inv(tables.State())
    ensures accepted == HandleCommit(c, r, from, message, e).Accepted?
    ensures accepted ==> HandleCommit(c, r, from, message, e) == Accepted(hop, tables.State(), frames, farthest)
    ensures !accepted ==> tables.State() == old(tables.State())
    ensures accepted ==> Shifted(message, frames)
    ensures accepted ==> |message| == 8 && r.allowTransit
  {
    frames := message;
    accepted, farthest := false, false;
    hop := TransitHop(HopInfo([], [], [], from), [], 0, DEFAULT_PATH_LIFETIME);
    if |frames| != MAXHOPS || !r.allowTransit {
      return;
    }
    var record := OpenRecord(c, r.sk, frames[0], e);
    if record.None? {
      return;
    }
    var rec := record.value;
    hop := hop.(info := HopInfo(rec.txid, rec.rxid, rec.nextHop, from));
    var info, hops := hop.info, tables.hops;
    var twin := MapGet(tables.transit, info.txID, p => p in hops && hops[p].info == info);
    if twin.Some? {
      return;
    }
    var key := DhServer(c, rec.commkey, r.sk, rec.tunnelNonce);
    if key.None? {
      return;
    }
    hop := hop.(pathKey := key.value, started := e.now);
    tables.AcceptHop(e.p, hop);
    var sz := |frames[0]|;
    frames := frames[1..];
    frames := frames + [RandomFrame(e.noise, sz - OVERHEAD)];
    ShiftedByOne(message, frames);
    farthest := info.upstream == r.pubkey;
    accepted := true;
  }

  // ----- the run along a path -------------------------------------------------------

  function Neighbour(client: RouterId, hops: seq<HopConfig>, i: nat): (r: RouterId)
    requires i < |hops|
  {
    if i == 0 then client else hops[i - 1].router.pubkey
  }

  /** What hop i should end up with. */
  function InfoAt(client: RouterId, hops: seq<HopConfig>, i: nat): (info: HopInfo)
    requires i < |hops|
  {
    HopInfo(hops[i].txID, hops[i].rxID, hops[i].upstream, Neighbour(client, hops, i))
  }

  function HopAt(client: RouterId, hops: seq<HopConfig>, envs: seq<Env>, i: nat): (h: TransitHop)
    requires i < |hops| == |envs|
  {
    TransitHop(InfoAt(client, hops, i), hops[i].shared, envs[i].now, DEFAULT_PATH_LIFETIME)
  }

  /** Neighbouring routers are distinct. */
  predicate Apart(hops: seq<HopConfig>, i: nat)
    requires i + 1 < |hops|
  {
    hops[i].router.pubkey != hops[i + 1].router.pubkey
  }

  /** The client's part is done. */
  ghost predicate Prepared(c: Primitives, hops: seq<HopConfig>, frames: seq<bytes>)
  {
    && Sized(c) && Agreement(c) && PathShape(c, hops)
    && |frames| == MAXHOPS
    && (forall i :: 0 <= i < MAXHOPS ==> |frames[i]| == FRAME)
    && (forall i {:trigger HopReady(c, hops, i, frames[i])} :: 0 <= i < |hops| ==> HopReady(c, hops, i, frames[i]))
    && (forall i {:trigger Apart(hops, i)} :: 0 <= i < |hops| - 1 ==> Apart(hops, i))
  }

  /** The message the client sends once every key is generated. */
  method CommitFrames(kx: KeyExchange) returns (frames: seq<bytes>)
    requires kx.Valid() && kx.idx == |kx.hops|
    requires forall i {:trigger Apart(kx.hops, i)} :: 0 <= i < |kx.hops| - 1 ==> Apart(kx.hops, i)
    ensures Prepared(kx.c, kx.hops, frames)
  {
    frames := [];
    while |frames| < MAXHOPS
      invariant |frames| <= MAXHOPS
      invariant forall i :: 0 <= i < |frames| ==> frames[i] == kx.frames[i][..]
    {
      frames := frames + [kx.frames[|frames|][..]];
    }
    forall i | 0 <= i < |kx.hops|
      ensures HopReady(kx.c, kx.hops, i, frames[i])
    {
      assert HopReady(kx.c, kx.hops, i, kx.frames[i][..]);
    }
  }

  /** The router at hop i when the message reaches it: it owns the keys of its
      contact and relays, and has not got this very hop already. Nothing else is
      asked of its tables. */
  ghost predicate Willing(c: Primitives, client: RouterId, hops: seq<HopConfig>, i: nat, r: Router, e: Env)
    requires i < |hops|
  {
    && r.pubkey == hops[i].router.pubkey && r.allowTransit
    && IsSecretKey(c, r.sk) && ToPublic(r.sk) == hops[i].router.enckey
    && !HasTransitHop(r.ctx, InfoAt(client, hops, i))
  }

  ghost predicate AllWilling(c: Primitives, client: RouterId, hops: seq<HopConfig>, routers: seq<Router>, envs: seq<Env>)
  {
    && |routers| == |envs| == |hops|
    && forall i {:trigger Willing(c, client, hops, i, routers[i], envs[i])} :: 0 <= i < |hops| ==>
         Willing(c, client, hops, i, routers[i], envs[i])
  }

  /** The frames a router passes on to `next`. */
  function Pass(c: Primitives, r: Router, from: RouterId, frames: seq<bytes>, e: Env, next: RouterId): (f: Option<seq<bytes>>)
    requires Sized(c) && |r.sk| == 2 * KEY
  {
    match HandleCommit(c, r, from, frames, e)
    case Refused => None
    case Accepted(hop, ctx, f2, farthest) => if farthest || hop.info.upstream != next then None else Some(f2)
  }

  /** The frames on the way to hop i: the message as the routers before it made it,
      or None if one of them did not pass it to the next. */
  ghost function FramesAt(c: Primitives, client: RouterId, hops: seq<HopConfig>, frames: seq<bytes>, routers: seq<Router>, envs: seq<Env>, i: nat): (f: Option<seq<bytes>>)
    requires Sized(c) && i < |hops| && AllWilling(c, client, hops, routers, envs)
  {
    if i == 0 then Some(frames)
    else
      var k := i - 1;
      match FramesAt(c, client, hops, frames, routers, envs, k)
      case None => None
      case Some(f) =>
        assert Willing(c, client, hops, k, routers[k], envs[k]);
        Pass(c, routers[k], Neighbour(client, hops, k), f, envs[k], hops[i].router.pubkey)
  }

  /** A message that has passed i hops: the client's frames from the i-th on, then
      the random frames of those hops. */
  ghost predicate Rotated(frames: seq<bytes>, envs: seq<Env>, i: nat, f: seq<bytes>)
    requires i <= |envs| && i <= MAXHOPS == |frames| && forall k :: 0 <= k < MAXHOPS ==> |frames[k]| > OVERHEAD
  {
    && |f| == MAXHOPS
    && (forall k :: i <= k < MAXHOPS ==> f[k - i] == frames[k])
    && (forall k :: 0 <= k < i ==> f[MAXHOPS - i + k] == RandomFrame(envs[k].noise, |frames[k]| - OVERHEAD))
  }

  lemma RotatedOnce(frames: seq<bytes>, envs: seq<Env>, i: nat, f: seq<bytes>)
    requires i < |envs| && i < MAXHOPS == |frames| && forall k :: 0 <= k < MAXHOPS ==> |frames[k]| > OVERHEAD
    requires Rotated(frames, envs, i, f)
    ensures f[0] == frames[i] && Rotated(frames, envs, i + 1, Rotate(f, envs[i]))
  {
    assert f[i - i] == frames[i];
    var g := Rotate(f, envs[i]);
    forall k | 0 <= k < i
      ensures g[MAXHOPS - i - 1 + k] == RandomFrame(envs[k].noise, |frames[k]| - OVERHEAD)
    {
      assert g[MAXHOPS - i - 1 + k] == f[MAXHOPS - i + k];
    }
    forall k | i + 1 <= k < MAXHOPS
      ensures g[k - i - 1] == frames[k]
    {
      assert g[k - i - 1] == f[k - i];
    }
  }

  /** The owner of the front frame reads its record behind the overhead. */
  lemma RecordInFront(c: Primitives, sk: bytes, f: bytes, h: HopConfig, e: Env)
    requires Sized(c) && IsSecretKey(c, sk) && ToPublic(sk) == h.router.enckey && HopShape(c, h)
    requires |h.commkey| == 2 * KEY && |h.upstream| == |h.nonce| == KEY
    requires FrameFor(c, f, h.router.enckey, RecordOf(h))
    ensures FrontRecord(c, sk, f, e) == Some(RecordOf(h))
  {
    var body, rec := Opened(c, sk, f).value, RecordOf(h);
    var inp := Bencode.Input(f[..OVERHEAD] + body, e.beyond);
    var enc := CR.Encoding(rec);
    assert Bencode.At(Bencode.Input(body, 0), 0, enc);
    forall i | 0 <= i < |enc|
      ensures inp.mem[OVERHEAD + i] == enc[i]
    {
      assert body[0 + i] == enc[i];
    }
    CR.ReadBack(inp, OVERHEAD, rec, e.blank);
  }

  /** Hop i accepts when its own frame is in front. */
  lemma HopAccepts(c: Primitives, client: RouterId, hops: seq<HopConfig>, frames: seq<bytes>, i: nat, r: Router, e: Env, arrived: seq<bytes>)
    requires Prepared(c, hops, frames) && i < |hops| && Willing(c, client, hops, i, r, e)
    requires |arrived| == MAXHOPS && arrived[0] == frames[i]
    ensures var hop := TransitHop(InfoAt(client, hops, i), hops[i].shared, e.now, DEFAULT_PATH_LIFETIME);
            HandleCommit(c, r, Neighbour(client, hops, i), arrived, e)
            == Accepted(hop, PutTransitHop(r.ctx, e.p, hop), Rotate(arrived, e), i + 1 == |hops|)
  {
    var h := hops[i];
    assert HopReady(c, hops, i, frames[i]);
    assert i + 1 < |hops| ==> HopShape(c, hops[i + 1]) && Apart(hops, i);
    RecordInFront(c, r.sk, arrived[0], h, e);
    DhAgrees(c, h.commkey, r.sk, h.nonce);
    RecordAccepted(c, r, Neighbour(client, hops, i), arrived, RecordOf(h), h.shared, e);
  }

  lemma RecordAccepted(c: Primitives, r: Router, from: RouterId, frames: seq<bytes>, rec: CR.Record, key: bytes, e: Env)
    requires Sized(c) && |r.sk| == 2 * KEY && |frames| == MAXHOPS && |frames[0]| > OVERHEAD && r.allowTransit
    requires FrontRecord(c, r.sk, frames[0], e) == Some(rec)
    requires DhServer(c, rec.commkey, r.sk, rec.tunnelNonce) == Some(key)
    requires !HasTransitHop(r.ctx, HopInfo(rec.txid, rec.rxid, rec.nextHop, from))
    ensures var hop := TransitHop(HopInfo(rec.txid, rec.rxid, rec.nextHop, from), key, e.now, DEFAULT_PATH_LIFETIME);
            HandleCommit(c, r, from, frames, e)
            == Accepted(hop, PutTransitHop(r.ctx, e.p, hop), Rotate(frames, e), rec.nextHop == r.pubkey)
  {
  }

  lemma HopPasses(c: Primitives, client: RouterId, hops: seq<HopConfig>, frames: seq<bytes>, i: nat, r: Router, e: Env, arrived: seq<bytes>)
    requires Prepared(c, hops, frames) && i + 1 < |hops| && Willing(c, client, hops, i, r, e)
    requires |arrived| == MAXHOPS && arrived[0] == frames[i]
    ensures Pass(c, r, Neighbour(client, hops, i), arrived, e, hops[i + 1].router.pubkey) == Some(Rotate(arrived, e))
  {
    HopAccepts(c, client, hops, frames, i, r, e, arrived);
    assert HopReady(c, hops, i, frames[i]);
  }

  /** The build of a path, over routers in any state: at hop i the frames are the
      client's from the i-th on, followed by one random frame per hop passed. */
  lemma {:induction false} FramesArrive(c: Primitives, client: RouterId, hops: seq<HopConfig>, frames: seq<bytes>, routers: seq<Router>, envs: seq<Env>, i: nat)
    requires Prepared(c, hops, frames) && AllWilling(c, client, hops, routers, envs) && i < |hops|
    ensures var f := FramesAt(c, client, hops, frames, routers, envs, i); f.Some? && Rotated(frames, envs, i, f.value)
    decreases i
  {
    if i > 0 {
      var k := i - 1;
      FramesArrive(c, client, hops, frames, routers, envs, k);
      var f := FramesAt(c, client, hops, frames, routers, envs, k).value;
      assert f[k - k] == frames[k];
      assert Willing(c, client, hops, k, routers[k], envs[k]);
      HopPasses(c, client, hops, frames, k, routers[k], envs[k], f);
      RotatedOnce(frames, envs, k, f);
    }
  }

  /** After the run hop i holds the client's shared key, the ids, and the routers on
      both sides; the last hop, and no other, finds itself farthest; the message
      was eight frames of one size with the client's frame i in front. */
  lemma PathIsBuilt(c: Primitives, client: RouterId, hops: seq<HopConfig>, frames: seq<bytes>, routers: seq<Router>, envs: seq<Env>, i: nat)
    requires Prepared(c, hops, frames) && AllWilling(c, client, hops, routers, envs) && i < |hops|
    ensures var f := FramesAt(c, client, hops, frames, routers, envs, i);
            && Willing(c, client, hops, i, routers[i], envs[i])
            && f.Some? && |f.value| == MAXHOPS && f.value[0] == frames[i]
            && (forall k :: 0 <= k < MAXHOPS ==> |f.value[k]| == FRAME)
            && var o := HandleCommit(c, routers[i], Neighbour(client, hops, i), f.value, envs[i]);
               && o.Accepted? && o.farthest == (i + 1 == |hops|)
               && o.hop.pathKey == hops[i].shared
               && o.hop.info.txID == hops[i].txID && o.hop.info.rxID == hops[i].rxID
               && o.hop.info.upstream == NextHop(hops, i) && o.hop.info.downstream == Neighbour(client, hops, i)
               && o.ctx == PutTransitHop(routers[i].ctx, envs[i].p, o.hop)
  {
    assert Willing(c, client, hops, i, routers[i], envs[i]);
    FramesArrive(c, client, hops, frames, routers, envs, i);
    var f := FramesAt(c, client, hops, frames, routers, envs, i).value;
    RotatedSizes(c, client, hops, frames, routers, envs, i, f);
    assert f[i - i] == frames[i];
    assert Willing(c, client, hops, i, routers[i], envs[i]);
    HopAccepts(c, client, hops, frames, i, routers[i], envs[i], f);
    assert HopReady(c, hops, i, frames[i]);
  }

  lemma RotatedSizes(c: Primitives, client: RouterId, hops: seq<HopConfig>, frames: seq<bytes>, routers: seq<Router>, envs: seq<Env>, i: nat, f: seq<bytes>)
    requires Prepared(c, hops, frames) && AllWilling(c, client, hops, routers, envs) && i < |hops|
    requires Rotated(frames, envs, i, f)
    ensures forall k :: 0 <= k < MAXHOPS ==> |f[k]| == FRAME
  {
    forall k | 0 <= k < MAXHOPS
      ensures |f[k]| == FRAME
    {
      if k < MAXHOPS - i {
        assert f[(k + i) - i] == frames[k + i];
      } else {
        var j := k - (MAXHOPS - i);
        assert f[MAXHOPS - i + j] == RandomFrame(envs[j].noise, |frames[j]| - OVERHEAD);
      }
    }
  }
}
