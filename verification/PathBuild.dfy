/** Building a path: the client seals one commit record per hop into a list of
    frames (udap/pathbuilder.cpp), and every hop opens the front frame, accepts,
    rotates the list and passes it on (udap/relay_commit.cpp). */
module PathBuild {
  import opened Bytes
  import opened Crypto
  import opened EncryptedFrame
  import opened PathContext
  import B = Buffer
  import Bencode
  import CR = CommitRecord

  const MAXHOPS: nat := 8
  const BODY: nat := 256
  const FRAME: nat := 352

  // ----- the client ---------------------------------------------------------------

  /** The sizes of the arrays in a hop configuration. */
  ghost predicate HopShape(c: Primitives, h: HopConfig)
  {
    && |h.txID| == |h.rxID| == CR.PATH_ID_SIZE
    && |h.router.pubkey| == |h.router.enckey| == KEY
  }

  ghost predicate PathShape(c: Primitives, hops: seq<HopConfig>)
  {
    1 <= |hops| <= MAXHOPS && forall i :: 0 <= i < |hops| ==> HopShape(c, hops[i])
  }

  /** The Path constructor: each hop sends upstream under the id on which the next
      hop listens for its downstream neighbour. */
  method NewPath(blank: HopConfig, routers: seq<Contact>, tx: seq<PathId>, rx: seq<PathId>) returns (hops: seq<HopConfig>)
    requires |routers| == |tx| == |rx| > 0
    ensures |hops| == |routers|
    ensures forall i :: 0 <= i < |hops| ==> hops[i].router == routers[i] && hops[i].rxID == rx[i]
    ensures forall i :: 0 <= i < |hops| - 1 ==> hops[i].txID == hops[i + 1].rxID
    ensures hops[|hops| - 1].txID == tx[|hops| - 1]
  {
    hops := seq(|routers|, i requires 0 <= i < |routers| => blank);
    var idx := 0;
    while idx < |routers|
      invariant idx <= |routers| == |hops|
      invariant forall i :: 0 <= i < idx ==> hops[i].router == routers[i] && hops[i].rxID == rx[i] && hops[i].txID == tx[i]
    {
      hops := hops[idx := hops[idx].(router := routers[idx], txID := tx[idx], rxID := rx[idx])];
      idx := idx + 1;
    }
    idx := 0;
    while idx < |routers| - 1
      invariant idx <= |routers| - 1 && |hops| == |routers|
      invariant forall i :: 0 <= i < |hops| ==> hops[i].router == routers[i] && hops[i].rxID == rx[i]
      invariant forall i :: 0 <= i < idx ==> hops[i].txID == hops[i + 1].rxID
      invariant forall i :: idx <= i < |hops| ==> hops[i].txID == tx[i]
    {
      hops := hops[idx := hops[idx].(txID := hops[idx + 1].rxID)];
      idx := idx + 1;
    }
  }

  /** Where hop i sends: the next router, and the farthest hop to itself. */
  function NextHop(hops: seq<HopConfig>, i: nat): (r: RouterId)
    requires i < |hops|
  {
    if i + 1 == |hops| then hops[i].router.pubkey else hops[i + 1].router.pubkey
  }

  function RecordOf(h: HopConfig): (r: CR.Record)
    requires |h.commkey| == 2 * KEY
  {
    CR.Record(ToPublic(h.commkey), h.upstream, h.nonce, h.rxID, h.txID)
  }

  /** Whoever owns `enckey` opens the frame and finds the record in front. */
  ghost predicate FrameFor(c: Primitives, f: bytes, enckey: bytes, r: CR.Record)
    requires Sized(c)
  {
    && |f| == FRAME
    && forall sk {:trigger Opened(c, sk, f)} :: IsSecretKey(c, sk) && ToPublic(sk) == enckey ==>
         Opened(c, sk, f).Some? && Bencode.At(Bencode.Input(Opened(c, sk, f).value, 0), 0, CR.Encoding(r))
  }

  /** Hop i has its keys and its frame. */
  ghost predicate HopReady(c: Primitives, hops: seq<HopConfig>, i: nat, f: bytes)
    requires Sized(c) && i < |hops|
  {
    var h := hops[i];
    && IsSecretKey(c, h.commkey) && |h.nonce| == KEY
    && h.upstream == NextHop(hops, i)
    && DhClient(c, h.router.enckey, h.commkey, h.nonce) == Some(h.shared)
    && FrameFor(c, f, h.router.enckey, RecordOf(h))
  }

  /** What the random generator yields for one hop. */
  datatype Draw = Draw(commkey: bytes, nonce: bytes, framekey: bytes, frameNonce: bytes)

  ghost predicate DrawOk(c: Primitives, d: Draw)
  {
    IsSecretKey(c, d.commkey) && IsSecretKey(c, d.framekey) && |d.nonce| == |d.frameNonce| == KEY
  }

  /** Neither key exchange of a hop is refused. */
  ghost predicate Exchanged(c: Primitives, h: HopConfig, d: Draw)
  {
    && DrawOk(c, d)
    && DhClient(c, h.router.enckey, d.commkey, d.nonce).Some?
    && DhClient(c, h.router.enckey, d.framekey, d.frameNonce).Some?
  }

  /** What key generation leaves alone. */
  ghost predicate SamePath(old_hops: seq<HopConfig>, hops: seq<HopConfig>)
  {
    && |hops| == |old_hops|
    && forall i :: 0 <= i < |hops| ==>
         && hops[i].txID == old_hops[i].txID && hops[i].rxID == old_hops[i].rxID
         && hops[i].router == old_hops[i].router && hops[i].lifetime == old_hops[i].lifetime
  }

  lemma SealedForOwner(c: Primitives, framekey: bytes, enckey: bytes, nonce: bytes, body: bytes, r: CR.Record)
    requires Sized(c) && Agreement(c) && IsSecretKey(c, framekey) && |nonce| == KEY && |body| == BODY
    requires Bencode.At(Bencode.Input(body, 0), 0, CR.Encoding(r))
    ensures var f := Sealed(c, framekey, enckey, nonce, body); f.Some? ==> FrameFor(c, f.value, enckey, r)
  {
    var f := Sealed(c, framekey, enckey, nonce, body);
    if f.Some? {
      forall sk | IsSecretKey(c, sk) && ToPublic(sk) == enckey
        ensures Opened(c, sk, f.value) == Some(body)
      {
        OpenedSealed(c, framekey, sk, nonce, body);
      }
    }
  }

  lemma RecordFits(m0: bytes, m1: bytes, c1: nat, r: CR.Record, ok: bool)
    requires CR.Shape(r) && |m0| == FRAME && B.Wrote(m0, OVERHEAD, m1, c1, CR.Encoding(r), CR.CHUNK, ok)
    ensures ok && |m1| == FRAME && Bencode.At(Bencode.Input(m1[OVERHEAD..], 0), 0, CR.Encoding(r))
  {
    CR.EncodedSize(r);
    var e := CR.Encoding(r);
    assert m1[OVERHEAD..c1] == e;
    forall i | 0 <= i < |e|
      ensures m1[OVERHEAD..][i] == e[i]
    {
      assert m1[OVERHEAD..c1][i] == e[i];
    }
  }

  /** The record of a hop into the body of its frame, and the frame sealed with an
      ephemeral key. */
  method FillFrame(c: Primitives, data: array<byte>, hop: HopConfig, framekey: bytes, nonce: bytes) returns (ok: bool)
    requires Sized(c) && Agreement(c) && data.Length == FRAME && HopShape(c, hop)
    requires |hop.commkey| == 2 * KEY && |hop.upstream| == |hop.nonce| == KEY
    requires IsSecretKey(c, framekey) && |nonce| == KEY
    modifies data
    ensures ok == DhClient(c, hop.router.enckey, framekey, nonce).Some?
    ensures ok ==> FrameFor(c, data[..], hop.router.enckey, RecordOf(hop))
  {
    var record := RecordOf(hop);
    var buf := new B.Buffer.Over(data, OVERHEAD);
    ghost var m0 := data[..];
    ok := CR.BEncode(record, buf);
    ghost var m1 := data[..];
    RecordFits(m0, m1, buf.cur, record, ok);
    ok := EncryptInPlace(c, data, framekey, hop.router.enckey, nonce);
    SealedForOwner(c, framekey, hop.router.enckey, nonce, m1[OVERHEAD..], record);
  }

  datatype Progress = Next | Done | Failed

  class KeyExchange {
    const c: Primitives
    const frames: seq<array<byte>>
    var hops: seq<HopConfig>
    var idx: nat

    ghost predicate Valid()
      reads this, frames
    {
      && Sized(c) && Agreement(c) && PathShape(c, hops) && idx <= |hops|
      && |frames| == MAXHOPS
      && (forall i :: 0 <= i < MAXHOPS ==> frames[i].Length == FRAME)
      && (forall i, j :: 0 <= i < j < MAXHOPS ==> frames[i] != frames[j])
      && (forall i :: 0 <= i < idx ==> HopReady(c, hops, i, frames[i][..]))
    }

    /** AsyncGenerateKeys up to its first job: eight frames of random bytes. */
    constructor (prims: Primitives, path: seq<HopConfig>, noise: nat -> bytes)
      requires Sized(prims) && Agreement(prims) && PathShape(prims, path) && forall i :: |noise(i)| == FRAME
      ensures Valid() && c == prims && hops == path && idx == 0 && fresh(frames)
    {
      c, hops, idx := prims, path, 0;
      var made: seq<array<byte>> := [];
      while |made| < MAXHOPS
        invariant |made| <= MAXHOPS && fresh(made)
        invariant forall i :: 0 <= i < |made| ==> made[i].Length == FRAME
        invariant forall i, j :: 0 <= i < j < |made| ==> made[i] != made[j]
      {
        var bytes := noise(|made|);
        var a := new byte[FRAME](i requires 0 <= i < FRAME => bytes[i]);
        made := made + [a];
      }
      frames := made;
    }

    /** The keys and the record of the current hop; its key pair is kept, its
        shared key derived and its upstream router set before the record is built. */
    method SetHop(d: Draw) returns (ok: bool)
      requires Valid() && idx < |hops| && DrawOk(c, d)
      modifies this`hops, this`idx
      ensures ok == DhClient(c, old(hops[idx]).router.enckey, d.commkey, d.nonce).Some?
      ensures SamePath(old(hops), hops)
      ensures idx == if ok then old(idx) + 1 else old(idx)
      ensures forall i :: 0 <= i < |hops| && i != old(idx) ==> hops[i] == old(hops)[i]
      ensures ok ==>
                var h := hops[old(idx)];
                && h.commkey == d.commkey && h.nonce == d.nonce && h.upstream == NextHop(hops, old(idx))
                && DhClient(c, h.router.enckey, h.commkey, h.nonce) == Some(h.shared)
    {
      var hop := hops[idx].(commkey := d.commkey, nonce := d.nonce);
      var shared := DhClient(c, hop.router.enckey, hop.commkey, hop.nonce);
      if shared.None? {
        hops := hops[idx := hop];
        return false;
      }
      hop := hop.(shared := shared.value);
      idx := idx + 1;
      hop := hop.(upstream := if idx == |hops| then hop.router.pubkey else hops[idx].router.pubkey);
      hops := hops[idx - 1 := hop];
      return true;
    }

    /** GenerateNextKey. */
    method GenerateNextKey(d: Draw) returns (p: Progress)
      requires Valid() && idx < |hops| && DrawOk(c, d)
      modifies this`hops, this`idx, frames[idx]
      ensures SamePath(old(hops), hops)
      ensures p.Failed? <==> !Exchanged(c, old(hops[idx]), d)
      ensures !p.Failed? ==> Valid() && idx == old(idx) + 1 && (p.Done? <==> idx == |hops|)
    {
      var k := idx;
      var ok := SetHop(d);
      if !ok {
        return Failed;
      }
      ok := FillFrame(c, frames[k], hops[k], d.framekey, d.frameNonce);
      if !ok {
        return Failed;
      }
      forall i | 0 <= i < k
        ensures HopReady(c, hops, i, frames[i][..])
      {
        assert frames[i][..] == old(frames[i][..]);
        assert HopReady(c, old(hops), i, old(frames[i][..]));
      }
      return if idx == |hops| then Done else Next;
    }

    /** The chain of jobs, each queueing the next. */
    method GenerateKeys(draws: nat -> Draw) returns (ok: bool)
      requires Valid() && idx == 0 && forall i: nat :: DrawOk(c, draws(i))
      modifies this`hops, this`idx, frames
      ensures SamePath(old(hops), hops)
      ensures ok <==> forall i: nat :: i < |hops| ==> Exchanged(c, old(hops)[i], draws(i))
      ensures ok ==> Valid() && idx == |hops|
    {
      ghost var start := hops;
      while idx < |hops|
        invariant Valid() && SamePath(start, hops)
        invariant forall i: nat :: i < idx ==> Exchanged(c, start[i], draws(i))
        decreases |hops| - idx
      {
        assert Exchanged(c, start[idx], draws(idx)) == Exchanged(c, hops[idx], draws(idx));
        var p := GenerateNextKey(draws(idx));
        if p.Failed? {
          return false;
        }
      }
      return true;
    }
  }
}
