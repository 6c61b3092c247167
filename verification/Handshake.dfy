/** The three-packet handshake and the frame cipher of an IWP session
    (udap/crypto_async.cpp, udap/iwp_link.cpp).

    Every packet is `hmac | nonce | box | padding` with three 32-byte fields; the
    session keeps one 256-byte work buffer and each step overwrites regions of it.
    `stale` names what an uninitialised shared-key buffer holds: the callers
    ignore the verdict of the key exchange, so that is what they go on with when
    it is refused. */
module Handshake {
  import opened Bytes
  import opened Crypto

  const MAX_PAD: nat := 128
  const WORKBUF: nat := 256
  const FIELDS: nat := 96
  const FRAME_BUF: nat := 1500
  const FRAME_OVERHEAD: nat := 64

  function Key(r: Option<bytes>, stale: bytes): (k: bytes)
  {
    match r case Some(k) => k case None => stale
  }

  // ----- packets --------------------------------------------------------------

  /** The authenticated packet around a box. */
  function Packet(c: Primitives, nonce: bytes, box: bytes, pad: bytes, secret: bytes): (p: bytes)
  {
    Hmac(c, nonce + box + pad, secret) + (nonce + box + pad)
  }

  /** The three fields of a packet lying in the work buffer. */
  function NonceOf(w: bytes): (n: bytes)
    requires |w| >= FIELDS
    ensures |n| == 32
  {
    w[32..64]
  }

  function BoxOf(w: bytes): (b: bytes)
    requires |w| >= FIELDS
    ensures |b| == 32
  {
    w[64..96]
  }

  predicate Authentic(c: Primitives, w: bytes, sz: nat, secret: bytes)
    requires 32 <= sz <= |w|
  {
    Hmac(c, w[32..sz], secret) == w[..32]
  }

  function IntroKey(c: Primitives, serverPk: bytes, nonce: bytes): (k: bytes)
  {
    ShortHash(c, serverPk + nonce)
  }

  function IntroPacket(c: Primitives, sk: bytes, remote: bytes, nonce: bytes, pad: bytes, stale: bytes): (p: bytes)
    requires Sized(c) && |sk| == 2 * KEY && |nonce| == 32
  {
    Packet(c, nonce, Crypt(c, ToPublic(sk), IntroKey(c, remote, nonce), nonce), pad,
           Key(DhClient(c, remote, sk, nonce), stale))
  }

  /** The initiator's key as the responder reads it, whether or not it is authentic. */
  function IntroRemote(c: Primitives, sk: bytes, w: bytes): (remote: bytes)
    requires Sized(c) && |sk| == 2 * KEY && |w| >= FIELDS
  {
    Crypt(c, BoxOf(w), IntroKey(c, ToPublic(sk), NonceOf(w)), NonceOf(w))
  }

  predicate IntroVerifies(c: Primitives, sk: bytes, w: bytes, sz: nat, stale: bytes)
    requires Sized(c) && |sk| == 2 * KEY && |w| >= FIELDS && 32 <= sz <= |w|
  {
    Authentic(c, w, sz, Key(DhServer(c, IntroRemote(c, sk, w), sk, NonceOf(w)), stale))
  }

  function IntroAckPacket(c: Primitives, sk: bytes, remote: bytes, token: bytes, nonce: bytes, pad: bytes, stale: bytes): (p: bytes)
    requires Sized(c) && |sk| == 2 * KEY && |nonce| == 32
  {
    var s := Key(DhServer(c, remote, sk, nonce), stale);
    Packet(c, nonce, Crypt(c, token, s, nonce), pad, s)
  }

  /** The token the initiator recovers, if the acknowledgement is authentic. */
  function OpenIntroAck(c: Primitives, sk: bytes, remote: bytes, w: bytes, sz: nat, stale: bytes): (token: Option<bytes>)
    requires Sized(c) && |sk| == 2 * KEY && |w| >= FIELDS && 32 <= sz <= |w|
  {
    var s := Key(DhClient(c, remote, sk, NonceOf(w)), stale);
    if Authentic(c, w, sz, s) then Some(Crypt(c, BoxOf(w), s, NonceOf(w))) else None
  }

  function StartPacket(c: Primitives, sk: bytes, remote: bytes, token: bytes, nonce: bytes, pad: bytes, stale: bytes): (p: bytes)
    requires Sized(c) && |sk| == 2 * KEY && |nonce| == 32
  {
    var e := Key(DhClient(c, remote, sk, nonce), stale);
    Packet(c, nonce, Crypt(c, token, e, nonce), pad, e)
  }

  /** T, the hash the session key is derived under. */
  function SessionNonce(c: Primitives, token: bytes, nonce: bytes): (t: bytes)
  {
    ShortHash(c, token + nonce)
  }

  /** The responder's verdict on a session start: authentic, and its own token. */
  predicate StartVerifies(c: Primitives, sk: bytes, remote: bytes, token: bytes, w: bytes, sz: nat, stale: bytes)
    requires Sized(c) && |sk| == 2 * KEY && |w| >= FIELDS && 32 <= sz <= |w|
  {
    var e := Key(DhServer(c, remote, sk, NonceOf(w)), stale);
    Authentic(c, w, sz, e) && Crypt(c, BoxOf(w), e, NonceOf(w)) == token
  }

  // ----- the undisturbed handshake ----------------------------------------------

  /** The key exchange between two key pairs is not refused. */
  ghost predicate Exchange(c: Primitives, a: bytes, b: bytes)
  {
    && Sized(c) && Agreement(c) && IsSecretKey(c, a) && IsSecretKey(c, b)
    && c.scalarmult(a[..KEY], ToPublic(b)).Some?
  }

  lemma ExchangeAgrees(c: Primitives, a: bytes, b: bytes, n: bytes)
    requires Exchange(c, a, b)
    ensures DhClient(c, ToPublic(b), a, n).Some?
    ensures DhServer(c, ToPublic(a), b, n) == DhClient(c, ToPublic(b), a, n)
  {
    DhAgrees(c, a, b, n);
  }

  /** A packet copied over an old work buffer reads back field by field. */
  lemma PacketFields(c: Primitives, nonce: bytes, box: bytes, pad: bytes, secret: bytes, rest: bytes)
    requires Sized(c) && |nonce| == 32 && |box| == 32
    ensures var p := Packet(c, nonce, box, pad, secret);
            var w := p + rest;
            && |p| == FIELDS + |pad|
            && NonceOf(w) == nonce && BoxOf(w) == box && Authentic(c, w, |p|, secret)
  {
    var body := nonce + box + pad;
    var p := Packet(c, nonce, box, pad, secret);
    var w := p + rest;
    assert w[..32] == Hmac(c, body, secret);
    assert w[32..|p|] == body;
    assert w[32..64] == nonce;
    assert w[64..96] == box;
  }

  /** The responder accepts the intro and recovers the initiator's key. */
  lemma IntroRecovered(c: Primitives, a: bytes, b: bytes, nonce: bytes, pad: bytes, rest: bytes, staleA: bytes, staleB: bytes)
    requires Exchange(c, a, b) && |nonce| == 32
    ensures var p := IntroPacket(c, a, ToPublic(b), nonce, pad, staleA);
            var w := p + rest;
            && |p| == FIELDS + |pad|
            && IntroVerifies(c, b, w, |p|, staleB) && IntroRemote(c, b, w) == ToPublic(a)
  {
    var k := IntroKey(c, ToPublic(b), nonce);
    var box := Crypt(c, ToPublic(a), k, nonce);
    var secret := Key(DhClient(c, ToPublic(b), a, nonce), staleA);
    PacketFields(c, nonce, box, pad, secret, rest);
    LayersCommute(c, ToPublic(a), k, nonce, k, nonce);
    ExchangeAgrees(c, a, b, nonce);
  }

  /** The initiator accepts the acknowledgement and recovers the responder's token. */
  lemma TokenRecovered(c: Primitives, a: bytes, b: bytes, token: bytes, nonce: bytes, pad: bytes, rest: bytes, staleA: bytes, staleB: bytes)
    requires Exchange(c, a, b) && |nonce| == 32 && |token| == 32
    ensures var p := IntroAckPacket(c, b, ToPublic(a), token, nonce, pad, staleB);
            |p| == FIELDS + |pad| && OpenIntroAck(c, a, ToPublic(b), p + rest, |p|, staleA) == Some(token)
  {
    ExchangeAgrees(c, a, b, nonce);
    var s := Key(DhServer(c, ToPublic(a), b, nonce), staleB);
    PacketFields(c, nonce, Crypt(c, token, s, nonce), pad, s, rest);
    LayersCommute(c, token, s, nonce, s, nonce);
  }

  /** The responder accepts the session start, and both sides derive one key. */
  lemma SessionAgreed(c: Primitives, a: bytes, b: bytes, token: bytes, nonce: bytes, pad: bytes, rest: bytes, staleA: bytes, staleB: bytes)
    requires Exchange(c, a, b) && |nonce| == 32 && |token| == 32
    ensures var p := StartPacket(c, a, ToPublic(b), token, nonce, pad, staleA);
            var w := p + rest;
            && |p| == FIELDS + |pad|
            && StartVerifies(c, b, ToPublic(a), token, w, |p|, staleB)
            && DhServer(c, ToPublic(a), b, SessionNonce(c, token, NonceOf(w)))
               == DhClient(c, ToPublic(b), a, SessionNonce(c, token, nonce))
            && DhClient(c, ToPublic(b), a, SessionNonce(c, token, nonce)).Some?
  {
    ExchangeAgrees(c, a, b, nonce);
    ExchangeAgrees(c, a, b, SessionNonce(c, token, nonce));
    var e := Key(DhClient(c, ToPublic(b), a, nonce), staleA);
    PacketFields(c, nonce, Crypt(c, token, e, nonce), pad, e, rest);
    LayersCommute(c, token, e, nonce, e, nonce);
  }

  // ----- the session ------------------------------------------------------------

  datatype State = Initial | IntroRecv | IntroSent | IntroAckSent | IntroAckRecv | SessionStartSent | LIMSent | Closed

  /** What the work buffer holds once padding, nonce and box are in place, and
      once the box is sealed. */
  lemma Laid(w: bytes, nonce: bytes, box: bytes, pad: bytes, sealed: bytes)
    requires |nonce| == |box| == |sealed| == 32 && FIELDS + |pad| <= |w|
    ensures var w2 := Put(Put(Put(w, 96, pad), 32, nonce), 64, box);
            && w2[64..96] == box
            && Put(w2, 64, sealed)[32..FIELDS + |pad|] == nonce + sealed + pad
  {
    var w0 := Put(w, 96, pad);
    var w1 := Put(w0, 32, nonce);
    var w2 := Put(w1, 64, box);
    var w3 := Put(w2, 64, sealed);
    var sz := FIELDS + |pad|;
    PutRegion(w, 96, pad);
    PutRegion(w0, 32, nonce);
    PutRegion(w1, 64, box);
    PutRegion(w2, 64, sealed);
    PutElsewhere(w0, 32, nonce, 96, sz);
    PutElsewhere(w1, 64, box, 96, sz);
    PutElsewhere(w1, 64, box, 32, 64);
    PutElsewhere(w2, 64, sealed, 96, sz);
    PutElsewhere(w2, 64, sealed, 32, 64);
    assert w3[32..sz] == w3[32..64] + w3[64..96] + w3[96..sz];
  }

  lemma PutFront(w: bytes, h: bytes, sz: nat)
    requires |h| <= sz <= |w|
    ensures Put(w, 0, h)[..sz] == h + w[|h|..sz]
  {
  }

  class Session {
    const c: Primitives
    const seckey: bytes
    const workbuf: array<byte>
    var remote: bytes
    var token: bytes
    var sessionkey: bytes
    var state: State

    ghost predicate Valid()
      reads this
    {
      && Sized(c) && |seckey| == 2 * KEY && workbuf.Length == WORKBUF
      && |remote| == 32 && |token| == 32
    }

    constructor (prims: Primitives, keys: bytes, randomToken: bytes)
      requires Sized(prims) && |keys| == 2 * KEY && |randomToken| == 32
      ensures Valid() && fresh(workbuf)
      ensures c == prims && seckey == keys && token == randomToken && state == Initial
    {
      c, seckey, token, state := prims, keys, randomToken, Initial;
      remote, sessionkey := Zeros(32), Zeros(32);
      workbuf := new byte[WORKBUF];
    }

    /** Lays nonce, box and padding into the work buffer, encrypts the box in
        place and writes the hmac in front: the tail every generator shares. */
    method Seal(nonce: bytes, box: bytes, pad: bytes, boxKey: bytes, secret: bytes) returns (packet: bytes)
      requires Valid() && |nonce| == 32 && |box| == 32 && |pad| < MAX_PAD
      modifies workbuf
      ensures packet == Packet(c, nonce, Crypt(c, box, boxKey, nonce), pad, secret)
      ensures |packet| == FIELDS + |pad|
    {
      var sz := FIELDS + |pad|;
      ghost var sealed := Crypt(c, box, boxKey, nonce);
      ghost var w := workbuf[..];
      CopyTo(workbuf, 96, pad);
      CopyTo(workbuf, 32, nonce);
      CopyTo(workbuf, 64, box);
      Laid(w, nonce, box, pad, sealed);
      XChaCha20(c, workbuf, 64, 96, boxKey, nonce);
      ghost var w3 := workbuf[..];
      assert workbuf[32..sz] == w3[32..sz];
      var h := Hmac(c, workbuf[32..sz], secret);
      CopyTo(workbuf, 0, h);
      packet := workbuf[..sz];
      PutFront(w3, h, sz);
    }

    /** introduce and gen_intro. */
    method Introduce(pub: bytes, nonce: bytes, pad: bytes, stale: bytes) returns (packet: bytes)
      requires Valid() && |pub| == 32 && |nonce| == 32 && |pad| < MAX_PAD
      modifies this`remote, this`state, workbuf
      ensures Valid() && remote == pub && state == IntroSent
      ensures packet == IntroPacket(c, seckey, pub, nonce, pad, stale)
    {
      remote := pub;
      var s := Key(DhClient(c, remote, seckey, nonce), stale);
      packet := Seal(nonce, ToPublic(seckey), pad, IntroKey(c, remote, nonce), s);
      state := IntroSent;
    }

    /** on_intro, verify_intro and, if the packet is authentic, intro_ack and
        gen_introack. The remote key is overwritten before it is authenticated. */
    method OnIntro(packet: bytes, nonce: bytes, pad: bytes, stale: bytes, stale2: bytes) returns (reply: Option<bytes>)
      requires Valid() && |packet| >= 32 && |nonce| == 32 && |pad| < MAX_PAD
      modifies this`remote, this`state, workbuf
      ensures Valid()
      ensures |packet| >= WORKBUF ==> reply.None? && state == Closed && remote == old(remote)
      ensures |packet| < WORKBUF ==>
                var w := packet + old(workbuf[|packet|..]);
                && remote == IntroRemote(c, seckey, w)
                && (if IntroVerifies(c, seckey, w, |packet|, stale)
                    then state == IntroAckSent && reply == Some(IntroAckPacket(c, seckey, remote, token, nonce, pad, stale2))
                    else state == IntroRecv && reply.None?)
      ensures |packet| >= 256 ==> reply.None?
      ensures |packet| < 256 ==>
                var w := packet + old(workbuf[|packet|..]);
                reply.Some? <==> c.generichash(Key(DhServer(c, remote, seckey, w[32..64]), stale), packet[32..]) == packet[..32]
    {
      if |packet| >= WORKBUF {
        state := Closed;
        return None;
      }
      CopyTo(workbuf, 0, packet);
      assert workbuf[..] == packet + old(workbuf[|packet|..]);
      var w := workbuf[..];
      assert w[32..|packet|] == packet[32..] && w[..32] == packet[..32];
      state := IntroRecv;
      remote := IntroRemote(c, seckey, w);
      if !IntroVerifies(c, seckey, w, |packet|, stale) {
        return None;
      }
      var s := Key(DhServer(c, remote, seckey, nonce), stale2);
      var r := Seal(nonce, token, pad, s, s);
      state := IntroAckSent;
      reply := Some(r);
    }

    /** on_intro_ack, verify_introack and, if authentic, session_start and
        gen_session_start. */
    method OnIntroAck(packet: bytes, nonce: bytes, pad: bytes, stale: bytes, stale2: bytes) returns (reply: Option<bytes>)
      requires Valid() && |packet| >= 32 && |nonce| == 32 && |pad| < MAX_PAD
      modifies this`token, this`sessionkey, this`state, workbuf
      ensures Valid()
      ensures |packet| >= WORKBUF ==> reply.None? && state == Closed && token == old(token) && sessionkey == old(sessionkey)
      ensures |packet| < WORKBUF ==>
                var w := packet + old(workbuf[|packet|..]);
                match OpenIntroAck(c, seckey, remote, w, |packet|, stale)
                case None => reply.None? && state == old(state) && token == old(token) && sessionkey == old(sessionkey)
                case Some(t) =>
                  && token == t && state == SessionStartSent
                  && reply == Some(StartPacket(c, seckey, remote, t, nonce, pad, stale2))
                  && sessionkey == Key(DhClient(c, remote, seckey, SessionNonce(c, t, nonce)), old(sessionkey))
      ensures |packet| >= 256 ==> reply.None?
      ensures |packet| < 256 ==>
                var w := packet + old(workbuf[|packet|..]);
                reply.Some? <==> c.generichash(Key(DhClient(c, remote, seckey, w[32..64]), stale), packet[32..]) == packet[..32]
      ensures reply.None? ==> token == old(token) && sessionkey == old(sessionkey)
    {
      if |packet| >= WORKBUF {
        state := Closed;
        return None;
      }
      CopyTo(workbuf, 0, packet);
      assert workbuf[..] == packet + old(workbuf[|packet|..]);
      var w := workbuf[..];
      assert w[32..|packet|] == packet[32..] && w[..32] == packet[..32];
      var s := Key(DhClient(c, remote, seckey, w[32..64]), stale);
      if Hmac(c, w[32..|packet|], s) != w[..32] {
        return None;
      }
      XChaCha20(c, workbuf, 64, 96, s, w[32..64]);
      token := workbuf[64..96];
      assert token == Crypt(c, BoxOf(w), s, NonceOf(w));
      state := IntroAckRecv;
      var e := Key(DhClient(c, remote, seckey, nonce), stale2);
      sessionkey := Key(DhClient(c, remote, seckey, SessionNonce(c, token, nonce)), sessionkey);
      var r := Seal(nonce, token, pad, e, e);
      state := SessionStartSent;
      reply := Some(r);
    }

    /** on_session_start and verify_session_start. */
    method OnSessionStart(packet: bytes, stale: bytes)
      requires Valid() && |packet| >= 32
      modifies this`sessionkey, this`state, workbuf
      ensures Valid()
      ensures |packet| > WORKBUF ==> sessionkey == old(sessionkey) && state == old(state)
      ensures |packet| <= WORKBUF ==>
                var w := packet + old(workbuf[|packet|..]);
                if StartVerifies(c, seckey, remote, token, w, |packet|, stale)
                then && state == LIMSent
                     && sessionkey == Key(DhServer(c, remote, seckey, SessionNonce(c, token, NonceOf(w))), old(sessionkey))
                else state == old(state) && sessionkey == old(sessionkey)
      ensures |packet| <= 256 ==>
                var w := packet + old(workbuf[|packet|..]);
                var e := Key(DhServer(c, remote, seckey, w[32..64]), stale);
                if c.generichash(e, packet[32..]) == packet[..32] && Crypt(c, w[64..96], e, w[32..64]) == token
                then state == LIMSent
                else state == old(state) && sessionkey == old(sessionkey)
    {
      if |packet| > WORKBUF {
        return;
      }
      CopyTo(workbuf, 0, packet);
      assert workbuf[..] == packet + old(workbuf[|packet|..]);
      var w := workbuf[..];
      assert w[32..|packet|] == packet[32..] && w[..32] == packet[..32];
      var e := Key(DhServer(c, remote, seckey, w[32..64]), stale);
      if Hmac(c, w[32..|packet|], e) != w[..32] {
        return;
      }
      XChaCha20(c, workbuf, 64, 96, e, w[32..64]);
      assert workbuf[64..96] == Crypt(c, BoxOf(w), e, NonceOf(w));
      if workbuf[64..96] == token {
        sessionkey := Key(DhServer(c, remote, seckey, SessionNonce(c, token, w[32..64])), sessionkey);
        state := LIMSent;
      }
    }
  }

  /** An undisturbed handshake between any two sessions: whatever the nonces, the
      padding and the bytes left in both work buffers, the responder ends with the
      initiator's key, the initiator with the responder's token, and both with one
      session key. */
  method UndisturbedHandshake(a: Session, b: Session, n1: bytes, n2: bytes, n3: bytes, p1: bytes, p2: bytes, p3: bytes, stale: nat -> bytes)
    requires a != b && a.workbuf != b.workbuf && a.c == b.c && a.Valid() && b.Valid()
    requires Exchange(a.c, a.seckey, b.seckey)
    requires |n1| == |n2| == |n3| == 32 && |p1| < MAX_PAD && |p2| < MAX_PAD && |p3| < MAX_PAD
    modifies a, b, a.workbuf, b.workbuf
    ensures b.remote == ToPublic(a.seckey)
    ensures a.token == b.token == old(b.token)
    ensures a.sessionkey == b.sessionkey
    ensures Some(a.sessionkey) == DhClient(a.c, ToPublic(b.seckey), a.seckey, SessionNonce(a.c, old(b.token), n3))
    ensures a.state == SessionStartSent && b.state == LIMSent
  {
    var intro := a.Introduce(ToPublic(b.seckey), n1, p1, stale(1));
    IntroRecovered(a.c, a.seckey, b.seckey, n1, p1, b.workbuf[|intro|..], stale(1), stale(2));
    var ack := b.OnIntro(intro, n2, p2, stale(2), stale(3));
    TokenRecovered(a.c, a.seckey, b.seckey, b.token, n2, p2, a.workbuf[|ack.value|..], stale(4), stale(3));
    var start := a.OnIntroAck(ack.value, n3, p3, stale(4), stale(5));
    SessionAgreed(a.c, a.seckey, b.seckey, b.token, n3, p3, b.workbuf[|start.value|..], stale(5), stale(6));
    b.OnSessionStart(start.value, stale(6));
  }

  // ----- frames -----------------------------------------------------------------

  function SealedFrame(c: Primitives, body: bytes, key: bytes, nonce: bytes): (f: bytes)
    requires Sized(c) && |nonce| == 32
    ensures |f| == FRAME_OVERHEAD + |body|
  {
    var x := nonce + Crypt(c, body, key, nonce);
    Hmac(c, x, key) + x
  }

  predicate FrameAuthentic(c: Primitives, f: bytes, key: bytes)
    requires |f| >= 32
  {
    Hmac(c, f[32..], key) == f[..32]
  }

  function FrameBody(c: Primitives, f: bytes, key: bytes): (body: bytes)
    requires Sized(c) && |f| >= FRAME_OVERHEAD
    ensures |body| == |f| - FRAME_OVERHEAD
  {
    Crypt(c, f[64..], key, f[32..64])
  }

  /** A frame sealed by one side, with any padding, authenticates on the other and
      shows the same message in front of the padding. */
  lemma FrameRoundTrip(c: Primitives, msg: bytes, pad: bytes, key: bytes, nonce: bytes)
    requires Sized(c) && |nonce| == 32
    ensures var f := SealedFrame(c, msg + pad, key, nonce);
            && FrameAuthentic(c, f, key)
            && FrameBody(c, f, key) == msg + pad && FrameBody(c, f, key)[..|msg|] == msg
  {
    var body := msg + pad;
    var x := nonce + Crypt(c, body, key, nonce);
    var f := SealedFrame(c, body, key, nonce);
    assert f[32..] == x && f[..32] == Hmac(c, x, key);
    assert f[32..64] == nonce && f[64..] == Crypt(c, body, key, nonce);
    LayersCommute(c, body, key, nonce, key, nonce);
  }

  /** encrypt_frame_async_send and iwp_encrypt_frame: the message goes behind the
      overhead, padding behind it, and the frame is sealed where it lies. */
  method SendFrame(c: Primitives, buf: array<byte>, msg: bytes, pad: bytes, key: bytes, nonce: bytes) returns (sz: nat)
    requires Sized(c) && buf.Length == FRAME_BUF && |nonce| == 32
    requires |pad| < MAX_PAD && FRAME_OVERHEAD + |msg| + |pad| <= FRAME_BUF
    modifies buf
    ensures sz == FRAME_OVERHEAD + |msg| + |pad|
    ensures buf[..sz] == SealedFrame(c, msg + pad, key, nonce)
  {
    sz := FRAME_OVERHEAD + |msg|;
    ghost var w := buf[..];
    CopyTo(buf, FRAME_OVERHEAD, msg);
    CopyTo(buf, sz, pad);
    sz := sz + |pad|;
    CopyTo(buf, 32, nonce);
    ghost var x := Crypt(c, msg + pad, key, nonce);
    FrameLaid(w, nonce, msg, pad, x);
    XChaCha20(c, buf, 64, sz, key, nonce);
    ghost var w3 := buf[..];
    assert buf[32..sz] == w3[32..sz];
    var h := Hmac(c, buf[32..sz], key);
    CopyTo(buf, 0, h);
    PutFront(w3, h, sz);
    assert buf[..sz] == buf[..][..sz];
  }

  lemma FrameLaid(w: bytes, nonce: bytes, msg: bytes, pad: bytes, sealed: bytes)
    requires |nonce| == 32 && |sealed| == |msg| + |pad| && FRAME_OVERHEAD + |msg| + |pad| <= |w|
    ensures var sz := FRAME_OVERHEAD + |msg| + |pad|;
            var w2 := Put(Put(Put(w, 64, msg), 64 + |msg|, pad), 32, nonce);
            && w2[64..sz] == msg + pad
            && Put(w2, 64, sealed)[32..sz] == nonce + sealed
  {
    var mid := FRAME_OVERHEAD + |msg|;
    var sz := mid + |pad|;
    var w0 := Put(w, 64, msg);
    var w1 := Put(w0, mid, pad);
    var w2 := Put(w1, 32, nonce);
    var w3 := Put(w2, 64, sealed);
    PutRegion(w, 64, msg);
    PutRegion(w0, mid, pad);
    PutElsewhere(w0, mid, pad, 64, mid);
    assert w1[64..sz] == w1[64..mid] + w1[mid..sz];
    PutRegion(w1, 32, nonce);
    PutElsewhere(w1, 32, nonce, 64, sz);
    PutRegion(w2, 64, sealed);
    PutElsewhere(w2, 64, sealed, 32, 64);
    assert w3[32..sz] == w3[32..64] + w3[64..sz];
  }

  /** iwp_decrypt_frame: the body is decrypted in place even when the hmac fails. */
  method DecryptFrame(c: Primitives, buf: array<byte>, sz: nat, key: bytes) returns (success: bool)
    requires Sized(c) && FRAME_OVERHEAD <= sz <= buf.Length
    modifies buf
    ensures success == FrameAuthentic(c, old(buf[..sz]), key)
    ensures success <==> c.generichash(key, old(buf[32..sz])) == old(buf[..32])
    ensures buf[..] == Put(old(buf[..]), 64, FrameBody(c, old(buf[..sz]), key))
  {
    ghost var f := buf[..sz];
    assert buf[32..sz] == f[32..] && buf[..32] == f[..32] && buf[..][64..sz] == f[64..] && buf[32..64] == f[32..64];
    var digest := Hmac(c, buf[32..sz], key);
    success := digest == buf[..32];
    XChaCha20(c, buf, 64, sz, key, buf[32..64]);
  }
}
