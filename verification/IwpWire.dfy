/** The bytes of a plaintext frame: a header of 6 bytes and the body of an XMIT, FRAG or
    ACKS message, with padding behind it (udap/iwp_link.cpp).

    Numbers are copied as they lie in memory, so both ends are taken to agree on the order
    of bytes; here the low byte comes first. */
module IwpWire {
  import opened Bytes
  import opened BitMask
  import opened IwpTransit
  import opened IwpEndpoint
  import opened IwpProtocol
  import Crypto
  import Handshake

  const ALIV: byte := 0
  const XMIT: byte := 1
  const ACKS: byte := 2
  const FRAG: byte := 3

  // ----- numbers ----------------------------------------------------------------------

  function Power(b: nat, k: nat): (p: nat)
  {
    if k == 0 then 1 else b * Power(b, k - 1)
  }

  function Word(n: nat, k: nat): (w: bytes)
    ensures |w| == k
  {
    if k == 0 then [] else [(n % 256) as byte] + Word(n / 256, k - 1)
  }

  function Number(w: bytes): (n: nat)
  {
    if w == [] then 0 else w[0] as nat + 256 * Number(w[1..])
  }

  lemma {:induction false} NumberOfWord(n: nat, k: nat)
    requires n < Power(256, k)
    ensures Number(Word(n, k)) == n
  {
    if k > 0 {
      NumberOfWord(n / 256, k - 1);
      assert Word(n, k)[1..] == Word(n / 256, k - 1);
    }
  }

  /** The number a mask denotes, and the mask a number denotes. */
  function MaskNumber(w: seq<bool>): (n: nat)
  {
    if w == [] then 0 else (if w[0] then 1 else 0) + 2 * MaskNumber(w[1..])
  }

  function MaskBits(n: nat, k: nat): (w: seq<bool>)
    ensures |w| == k
  {
    if k == 0 then [] else [n % 2 == 1] + MaskBits(n / 2, k - 1)
  }

  lemma {:induction false} BitsOfNumber(w: seq<bool>)
    ensures MaskNumber(w) < Power(2, |w|) && MaskBits(MaskNumber(w), |w|) == w
  {
    if w != [] {
      BitsOfNumber(w[1..]);
      assert w == [w[0]] + w[1..];
    }
  }

  // ----- writing ----------------------------------------------------------------------

  /** Every field fits its place. */
  predicate Encodable(f: Frame)
  {
    match f
    case XmitFrame(x, last) =>
      && |x.hash| == 32 && x.msgid < U64 && x.fragsize < 65536 && x.lastsize < 65536 && x.numfrags < 256 && x.flags < 256
      && XMIT_HEADER_SIZE + |last| < 65536
    case FragFrame(id, no, data) => id < U64 && no < 256 && FRAG_HEADER_SIZE + |data| < 65536
    case AcksFrame(id, _) => id < U64
  }

  function Type(f: Frame): (t: byte)
  {
    match f case XmitFrame(_, _) => XMIT case FragFrame(_, _, _) => FRAG case AcksFrame(_, _) => ACKS
  }

  /** xmit::set_info. */
  function XmitBytes(x: Xmit): (b: bytes)
    requires |x.hash| == 32 && x.numfrags < 256 && x.flags < 256
    ensures |b| == XMIT_HEADER_SIZE
  {
    x.hash + Word(x.msgid, 8) + Word(x.fragsize, 2) + Word(x.lastsize, 2) + [0, 0, x.numfrags as byte, x.flags as byte]
  }

  function Body(f: Frame): (b: bytes)
    requires Encodable(f)
    ensures FRAME_HEADER_SIZE + |b| == FrameSize(f) && |b| < 65536
  {
    match f
    case XmitFrame(x, last) => XmitBytes(x) + last
    case FragFrame(id, no, data) => Word(id, 8) + [no as byte] + data
    case AcksFrame(id, mask) => Word(id, 8) + Word(MaskNumber(mask), 4)
  }

  function Header(t: byte, size: nat, flags: byte): (b: bytes)
    ensures |b| == FRAME_HEADER_SIZE
  {
    [0, t] + Word(size, 2) + [0, flags]
  }

  function Encode(f: Frame, flags: byte): (b: bytes)
    requires Encodable(f)
    ensures |b| == FrameSize(f)
  {
    Header(Type(f), |Body(f)|, flags) + Body(f)
  }

  /** init_sendbuf. */
  method InitSendbuf(buf: array<byte>, t: byte, size: nat, flags: byte)
    requires FRAME_HEADER_SIZE <= buf.Length
    modifies buf
    ensures buf[..] == Header(t, size, flags) + old(buf[FRAME_HEADER_SIZE..])
  {
    buf[0] := 0;
    buf[1] := t;
    buf[2], buf[3] := Word(size, 2)[0], Word(size, 2)[1];
    buf[4] := 0;
    buf[5] := flags;
  }

  lemma {:induction false} Appended(w: bytes, done: bytes, part: bytes)
    requires |done| + |part| <= |w| && w[..|done|] == done
    ensures Crypto.Put(w, |done|, part)[..|done| + |part|] == done + part
  {
  }

  /** generate_xmit, retransmit_frags and push_ackfor, each for one frame: a send buffer
      of exactly the size of the frame, filled in from header to body. */
  method Generate(f: Frame, flags: byte) returns (buf: array<byte>)
    requires Encodable(f)
    ensures fresh(buf) && buf[..] == Encode(f, flags)
  {
    buf := new byte[FrameSize(f)];
    InitSendbuf(buf, Type(f), |Body(f)|, flags);
    ghost var head := Header(Type(f), |Body(f)|, flags);
    assert buf[..][..FRAME_HEADER_SIZE] == head;
    match f
    case XmitFrame(x, last) =>
      Fill(buf, head, XmitBytes(x), last);
    case FragFrame(id, no, data) =>
      Fill(buf, head, Word(id, 8) + [no as byte], data);
    case AcksFrame(id, mask) =>
      Fill(buf, head, Word(id, 8), Word(MaskNumber(mask), 4));
  }

  /** Two copies behind the header. */
  method Fill(buf: array<byte>, ghost head: bytes, first: bytes, second: bytes)
    requires |head| == FRAME_HEADER_SIZE && buf.Length == |head| + |first| + |second| && buf[..][..|head|] == head
    modifies buf
    ensures buf[..] == head + (first + second)
  {
    Appended(buf[..], head, first);
    Crypto.CopyTo(buf, FRAME_HEADER_SIZE, first);
    Appended(buf[..], head + first, second);
    Crypto.CopyTo(buf, FRAME_HEADER_SIZE + |first|, second);
    assert buf[..][..buf.Length] == buf[..];
  }

  // ----- reading ----------------------------------------------------------------------

  /** Unspecified: what lies behind the frame in memory decides. */
  datatype Outcome = Got(f: Frame) | Alive | Refused | Unspecified

  function XmitOfBytes(b: bytes): (x: Xmit)
    requires |b| == XMIT_HEADER_SIZE
  {
    Xmit(b[..32], Number(b[32..40]), Number(b[40..42]), Number(b[42..44]), b[46] as nat, b[47] as nat)
  }

  /** What got_xmit sees. A size below that of the header wraps around where the rest is
      computed, and then the last fragment is taken to be as long as it says. */
  function ReadXmit(data: bytes, size: nat): (r: Outcome)
    requires size <= |data|
  {
    if |data| < XMIT_HEADER_SIZE then Unspecified
    else
      var x := XmitOfBytes(data[..XMIT_HEADER_SIZE]);
      if size >= XMIT_HEADER_SIZE then Got(XmitFrame(x, data[XMIT_HEADER_SIZE..size]))
      else if XMIT_HEADER_SIZE + x.lastsize <= |data| then Got(XmitFrame(x, data[XMIT_HEADER_SIZE..XMIT_HEADER_SIZE + x.lastsize]))
      else Unspecified
  }

  function ReadFrag(data: bytes, size: nat): (r: Outcome)
    requires size <= |data|
  {
    if size < FRAG_HEADER_SIZE then Refused
    else Got(FragFrame(Number(data[..8]), data[8] as nat, data[FRAG_HEADER_SIZE..size]))
  }

  function ReadAcks(data: bytes, size: nat): (r: Outcome)
    requires size <= |data|
  {
    if size < ACKS_BODY_SIZE then Refused
    else Got(AcksFrame(Number(data[..8]), MaskBits(Number(data[8..12]), 32)))
  }

  /** The frame that process hands to the handlers. */
  function Read(buf: bytes): (r: Outcome)
  {
    if |buf| < FRAME_HEADER_SIZE then Unspecified
    else
      var t, size, data := buf[1], Number(buf[2..4]), buf[FRAME_HEADER_SIZE..];
      if t == ALIV then Alive
      else if t != XMIT && t != FRAG && t != ACKS then Refused
      else if size > |data| then Refused
      else if t == XMIT then ReadXmit(data, size)
      else if t == FRAG then ReadFrag(data, size)
      else ReadAcks(data, size)
  }

  // ----- round trip ---------------------------------------------------------------------

  lemma {:induction false} Powers()
    ensures Power(256, 2) == 65536 && Power(256, 4) == Power(2, 32) && Power(256, 8) == U64
  {
    assert Power(256, 2) == 65536;
    assert Power(256, 4) == 65536 * 65536;
    assert Power(256, 8) == 65536 * 65536 * Power(256, 4);
    assert Power(2, 8) == 256;
    assert Power(2, 16) == 256 * Power(2, 8);
    assert Power(2, 24) == 256 * Power(2, 16);
    assert Power(2, 32) == 256 * Power(2, 24);
  }

  lemma {:induction false} HeaderRead(t: byte, size: nat, flags: byte, data: bytes)
    requires size < 65536
    ensures var buf := Header(t, size, flags) + data;
            buf[1] == t && Number(buf[2..4]) == size && buf[FRAME_HEADER_SIZE..] == data
  {
    Powers();
    NumberOfWord(size, 2);
    assert (Header(t, size, flags) + data)[2..4] == Word(size, 2);
  }

  lemma {:induction false} XmitRead(x: Xmit)
    requires |x.hash| == 32 && x.msgid < U64 && x.fragsize < 65536 && x.lastsize < 65536 && x.numfrags < 256 && x.flags < 256
    ensures XmitOfBytes(XmitBytes(x)) == x
  {
    var b := XmitBytes(x);
    Powers();
    NumberOfWord(x.msgid, 8);
    NumberOfWord(x.fragsize, 2);
    NumberOfWord(x.lastsize, 2);
    assert b[..32] == x.hash;
    assert b[32..40] == Word(x.msgid, 8);
    assert b[40..42] == Word(x.fragsize, 2);
    assert b[42..44] == Word(x.lastsize, 2);
  }

  lemma {:induction false} BodyRead(f: Frame, pad: bytes)
    requires Encodable(f)
    ensures var data, size := Body(f) + pad, |Body(f)|;
            match f
            case XmitFrame(_, _) => ReadXmit(data, size) == Got(f)
            case FragFrame(_, _, _) => ReadFrag(data, size) == Got(f)
            case AcksFrame(_, _) => ReadAcks(data, size) == Got(f)
  {
    var data := Body(f) + pad;
    Powers();
    match f
    case XmitFrame(x, last) =>
      XmitRead(x);
      assert data[..XMIT_HEADER_SIZE] == XmitBytes(x);
      assert data[XMIT_HEADER_SIZE..|Body(f)|] == last;
    case FragFrame(id, no, bytes) =>
      NumberOfWord(id, 8);
      assert data[..8] == Word(id, 8);
      assert data[FRAG_HEADER_SIZE..|Body(f)|] == bytes;
    case AcksFrame(id, mask) =>
      NumberOfWord(id, 8);
      BitsOfNumber(mask);
      NumberOfWord(MaskNumber(mask), 4);
      assert data[..8] == Word(id, 8);
      assert data[8..12] == Word(MaskNumber(mask), 4);
  }

  /** A frame reads back from its bytes, whatever padding follows. */
  lemma {:induction false} ReadEncoded(f: Frame, flags: byte, pad: bytes)
    requires Encodable(f)
    ensures Read(Encode(f, flags) + pad) == Got(f)
  {
    var data := Body(f) + pad;
    assert Encode(f, flags) + pad == Header(Type(f), |Body(f)|, flags) + data;
    HeaderRead(Type(f), |Body(f)|, flags, data);
    BodyRead(f, pad);
  }

  /** What is refused before any handler looks at it: an unknown type, a size beyond the
      bytes that came, and a size too small for the fields; and nothing else. */
  lemma {:induction false} RefusedExactly(buf: bytes)
    requires |buf| >= 6
    ensures Read(buf) == Alive <==> buf[1] == 0
    ensures var size := buf[2] as nat + 256 * buf[3] as nat;
            Read(buf) == Refused <==>
              || buf[1] > 3
              || (buf[1] != 0 && size > |buf| - 6)
              || (buf[1] == 3 && size < 9)
              || (buf[1] == 2 && size < 12)
  {
    assert buf[2..4] == [buf[2], buf[3]] && buf[2..4][1..] == [buf[3]] && [buf[3]][1..] == [];
    assert Number(buf[2..4]) == buf[2] as nat + 256 * Number([buf[3]]);
    assert Number([buf[3]]) == buf[3] as nat;
  }

  /** frame_state::process on bytes: keepalive frames and frames that are refused leave
      the state alone, the others are handled. */
  method ProcessBytes(st: FrameState, buf: bytes, accepted: bool) returns (ok: bool)
    requires Valid(st.View()) && Read(buf) != Unspecified
    modifies st
    ensures match Read(buf)
            case Got(f) => Handles(st.shorthash, old(st.View()), f, st.View())
            case _ => ok == Read(buf).Alive? && st.View() == old(st.View())
  {
    var r := Read(buf);
    if r.Got? {
      ok := st.Process(r.f, accepted);
    } else {
      ok := r.Alive?;
    }
  }

  // ----- every frame of every run ---------------------------------------------------------

  ghost predicate HashSized(h: Hash) {
    forall m {:trigger h(m)} :: |h(m)| == 32
  }

  /** No more ids are given out than 64 bits hold. */
  ghost predicate IdsFit(s: Sys) {
    s.a.txids <= U64 && s.b.txids <= U64
  }

  lemma {:induction false} AcksKeepIds(e: Endpoint, id: nat, mask: Word32, r: Endpoint)
    requires AfterAcks(e, id, mask, r)
    ensures r.txids == e.txids
  {
  }

  lemma {:induction false} StepKeepsIds(h: Hash, s: Sys, step: Step, r: Sys)
    requires StepAtA(h, s, step, r) && IdsFit(s)
    ensures IdsFit(r)
  {
    if step.Deliver? && step.f.AcksFrame? {
      AcksKeepIds(s.a, step.f.ackid, step.f.mask, r.a);
    }
  }

  lemma {:induction false} RunKeepsIds(h: Hash, trace: seq<Sys>, steps: seq<Step>)
    requires Run(h, trace, steps)
    ensures IdsFit(trace[|steps|])
    decreases |steps|
  {
    if |steps| > 0 {
      var n := |steps| - 1;
      RunKeepsIds(h, trace[..n + 1], steps[..n]);
      assert Next(h, trace[n], steps[n], trace[n + 1]);
      if StepAtA(h, trace[n], steps[n], trace[n + 1]) {
        StepKeepsIds(h, trace[n], steps[n], trace[n + 1]);
      } else {
        StepKeepsIds(h, Swap(trace[n]), steps[n], Swap(trace[n + 1]));
      }
    }
  }

  /** What one side has queued or sent can be encoded, and fits a frame buffer. */
  lemma {:induction false} InFlightFits(h: Hash, s: Sys, f: Frame, pad: nat)
    requires HashSized(h) && Inv(h, s) && IdsFit(s) && InFlight(s.a.queue, s.ab, f) && pad < MAX_PAD
    ensures Encodable(f) && CRYPTO_OVERHEAD + FrameSize(f) + pad <= FRAME_BUFFER_SIZE
  {
    assert Genuine(h, s.sentA, f);
    if f.AcksFrame? {
      assert Stored(Swap(s).b, f.ackid, Bits(f.mask));
    } else {
      var id := if f.XmitFrame? then f.info.msgid else f.fragid;
      assert Sendable(s.sentA[id]);
    }
  }

  lemma {:induction false} SealedRead(c: Crypto.Primitives, f: Frame, flags: byte, pad: bytes, key: bytes, nonce: bytes)
    requires Crypto.Sized(c) && Encodable(f) && |nonce| == 32
    ensures var p := Handshake.SealedFrame(c, Encode(f, flags) + pad, key, nonce);
            Handshake.FrameAuthentic(c, p, key) && Read(Handshake.FrameBody(c, p, key)) == Got(f)
  {
    Handshake.FrameRoundTrip(c, Encode(f, flags), pad, key, nonce);
    ReadEncoded(f, flags, pad);
  }

  /** In every state of every run, every frame queued or on its way can be encoded,
      padded and sealed within 1500 bytes, and the other end reads that very frame. */
  lemma {:induction false} EveryFrameCrosses(h: Hash, trace: seq<Sys>, steps: seq<Step>, k: nat, f: Frame,
                                             c: Crypto.Primitives, flags: byte, pad: bytes, key: bytes, nonce: bytes)
    requires HashSized(h) && Run(h, trace, steps) && k <= |steps|
    requires InFlight(trace[k].a.queue, trace[k].ab, f) || InFlight(trace[k].b.queue, trace[k].ba, f)
    requires Crypto.Sized(c) && |nonce| == 32 && |pad| < MAX_PAD
    ensures Encodable(f)
    ensures var p := Handshake.SealedFrame(c, Encode(f, flags) + pad, key, nonce);
            |p| <= FRAME_BUFFER_SIZE && Handshake.FrameAuthentic(c, p, key) && Read(Handshake.FrameBody(c, p, key)) == Got(f)
  {
    var s := trace[k];
    RunKeeps(h, trace[..k + 1], steps[..k]);
    RunKeepsIds(h, trace[..k + 1], steps[..k]);
    if InFlight(s.a.queue, s.ab, f) {
      InFlightFits(h, s, f, |pad|);
    } else {
      InFlightFits(h, Swap(s), f, |pad|);
    }
    SealedRead(c, f, flags, pad, key, nonce);
  }
}
