/** One message on its way over an IWP session: the XMIT header, the cut into
    fragments and the reassembly (udap/iwp_link.cpp, xmit and transit_message). */
module IwpTransit {
  import opened Bytes
  import opened BitMask

  const MTU: nat := 1024
  const MAX_LINK_MSG_SIZE: nat := 32768
  const XMIT_HEADER_SIZE: nat := 48
  const FRAG_HEADER_SIZE: nat := 9
  const ACKS_BODY_SIZE: nat := 12
  const FRAME_HEADER_SIZE: nat := 6
  const MAX_PAD: nat := 128
  const CRYPTO_OVERHEAD: nat := 64
  const FRAME_BUFFER_SIZE: nat := 1500

  type Hash = bytes -> bytes

  datatype Xmit = Xmit(hash: bytes, msgid: nat, fragsize: nat, lastsize: nat, numfrags: nat, flags: nat)

  datatype Frame =
    | XmitFrame(info: Xmit, last: bytes)
    | FragFrame(fragid: nat, fragno: nat, data: bytes)
    | AcksFrame(ackid: nat, mask: Word32)

  datatype Transit = Transit(info: Xmit, status: set<nat>, frags: map<nat, bytes>, lastfrag: bytes)

  /** The messages that a session accepts for sending. */
  predicate Sendable(msg: bytes) {
    |msg| <= MAX_LINK_MSG_SIZE
  }

  // ----- the cut ---------------------------------------------------------

  /** How many full fragments precede the last, possibly shorter, piece. */
  function NumFrags(len: nat): (n: nat)
    ensures n * MTU <= len
    ensures len > 0 ==> n * MTU < len <= (n + 1) * MTU
    ensures len <= MAX_LINK_MSG_SIZE ==> n <= 31
  {
    if len == 0 then 0 else (len - 1) / MTU
  }

  function Piece(msg: bytes, i: nat): (p: bytes)
    requires i < NumFrags(|msg|)
    ensures |p| == MTU
  {
    msg[i * MTU..(i + 1) * MTU]
  }

  function LastPiece(msg: bytes): (p: bytes)
    ensures |msg| > 0 ==> 0 < |p| <= MTU
  {
    msg[NumFrags(|msg|) * MTU..]
  }

  function HeaderOf(h: Hash, msg: bytes, id: nat): (x: Xmit)
  {
    Xmit(h(msg), id, MTU, |LastPiece(msg)|, NumFrags(|msg|), 1)
  }

  /** The outbound message, with every piece under its index. */
  function Cut(h: Hash, msg: bytes, id: nat): (t: Transit)
  {
    Transit(HeaderOf(h, msg, id), {}, map i: nat | i < NumFrags(|msg|) :: Piece(msg, i), LastPiece(msg))
  }

  /** The last of the first `n` pieces whose index is `i` in eight bits. */
  function Latest(i: nat, n: nat): (j: nat)
    requires i < n && i < 256
    ensures j < n && j % 256 == i && n <= j + 256
  {
    i + 256 * ((n - 1 - i) / 256)
  }

  /** The first `n` pieces, stored under indices of eight bits. */
  function Kept(msg: bytes, n: nat): (frags: map<nat, bytes>)
    requires n <= NumFrags(|msg|)
  {
    map i: nat | i < 256 && i < n :: Piece(msg, Latest(i, n))
  }

  lemma {:induction false} LatestIs(i: nat, n: nat, j: nat)
    requires i < 256 && j < n <= j + 256 && j % 256 == i
    ensures i < n && Latest(i, n) == j
  {
  }

  lemma {:induction false} KeptNext(msg: bytes, n: nat)
    requires n < NumFrags(|msg|)
    ensures Kept(msg, n)[n % 256 := Piece(msg, n)] == Kept(msg, n + 1)
  {
    LatestIs(n % 256, n + 1, n);
    forall i: nat | i < 256 && i < n && i != n % 256
      ensures Latest(i, n + 1) == Latest(i, n)
    {
      LatestIs(i, n + 1, Latest(i, n));
    }
    var next := Kept(msg, n)[n % 256 := Piece(msg, n)];
    assert n >= 256 || n % 256 == n;
    assert forall i :: i in next <==> i in Kept(msg, n + 1);
  }

  lemma {:induction false} NextPiece(msg: bytes, n: nat, left: nat)
    requires n * MTU + left == |msg| && left > MTU
    ensures n < NumFrags(|msg|) && Piece(msg, n) == msg[n * MTU..n * MTU + MTU]
    ensures (n + 1) % 256 == if n % 256 == 255 then 0 else n % 256 + 1
  {
  }

  lemma {:induction false} NoMorePieces(msg: bytes, n: nat, left: nat)
    requires n * MTU + left == |msg| && left <= MTU && (left > 0 || |msg| == 0)
    ensures n == NumFrags(|msg|)
  {
  }

  /** What put_message builds: the fragment index is a uint8_t and wraps around. */
  function Wrapped(h: Hash, msg: bytes, id: nat): (t: Transit)
  {
    var n := NumFrags(|msg|);
    Transit(HeaderOf(h, msg, id).(numfrags := n % 256), {}, Kept(msg, n), LastPiece(msg))
  }

  /** The message is cut as it should be exactly if it has fewer than 256 full
      fragments. A link message has at most 31. */
  lemma {:induction false} CutUnlessWrapped(h: Hash, msg: bytes, id: nat)
    ensures Wrapped(h, msg, id) == Cut(h, msg, id) <==> NumFrags(|msg|) < 256
    ensures Sendable(msg) ==> Wrapped(h, msg, id) == Cut(h, msg, id) && NumFrags(|msg|) <= 31 && |LastPiece(msg)| <= MTU
  {
    var n := NumFrags(|msg|);
    if n < 256 {
      forall i: nat | i < n
        ensures Latest(i, n) == i
      {
        LatestIs(i, n, i);
      }
      assert Kept(msg, n) == map i: nat | i < n :: Piece(msg, i);
    } else {
      assert Wrapped(h, msg, id).info.numfrags != Cut(h, msg, id).info.numfrags;
    }
  }

  /** transit_message::put_message. */
  method PutMessage(h: Hash, msg: bytes, id: nat) returns (t: Transit)
    ensures t == Wrapped(h, msg, id)
  {
    var frags: map<nat, bytes> := map[];
    ghost var n := 0;
    var fragid := 0;
    var cur := 0;
    var left := |msg|;
    while left > MTU
      invariant cur == n * MTU && cur + left == |msg| && (left > 0 || |msg| == 0)
      invariant n <= NumFrags(|msg|) && fragid == n % 256
      invariant frags == Kept(msg, n)
    {
      NextPiece(msg, n, left);
      KeptNext(msg, n);
      frags := frags[fragid := msg[cur..cur + MTU]];
      cur := cur + MTU;
      fragid := if fragid == 255 then 0 else fragid + 1;
      n := n + 1;
      left := left - MTU;
    }
    var lastfrag := msg[cur..];
    NoMorePieces(msg, n, left);
    t := Transit(Xmit(h(msg), id, MTU, |lastfrag|, fragid, 1), {}, frags, lastfrag);
  }

  // ----- the receiving side ---------------------------------------------

  /** What a fragment holds before it arrives. */
  function Blank(x: Xmit, i: nat): (b: bytes)
  {
    Zeros(x.fragsize)
  }

  /** The inbound transit_message made for an XMIT header. */
  function Inbound(x: Xmit, last: bytes): (t: Transit)
  {
    Transit(x, {}, map i: nat | i < x.numfrags :: Blank(x, i), last)
  }

  /** transit_message::put_frag; std::bitset refuses positions from 32 on. */
  function PutFrag(t: Transit, fragno: nat, data: bytes): (r: Option<Transit>)
  {
    if fragno !in t.frags || fragno >= 32 then None
    else Some(t.(frags := t.frags[fragno := data], status := t.status + {fragno}))
  }

  predicate Completed(t: Transit) {
    forall i: nat :: i < t.info.numfrags ==> i in t.status
  }

  /** transit_message::completed. */
  method IsCompleted(t: Transit) returns (r: bool)
    ensures r == Completed(t)
  {
    var idx := 0;
    while idx < t.info.numfrags
      invariant idx <= t.info.numfrags
      invariant forall i: nat :: i < idx ==> i in t.status
    {
      if idx !in t.status {
        return false;
      }
      idx := idx + 1;
    }
    return true;
  }

  predicate ShouldSendAck(t: Transit) {
    t.info.numfrags == 0 || |t.status| % (1 + t.info.numfrags / 2) == 0
  }

  /** The first `k` fragments in order. */
  function Joined(t: Transit, k: nat): (b: bytes)
    requires forall i: nat :: i < k ==> i in t.frags
  {
    if k == 0 then [] else Joined(t, k - 1) + t.frags[k - 1]
  }

  ghost predicate WellFormed(t: Transit) {
    && (forall i :: i in t.status ==> i < 32)
    && (forall i: nat :: i < t.info.numfrags <==> i in t.frags)
    && (forall i :: i in t.frags ==> |t.frags[i]| == t.info.fragsize)
    && |t.lastfrag| == t.info.lastsize
  }

  function Reassembled(t: Transit): (r: Option<bytes>)
    requires forall i: nat :: i < t.info.numfrags ==> i in t.frags
  {
    if Completed(t) then Some(Joined(t, t.info.numfrags) + t.lastfrag) else None
  }

  /** transit_message::reassemble: the bytes it copies exactly fill the buffer
      that totalsize() announced. */
  method Reassemble(t: Transit) returns (r: Option<bytes>)
    requires WellFormed(t)
    ensures r == Reassembled(t)
    ensures r.Some? ==> |r.value| == t.info.fragsize * t.info.numfrags + t.info.lastsize
  {
    var buffer: bytes := [];
    var idx := 0;
    while idx < t.info.numfrags
      invariant idx <= t.info.numfrags
      invariant buffer == Joined(t, idx) && |buffer| == t.info.fragsize * idx
      invariant forall i: nat :: i < idx ==> i in t.status
    {
      if idx !in t.status {
        return None;
      }
      buffer := buffer + t.frags[idx];
      idx := idx + 1;
    }
    return Some(buffer + t.lastfrag);
  }

  lemma {:induction false} JoinedPieces(t: Transit, msg: bytes, k: nat)
    requires k <= NumFrags(|msg|)
    requires forall i: nat :: i < k ==> i in t.frags && t.frags[i] == Piece(msg, i)
    ensures Joined(t, k) == msg[..k * MTU]
  {
    if k > 0 {
      JoinedPieces(t, msg, k - 1);
      assert msg[..k * MTU] == msg[..(k - 1) * MTU] + Piece(msg, k - 1);
    }
  }

  /** Cutting and reassembling is the identity on messages. */
  lemma ReassembledCut(h: Hash, msg: bytes, id: nat)
    ensures var t := Cut(h, msg, id);
            Reassembled(t.(status := t.frags.Keys)) == Some(msg)
  {
    var t := Cut(h, msg, id);
    t := t.(status := t.frags.Keys);
    JoinedPieces(t, msg, NumFrags(|msg|));
    assert msg == msg[..NumFrags(|msg|) * MTU] + LastPiece(msg);
  }

  // ----- frames on the wire ---------------------------------------------

  /** The bytes of the plaintext frame: a 6-byte header and the body. */
  function FrameSize(f: Frame): (n: nat)
  {
    FRAME_HEADER_SIZE +
    match f
    case XmitFrame(_, last) => XMIT_HEADER_SIZE + |last|
    case FragFrame(_, _, data) => FRAG_HEADER_SIZE + |data|
    case AcksFrame(_, _) => ACKS_BODY_SIZE
  }

  function FragOf(t: Transit, i: nat): (f: Frame)
    requires i in t.frags
  {
    FragFrame(t.info.msgid, i, t.frags[i])
  }

  /** A fragment that the peer has not acknowledged yet. */
  predicate Unacked(t: Transit, f: Frame) {
    f.FragFrame? && f.fragno in t.frags && f.fragno !in t.status && f == FragOf(t, f.fragno)
  }

  /** Every frame a sendable message gives rise to, with nonce, hmac and the
      largest padding, fits the buffer of an iwp_async_frame; and every fragment
      index fits the 32-bit status. */
  lemma FramesFit(h: Hash, msg: bytes, id: nat, pad: nat, f: Frame)
    requires Sendable(msg) && pad < MAX_PAD
    requires var t := Cut(h, msg, id);
             || f == XmitFrame(t.info, t.lastfrag)
             || (f.FragFrame? && f.fragno in t.frags && f == FragOf(t, f.fragno))
             || f.AcksFrame?
    ensures CRYPTO_OVERHEAD + FrameSize(f) + pad <= FRAME_BUFFER_SIZE
    ensures f.FragFrame? ==> f.fragno < 31
  {
  }

  /** transit_message::retransmit_frags. The unordered_map may be visited in any
      order, so only which frames are queued is fixed. */
  method RetransmitFrags(t: Transit, queue: seq<Frame>) returns (q: seq<Frame>)
    ensures |q| >= |queue| && q[..|queue|] == queue
    ensures forall f :: f in q[|queue|..] <==> Unacked(t, f)
  {
    q := queue;
    var todo := t.frags.Keys;
    while todo != {}
      invariant todo <= t.frags.Keys
      invariant |q| >= |queue| && q[..|queue|] == queue
      invariant forall f :: f in q[|queue|..] <==> Unacked(t, f) && f.fragno !in todo
      decreases |todo|
    {
      var i :| i in todo;
      todo := todo - {i};
      if i !in t.status {
        ghost var before := q;
        q := q + [FragOf(t, i)];
        assert q[|queue|..] == before[|queue|..] + [FragOf(t, i)];
      }
    }
  }
}
