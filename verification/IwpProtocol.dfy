/** Two frame_state endpoints joined by a network that delivers only frames that
    were sent, but may lose, reorder and duplicate them. Frames stay in the
    network until a Deliver or Lose step takes one copy out; Dup adds a copy. */
module IwpProtocol {
  import opened Bytes
  import opened BitMask
  import opened IwpTransit
  import opened IwpEndpoint

  /** `ab` holds the frames on their way from `a` to `b`; `sentA` lists the
      messages given to `a`, in the order of their ids. */
  datatype Sys = Sys(
    a: Endpoint, b: Endpoint,
    ab: multiset<Frame>, ba: multiset<Frame>,
    sentA: seq<bytes>, sentB: seq<bytes>)

  datatype Step =
    | Send(msg: bytes)
    | Resend
    | Pump
    | Deliver(f: Frame)
    | Lose(f: Frame)
    | Dup(f: Frame)

  const Start := Sys(Fresh, Fresh, multiset{}, multiset{}, [], [])

  /** The same system seen from the other end. */
  function Swap(s: Sys): (r: Sys) {
    Sys(s.b, s.a, s.ba, s.ab, s.sentB, s.sentA)
  }

  /** A step of endpoint `a`, or of the network towards `a`. */
  ghost predicate StepAtA(h: Hash, s: Sys, step: Step, r: Sys) {
    match step
    case Send(msg) => Sendable(msg) && s.a.txids < U64
                      && r == s.(a := AfterSend(h, s.a, msg), sentA := s.sentA + [msg])
    case Resend => AfterRetransmit(s.a, r.a) && r == s.(a := r.a)
    case Pump => r == s.(a := s.a.(queue := []), ab := s.ab + multiset(s.a.queue))
    case Deliver(f) => f in s.ba && Handles(h, s.a, f, r.a) && r == s.(a := r.a, ba := s.ba - multiset{f})
    case Lose(f) => f in s.ba && r == s.(ba := s.ba - multiset{f})
    case Dup(f) => f in s.ba && r == s.(ba := s.ba + multiset{f})
  }

  ghost predicate Next(h: Hash, s: Sys, step: Step, r: Sys) {
    StepAtA(h, s, step, r) || StepAtA(h, Swap(s), step, Swap(r))
  }

  /** `steps` lead from the fresh session to the states of `trace`, one each. */
  ghost predicate Run(h: Hash, trace: seq<Sys>, steps: seq<Step>) {
    && |trace| == |steps| + 1 && trace[0] == Start
    && forall i :: 0 <= i < |steps| ==> Next(h, trace[i], steps[i], trace[i + 1])
  }

  // ----- what a direction of traffic keeps --------------------------------

  predicate InFlight(queue: seq<Frame>, net: multiset<Frame>, f: Frame) {
    f in queue || f in net
  }

  function XmitOf(h: Hash, sent: seq<bytes>, id: nat): (f: Frame)
    requires id < |sent|
  {
    XmitFrame(HeaderOf(h, sent[id], id), LastPiece(sent[id]))
  }

  predicate Genuine(h: Hash, sent: seq<bytes>, f: Frame) {
    match f
    case XmitFrame(info, last) => info.msgid < |sent| && f == XmitOf(h, sent, info.msgid)
    case FragFrame(id, no, data) => id < |sent| && no < NumFrags(|sent[id]|) && data == Piece(sent[id], no)
    case AcksFrame(_, _) => true
  }

  /** A half-received message: never complete, and right wherever it is filled in. */
  ghost predicate GenuineRx(h: Hash, msg: bytes, id: nat, t: Transit) {
    && WellFormed(t) && t.info == HeaderOf(h, msg, id) && t.lastfrag == LastPiece(msg)
    && (forall i :: i in t.status ==> i < NumFrags(|msg|) && t.frags[i] == Piece(msg, i))
    && !Completed(t)
  }

  ghost predicate Handed(y: Endpoint, id: nat) {
    exists d :: d in y.handed && d.msgid == id
  }

  /** The receiver already holds these fragments, or has passed the message on. */
  ghost predicate Stored(y: Endpoint, id: nat, frags: set<nat>) {
    Handed(y, id) || (id in y.rx && frags <= y.rx[id].status)
  }

  /** The sending half: `x` holds exactly the messages that were not acknowledged
      in full, and only genuine frames left it. */
  ghost predicate SenderOk(h: Hash, x: Endpoint, xy: multiset<Frame>, sent: seq<bytes>) {
    && x.txids == |sent| && (forall i :: 0 <= i < |sent| ==> Sendable(sent[i]))
    && (forall id :: id in x.tx ==> id < |sent| && x.tx[id] == Cut(h, sent[id], id).(status := x.tx[id].status))
    && (forall f :: InFlight(x.queue, xy, f) ==> Genuine(h, sent, f))
  }

  ghost predicate ReceiverOk(h: Hash, y: Endpoint, sent: seq<bytes>) {
    && (forall id :: id in y.rx ==> id < |sent| && GenuineRx(h, sent[id], id, y.rx[id]))
    && (forall d :: d in y.handed ==> d.msgid < |sent| && d.body == sent[d.msgid])
  }

  /** No acknowledgement, in flight or recorded, runs ahead of the receiver. */
  ghost predicate AcksOk(x: Endpoint, y: Endpoint, yx: multiset<Frame>, sent: seq<bytes>) {
    && (forall f :: InFlight(y.queue, yx, f) && f.AcksFrame? ==> Stored(y, f.ackid, Bits(f.mask)))
    && (forall id :: id in x.tx ==> x.tx[id].status == {} || Stored(y, id, x.tx[id].status))
    && (forall id: nat :: id < |sent| ==> id in x.tx || Handed(y, id))
  }

  ghost predicate Direction(h: Hash, s: Sys) {
    SenderOk(h, s.a, s.ab, s.sentA) && ReceiverOk(h, s.b, s.sentA) && AcksOk(s.a, s.b, s.ba, s.sentA)
  }

  ghost predicate Inv(h: Hash, s: Sys) {
    Direction(h, s) && Direction(h, Swap(s))
  }

  // ----- steps at the sender ----------------------------------------------

  lemma SendKeeps(h: Hash, s: Sys, msg: bytes)
    requires Direction(h, s) && Sendable(msg)
    ensures Direction(h, s.(a := AfterSend(h, s.a, msg), sentA := s.sentA + [msg]))
  {
    var sent := s.sentA + [msg];
    assert forall i :: 0 <= i < |s.sentA| ==> sent[i] == s.sentA[i];
    var r := AfterSend(h, s.a, msg);
    forall f | InFlight(r.queue, s.ab, f)
      ensures Genuine(h, sent, f)
    {
      assert InFlight(s.a.queue, s.ab, f) || f == XmitOf(h, sent, |s.sentA|);
    }
  }

  lemma RequeuedGenuine(h: Hash, x: Endpoint, xy: multiset<Frame>, sent: seq<bytes>, queue: seq<Frame>)
    requires SenderOk(h, x, xy, sent) && Requeued(x.tx, x.queue, queue)
    ensures SenderOk(h, x.(queue := queue), xy, sent)
    ensures forall f :: f in queue && f.AcksFrame? ==> f in x.queue
  {
    assert queue == queue[..|x.queue|] + queue[|x.queue|..];
    forall f | InFlight(queue, xy, f)
      ensures Genuine(h, sent, f)
    {
      assert InFlight(x.queue, xy, f) || f in queue[|x.queue|..];
    }
  }

  /** An ACKS frame that completes a message finds it already passed on. */
  lemma CompletedMeansHanded(h: Hash, s: Sys, id: nat, mask: Word32)
    requires Direction(h, s) && id in s.a.tx && Stored(s.b, id, Bits(mask))
    requires Completed(s.a.tx[id].(status := s.a.tx[id].status + Bits(mask)))
    ensures Handed(s.b, id)
  {
    var both := s.a.tx[id].status + Bits(mask);
    assert id in s.b.rx && both <= s.b.rx[id].status && s.b.rx[id].info == s.a.tx[id].info ==> Completed(s.b.rx[id]);
  }

  /** The last fragments are acknowledged: the message leaves the sender. */
  lemma LastAcksKeep(h: Hash, s: Sys, id: nat, mask: Word32, r: Endpoint)
    requires Direction(h, s) && id in s.a.tx && Stored(s.b, id, Bits(mask)) && AfterAcks(s.a, id, mask, r)
    requires Completed(s.a.tx[id].(status := s.a.tx[id].status + Bits(mask)))
    ensures Direction(h, s.(a := r))
  {
    CompletedMeansHanded(h, s, id, mask);
  }

  /** More is acknowledged, and some of the rest may be queued again. */
  lemma SomeAcksKeep(h: Hash, s: Sys, id: nat, mask: Word32, r: Endpoint)
    requires Direction(h, s) && id in s.a.tx && Stored(s.b, id, Bits(mask)) && AfterAcks(s.a, id, mask, r)
    requires !Completed(s.a.tx[id].(status := s.a.tx[id].status + Bits(mask)))
    ensures Direction(h, s.(a := r))
  {
    var t := s.a.tx[id].(status := s.a.tx[id].status + Bits(mask));
    var x := s.a.(tx := s.a.tx[id := t]);
    RequeuedGenuine(h, x, s.ab, s.sentA, r.queue);
    assert x.(queue := r.queue) == r;
  }

  lemma AcksKeep(h: Hash, s: Sys, id: nat, mask: Word32, r: Endpoint, ba: multiset<Frame>)
    requires Direction(h, s) && Stored(s.b, id, Bits(mask)) && AfterAcks(s.a, id, mask, r) && ba <= s.ba
    ensures Direction(h, s.(a := r, ba := ba))
  {
    if id in s.a.tx {
      if Completed(s.a.tx[id].(status := s.a.tx[id].status + Bits(mask))) {
        LastAcksKeep(h, s, id, mask, r);
      } else {
        SomeAcksKeep(h, s, id, mask, r);
      }
    }
    FewerAcksInFlight(h, s.(a := r), ba);
  }

  lemma FewerAcksInFlight(h: Hash, s: Sys, ba: multiset<Frame>)
    requires Direction(h, s) && ba <= s.ba
    ensures Direction(h, s.(ba := ba))
  {
    assert forall f :: InFlight(s.b.queue, ba, f) ==> InFlight(s.b.queue, s.ba, f);
  }

  // ----- steps at the receiver --------------------------------------------

  /** What the receiver holds only grows into a delivery. */
  ghost predicate Grows(y: Endpoint, r: Endpoint) {
    && (forall d :: d in y.handed ==> d in r.handed)
    && (forall id :: id in y.rx ==> Stored(r, id, y.rx[id].status))
  }

  lemma GrowsKeepsStored(y: Endpoint, r: Endpoint, id: nat, frags: set<nat>)
    requires Grows(y, r) && Stored(y, id, frags)
    ensures Stored(r, id, frags)
  {
    if Handed(y, id) {
      var d :| d in y.handed && d.msgid == id;
      assert d in r.handed;
    } else {
      assert Stored(r, id, y.rx[id].status);
    }
  }

  /** A receiver that grew, and queued only justified acknowledgements. */
  lemma ReceiverKeeps(h: Hash, s: Sys, r: Endpoint, ab: multiset<Frame>)
    requires Direction(h, s) && ab <= s.ab
    requires ReceiverOk(h, r, s.sentA) && Grows(s.b, r)
    requires forall f :: f in r.queue && f.AcksFrame? ==> f in s.b.queue || Stored(r, f.ackid, Bits(f.mask))
    ensures Direction(h, s.(b := r, ab := ab))
  {
    forall f | InFlight(r.queue, s.ba, f) && f.AcksFrame?
      ensures Stored(r, f.ackid, Bits(f.mask))
    {
      if InFlight(s.b.queue, s.ba, f) {
        GrowsKeepsStored(s.b, r, f.ackid, Bits(f.mask));
      }
    }
    forall id | id in s.a.tx && s.a.tx[id].status != {}
      ensures Stored(r, id, s.a.tx[id].status)
    {
      GrowsKeepsStored(s.b, r, id, s.a.tx[id].status);
    }
    forall id: nat | id < |s.sentA| && id !in s.a.tx
      ensures Handed(r, id)
    {
      var d :| d in s.b.handed && d.msgid == id;
      assert d in r.handed;
    }
    assert forall f :: InFlight(s.a.queue, ab, f) ==> InFlight(s.a.queue, s.ab, f);
  }

  /** A completed genuine message passes its hash check and is handed on whole. */
  lemma CompleteHandsOn(h: Hash, e: Endpoint, id: nat, msg: bytes)
    requires Valid(e) && id in e.rx && Completed(e.rx[id])
    requires e.rx[id].info == HeaderOf(h, msg, id) && e.rx[id].lastfrag == LastPiece(msg)
    requires forall i: nat :: i < NumFrags(|msg|) ==> i in e.rx[id].frags && e.rx[id].frags[i] == Piece(msg, i)
    ensures AfterComplete(h, e, id) == e.(rx := e.rx - {id}, handed := e.handed + [Delivery(id, msg)])
  {
    JoinedPieces(e.rx[id], msg, NumFrags(|msg|));
    assert msg == msg[..NumFrags(|msg|) * MTU] + LastPiece(msg);
  }

  /** Handing one more genuine message on. */
  lemma HandOnKeeps(h: Hash, y: Endpoint, id: nat, sent: seq<bytes>, r: Endpoint)
    requires ReceiverOk(h, y, sent) && id < |sent|
    requires r.rx == y.rx - {id} && r.handed == y.handed + [Delivery(id, sent[id])]
    ensures ReceiverOk(h, r, sent) && Grows(y, r) && Handed(r, id)
  {
    assert Delivery(id, sent[id]) in r.handed;
  }

  /** A genuine XMIT header for a message that is not being received. */
  lemma XmitResult(h: Hash, y: Endpoint, id: nat, sent: seq<bytes>, r: Endpoint)
    requires id < |sent| && id !in y.rx && Valid(y)
    requires r == AfterXmit(h, y, HeaderOf(h, sent[id], id), LastPiece(sent[id]))
    ensures r.queue == y.queue + [AcksFrame(id, MaskOf({}))] && r.tx == y.tx && r.txids == y.txids
    ensures NumFrags(|sent[id]|) == 0 ==> r.rx == y.rx && r.handed == y.handed + [Delivery(id, sent[id])]
    ensures NumFrags(|sent[id]|) > 0 ==> r.handed == y.handed
    ensures NumFrags(|sent[id]|) > 0 ==> r.rx == y.rx[id := Inbound(HeaderOf(h, sent[id], id), LastPiece(sent[id]))]
  {
    var info := HeaderOf(h, sent[id], id);
    var last := LastPiece(sent[id]);
    assert last[..info.lastsize] == last;
    var begun := y.(rx := y.rx[id := Inbound(info, last)], queue := y.queue + [AcksFrame(id, MaskOf({}))]);
    assert Valid(begun);
    if info.numfrags == 0 {
      CompleteHandsOn(h, begun, id, sent[id]);
      assert begun.rx - {id} == y.rx;
    }
  }

  lemma XmitGrows(h: Hash, y: Endpoint, id: nat, sent: seq<bytes>, r: Endpoint)
    requires ReceiverOk(h, y, sent) && id < |sent| && id !in y.rx && Valid(y)
    requires r == AfterXmit(h, y, HeaderOf(h, sent[id], id), LastPiece(sent[id]))
    ensures ReceiverOk(h, r, sent) && Grows(y, r) && Stored(r, id, {})
  {
    XmitResult(h, y, id, sent, r);
    if NumFrags(|sent[id]|) == 0 {
      assert y.rx - {id} == y.rx;
      HandOnKeeps(h, y, id, sent, r);
    } else {
      BegunKeeps(h, y, id, sent, r);
    }
  }

  lemma BegunKeeps(h: Hash, y: Endpoint, id: nat, sent: seq<bytes>, r: Endpoint)
    requires ReceiverOk(h, y, sent) && id < |sent| && id !in y.rx && NumFrags(|sent[id]|) > 0
    requires r.handed == y.handed && r.rx == y.rx[id := Inbound(HeaderOf(h, sent[id], id), LastPiece(sent[id]))]
    ensures ReceiverOk(h, r, sent) && Grows(y, r) && Stored(r, id, {})
  {
    InboundIsGenuine(h, sent[id], id);
  }

  lemma InboundIsGenuine(h: Hash, msg: bytes, id: nat)
    requires NumFrags(|msg|) > 0
    ensures GenuineRx(h, msg, id, Inbound(HeaderOf(h, msg, id), LastPiece(msg)))
  {
    assert 0 !in Inbound(HeaderOf(h, msg, id), LastPiece(msg)).status;
  }

  lemma XmitKeeps(h: Hash, s: Sys, info: Xmit, last: bytes, r: Endpoint, ab: multiset<Frame>)
    requires Direction(h, s) && Genuine(h, s.sentA, XmitFrame(info, last)) && ab <= s.ab && Valid(s.b)
    requires r == AfterXmit(h, s.b, info, last)
    ensures Direction(h, s.(b := r, ab := ab))
  {
    var id := info.msgid;
    if id !in s.b.rx {
      XmitResult(h, s.b, id, s.sentA, r);
      XmitGrows(h, s.b, id, s.sentA, r);
      AckOfMask({}, {});
      assert Stored(r, id, Bits(MaskOf({})));
    }
    ReceiverKeeps(h, s, r, ab);
  }

  lemma FragStored(h: Hash, msg: bytes, id: nat, t: Transit, no: nat)
    requires GenuineRx(h, msg, id, t) && Sendable(msg) && no < NumFrags(|msg|)
    ensures PutFrag(t, no, Piece(msg, no)).Some?
    ensures var u := PutFrag(t, no, Piece(msg, no)).value;
            && WellFormed(u) && u.info == t.info && u.lastfrag == t.lastfrag
            && u.status == t.status + {no}
            && (forall i :: i in u.status ==> i < NumFrags(|msg|) && u.frags[i] == Piece(msg, i))
  {
  }

  /** A genuine fragment of a message that is being received. */
  lemma FragResult(h: Hash, y: Endpoint, id: nat, no: nat, sent: seq<bytes>, r: Endpoint)
    requires id < |sent| && id in y.rx && GenuineRx(h, sent[id], id, y.rx[id])
    requires Valid(y) && Sendable(sent[id]) && no < NumFrags(|sent[id]|)
    requires r == AfterFrag(h, y, id, no, Piece(sent[id], no))
    ensures r.tx == y.tx && r.txids == y.txids
    ensures var t := PutFrag(y.rx[id], no, Piece(sent[id], no)).value;
            && (r.queue == y.queue || r.queue == y.queue + [AcksFrame(id, MaskOf(t.status))])
            && (if Completed(t) then r.rx == y.rx - {id} && r.handed == y.handed + [Delivery(id, sent[id])]
                else r.rx == y.rx[id := t] && r.handed == y.handed)
  {
    FragStored(h, sent[id], id, y.rx[id], no);
    var t := PutFrag(y.rx[id], no, Piece(sent[id], no)).value;
    if Completed(t) {
      var acked := y.(rx := y.rx[id := t], queue := y.queue + [AcksFrame(id, MaskOf(t.status))]);
      CompleteHandsOn(h, acked, id, sent[id]);
      assert acked.rx - {id} == y.rx - {id};
    }
  }

  lemma FragGrows(h: Hash, y: Endpoint, id: nat, no: nat, sent: seq<bytes>, r: Endpoint)
    requires ReceiverOk(h, y, sent) && id in y.rx
    requires Valid(y) && Sendable(sent[id]) && no < NumFrags(|sent[id]|)
    requires r == AfterFrag(h, y, id, no, Piece(sent[id], no))
    ensures PutFrag(y.rx[id], no, Piece(sent[id], no)).Some?
    ensures ReceiverOk(h, r, sent) && Grows(y, r)
    ensures Stored(r, id, PutFrag(y.rx[id], no, Piece(sent[id], no)).value.status)
  {
    FragStored(h, sent[id], id, y.rx[id], no);
    FragResult(h, y, id, no, sent, r);
    if Completed(PutFrag(y.rx[id], no, Piece(sent[id], no)).value) {
      HandOnKeeps(h, y, id, sent, r);
    }
  }

  lemma FragKeeps(h: Hash, s: Sys, id: nat, no: nat, data: bytes, r: Endpoint, ab: multiset<Frame>)
    requires Direction(h, s) && Genuine(h, s.sentA, FragFrame(id, no, data)) && ab <= s.ab && Valid(s.b)
    requires r == AfterFrag(h, s.b, id, no, data)
    ensures Direction(h, s.(b := r, ab := ab))
  {
    if id in s.b.rx {
      FragGrows(h, s.b, id, no, s.sentA, r);
      FragStored(h, s.sentA[id], id, s.b.rx[id], no);
      FragResult(h, s.b, id, no, s.sentA, r);
      AckOfMask({}, PutFrag(s.b.rx[id], no, data).value.status);
    }
    ReceiverKeeps(h, s, r, ab);
  }

  // ----- every step keeps the invariant -----------------------------------

  lemma QueueKeeps(h: Hash, s: Sys, r: Sys)
    requires Direction(h, s) && r == s.(a := s.a.(queue := r.a.queue), b := s.b.(queue := r.b.queue), ab := r.ab, ba := r.ba)
    requires forall f :: InFlight(r.a.queue, r.ab, f) ==> InFlight(s.a.queue, s.ab, f)
    requires forall f :: InFlight(r.b.queue, r.ba, f) && f.AcksFrame? ==> InFlight(s.b.queue, s.ba, f)
    ensures Direction(h, r)
  {
    forall f | InFlight(r.b.queue, r.ba, f) && f.AcksFrame?
      ensures Stored(r.b, f.ackid, Bits(f.mask))
    {
      assert Stored(s.b, f.ackid, Bits(f.mask));
      if Handed(s.b, f.ackid) {
        assert Handed(r.b, f.ackid);
      }
    }
  }

  /** `a` as the sender of its own messages. */
  lemma StepKeepsOutbound(h: Hash, s: Sys, step: Step, r: Sys)
    requires Inv(h, s) && StepAtA(h, s, step, r)
    ensures Direction(h, r)
  {
    match step
    case Send(msg) =>
      SendKeeps(h, s, msg);
    case Resend =>
      RequeuedGenuine(h, s.a, s.ab, s.sentA, r.a.queue);
    case Deliver(f) =>
      if f.AcksFrame? {
        AcksKeep(h, s, f.ackid, f.mask, r.a, r.ba);
      } else {
        var w := Swap(s);
        HandlesData(h, w, f, r.a);
        QueueGrewByAcks(h, s, r);
      }
    case _ =>
      QueueKeeps(h, s, r);
  }

  /** Data that arrives leaves the sending half of an endpoint alone. */
  lemma HandlesData(h: Hash, s: Sys, f: Frame, r: Endpoint)
    requires Direction(h, s) && Handles(h, s.b, f, r) && !f.AcksFrame?
    requires InFlight(s.a.queue, s.ab, f)
    ensures r.tx == s.b.tx && r.txids == s.b.txids
    ensures |r.queue| >= |s.b.queue| && r.queue[..|s.b.queue|] == s.b.queue
    ensures forall g :: g in r.queue[|s.b.queue|..] ==> g.AcksFrame?
  {
    assert Genuine(h, s.sentA, f);
    if f.XmitFrame? {
      if f.info.msgid !in s.b.rx {
        XmitResult(h, s.b, f.info.msgid, s.sentA, r);
      }
    } else if f.fragid in s.b.rx {
      FragResult(h, s.b, f.fragid, f.fragno, s.sentA, r);
    }
  }

  lemma QueueGrewByAcks(h: Hash, s: Sys, r: Sys)
    requires Direction(h, s) && r == s.(a := r.a, ba := r.ba) && r.ba <= s.ba
    requires r.a.tx == s.a.tx && r.a.txids == s.a.txids
    requires |r.a.queue| >= |s.a.queue| && r.a.queue[..|s.a.queue|] == s.a.queue
    requires forall g :: g in r.a.queue[|s.a.queue|..] ==> g.AcksFrame?
    ensures Direction(h, r)
  {
    assert r.a.queue == s.a.queue + r.a.queue[|s.a.queue|..];
    assert forall f :: InFlight(r.a.queue, s.ab, f) ==> InFlight(s.a.queue, s.ab, f) || f.AcksFrame?;
    assert forall f :: InFlight(s.b.queue, r.ba, f) ==> InFlight(s.b.queue, s.ba, f);
  }

  /** `a` as the receiver of the other side's messages. */
  lemma StepKeepsInbound(h: Hash, s: Sys, step: Step, r: Sys)
    requires Inv(h, s) && StepAtA(h, s, step, r)
    ensures Direction(h, Swap(r))
  {
    var w := Swap(s);
    match step
    case Send(msg) =>
      QueueGrewByData(h, w, Swap(r));
    case Resend =>
      RequeuedGenuine(h, s.a, s.ab, s.sentA, r.a.queue);
      QueueGrewByData(h, w, Swap(r));
    case Deliver(f) =>
      DeliverKeepsInbound(h, s, f, r);
    case _ =>
      QueueKeeps(h, w, Swap(r));
  }

  lemma DeliverKeepsInbound(h: Hash, s: Sys, f: Frame, r: Sys)
    requires Inv(h, s) && StepAtA(h, s, Deliver(f), r)
    ensures Direction(h, Swap(r))
  {
    var w := Swap(s);
    assert InFlight(w.a.queue, w.ab, f);
    match f
    case XmitFrame(info, last) =>
      XmitKeeps(h, w, info, last, r.a, r.ba);
    case FragFrame(id, no, data) =>
      FragKeeps(h, w, id, no, data, r.a, r.ba);
    case AcksFrame(id, mask) =>
      AcksQueueData(h, s, id, mask, r.a);
      QueueGrewByData(h, w, Swap(r));
  }

  /** Acknowledgements make the sender queue fragments only. */
  lemma AcksQueueData(h: Hash, s: Sys, id: nat, mask: Word32, r: Endpoint)
    requires Direction(h, s) && AfterAcks(s.a, id, mask, r)
    ensures r.rx == s.a.rx && r.handed == s.a.handed
    ensures forall f :: f in r.queue && f.AcksFrame? ==> f in s.a.queue
  {
    if id in s.a.tx {
      var t := s.a.tx[id].(status := s.a.tx[id].status + Bits(mask));
      if !Completed(t) {
        RequeuedGenuine(h, s.a.(tx := s.a.tx[id := t]), s.ab, s.sentA, r.queue);
      }
    }
  }

  lemma QueueGrewByData(h: Hash, s: Sys, r: Sys)
    requires Direction(h, s) && r == s.(b := r.b, ab := r.ab, sentB := r.sentB) && r.ab <= s.ab
    requires r.b.rx == s.b.rx && r.b.handed == s.b.handed
    requires forall f :: f in r.b.queue && f.AcksFrame? ==> f in s.b.queue
    ensures Direction(h, r)
  {
    ReceiverKeeps(h, s, r.b, r.ab);
  }

  lemma NextKeeps(h: Hash, s: Sys, step: Step, r: Sys)
    requires Inv(h, s) && Next(h, s, step, r)
    ensures Inv(h, r)
  {
    if StepAtA(h, s, step, r) {
      StepKeepsOutbound(h, s, step, r);
      StepKeepsInbound(h, s, step, r);
    } else {
      StepKeepsOutbound(h, Swap(s), step, Swap(r));
      StepKeepsInbound(h, Swap(s), step, Swap(r));
    }
  }

  lemma {:induction false} RunKeeps(h: Hash, trace: seq<Sys>, steps: seq<Step>)
    requires Run(h, trace, steps)
    ensures Inv(h, trace[|steps|])
    decreases |steps|
  {
    if |steps| > 0 {
      var n := |steps| - 1;
      RunKeeps(h, trace[..n + 1], steps[..n]);
      assert Next(h, trace[n], steps[n], trace[n + 1]);
      NextKeeps(h, trace[n], steps[n], trace[n + 1]);
    }
  }

  // ----- what holds in every run ------------------------------------------

  /** What `a` sent and what `b` passed to its router agree. */
  ghost predicate Safe(s: Sys) {
    // nothing is made up or damaged
    && (forall d :: d in s.b.handed ==> d.msgid < |s.sentA| && d.body == s.sentA[d.msgid])
    // an acknowledged fragment is stored, or its message was passed on
    && (forall id, i :: id in s.a.tx && i in s.a.tx[id].status ==> Stored(s.b, id, {i}))
    // a message the sender has forgotten was passed on, byte for byte
    && (forall id: nat :: id < |s.sentA| && id !in s.a.tx ==> Delivery(id, s.sentA[id]) in s.b.handed)
  }

  lemma DirectionIsSafe(h: Hash, s: Sys)
    requires Direction(h, s)
    ensures Safe(s)
  {
    forall id: nat | id < |s.sentA| && id !in s.a.tx
      ensures Delivery(id, s.sentA[id]) in s.b.handed
    {
      var d :| d in s.b.handed && d.msgid == id;
      assert d == Delivery(id, s.sentA[id]);
    }
  }

  /** In every run, whatever the network loses, reorders or duplicates, both
      directions of the session are safe in every state. */
  lemma EveryRunIsSafe(h: Hash, trace: seq<Sys>, steps: seq<Step>, k: nat)
    requires Run(h, trace, steps) && k <= |steps|
    ensures Safe(trace[k]) && Safe(Swap(trace[k]))
  {
    RunKeeps(h, trace[..k + 1], steps[..k]);
    DirectionIsSafe(h, trace[k]);
    DirectionIsSafe(h, Swap(trace[k]));
  }

  // ----- at most one delivery, when the network does not duplicate --------

  function Copies(f: Frame, queue: seq<Frame>, net: multiset<Frame>): (n: nat) {
    multiset(queue)[f] + net[f]
  }

  /** The XMIT frames, open entries and deliveries of one message. */
  function Traces(h: Hash, s: Sys, id: nat): (n: nat)
    requires id < |s.sentA|
  {
    Copies(XmitOf(h, s.sentA, id), s.a.queue, s.ab)
    + multiset(s.b.handed)[Delivery(id, s.sentA[id])]
    + (if id in s.b.rx then 1 else 0)
  }

  predicate DupXmit(step: Step) {
    step.Dup? && step.f.XmitFrame?
  }

  ghost predicate Once(h: Hash, s: Sys) {
    forall id: nat :: id < |s.sentA| ==> Traces(h, s, id) <= 1
  }

  lemma CopiesOfRequeued(tx: map<nat, Transit>, before: seq<Frame>, after: seq<Frame>, f: Frame)
    requires Requeued(tx, before, after) && f.XmitFrame?
    ensures multiset(after)[f] == multiset(before)[f]
  {
    assert after == before + after[|before|..];
    assert f !in after[|before|..];
  }

  lemma SendKeepsOnce(h: Hash, s: Sys, msg: bytes)
    requires Direction(h, s) && Once(h, s)
    ensures Once(h, s.(a := AfterSend(h, s.a, msg), sentA := s.sentA + [msg]))
  {
    var sent := s.sentA + [msg];
    var n := |s.sentA|;
    var r := s.(a := AfterSend(h, s.a, msg), sentA := sent);
    forall id: nat | id < |sent|
      ensures Traces(h, r, id) <= 1
    {
      var f := XmitOf(h, sent, id);
      if id < n {
        assert f == XmitOf(h, s.sentA, id) && f != XmitOf(h, sent, n);
        assert Traces(h, s, id) <= 1;
      } else {
        assert !Genuine(h, s.sentA, f);
        assert !InFlight(s.a.queue, s.ab, f);
        assert Delivery(id, sent[id]) !in s.b.handed;
      }
    }
  }

  lemma XmitTraces(h: Hash, s: Sys, m: nat, r: Endpoint, id: nat)
    requires Direction(h, s) && m < |s.sentA| && id < |s.sentA|
    requires XmitOf(h, s.sentA, m) in s.ab && Handles(h, s.b, XmitOf(h, s.sentA, m), r)
    ensures Traces(h, s.(b := r, ab := s.ab - multiset{XmitOf(h, s.sentA, m)}), id) <= Traces(h, s, id)
  {
    if m !in s.b.rx {
      XmitResult(h, s.b, m, s.sentA, r);
    }
  }

  lemma FragTraces(h: Hash, s: Sys, m: nat, no: nat, r: Endpoint, id: nat)
    requires Direction(h, s) && m < |s.sentA| && no < NumFrags(|s.sentA[m]|) && id < |s.sentA|
    requires Handles(h, s.b, FragFrame(m, no, Piece(s.sentA[m], no)), r)
    ensures Traces(h, s.(b := r), id) <= Traces(h, s, id)
  {
    if m in s.b.rx {
      FragStored(h, s.sentA[m], m, s.b.rx[m], no);
      FragResult(h, s.b, m, no, s.sentA, r);
    }
  }

  lemma DataKeepsOnce(h: Hash, s: Sys, f: Frame, r: Endpoint)
    requires Direction(h, s) && Once(h, s) && f in s.ab && !f.AcksFrame? && Handles(h, s.b, f, r)
    ensures Once(h, s.(b := r, ab := s.ab - multiset{f}))
  {
    assert InFlight(s.a.queue, s.ab, f);
    forall id: nat | id < |s.sentA|
      ensures Traces(h, s.(b := r, ab := s.ab - multiset{f}), id) <= 1
    {
      assert Traces(h, s, id) <= 1;
      if f.XmitFrame? {
        XmitTraces(h, s, f.info.msgid, r, id);
      } else {
        FragTraces(h, s, f.fragid, f.fragno, r, id);
      }
    }
  }

  /** A change that leaves every XMIT frame, entry and delivery in place. */
  lemma SameTracesKeepOnce(h: Hash, s: Sys, r: Sys)
    requires Once(h, s) && r.sentA == s.sentA && r.b.rx == s.b.rx && r.b.handed == s.b.handed
    requires forall f: Frame :: f.XmitFrame? ==> Copies(f, r.a.queue, r.ab) <= Copies(f, s.a.queue, s.ab)
    ensures Once(h, r)
  {
    forall id: nat | id < |s.sentA|
      ensures Traces(h, r, id) <= 1
    {
      assert Traces(h, s, id) <= 1;
    }
  }

  lemma StepKeepsOnce(h: Hash, s: Sys, step: Step, r: Sys)
    requires Inv(h, s) && StepAtA(h, s, step, r) && !DupXmit(step) && Once(h, s) && Once(h, Swap(s))
    ensures Once(h, r) && Once(h, Swap(r))
  {
    match step
    case Send(msg) =>
      SendKeepsOnce(h, s, msg);
      SameTracesKeepOnce(h, Swap(s), Swap(r));
    case Resend =>
      RequeueKeepsOnce(h, s, s.a.tx, r);
    case Deliver(f) =>
      if f.AcksFrame? {
        AcksKeepOnce(h, s, f, r);
      } else {
        DataKeepsOnce(h, Swap(s), f, r.a);
        DataKeepsOutboundOnce(h, s, f, r);
      }
    case _ =>
      SameTracesKeepOnce(h, s, r);
      SameTracesKeepOnce(h, Swap(s), Swap(r));
  }

  lemma AcksKeepOnce(h: Hash, s: Sys, f: Frame, r: Sys)
    requires StepAtA(h, s, Deliver(f), r) && f.AcksFrame? && Once(h, s) && Once(h, Swap(s))
    ensures Once(h, r) && Once(h, Swap(r))
  {
    if r.a.queue == s.a.queue {
      SameTracesKeepOnce(h, s, r);
      SameTracesKeepOnce(h, Swap(s), Swap(r));
    } else {
      RequeueKeepsOnce(h, s, map[f.ackid := r.a.tx[f.ackid]], r);
    }
  }

  lemma DataKeepsOutboundOnce(h: Hash, s: Sys, f: Frame, r: Sys)
    requires Inv(h, s) && StepAtA(h, s, Deliver(f), r) && !f.AcksFrame? && Once(h, s)
    ensures Once(h, r)
  {
    assert InFlight(s.b.queue, s.ba, f);
    HandlesData(h, Swap(s), f, r.a);
    AcksAreNoCopies(s.a.queue, r.a.queue);
    SameTracesKeepOnce(h, s, r);
  }

  lemma AcksAreNoCopies(before: seq<Frame>, after: seq<Frame>)
    requires |after| >= |before| && after[..|before|] == before
    requires forall g :: g in after[|before|..] ==> g.AcksFrame?
    ensures forall f: Frame :: f.XmitFrame? ==> multiset(after)[f] == multiset(before)[f]
  {
    var extra := after[|before|..];
    assert after == before + extra;
    assert forall f: Frame :: f.XmitFrame? ==> f !in extra;
    forall f: Frame | f.XmitFrame?
      ensures multiset(after)[f] == multiset(before)[f]
    {
      assert multiset(extra)[f] == 0;
    }
  }

  lemma RequeueKeepsOnce(h: Hash, s: Sys, tx: map<nat, Transit>, r: Sys)
    requires Once(h, s) && Once(h, Swap(s)) && Requeued(tx, s.a.queue, r.a.queue)
    requires r == s.(a := r.a, ba := r.ba) && r.ba <= s.ba && r.a.rx == s.a.rx && r.a.handed == s.a.handed
    ensures Once(h, r) && Once(h, Swap(r))
  {
    forall f: Frame | f.XmitFrame?
      ensures multiset(r.a.queue)[f] == multiset(s.a.queue)[f]
    {
      CopiesOfRequeued(tx, s.a.queue, r.a.queue, f);
    }
    SameTracesKeepOnce(h, s, r);
    SameTracesKeepOnce(h, Swap(s), Swap(r));
  }

  lemma {:induction false} RunKeepsOnce(h: Hash, trace: seq<Sys>, steps: seq<Step>)
    requires Run(h, trace, steps) && forall step :: step in steps ==> !DupXmit(step)
    ensures Once(h, trace[|steps|]) && Once(h, Swap(trace[|steps|]))
    decreases |steps|
  {
    if |steps| > 0 {
      var n := |steps| - 1;
      RunKeepsOnce(h, trace[..n + 1], steps[..n]);
      RunKeeps(h, trace[..n + 1], steps[..n]);
      var s, step, r := trace[n], steps[n], trace[n + 1];
      assert Next(h, s, step, r) && step in steps;
      if StepAtA(h, s, step, r) {
        StepKeepsOnce(h, s, step, r);
      } else {
        StepKeepsOnce(h, Swap(s), step, Swap(r));
      }
    }
  }

  /** Over a network that may lose, reorder and duplicate, but does not duplicate XMIT
      frames, no message id is passed to the router twice. */
  lemma DeliveredAtMostOnce(h: Hash, trace: seq<Sys>, steps: seq<Step>, i: nat, j: nat)
    requires Run(h, trace, steps) && forall step :: step in steps ==> !DupXmit(step)
    requires i < j < |trace[|steps|].b.handed|
    ensures trace[|steps|].b.handed[i].msgid != trace[|steps|].b.handed[j].msgid
  {
    RunKeeps(h, trace, steps);
    RunKeepsOnce(h, trace, steps);
    var handed := trace[|steps|].b.handed;
    CountsTwice(handed, i, j);
    assert handed[i] in handed && handed[j] in handed;
    assert Traces(h, trace[|steps|], handed[i].msgid) <= 1;
  }

  lemma CountsTwice(q: seq<Delivery>, i: nat, j: nat)
    requires i < j < |q|
    ensures q[i] == q[j] ==> multiset(q)[q[i]] >= 2
  {
    assert q == q[..j] + [q[j]] + q[j + 1..];
    assert q[..j][i] == q[i];
  }
}
