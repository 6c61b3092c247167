/** The frame_state of one end of an IWP session (udap/iwp_link.cpp). */
module IwpEndpoint {
  import opened Bytes
  import opened BitMask
  import opened IwpTransit

  /** One call of the router's HandleRecvLinkMessage. */
  datatype Delivery = Delivery(msgid: nat, body: bytes)

  datatype Endpoint = Endpoint(
    rx: map<nat, Transit>,
    tx: map<nat, Transit>,
    queue: seq<Frame>,
    txids: nat,
    handed: seq<Delivery>)

  const Fresh := Endpoint(map[], map[], [], 0, [])

  ghost predicate Valid(e: Endpoint) {
    forall id :: id in e.rx ==> WellFormed(e.rx[id])
  }

  // ----- what each handler does to the state -----------------------------

  function AfterQueue(e: Endpoint, t: Transit): (r: Endpoint)
  {
    e.(txids := e.txids + 1,
       tx := if e.txids in e.tx then e.tx else e.tx[e.txids := t],
       queue := e.queue + [XmitFrame(t.info, t.lastfrag)])
  }

  function AfterSend(h: Hash, e: Endpoint, msg: bytes): (r: Endpoint)
  {
    AfterQueue(e, Cut(h, msg, e.txids))
  }

  /** frame_state::inbound_frame_complete. A hash mismatch leaves the entry in
      place; every other outcome removes it. */
  function AfterComplete(h: Hash, e: Endpoint, id: nat): (r: Endpoint)
    requires id in e.rx && Valid(e)
  {
    match Reassembled(e.rx[id])
    case None => e.(rx := e.rx - {id})
    case Some(body) =>
      if h(body) != e.rx[id].info.hash then e
      else e.(rx := e.rx - {id}, handed := e.handed + [Delivery(id, body)])
  }

  predicate XmitTaken(e: Endpoint, info: Xmit, last: bytes) {
    |last| >= info.lastsize && info.flags % 2 == 1 && info.msgid !in e.rx
  }

  function AfterXmit(h: Hash, e: Endpoint, info: Xmit, last: bytes): (r: Endpoint)
    requires Valid(e)
  {
    if !XmitTaken(e, info, last) then e
    else
      var id := info.msgid;
      var begun := e.(rx := e.rx[id := Inbound(info, last[..info.lastsize])],
                        queue := e.queue + [AcksFrame(id, MaskOf({}))]);
      if info.numfrags == 0 then AfterComplete(h, begun, id) else begun
  }

  predicate FragTaken(e: Endpoint, id: nat, no: nat, data: bytes) {
    id in e.rx && |data| > 0 && |data| == e.rx[id].info.fragsize && PutFrag(e.rx[id], no, data).Some?
  }

  function AfterFrag(h: Hash, e: Endpoint, id: nat, no: nat, data: bytes): (r: Endpoint)
    requires Valid(e)
  {
    if !FragTaken(e, id, no, data) then e
    else
      var t := PutFrag(e.rx[id], no, data).value;
      var stored := e.(rx := e.rx[id := t]);
      var acked := stored.(queue := e.queue + [AcksFrame(id, MaskOf(t.status))]);
      if Completed(t) then AfterComplete(h, acked, id)
      else if ShouldSendAck(t) then acked
      else stored
  }

  /** `after` extends `before` by unacknowledged fragments of `tx` and nothing else. */
  ghost predicate Requeued(tx: map<nat, Transit>, before: seq<Frame>, after: seq<Frame>) {
    && |after| >= |before| && after[..|before|] == before
    && forall f :: f in after[|before|..] ==> exists id :: id in tx && Unacked(tx[id], f)
  }

  /** Every unacknowledged fragment of `t` was queued behind `before`. */
  ghost predicate AllQueued(t: Transit, before: seq<Frame>, after: seq<Frame>) {
    |before| <= |after| && forall f :: Unacked(t, f) ==> f in after[|before|..]
  }

  /** frame_state::got_acks; the order of retransmitted fragments is free. */
  ghost predicate AfterAcks(e: Endpoint, id: nat, mask: Word32, r: Endpoint) {
    if id !in e.tx then r == e
    else
      var t := e.tx[id].(status := e.tx[id].status + Bits(mask));
      if Completed(t) then r == e.(tx := e.tx - {id})
      else && r == e.(tx := e.tx[id := t], queue := r.queue)
           && Requeued(map[id := t], e.queue, r.queue) && AllQueued(t, e.queue, r.queue)
  }

  ghost predicate AfterRetransmit(e: Endpoint, r: Endpoint) {
    && r == e.(queue := r.queue) && Requeued(e.tx, e.queue, r.queue)
    && forall id :: id in e.tx ==> AllQueued(e.tx[id], e.queue, r.queue)
  }

  /** frame_state::process. */
  ghost predicate Handles(h: Hash, e: Endpoint, f: Frame, r: Endpoint) {
    Valid(e) &&
    match f
    case XmitFrame(info, last) => r == AfterXmit(h, e, info, last)
    case FragFrame(id, no, data) => r == AfterFrag(h, e, id, no, data)
    case AcksFrame(id, mask) => AfterAcks(e, id, mask, r)
  }

  /** Whatever arrives, genuine or forged, at most one message is handed on, and only one
      whose hash was announced under its id. */
  lemma {:induction false} OnlyHashedIsHanded(h: Hash, e: Endpoint, f: Frame, r: Endpoint)
    requires Handles(h, e, f, r)
    ensures r.handed != e.handed ==> !f.AcksFrame? && |r.handed| == |e.handed| + 1 && r.handed[..|e.handed|] == e.handed
    ensures r.handed != e.handed ==>
              var d := r.handed[|e.handed|];
              match f
              case XmitFrame(info, last) => d.msgid == info.msgid && info.numfrags == 0 && d.body == last[..info.lastsize] && h(d.body) == info.hash
              case FragFrame(id, no, data) => d.msgid == id && id in e.rx && h(d.body) == e.rx[id].info.hash
              case _ => false
  {
    if f.XmitFrame? && XmitTaken(e, f.info, f.last) && f.info.numfrags == 0 {
      assert [] + f.last[..f.info.lastsize] == f.last[..f.info.lastsize];
    }
  }

  // ----- the mutable frame_state -----------------------------------------

  class FrameState {
    const shorthash: Hash
    var rx: map<nat, Transit>
    var tx: map<nat, Transit>
    var sendqueue: seq<Frame>
    var txids: nat
    var handed: seq<Delivery>

    ghost function View(): (e: Endpoint)
      reads this
    {
      Endpoint(rx, tx, sendqueue, txids, handed)
    }

    constructor (h: Hash)
      ensures shorthash == h && View() == Fresh
    {
      shorthash := h;
      rx, tx, sendqueue, txids, handed := map[], map[], [], 0, [];
    }

    /** session::sendto, add_outbound_message and queue_tx. */
    method SendTo(msg: bytes)
      modifies this
      ensures View() == AfterQueue(old(View()), Wrapped(shorthash, msg, old(txids)))
      ensures NumFrags(|msg|) < 256 ==> View() == AfterSend(shorthash, old(View()), msg)
    {
      var id := txids;
      txids := txids + 1;
      var t := PutMessage(shorthash, msg, id);
      CutUnlessWrapped(shorthash, msg, id);
      if id !in tx {
        tx := tx[id := t];
      }
      sendqueue := sendqueue + [XmitFrame(t.info, t.lastfrag)];
    }

    /** `accepted` is what the router makes of the message. */
    method InboundFrameComplete(id: nat, accepted: bool) returns (ok: bool)
      requires Valid(View()) && id in rx
      modifies this
      ensures View() == AfterComplete(shorthash, old(View()), id)
      ensures ok ==> accepted && |handed| == |old(handed)| + 1
      ensures if !Completed(old(rx)[id]) then rx == old(rx) - {id} && handed == old(handed)
              else
                var body := Joined(old(rx)[id], old(rx)[id].info.numfrags) + old(rx)[id].lastfrag;
                if shorthash(body) == old(rx)[id].info.hash then rx == old(rx) - {id} && handed == old(handed) + [Delivery(id, body)]
                else rx == old(rx) && handed == old(handed) && !ok
    {
      ok := false;
      var r := Reassemble(rx[id]);
      if r.Some? {
        if shorthash(r.value) != rx[id].info.hash {
          return false;
        }
        handed := handed + [Delivery(id, r.value)];
        ok := accepted;
      }
      rx := rx - {id};
    }

    method GotXmit(info: Xmit, last: bytes, accepted: bool) returns (ok: bool)
      requires Valid(View())
      modifies this
      ensures View() == AfterXmit(shorthash, old(View()), info, last)
      ensures if |last| < info.lastsize || info.flags % 2 == 0 || info.msgid in old(rx) then !ok && View() == old(View())
              else sendqueue == old(sendqueue) + [AcksFrame(info.msgid, MaskOf({}))]
                   && (info.numfrags > 0 ==> ok && info.msgid in rx && rx[info.msgid].info == info && rx[info.msgid].status == {})
    {
      if |last| < info.lastsize {
        return false;
      }
      if info.flags % 2 != 1 {
        return false;
      }
      var id := info.msgid;
      if id in rx {
        return false;
      }
      rx := rx[id := Inbound(info, last[..info.lastsize])];
      sendqueue := sendqueue + [AcksFrame(id, MaskOf({}))];
      if info.numfrags == 0 {
        ok := InboundFrameComplete(id, accepted);
      } else {
        ok := true;
      }
    }

    method GotFrag(id: nat, no: nat, data: bytes, accepted: bool) returns (ok: bool)
      requires Valid(View())
      modifies this
      ensures View() == AfterFrag(shorthash, old(View()), id, no, data)
      ensures |data| > 0 && id !in old(rx) ==> ok
      ensures |data| == 0 || id !in old(rx) || |data| != old(rx)[id].info.fragsize || no !in old(rx)[id].frags || no >= 32
              ==> View() == old(View())
      ensures |data| > 0 && id in old(rx) && |data| == old(rx)[id].info.fragsize && no in old(rx)[id].frags && no < 32 ==>
                var t, status := old(rx)[id], old(rx)[id].status + {no};
                if forall i: nat :: i < t.info.numfrags ==> i in status
                then sendqueue == old(sendqueue) + [AcksFrame(id, MaskOf(status))]
                else ok && handed == old(handed) && rx == old(rx)[id := t.(status := status, frags := t.frags[no := data])]
                     && sendqueue == old(sendqueue)
                        + if t.info.numfrags == 0 || |status| % (1 + t.info.numfrags / 2) == 0 then [AcksFrame(id, MaskOf(status))] else []
    {
      if |data| == 0 {
        return false;
      }
      if id !in rx {
        return true;
      }
      if rx[id].info.fragsize != |data| {
        return false;
      }
      var put := PutFrag(rx[id], no, data);
      if put.None? {
        return false;
      }
      rx := rx[id := put.value];
      var mask := GetBitmask(rx[id].status);
      var complete := IsCompleted(rx[id]);
      if complete {
        sendqueue := sendqueue + [AcksFrame(id, mask)];
        ok := InboundFrameComplete(id, accepted);
      } else {
        if ShouldSendAck(rx[id]) {
          sendqueue := sendqueue + [AcksFrame(id, mask)];
        }
        ok := true;
      }
    }

    method GotAcks(id: nat, mask: Word32)
      modifies this
      ensures AfterAcks(old(View()), id, mask, View())
      ensures var sender := old(tx);
              if id !in sender then tx == sender && sendqueue == old(sendqueue)
              else if forall i: nat :: i < sender[id].info.numfrags ==> i in sender[id].status || i in Bits(mask)
              then tx == sender - {id} && sendqueue == old(sendqueue)
              else tx == sender[id := sender[id].(status := sender[id].status + Bits(mask))]
    {
      if id !in tx {
        return;
      }
      var status := Ack(tx[id].status, mask);
      var t := tx[id].(status := status);
      tx := tx[id := t];
      var complete := IsCompleted(t);
      if complete {
        tx := tx - {id};
        assert tx == old(tx) - {id};
      } else {
        ghost var before := sendqueue;
        sendqueue := RetransmitFrags(t, sendqueue);
        ghost var one := map[id := t];
        assert tx[id] == t && id in one && one[id] == t;
      }
    }

    /** frame_state::retransmit queues every unacknowledged fragment of every
        unfinished message. */
    method Retransmit()
      modifies this
      ensures AfterRetransmit(old(View()), View())
    {
      var todo := tx.Keys;
      while todo != {}
        invariant todo <= tx.Keys
        invariant rx == old(rx) && tx == old(tx) && txids == old(txids) && handed == old(handed)
        invariant Requeued(tx, old(sendqueue), sendqueue)
        invariant forall id, f :: id in tx && id !in todo && Unacked(tx[id], f) ==> f in sendqueue[|old(sendqueue)|..]
        decreases |todo|
      {
        var id :| id in todo;
        todo := todo - {id};
        ghost var before := sendqueue;
        sendqueue := RetransmitFrags(tx[id], sendqueue);
        assert sendqueue == before + sendqueue[|before|..];
        assert sendqueue[|old(sendqueue)|..] == before[|old(sendqueue)|..] + sendqueue[|before|..];
      }
    }

    /** frame_state::process. */
    method Process(f: Frame, accepted: bool) returns (ok: bool)
      requires Valid(View())
      modifies this
      ensures Handles(shorthash, old(View()), f, View())
    {
      match f
      case XmitFrame(info, last) =>
        ok := GotXmit(info, last, accepted);
      case FragFrame(id, no, data) =>
        ok := GotFrag(id, no, data, accepted);
      case AcksFrame(id, mask) =>
        GotAcks(id, mask);
        ok := true;
    }
  }
}
