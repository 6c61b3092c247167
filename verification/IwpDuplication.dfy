/** What one XMIT frame does: it is enough for one delivery and for the acknowledgements
    that make the sender forget the message. Fragments never open an entry, so only a
    second header can make the receiver take a message twice, and it always can. */
module IwpDuplication {
  import opened Bytes
  import opened BitMask
  import opened IwpTransit
  import opened IwpEndpoint
  import opened IwpProtocol

  lemma RunSnoc(h: Hash, trace: seq<Sys>, steps: seq<Step>, step: Step, r: Sys)
    requires Run(h, trace, steps) && Next(h, trace[|steps|], step, r)
    ensures Run(h, trace + [r], steps + [step])
  {
    var t, p := trace + [r], steps + [step];
    forall i | 0 <= i < |p|
      ensures Next(h, t[i], p[i], t[i + 1])
    {
      assert i < |steps| ==> Next(h, trace[i], steps[i], trace[i + 1]);
    }
  }

  /** A run so far, and the state it has come to. */
  datatype Story = Story(trace: seq<Sys>, steps: seq<Step>)

  ghost predicate Comes(h: Hash, y: Story, s: Sys, dups: bool)
  {
    && Run(h, y.trace, y.steps) && y.trace[|y.steps|] == s
    && forall step :: step in y.steps ==> step.Dup? ==> dups && DupXmit(step)
  }

  lemma StorySnoc(h: Hash, y: Story, s: Sys, step: Step, r: Sys, dups: bool) returns (z: Story)
    requires Comes(h, y, s, dups) && Next(h, s, step, r) && (step.Dup? ==> dups && DupXmit(step))
    ensures Comes(h, z, r, dups)
  {
    RunSnoc(h, y.trace, y.steps, step, r);
    z := Story(y.trace + [r], y.steps + [step]);
  }

  function FragAt(msg: bytes, i: nat): (f: Frame)
    requires i < NumFrags(|msg|)
  {
    FragFrame(0, i, Piece(msg, i))
  }

  /** The full fragments from number k on. */
  function FragsFrom(msg: bytes, k: nat): (q: seq<Frame>)
    requires k <= NumFrags(|msg|)
    decreases NumFrags(|msg|) - k
  {
    if k == NumFrags(|msg|) then [] else [FragAt(msg, k)] + FragsFrom(msg, k + 1)
  }

  lemma {:induction false} FragsFromAre(h: Hash, msg: bytes, k: nat, f: Frame)
    requires k <= NumFrags(|msg|)
    ensures f in FragsFrom(msg, k) <==> Unacked(Cut(h, msg, 0), f) && f.fragno >= k
    decreases NumFrags(|msg|) - k
  {
    if k < NumFrags(|msg|) {
      FragsFromAre(h, msg, k + 1, f);
      assert FragOf(Cut(h, msg, 0), k) == FragAt(msg, k);
    }
  }

  function XmitFor(h: Hash, msg: bytes): (f: Frame)
  {
    XmitFrame(HeaderOf(h, msg, 0), LastPiece(msg))
  }

  /** The sender has sent one message and waits for acknowledgements. */
  ghost predicate Waits(h: Hash, msg: bytes, s: Sys)
  {
    && s.a == Endpoint(map[], map[0 := Cut(h, msg, 0)], [], 1, []) && s.sentA == [msg]
  }

  function Below(k: nat): (s: set<nat>)
    ensures forall i :: i in s <==> 0 <= i < k
  {
    if k == 0 then {} else Below(k - 1) + {k - 1}
  }

  /** The receiver has the first k fragments of it, and nothing else. */
  ghost predicate Receives(h: Hash, msg: bytes, y: Endpoint, k: nat)
  {
    y.rx.Keys == {0} && GenuineRx(h, msg, 0, y.rx[0]) && y.rx[0].status == Below(k)
  }

  function AckFor(k: nat): (f: Frame)
  {
    AcksFrame(0, MaskOf(Below(k)))
  }

  /** The acknowledgements of fragments from number k on that arrive in order: when more
      than half of them are there, and when all are. */
  function AcksFrom(n: nat, k: nat): (q: seq<Frame>)
  {
    if k < n / 2 + 1 < n then [AckFor(n / 2 + 1), AckFor(n)]
    else if k < n then [AckFor(n)]
    else []
  }

  lemma {:induction false} BelowSize(k: nat)
    ensures |Below(k)| == k
  {
    if k > 0 {
      BelowSize(k - 1);
    }
  }

  /** In between, an acknowledgement is due only once. */
  lemma {:induction false} DueOnce(n: nat, k: nat)
    requires 0 < k < n
    ensures k % (1 + n / 2) == 0 <==> k == n / 2 + 1
  {
    if k > n / 2 + 1 {
      assert k == (1 + n / 2) + (k - (1 + n / 2));
      assert (k - (1 + n / 2)) < 1 + n / 2;
    }
  }

  lemma {:induction false} AckQueued(h: Hash, msg: bytes, y: Endpoint, k: nat, t: Transit, r: Endpoint)
    requires Sendable(msg) && k < NumFrags(|msg|) && Receives(h, msg, y, k) && Valid(y)
    requires r == AfterFrag(h, y, 0, k, Piece(msg, k)) && PutFrag(y.rx[0], k, Piece(msg, k)) == Some(t) && t.status == Below(k + 1)
    ensures r.queue == if Completed(t) || ShouldSendAck(t) then y.queue + [AckFor(k + 1)] else y.queue
  {
  }

  lemma {:induction false} AcksFromNext(n: nat, k: nat)
    requires k < n
    ensures AcksFrom(n, k) == (if k + 1 == n || k == n / 2 then [AckFor(k + 1)] else []) + AcksFrom(n, k + 1)
  {
  }

  lemma {:induction false} AcksAfter(h: Hash, msg: bytes, y: Endpoint, k: nat, t: Transit, r: Endpoint)
    requires Sendable(msg) && k < NumFrags(|msg|) && Receives(h, msg, y, k) && Valid(y)
    requires r == AfterFrag(h, y, 0, k, Piece(msg, k)) && PutFrag(y.rx[0], k, Piece(msg, k)) == Some(t) && t.status == Below(k + 1)
    requires Completed(t) <==> k + 1 == NumFrags(|msg|)
    ensures r.queue + AcksFrom(NumFrags(|msg|), k + 1) == y.queue + AcksFrom(NumFrags(|msg|), k)
  {
    var n := NumFrags(|msg|);
    AckQueued(h, msg, y, k, t, r);
    AckIsDue(h, msg, t, k + 1);
    AcksFromNext(n, k);
    var now: seq<Frame> := if k + 1 == n || k == n / 2 then [AckFor(k + 1)] else [];
    assert r.queue == y.queue + now;
    assert (y.queue + now) + AcksFrom(n, k + 1) == y.queue + (now + AcksFrom(n, k + 1));
  }

  lemma {:induction false} AckIsDue(h: Hash, msg: bytes, t: Transit, k: nat)
    requires 0 < k <= NumFrags(|msg|) && t.status == Below(k) && t.info.numfrags == NumFrags(|msg|)
    ensures k < NumFrags(|msg|) ==> (ShouldSendAck(t) <==> k == NumFrags(|msg|) / 2 + 1)
  {
    BelowSize(k);
    if k < NumFrags(|msg|) {
      DueOnce(NumFrags(|msg|), k);
    }
  }

  /** One more fragment in order; the last one completes the message. */
  lemma NextFragment(h: Hash, msg: bytes, y: Endpoint, k: nat) returns (r: Endpoint)
    requires Sendable(msg) && k < NumFrags(|msg|) && Receives(h, msg, y, k)
    ensures Valid(y) && r == AfterFrag(h, y, 0, k, Piece(msg, k))
    ensures if k + 1 == NumFrags(|msg|) then r.rx == map[] && r.handed == y.handed + [Delivery(0, msg)]
            else Receives(h, msg, r, k + 1) && r.handed == y.handed
    ensures r.queue + AcksFrom(NumFrags(|msg|), k + 1) == y.queue + AcksFrom(NumFrags(|msg|), k)
  {
    r := AfterFrag(h, y, 0, k, Piece(msg, k));
    FragStored(h, msg, 0, y.rx[0], k);
    FragResult(h, y, 0, k, [msg], r);
    var t := PutFrag(y.rx[0], k, Piece(msg, k)).value;
    assert t.status == Below(k + 1);
    if k + 1 == NumFrags(|msg|) {
      assert y.rx - {0} == map[];
    } else {
      assert k + 1 !in t.status;
    }
    AcksAfter(h, msg, y, k, t, r);
  }

  lemma DeliverFragment(h: Hash, msg: bytes, y: Story, s: Sys, k: nat, rest: multiset<Frame>, b: Endpoint, dups: bool) returns (z: Story, r: Sys)
    requires Comes(h, y, s, dups) && k < NumFrags(|msg|) && s.ab == rest + multiset(FragsFrom(msg, k))
    requires Valid(s.b) && b == AfterFrag(h, s.b, 0, k, Piece(msg, k))
    ensures Comes(h, z, r, dups) && r == s.(b := b, ab := rest + multiset(FragsFrom(msg, k + 1)))
  {
    var f := FragAt(msg, k);
    assert FragsFrom(msg, k) == [f] + FragsFrom(msg, k + 1);
    assert f in FragsFrom(msg, k);
    r := s.(b := b, ab := s.ab - multiset{f});
    assert r.ab == rest + multiset(FragsFrom(msg, k + 1));
    assert StepAtA(h, Swap(s), Deliver(f), Swap(r));
    z := StorySnoc(h, y, s, Deliver(f), r, dups);
  }

  lemma {:induction false} AllFragments(h: Hash, msg: bytes, y: Story, s: Sys, k: nat, rest: multiset<Frame>, dups: bool) returns (z: Story, r: Sys)
    requires Sendable(msg) && Comes(h, y, s, dups) && k < NumFrags(|msg|) && Receives(h, msg, s.b, k)
    requires s.ab == rest + multiset(FragsFrom(msg, k))
    ensures Comes(h, z, r, dups) && r == s.(b := r.b, ab := rest) && r.b.rx == map[] && r.b.handed == s.b.handed + [Delivery(0, msg)]
    ensures r.b.queue == s.b.queue + AcksFrom(NumFrags(|msg|), k)
    decreases NumFrags(|msg|) - k
  {
    var b := NextFragment(h, msg, s.b, k);
    z, r := DeliverFragment(h, msg, y, s, k, rest, b, dups);
    if k + 1 < NumFrags(|msg|) {
      z, r := AllFragments(h, msg, z, r, k + 1, rest, dups);
    } else {
      assert FragsFrom(msg, k + 1) == [];
    }
  }

  /** The sender queues every fragment again and hands the queue to the network. */
  lemma Resends(h: Hash, msg: bytes, y: Story, s: Sys, dups: bool) returns (z: Story, r: Sys)
    requires Comes(h, y, s, dups) && Waits(h, msg, s)
    ensures Comes(h, z, r, dups) && r == s.(ab := s.ab + multiset(FragsFrom(msg, 0)))
  {
    var q := FragsFrom(msg, 0);
    var mid := s.(a := s.a.(queue := q));
    forall f
      ensures f in q <==> Unacked(s.a.tx[0], f)
    {
      FragsFromAre(h, msg, 0, f);
    }
    assert q[..0] == [] && q[0..] == q;
    assert StepAtA(h, s, Resend, mid);
    z := StorySnoc(h, y, s, Resend, mid, dups);
    r := s.(ab := s.ab + multiset(q));
    assert StepAtA(h, mid, Pump, r);
    z := StorySnoc(h, z, mid, Pump, r, dups);
  }

  /** The acknowledgements of a message whose frames arrive in order: three at most. */
  function AcksDue(n: nat): (q: seq<Frame>)
    ensures 0 < |q| <= 3 && q[|q| - 1] == AckFor(n)
  {
    [AckFor(0)] + AcksFrom(n, 0)
  }

  /** The receiver takes the header. */
  lemma TakesHeader(h: Hash, msg: bytes, y: Story, s: Sys, rest: multiset<Frame>, dups: bool) returns (z: Story, r: Sys)
    requires Sendable(msg) && Comes(h, y, s, dups) && Waits(h, msg, s) && s.b.rx == map[] && s.ab == rest + multiset{XmitFor(h, msg)}
    ensures Comes(h, z, r, dups) && r == s.(b := r.b, ab := rest) && r.b.queue == s.b.queue + [AckFor(0)]
    ensures if NumFrags(|msg|) == 0 then r.b.rx == map[] && r.b.handed == s.b.handed + [Delivery(0, msg)]
            else Receives(h, msg, r.b, 0) && r.b.handed == s.b.handed
  {
    var f := XmitFor(h, msg);
    var b := AfterXmit(h, s.b, f.info, f.last);
    r := s.(b := b, ab := s.ab - multiset{f});
    assert StepAtA(h, Swap(s), Deliver(f), Swap(r));
    XmitResult(h, s.b, 0, [msg], b);
    z := StorySnoc(h, y, s, Deliver(f), r, dups);
    assert r.ab == rest;
    if NumFrags(|msg|) > 0 {
      InboundIsGenuine(h, msg, 0);
    }
  }

  /** A header in the network is enough for one delivery. */
  lemma HeaderDelivers(h: Hash, msg: bytes, y: Story, s: Sys, rest: multiset<Frame>, dups: bool) returns (z: Story, r: Sys)
    requires Sendable(msg) && Comes(h, y, s, dups) && Waits(h, msg, s) && s.b.rx == map[] && s.ab == rest + multiset{XmitFor(h, msg)}
    ensures Comes(h, z, r, dups) && Waits(h, msg, r) && r.b.rx == map[] && r.ab == rest
    ensures r.b.handed == s.b.handed + [Delivery(0, msg)] && r.b.queue == s.b.queue + AcksDue(NumFrags(|msg|)) && r.ba == s.ba
  {
    z, r := TakesHeader(h, msg, y, s, rest, dups);
    if NumFrags(|msg|) > 0 {
      z, r := Resends(h, msg, z, r, dups);
      z, r := AllFragments(h, msg, z, r, 0, rest, dups);
    }
  }

  /** The condition on XMIT frames is needed for every message: one duplicated header,
      and no other duplication, makes the receiver take the message twice. */
  lemma DuplicatedXmitDeliversTwice(h: Hash, msg: bytes) returns (trace: seq<Sys>, steps: seq<Step>)
    requires Sendable(msg)
    ensures Run(h, trace, steps) && trace[|steps|].b.handed == [Delivery(0, msg), Delivery(0, msg)]
    ensures forall step :: step in steps ==> step.Dup? ==> DupXmit(step)
  {
    var f := XmitFor(h, msg);
    var s1 := Start.(a := AfterSend(h, Fresh, msg), sentA := [msg]);
    var s2 := s1.(a := s1.a.(queue := []), ab := multiset{f});
    var s3 := s2.(ab := multiset{f} + multiset{f});
    assert StepAtA(h, Start, Send(msg), s1) by {
      assert [] + [msg] == [msg];
    }
    assert StepAtA(h, s1, Pump, s2);
    assert StepAtA(h, Swap(s2), Dup(f), Swap(s3));
    var y := Story([Start], []);
    y := StorySnoc(h, y, Start, Send(msg), s1, true);
    y := StorySnoc(h, y, s1, Pump, s2, true);
    y := StorySnoc(h, y, s2, Dup(f), s3, true);
    var z, r := HeaderDelivers(h, msg, y, s3, multiset{f}, true);
    z, r := HeaderDelivers(h, msg, z, r, multiset{}, true);
    trace, steps := z.trace, z.steps;
  }

  /** The last acknowledgement makes the sender forget the message. */
  lemma LastAckForgets(h: Hash, msg: bytes, s: Sys) returns (r: Endpoint)
    requires Sendable(msg) && Waits(h, msg, s)
    ensures AfterAcks(s.a, 0, MaskOf(Below(NumFrags(|msg|))), r) && r == Endpoint(map[], map[], [], 1, [])
  {
    var n := NumFrags(|msg|);
    AckOfMask({}, Below(n));
    r := s.a.(tx := s.a.tx - {0});
    assert s.a.tx - {0} == map[];
    assert Below(n) <= s.a.tx[0].status + Bits(MaskOf(Below(n)));
  }

  lemma HeaderIsSent(h: Hash, msg: bytes, dups: bool) returns (y: Story, s: Sys)
    requires Sendable(msg)
    ensures Comes(h, y, s, dups) && Waits(h, msg, s) && s.b == Fresh && s.ab == multiset{XmitFor(h, msg)} && s.ba == multiset{} && s.sentB == []
  {
    var f := XmitFor(h, msg);
    var s1 := Start.(a := AfterSend(h, Fresh, msg), sentA := [msg]);
    s := s1.(a := s1.a.(queue := []), ab := multiset{f});
    assert StepAtA(h, Start, Send(msg), s1) by {
      assert [] + [msg] == [msg];
    }
    assert StepAtA(h, s1, Pump, s);
    y := Story([Start], []);
    y := StorySnoc(h, y, Start, Send(msg), s1, dups);
    y := StorySnoc(h, y, s1, Pump, s, dups);
  }

  /** Every link message can be brought over without any duplicate: the receiver takes it
      once, answers with at most three acknowledgements, and with the last of them the
      sender forgets it. The others are still on their way then. */
  lemma EveryMessageCanFinish(h: Hash, msg: bytes) returns (trace: seq<Sys>, steps: seq<Step>)
    requires Sendable(msg)
    ensures Run(h, trace, steps) && forall step :: step in steps ==> !step.Dup?
    ensures var s := trace[|steps|];
            && s.sentA == [msg] && s.a.tx == map[] && s.b.handed == [Delivery(0, msg)] && s.b.rx == map[]
            && s.ab == multiset{} && s.ba == multiset(AcksBefore(NumFrags(|msg|)))
  {
    var n := NumFrags(|msg|);
    var y, s := HeaderIsSent(h, msg, false);
    var z, r := HeaderDelivers(h, msg, y, s, multiset{}, false);
    var q := AcksDue(n);
    var last := AckFor(n);
    assert r.b.queue == q;
    var u := r.(b := r.b.(queue := []), ba := multiset(q));
    assert StepAtA(h, Swap(r), Pump, Swap(u));
    z := StorySnoc(h, z, r, Pump, u, false);
    var a := LastAckForgets(h, msg, u);
    AcksSplit(n);
    var v := u.(a := a, ba := u.ba - multiset{last});
    assert Handles(h, u.a, last, a);
    assert StepAtA(h, u, Deliver(last), v);
    z := StorySnoc(h, z, u, Deliver(last), v, false);
    trace, steps := z.trace, z.steps;
  }

  /** All but the last: for the header, and when more than half the fragments are there. */
  function AcksBefore(n: nat): (q: seq<Frame>)
  {
    if n == 0 then [] else if n < 3 then [AckFor(0)] else [AckFor(0), AckFor(n / 2 + 1)]
  }

  lemma {:induction false} AcksSplit(n: nat)
    ensures AcksDue(n) == AcksBefore(n) + [AckFor(n)]
    ensures multiset(AcksDue(n)) - multiset{AckFor(n)} == multiset(AcksBefore(n))
  {
    WithoutLast(AcksBefore(n), AckFor(n));
  }

  lemma {:induction false} WithoutLast(q: seq<Frame>, f: Frame)
    ensures multiset(q + [f]) - multiset{f} == multiset(q)
  {
  }
}
