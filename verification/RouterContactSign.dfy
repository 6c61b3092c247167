/** Signing, sending, receiving and verifying a router contact
    (udap/router_contact.cpp, udap_rc_sign in udap/router.cpp). */
module RouterContactSign {
  import opened Bytes
  import opened Buffer
  import opened Bencode
  import opened RouterContact
  import opened RouterContactDecode

  // ----- reading a whole contact back -----------------------------------------

  predicate RcOk(rc: Rc) {
    (rc.addrs.Some? ==> AllAiOk(rc.addrs.value)) && rc.lastUpdated != U64 - 1
  }

  lemma RcFixed(inet: Inet, rd: Reader, cur: nat, s: Rc, blank: Ai, letter: byte, k: bytes, tail: Tokens, end: nat)
    returns (c: nat)
    requires Sound(rd) && Lexes(rd, cur, StrEntry(letter, k, tail), end)
    requires ((letter == KEY_K || letter == KEY_P) && |k| == PUBKEY_SIZE) || (letter == KEY_Z && |k| == SIG_SIZE)
    ensures Lexes(rd, c, tail, end)
    ensures Entries(rd, cur, s, RcOnKey(inet, rd, blank)) ==
            Entries(rd, c, if letter == KEY_K then s.(pubkey := k)
                           else if letter == KEY_P then s.(enckey := k)
                           else s.(signature := k), RcOnKey(inet, rd, blank))
  {
    var c1 := EntryRound(rd, cur, s, RcOnKey(inet, rd, blank), letter, Bytestring(k, tail), end);
    c := rd.str(c1).value.1;
  }

  lemma RcUpdated(inet: Inet, rd: Reader, cur: nat, s: Rc, blank: Ai, v: u64, tail: Tokens, end: nat) returns (c: nat)
    requires Sound(rd) && Lexes(rd, cur, NumEntry(KEY_U, v, tail), end)
    ensures v != U64 - 1 ==> Lexes(rd, c, tail, end)
    ensures Entries(rd, cur, s, RcOnKey(inet, rd, blank)) ==
            if v == U64 - 1 then None else Entries(rd, c, s.(lastUpdated := v), RcOnKey(inet, rd, blank))
  {
    var c1 := EntryRound(rd, cur, s, RcOnKey(inet, rd, blank), KEY_U, Number(v, tail), end);
    c := if v == U64 - 1 then 0 else rd.num(c1).value.1;
  }

  lemma RcVersion(inet: Inet, rd: Reader, cur: nat, s: Rc, blank: Ai, tail: Tokens, end: nat) returns (c: nat)
    requires Sound(rd) && Lexes(rd, cur, Versioned(tail), end)
    ensures Lexes(rd, c, tail, end)
    ensures Entries(rd, cur, s, RcOnKey(inet, rd, blank)) == Entries(rd, c, s, RcOnKey(inet, rd, blank))
  {
    var c1 := EntryRound(rd, cur, s, RcOnKey(inet, rd, blank), CH_V, Number(PROTO_VERSION, tail), end);
    c := rd.num(c1).value.1;
  }

  /** The callback on the address list, and on the exit list. */
  lemma RcAddrsValue(inet: Inet, rd: Reader, cur: nat, s: Rc, blank: Ai, l: seq<Ai>, tail: Tokens, end: nat) returns (c: nat)
    requires Sound(rd) && TextOk(inet) && Lexes(rd, cur, Mark(CH_L, AisTokens(inet, l, Mark(CH_E, tail))), end)
    requires forall i :: 0 <= i < |l| ==> AiShape(l[i])
    ensures AllAiOk(l) ==> Lexes(rd, c, tail, end)
    ensures RcKey(inet, rd, blank, s, [KEY_A], cur) == if AllAiOk(l) then Some((s.(addrs := Some(l)), c)) else None
  {
    c := AisReadBack(inet, rd, cur + 1, l, [], blank, tail, end);
    assert [] + l == l;
  }

  lemma RcExitsValue(inet: Inet, rd: Reader, cur: nat, s: Rc, blank: Ai, l: seq<Xi>, tail: Tokens, end: nat) returns (c: nat)
    requires Sound(rd) && TextOk(inet) && Lexes(rd, cur, Mark(CH_L, XisTokens(inet, l, Mark(CH_E, tail))), end)
    requires forall i :: 0 <= i < |l| ==> XiShape(l[i])
    ensures Lexes(rd, c, tail, end)
    ensures RcKey(inet, rd, blank, s, [KEY_X], cur) == Some((s.(exits := Some(l)), c))
  {
    c := XisReadBack(inet, rd, cur + 1, l, [], BlankXi, tail, end);
    assert [] + l == l;
  }

  lemma RcAddrs(inet: Inet, rd: Reader, cur: nat, s: Rc, blank: Ai, addrs: Option<seq<Ai>>, tail: Tokens, end: nat)
    returns (c: nat)
    requires Sound(rd) && TextOk(inet) && Lexes(rd, cur, AddrsTokens(inet, addrs, tail), end) && s.addrs.None?
    requires addrs.Some? ==> forall i :: 0 <= i < |addrs.value| ==> AiShape(addrs.value[i])
    ensures var ok := addrs.Some? ==> AllAiOk(addrs.value);
            && (ok ==> Lexes(rd, c, tail, end))
            && Entries(rd, cur, s, RcOnKey(inet, rd, blank)) ==
               if ok then Entries(rd, c, s.(addrs := addrs), RcOnKey(inet, rd, blank)) else None
  {
    if addrs.None? {
      c := cur;
    } else {
      var body := Mark(CH_L, AisTokens(inet, addrs.value, Mark(CH_E, tail)));
      var c1 := EntryRound(rd, cur, s, RcOnKey(inet, rd, blank), KEY_A, body, end);
      c := RcAddrsValue(inet, rd, c1, s, blank, addrs.value, tail, end);
    }
  }

  lemma RcExits(inet: Inet, rd: Reader, cur: nat, s: Rc, blank: Ai, exits: Option<seq<Xi>>, tail: Tokens, end: nat)
    returns (c: nat)
    requires Sound(rd) && TextOk(inet) && Lexes(rd, cur, ExitsTokens(inet, exits, tail), end) && s.exits.None?
    requires exits.Some? ==> forall i :: 0 <= i < |exits.value| ==> XiShape(exits.value[i])
    ensures Lexes(rd, c, tail, end)
    ensures Entries(rd, cur, s, RcOnKey(inet, rd, blank)) ==
            Entries(rd, c, s.(exits := exits), RcOnKey(inet, rd, blank))
  {
    if exits.None? {
      c := cur;
    } else {
      var body := Mark(CH_L, XisTokens(inet, exits.value, Mark(CH_E, tail)));
      var c1 := EntryRound(rd, cur, s, RcOnKey(inet, rd, blank), KEY_X, body, end);
      c := RcExitsValue(inet, rd, c1, s, blank, exits.value, tail, end);
    }
  }

  function WithKeys(s: Rc, rc: Rc): (r: Rc)
  {
    s.(pubkey := rc.pubkey, enckey := rc.enckey, lastUpdated := rc.lastUpdated)
  }

  lemma RcTwoKeys(inet: Inet, rd: Reader, cur: nat, s: Rc, blank: Ai, rc: Rc, tail: Tokens, end: nat) returns (c: nat)
    requires Sound(rd) && |rc.pubkey| == |rc.enckey| == PUBKEY_SIZE
    requires Lexes(rd, cur, StrEntry(KEY_K, rc.pubkey, StrEntry(KEY_P, rc.enckey, tail)), end)
    ensures Lexes(rd, c, tail, end)
    ensures Entries(rd, cur, s, RcOnKey(inet, rd, blank)) ==
            Entries(rd, c, s.(pubkey := rc.pubkey, enckey := rc.enckey), RcOnKey(inet, rd, blank))
  {
    var c1 := RcFixed(inet, rd, cur, s, blank, KEY_K, rc.pubkey, StrEntry(KEY_P, rc.enckey, tail), end);
    c := RcFixed(inet, rd, c1, s.(pubkey := rc.pubkey), blank, KEY_P, rc.enckey, tail, end);
  }

  lemma RcKeys(inet: Inet, rd: Reader, cur: nat, s: Rc, blank: Ai, rc: Rc, tail: Tokens, end: nat) returns (c: nat)
    requires Sound(rd) && |rc.pubkey| == |rc.enckey| == PUBKEY_SIZE && Lexes(rd, cur, KeysTokens(rc, tail), end)
    ensures rc.lastUpdated != U64 - 1 ==> Lexes(rd, c, tail, end)
    ensures Entries(rd, cur, s, RcOnKey(inet, rd, blank)) ==
            if rc.lastUpdated == U64 - 1 then None else Entries(rd, c, WithKeys(s, rc), RcOnKey(inet, rd, blank))
  {
    var t3 := Versioned(tail);
    var c1 := RcTwoKeys(inet, rd, cur, s, blank, rc, NumEntry(KEY_U, rc.lastUpdated, t3), end);
    var s1 := s.(pubkey := rc.pubkey, enckey := rc.enckey);
    c := RcUpdated(inet, rd, c1, s1, blank, rc.lastUpdated, t3, end);
    if rc.lastUpdated != U64 - 1 {
      c := RcVersion(inet, rd, c, s1.(lastUpdated := rc.lastUpdated), blank, tail, end);
    }
  }

  lemma RcTail(inet: Inet, rd: Reader, cur: nat, s: Rc, blank: Ai, rc: Rc, end: nat)
    requires Sound(rd) && TextOk(inet) && RcShape(rc) && s.exits.None?
    requires Lexes(rd, cur, ExitsTokens(inet, rc.exits, StrEntry(KEY_Z, rc.signature, Mark(CH_E, Done))), end)
    ensures Entries(rd, cur, s, RcOnKey(inet, rd, blank)) == Some((s.(exits := rc.exits, signature := rc.signature), end))
  {
    var t5 := StrEntry(KEY_Z, rc.signature, Mark(CH_E, Done));
    var c6 := RcExits(inet, rd, cur, s, blank, rc.exits, t5, end);
    var s6 := s.(exits := rc.exits);
    var c7 := RcFixed(inet, rd, c6, s6, blank, KEY_Z, rc.signature, Mark(CH_E, Done), end);
    EndRound(rd, c7, s6.(signature := rc.signature), RcOnKey(inet, rd, blank), Done, end);
  }

  lemma RcTokensReadBack(inet: Inet, rd: Reader, cur: nat, rc: Rc, blank: Ai, end: nat)
    requires Sound(rd) && TextOk(inet) && RcShape(rc) && Lexes(rd, cur, RcTokens(inet, rc, Done), end)
    ensures RcDecode(inet, rd, cur, blank) == if RcOk(rc) then Some((rc, end)) else None
  {
    var t4 := ExitsTokens(inet, rc.exits, StrEntry(KEY_Z, rc.signature, Mark(CH_E, Done)));
    var c1 := RcAddrs(inet, rd, cur + 1, ClearedRc, blank, rc.addrs, KeysTokens(rc, t4), end);
    if rc.addrs.Some? ==> AllAiOk(rc.addrs.value) {
      var s1 := ClearedRc.(addrs := rc.addrs);
      var c2 := RcKeys(inet, rd, c1, s1, blank, rc, t4, end);
      if rc.lastUpdated != U64 - 1 {
        RcTail(inet, rd, c2, WithKeys(s1, rc), blank, rc, end);
      }
    }
  }

  lemma ShortRcStrings(inet: Inet, rc: Rc)
    requires TextOk(inet) && RcShape(rc)
    ensures ShortStrings(RcTokens(inet, rc, Done))
  {
    var t5 := StrEntry(KEY_Z, rc.signature, Mark(CH_E, Done));
    ShortEntry(KEY_Z, rc.signature, Mark(CH_E, Done));
    if rc.exits.Some? {
      ShortXis(inet, rc.exits.value, Mark(CH_E, t5));
    }
    var t4 := ExitsTokens(inet, rc.exits, t5);
    assert ShortStrings(t4);
    ShortNumEntry(CH_V, PROTO_VERSION, t4);
    ShortNumEntry(KEY_U, rc.lastUpdated, Versioned(t4));
    var t2 := NumEntry(KEY_U, rc.lastUpdated, Versioned(t4));
    ShortEntry(KEY_P, rc.enckey, t2);
    ShortEntry(KEY_K, rc.pubkey, StrEntry(KEY_P, rc.enckey, t2));
    var keys := KeysTokens(rc, t4);
    assert ShortStrings(keys);
    if rc.addrs.Some? {
      ShortAis(inet, rc.addrs.value, Mark(CH_E, keys));
    }
  }

  lemma ShortAi(inet: Inet, ai: Ai, tail: Tokens)
    requires TextOk(inet) && ShortStrings(tail) && AiShape(ai)
    ensures ShortStrings(AiTokens(inet, ai, tail))
  {
    var t6 := Versioned(Mark(CH_E, tail));
    var t5 := NumEntry(KEY_P, ai.port, t6);
    var t4 := StrEntry(KEY_I, inet.ntop(ai.ip), t5);
    var t3 := StrEntry(KEY_E, ai.enckey, t4);
    var t2 := StrEntry(KEY_D, ai.dialect, t3);
    ShortNumEntry(CH_V, PROTO_VERSION, Mark(CH_E, tail));
    ShortNumEntry(KEY_P, ai.port, t6);
    ShortEntry(KEY_I, inet.ntop(ai.ip), t5);
    ShortEntry(KEY_E, ai.enckey, t4);
    ShortEntry(KEY_D, ai.dialect, t3);
    ShortNumEntry(KEY_C, ai.rank, t2);
  }

  lemma ShortXi(inet: Inet, xi: Xi, tail: Tokens)
    requires TextOk(inet) && ShortStrings(tail) && XiShape(xi)
    ensures ShortStrings(XiTokens(inet, xi, tail))
  {
    var t4 := Versioned(Mark(CH_E, tail));
    var t3 := StrEntry(KEY_K, xi.pubkey, t4);
    var t2 := StrEntry(KEY_B, inet.ntop(xi.netmask), t3);
    ShortNumEntry(CH_V, PROTO_VERSION, Mark(CH_E, tail));
    ShortEntry(KEY_K, xi.pubkey, t4);
    ShortEntry(KEY_B, inet.ntop(xi.netmask), t3);
    ShortEntry(KEY_A, inet.ntop(xi.address), t2);
  }

  lemma {:induction false} ShortAis(inet: Inet, l: seq<Ai>, tail: Tokens)
    requires TextOk(inet) && ShortStrings(tail) && forall i :: 0 <= i < |l| ==> AiShape(l[i])
    ensures ShortStrings(AisTokens(inet, l, tail))
    decreases |l|
  {
    if l != [] {
      ShortAi(inet, l[|l| - 1], tail);
      ShortAis(inet, l[..|l| - 1], AiTokens(inet, l[|l| - 1], tail));
    }
  }

  lemma {:induction false} ShortXis(inet: Inet, l: seq<Xi>, tail: Tokens)
    requires TextOk(inet) && ShortStrings(tail) && forall i :: 0 <= i < |l| ==> XiShape(l[i])
    ensures ShortStrings(XisTokens(inet, l, tail))
    decreases |l|
  {
    if l != [] {
      ShortXi(inet, l[|l| - 1], tail);
      ShortXis(inet, l[..|l| - 1], XiTokens(inet, l[|l| - 1], tail));
    }
  }

  lemma RcLexes(inet: Inet, rd: Reader, inp: Input, cur: nat, rc: Rc)
    requires Faithful(rd, inp) && TextOk(inet) && RcShape(rc) && At(inp, cur, RcEncoding(inet, rc))
    ensures Lexes(rd, cur, RcTokens(inet, rc, Done), cur + |RcEncoding(inet, rc)|)
  {
    RcRendered(inet, rc);
    ShortRcStrings(inet, rc);
    RenderedLexes(rd, inp, cur, RcTokens(inet, rc, Done));
  }

  lemma RcReadBackWith(inet: Inet, rd: Reader, inp: Input, cur: nat, rc: Rc, blank: Ai)
    requires Faithful(rd, inp) && TextOk(inet) && RcShape(rc) && At(inp, cur, RcEncoding(inet, rc))
    ensures RcDecode(inet, rd, cur, blank) == if RcOk(rc) then Some((rc, cur + |RcEncoding(inet, rc)|)) else None
  {
    RcLexes(inet, rd, inp, cur, rc);
    RcTokensReadBack(inet, rd, cur, rc, blank, cur + |RcEncoding(inet, rc)|);
  }

  /** Decoding an encoded contact gives the contact back, with the position just
      behind it, exactly when every address has a rank, a port and a dialect of at
      most five bytes, and the update time is not 2^64-1. */
  lemma RcReadBack(inet: Inet, inp: Input, cur: nat, rc: Rc, blank: Ai)
    requires TextOk(inet) && RcShape(rc) && At(inp, cur, RcEncoding(inet, rc))
    ensures RcDecode(inet, ReaderOf(inp), cur, blank) ==
            if RcOk(rc) then Some((rc, cur + |RcEncoding(inet, rc)|)) else None
  {
    ReaderOfIsFaithful(inp);
    RcReadBackWith(inet, ReaderOf(inp), inp, cur, rc, blank);
  }

  // ----- signatures -------------------------------------------------------------

  /** Ed25519: `sign` with a secret key, `verify` with the public half of it. */
  datatype Signer = Signer(
    pub: bytes -> bytes,
    sign: (bytes, bytes) -> bytes,
    verify: (bytes, bytes, bytes) -> bool)

  ghost predicate SignerOk(g: Signer) {
    forall sk, m :: |g.sign(sk, m)| == SIG_SIZE && g.verify(g.pub(sk), m, g.sign(sk, m))
  }

  function Unsigned(rc: Rc): (r: Rc) {
    rc.(signature := Zeros(SIG_SIZE))
  }

  function Signed(inet: Inet, g: Signer, sk: bytes, rc: Rc): (r: Rc) {
    var e := RcEncoding(inet, Unsigned(rc));
    if |e| <= MAX_RC_SIZE then rc.(signature := g.sign(sk, e)) else Unsigned(rc)
  }

  predicate Verifies(inet: Inet, g: Signer, rc: Rc) {
    var e := RcEncoding(inet, Unsigned(rc));
    |e| <= MAX_RC_SIZE && g.verify(rc.pubkey, e, rc.signature)
  }

  /** The udap_rc of the source. */
  class Contact {
    var rc: Rc

    constructor (rc: Rc)
      ensures this.rc == rc
    {
      this.rc := rc;
    }

    /** udap_rc_sign. A contact too long to encode is left with a zero signature. */
    method Sign(inet: Inet, g: Signer, sk: bytes)
      requires InetOk(inet) && RcShape(rc)
      modifies this
      ensures rc == Signed(inet, g, sk, old(rc))
      ensures var e := RcEncoding(inet, old(rc).(signature := Zeros(SIG_SIZE)));
              rc == old(rc).(signature := if |e| <= MAX_RC_SIZE then g.sign(sk, e) else Zeros(SIG_SIZE))
    {
      var buf := new Buffer(MAX_RC_SIZE);
      rc := rc.(signature := Zeros(SIG_SIZE));
      var ok := RcBencode(inet, rc, buf);
      if ok {
        var text := buf.mem[..buf.cur];
        rc := rc.(signature := g.sign(sk, text));
      }
    }

    /** udap_rc_verify_sig: the signature is zeroed byte by byte while the contact
        is encoded, and restored before returning. */
    method VerifySig(inet: Inet, g: Signer) returns (result: bool)
      requires InetOk(inet) && RcShape(rc)
      modifies this
      ensures result == Verifies(inet, g, rc)
      ensures result <==>
                var e := RcEncoding(inet, rc.(signature := Zeros(SIG_SIZE)));
                |e| <= MAX_RC_SIZE && g.verify(rc.pubkey, e, rc.signature)
      ensures rc == old(rc)
    {
      result := false;
      var buf := new Buffer(MAX_RC_SIZE);
      var sig := rc.signature;
      ZeroSignature();
      var ok := RcBencode(inet, rc, buf);
      if ok {
        var text := buf.mem[..buf.cur];
        result := g.verify(rc.pubkey, text, sig);
      }
      rc := rc.(signature := sig);
    }

    method ZeroSignature()
      requires RcShape(rc)
      modifies this
      ensures rc == Unsigned(old(rc)) && RcShape(rc)
    {
      var sz := 0;
      while sz < SIG_SIZE
        invariant sz <= SIG_SIZE && |rc.signature| == SIG_SIZE && rc == old(rc).(signature := rc.signature)
        invariant forall i :: 0 <= i < sz ==> rc.signature[i] == 0
      {
        rc := rc.(signature := rc.signature[sz := 0]);
        sz := sz + 1;
      }
      assert rc.signature == Zeros(SIG_SIZE);
    }
  }

  lemma SignatureKeepsLength(inet: Inet, rc: Rc, sig: bytes)
    requires |rc.signature| == SIG_SIZE == |sig|
    ensures |RcEncoding(inet, rc.(signature := sig))| == |RcEncoding(inet, rc)|
  {
    StrLength(rc.signature);
    StrLength(sig);
  }

  /** Signed by its owner, encoded, carried anywhere in a peer's input, decoded and
      verified: the contact arrives unchanged and is accepted. It is accepted
      exactly when it fits the 1024 bytes of a contact. */
  lemma SignedContactIsAccepted(inet: Inet, g: Signer, sk: bytes, rc: Rc, inp: Input, cur: nat, blank: Ai)
    requires TextOk(inet) && SignerOk(g) && RcShape(rc) && RcOk(rc) && rc.pubkey == g.pub(sk)
    requires At(inp, cur, RcEncoding(inet, Signed(inet, g, sk, rc)))
    ensures var r := RcDecode(inet, ReaderOf(inp), cur, blank);
            && r.Some? && r.value.0 == Signed(inet, g, sk, rc)
            && (|RcEncoding(inet, rc)| <= MAX_RC_SIZE <==> Verifies(inet, g, r.value.0))
  {
    var signed := Signed(inet, g, sk, rc);
    RcReadBack(inet, inp, cur, signed, blank);
    SignatureKeepsLength(inet, rc, Zeros(SIG_SIZE));
    assert Unsigned(signed) == Unsigned(rc);
  }

  /** Any contact, signed by anyone or not at all, encoded, carried and decoded: it is
      accepted exactly when it fits and the signature it carries verifies, under the key
      it carries, over the encoding with a zero signature. */
  lemma {:induction false} AcceptedExactly(inet: Inet, g: Signer, rc: Rc, inp: Input, cur: nat, blank: Ai)
    requires TextOk(inet) && RcShape(rc) && RcOk(rc) && At(inp, cur, RcEncoding(inet, rc))
    ensures var r := RcDecode(inet, ReaderOf(inp), cur, blank);
            && r.Some? && r.value.0 == rc
            && (Verifies(inet, g, r.value.0) <==>
                  && |RcEncoding(inet, rc)| <= 1024
                  && g.verify(rc.pubkey, RcEncoding(inet, rc.(signature := Zeros(SIG_SIZE))), rc.signature))
  {
    RcReadBack(inet, inp, cur, rc, blank);
    SignatureKeepsLength(inet, rc, Zeros(SIG_SIZE));
  }

  /** Different contacts have different encodings. */
  lemma {:induction false} EncodingIsInjective(inet: Inet, a: Rc, b: Rc, blank: Ai)
    requires TextOk(inet) && RcShape(a) && RcOk(a) && RcShape(b) && RcOk(b) && RcEncoding(inet, a) == RcEncoding(inet, b)
    ensures a == b
  {
    var inp := Input(RcEncoding(inet, a), 0);
    RcReadBack(inet, inp, 0, a, blank);
    RcReadBack(inet, inp, 0, b, blank);
  }

  /** If a signature verifies over one text only, no contact but the one that was signed
      is accepted with it: whoever changes a field is refused. */
  lemma {:induction false} ChangedContactIsRefused(inet: Inet, g: Signer, rc: Rc, other: Rc, blank: Ai)
    requires TextOk(inet) && RcShape(rc) && RcOk(rc) && RcShape(other) && RcOk(other)
    requires other.pubkey == rc.pubkey && other.signature == rc.signature
    requires forall m :: g.verify(rc.pubkey, m, rc.signature) ==> m == RcEncoding(inet, rc.(signature := Zeros(SIG_SIZE)))
    ensures Verifies(inet, g, other) ==> other == rc
  {
    if Verifies(inet, g, other) {
      EncodingIsInjective(inet, Unsigned(other), Unsigned(rc), blank);
      assert other == Unsigned(other).(signature := rc.signature) && rc == Unsigned(rc).(signature := rc.signature);
    }
  }
}
