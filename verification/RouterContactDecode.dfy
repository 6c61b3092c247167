/** Decoding router contacts (udap/router_contact.cpp, udap/address_info.cpp,
    udap/exit_info.cpp) and reading back what the encoders wrote. */
module RouterContactDecode {
  import opened Bytes
  import opened Bencode
  import opened RouterContact

  // ----- the dictionary callbacks --------------------------------------------

  /** A char array as strnlen and inet_pton see it. */
  function CString(s: bytes): (t: bytes)
    ensures 0 !in s ==> t == s
  {
    if s == [] || s[0] == 0 then [] else [s[0]] + CString(s[1..])
  }

  function ReadIp(inet: Inet, rd: Reader, cur: nat): (r: Option<(bytes, nat)>)
  {
    match rd.str(cur)
    case None => None
    case Some((s, c)) =>
      if |s| >= 128 then None
      else match inet.pton(CString(s))
           case None => None
           case Some(ip) => Some((ip, c))
  }

  /** The rank or the port: 65536 passes the check and is then cut to 16 bits. */
  function ReadShort(rd: Reader, cur: nat): (r: Option<(u16, nat)>)
  {
    match rd.num(cur)
    case None => None
    case Some((i, c)) => if i > 65536 || i == 0 then None else Some((i % 65536, c))
  }

  function ReadVersion(rd: Reader, cur: nat): (r: Option<nat>)
  {
    match rd.num(cur)
    case None => None
    case Some((v, c)) => if v != PROTO_VERSION then None else Some(c)
  }

  /** udap_ai_decode_key. */
  function AiKey(inet: Inet, rd: Reader, ai: Ai, key: bytes, cur: nat): (r: Option<(Ai, nat)>)
    ensures Sound(rd) && r.Some? ==> r.value.1 >= cur
  {
    if KeyIs(key, KEY_C) then
      match ReadShort(rd, cur) case None => None case Some((i, c)) => Some((ai.(rank := i), c))
    else if KeyIs(key, KEY_D) then
      match rd.str(cur)
      case None => None
      case Some((s, c)) => if |s| >= MAX_DIALECT + 1 then None else Some((ai.(dialect := CString(s)), c))
    else if KeyIs(key, KEY_E) then
      match ReadFixed(rd, cur, PUBKEY_SIZE) case None => None case Some((s, c)) => Some((ai.(enckey := s), c))
    else if KeyIs(key, KEY_I) then
      match ReadIp(inet, rd, cur) case None => None case Some((ip, c)) => Some((ai.(ip := ip), c))
    else if KeyIs(key, KEY_P) then
      match ReadShort(rd, cur) case None => None case Some((i, c)) => Some((ai.(port := i), c))
    else if KeyIs(key, KEY_V) then
      match ReadVersion(rd, cur) case None => None case Some(c) => Some((ai, c))
    else None
  }

  function AiOnKey(inet: Inet, rd: Reader): (f: OnKey<Ai>)
    ensures Sound(rd) ==> Forward(f)
  {
    (ai, key, cur) => AiKey(inet, rd, ai, key, cur)
  }

  /** udap_ai_bdecode into a struct that held `blank`. */
  function AiDecode(inet: Inet, rd: Reader, cur: nat, blank: Ai): (r: Option<(Ai, nat)>)
    requires Sound(rd)
    ensures r.Some? ==> r.value.1 > cur
  {
    ReadDict(rd, cur, blank, AiOnKey(inet, rd))
  }

  /** udap_xi_decode_dict. */
  function XiKey(inet: Inet, rd: Reader, xi: Xi, key: bytes, cur: nat): (r: Option<(Xi, nat)>)
    ensures Sound(rd) && r.Some? ==> r.value.1 >= cur
  {
    if KeyIs(key, KEY_A) then
      match ReadIp(inet, rd, cur) case None => None case Some((ip, c)) => Some((xi.(address := ip), c))
    else if KeyIs(key, KEY_B) then
      match ReadIp(inet, rd, cur) case None => None case Some((ip, c)) => Some((xi.(netmask := ip), c))
    else if KeyIs(key, KEY_K) then
      match ReadFixed(rd, cur, PUBKEY_SIZE) case None => None case Some((s, c)) => Some((xi.(pubkey := s), c))
    else if KeyIs(key, KEY_V) then
      match ReadVersion(rd, cur) case None => None case Some(c) => Some((xi, c))
    else None
  }

  function XiOnKey(inet: Inet, rd: Reader): (f: OnKey<Xi>)
    ensures Sound(rd) ==> Forward(f)
  {
    (xi, key, cur) => XiKey(inet, rd, xi, key, cur)
  }

  function XiDecode(inet: Inet, rd: Reader, cur: nat, blank: Xi): (r: Option<(Xi, nat)>)
    requires Sound(rd)
    ensures r.Some? ==> r.value.1 > cur
  {
    ReadDict(rd, cur, blank, XiOnKey(inet, rd))
  }

  function AiOnItem(inet: Inet, rd: Reader, blank: Ai): (f: OnItem<seq<Ai>>)
    requires Sound(rd)
    ensures Advancing(f)
  {
    (l, cur) => match AiDecode(inet, rd, cur, blank) case None => None case Some((ai, c)) => Some((l + [ai], c))
  }

  const BlankXi := Xi(Zeros(16), Zeros(16), Zeros(PUBKEY_SIZE))

  function XiOnItem(inet: Inet, rd: Reader, blank: Xi): (f: OnItem<seq<Xi>>)
    requires Sound(rd)
    ensures Advancing(f)
  {
    (l, cur) => match XiDecode(inet, rd, cur, blank) case None => None case Some((xi, c)) => Some((l + [xi], c))
  }

  /** udap_rc_decode_dict. */
  function RcKey(inet: Inet, rd: Reader, blank: Ai, rc: Rc, key: bytes, cur: nat): (r: Option<(Rc, nat)>)
    requires Sound(rd)
    ensures r.Some? ==> r.value.1 >= cur
  {
    if KeyIs(key, KEY_A) then
      match ReadList(rd, cur, [], AiOnItem(inet, rd, blank))
      case None => None
      case Some((l, c)) => Some((rc.(addrs := Some(l)), c))
    else if KeyIs(key, KEY_K) then
      match ReadFixed(rd, cur, PUBKEY_SIZE) case None => None case Some((s, c)) => Some((rc.(pubkey := s), c))
    else if KeyIs(key, KEY_P) then
      match ReadFixed(rd, cur, PUBKEY_SIZE) case None => None case Some((s, c)) => Some((rc.(enckey := s), c))
    else if KeyIs(key, KEY_U) then
      match rd.num(cur) case None => None case Some((v, c)) => Some((rc.(lastUpdated := v), c))
    else if KeyIs(key, KEY_V) then
      match ReadVersion(rd, cur) case None => None case Some(c) => Some((rc, c))
    else if KeyIs(key, KEY_X) then
      match ReadList(rd, cur, [], XiOnItem(inet, rd, BlankXi))
      case None => None
      case Some((l, c)) => Some((rc.(exits := Some(l)), c))
    else if KeyIs(key, KEY_Z) then
      match ReadFixed(rd, cur, SIG_SIZE) case None => None case Some((s, c)) => Some((rc.(signature := s), c))
    else None
  }

  function RcOnKey(inet: Inet, rd: Reader, blank: Ai): (f: OnKey<Rc>)
    requires Sound(rd)
    ensures Forward(f)
  {
    (rc, key, cur) => RcKey(inet, rd, blank, rc, key, cur)
  }

  const ClearedRc := Rc(None, Zeros(PUBKEY_SIZE), Zeros(PUBKEY_SIZE), None, Zeros(SIG_SIZE), 0)

  /** udap_rc_bdecode into a cleared contact. */
  function RcDecode(inet: Inet, rd: Reader, cur: nat, blank: Ai): (r: Option<(Rc, nat)>)
    requires Sound(rd)
    ensures r.Some? ==> r.value.1 > cur
  {
    ReadDict(rd, cur, ClearedRc, RcOnKey(inet, rd, blank))
  }

  // ----- the encodings as tokens ----------------------------------------------

  function Versioned(tail: Tokens): (t: Tokens) {
    NumEntry(CH_V, PROTO_VERSION, tail)
  }

  function AiTokens(inet: Inet, ai: Ai, tail: Tokens): (t: Tokens) {
    Mark(CH_D, NumEntry(KEY_C, ai.rank, StrEntry(KEY_D, ai.dialect, StrEntry(KEY_E, ai.enckey,
         StrEntry(KEY_I, inet.ntop(ai.ip), NumEntry(KEY_P, ai.port, Versioned(Mark(CH_E, tail))))))))
  }

  function XiTokens(inet: Inet, xi: Xi, tail: Tokens): (t: Tokens) {
    Mark(CH_D, StrEntry(KEY_A, inet.ntop(xi.address), StrEntry(KEY_B, inet.ntop(xi.netmask),
         StrEntry(KEY_K, xi.pubkey, Versioned(Mark(CH_E, tail))))))
  }

  function AisTokens(inet: Inet, l: seq<Ai>, tail: Tokens): (t: Tokens) {
    if l == [] then tail else AisTokens(inet, l[..|l| - 1], AiTokens(inet, l[|l| - 1], tail))
  }

  function XisTokens(inet: Inet, l: seq<Xi>, tail: Tokens): (t: Tokens) {
    if l == [] then tail else XisTokens(inet, l[..|l| - 1], XiTokens(inet, l[|l| - 1], tail))
  }

  function AddrsTokens(inet: Inet, addrs: Option<seq<Ai>>, tail: Tokens): (t: Tokens) {
    if addrs.None? then tail
    else Bytestring([KEY_A], Mark(CH_L, AisTokens(inet, addrs.value, Mark(CH_E, tail))))
  }

  function ExitsTokens(inet: Inet, exits: Option<seq<Xi>>, tail: Tokens): (t: Tokens) {
    if exits.None? then tail
    else Bytestring([KEY_X], Mark(CH_L, XisTokens(inet, exits.value, Mark(CH_E, tail))))
  }

  function KeysTokens(rc: Rc, tail: Tokens): (t: Tokens) {
    StrEntry(KEY_K, rc.pubkey, StrEntry(KEY_P, rc.enckey, NumEntry(KEY_U, rc.lastUpdated, Versioned(tail))))
  }

  function RcTokens(inet: Inet, rc: Rc, tail: Tokens): (t: Tokens) {
    Mark(CH_D, AddrsTokens(inet, rc.addrs, KeysTokens(rc, ExitsTokens(inet, rc.exits,
         StrEntry(KEY_Z, rc.signature, Mark(CH_E, tail))))))
  }

  lemma Reassociated(p1: bytes, p2: bytes, p3: bytes, p4: bytes, p5: bytes, p6: bytes, p7: bytes, p8: bytes, r: bytes)
    ensures p1 + (p2 + (p3 + (p4 + (p5 + (p6 + (p7 + (p8 + r)))))))
         == p1 + p2 + p3 + p4 + p5 + p6 + p7 + p8 + r
  {
  }

  lemma AiRendered(inet: Inet, ai: Ai, tail: Tokens)
    ensures Render(AiTokens(inet, ai, tail)) == AiEncoding(inet, ai) + Render(tail)
  {
    var t6 := Versioned(Mark(CH_E, tail));
    var t5 := NumEntry(KEY_P, ai.port, t6);
    var t4 := StrEntry(KEY_I, inet.ntop(ai.ip), t5);
    var t3 := StrEntry(KEY_E, ai.enckey, t4);
    var t2 := StrEntry(KEY_D, ai.dialect, t3);
    RenderVersion(Mark(CH_E, tail));
    RenderNumEntry(KEY_P, ai.port, t6);
    RenderStrEntry(KEY_I, inet.ntop(ai.ip), t5);
    RenderStrEntry(KEY_E, ai.enckey, t4);
    RenderStrEntry(KEY_D, ai.dialect, t3);
    RenderNumEntry(KEY_C, ai.rank, t2);
    Reassociated([CH_D], Entry(KEY_C, Int(ai.rank)), Entry(KEY_D, Str(ai.dialect)), Entry(KEY_E, Str(ai.enckey)),
                 Entry(KEY_I, Str(inet.ntop(ai.ip))), Entry(KEY_P, Int(ai.port)), VersionEntry, [CH_E], Render(tail));
  }

  lemma XiRendered(inet: Inet, xi: Xi, tail: Tokens)
    ensures Render(XiTokens(inet, xi, tail)) == XiEncoding(inet, xi) + Render(tail)
  {
    var t4 := Versioned(Mark(CH_E, tail));
    var t3 := StrEntry(KEY_K, xi.pubkey, t4);
    var t2 := StrEntry(KEY_B, inet.ntop(xi.netmask), t3);
    RenderVersion(Mark(CH_E, tail));
    RenderStrEntry(KEY_K, xi.pubkey, t4);
    RenderStrEntry(KEY_B, inet.ntop(xi.netmask), t3);
    RenderStrEntry(KEY_A, inet.ntop(xi.address), t2);
  }

  lemma {:induction false} AisRendered(inet: Inet, l: seq<Ai>, tail: Tokens)
    ensures Render(AisTokens(inet, l, tail)) == AisEncoding(inet, l) + Render(tail)
    decreases |l|
  {
    if l != [] {
      var n := |l| - 1;
      AisRendered(inet, l[..n], AiTokens(inet, l[n], tail));
      AiRendered(inet, l[n], tail);
      Reassociated3(AisEncoding(inet, l[..n]), AiEncoding(inet, l[n]), Render(tail));
    }
  }

  lemma {:induction false} XisRendered(inet: Inet, l: seq<Xi>, tail: Tokens)
    ensures Render(XisTokens(inet, l, tail)) == XisEncoding(inet, l) + Render(tail)
    decreases |l|
  {
    if l != [] {
      var n := |l| - 1;
      XisRendered(inet, l[..n], XiTokens(inet, l[n], tail));
      XiRendered(inet, l[n], tail);
      Reassociated3(XisEncoding(inet, l[..n]), XiEncoding(inet, l[n]), Render(tail));
    }
  }

  lemma Reassociated3(p1: bytes, p2: bytes, r: bytes)
    ensures p1 + (p2 + r) == p1 + p2 + r
  {
  }

  lemma AddrsRendered(inet: Inet, addrs: Option<seq<Ai>>, tail: Tokens)
    ensures Render(AddrsTokens(inet, addrs, tail)) == AddrsEncoding(inet, addrs) + Render(tail)
  {
    if addrs.Some? {
      AisRendered(inet, addrs.value, Mark(CH_E, tail));
      var key, body, r := Str([KEY_A]), AisEncoding(inet, addrs.value), Render(tail);
      assert Render(AddrsTokens(inet, addrs, tail)) == key + ([CH_L] + (body + ([CH_E] + r)));
      ListReassociated(key, body, r);
    }
  }

  lemma ExitsRendered(inet: Inet, exits: Option<seq<Xi>>, tail: Tokens)
    ensures Render(ExitsTokens(inet, exits, tail)) == ExitsEncoding(inet, exits) + Render(tail)
  {
    if exits.Some? {
      XisRendered(inet, exits.value, Mark(CH_E, tail));
      var key, body, r := Str([KEY_X]), XisEncoding(inet, exits.value), Render(tail);
      assert Render(ExitsTokens(inet, exits, tail)) == key + ([CH_L] + (body + ([CH_E] + r)));
      ListReassociated(key, body, r);
    }
  }

  lemma ListReassociated(key: bytes, body: bytes, r: bytes)
    ensures key + ([CH_L] + (body + ([CH_E] + r))) == key + ([CH_L] + body + [CH_E]) + r
  {
  }

  lemma KeysRendered(rc: Rc, tail: Tokens)
    ensures Render(KeysTokens(rc, tail)) == KeysEncoding(rc) + Render(tail)
  {
    var t3 := Versioned(tail);
    var t2 := NumEntry(KEY_U, rc.lastUpdated, t3);
    var t1 := StrEntry(KEY_P, rc.enckey, t2);
    RenderVersion(tail);
    RenderNumEntry(KEY_U, rc.lastUpdated, t3);
    RenderStrEntry(KEY_P, rc.enckey, t2);
    RenderStrEntry(KEY_K, rc.pubkey, t1);
  }

  lemma RcRendered(inet: Inet, rc: Rc)
    ensures Render(RcTokens(inet, rc, Done)) == RcEncoding(inet, rc)
  {
    var t4 := StrEntry(KEY_Z, rc.signature, Mark(CH_E, Done));
    var t3 := ExitsTokens(inet, rc.exits, t4);
    var t2 := KeysTokens(rc, t3);
    RenderStrEntry(KEY_Z, rc.signature, Mark(CH_E, Done));
    assert Render(t4) == SealEncoding(rc);
    ExitsRendered(inet, rc.exits, t4);
    KeysRendered(rc, t3);
    AddrsRendered(inet, rc.addrs, t2);
    var p2, p3, p4, p5 := AddrsEncoding(inet, rc.addrs), KeysEncoding(rc), ExitsEncoding(inet, rc.exits), SealEncoding(rc);
    assert Render(RcTokens(inet, rc, Done)) == [CH_D] + (p2 + (p3 + (p4 + p5)));
    RcReassociated(p2, p3, p4, p5);
  }

  lemma RcReassociated(p2: bytes, p3: bytes, p4: bytes, p5: bytes)
    ensures [CH_D] + (p2 + (p3 + (p4 + p5))) == [CH_D] + p2 + p3 + p4 + p5
  {
  }

  // ----- decoding the tokens ----------------------------------------------------

  /** What a decoder of addresses accepts. */
  predicate AiOk(ai: Ai) {
    ai.rank > 0 && ai.port > 0 && |ai.dialect| <= MAX_DIALECT
  }

  ghost predicate TextOk(inet: Inet) {
    InetOk(inet) && forall ip :: |ip| == 16 ==> 0 !in inet.ntop(ip)
  }

  // one round of the loop per key of an address; the result is the next position

  lemma AiNumber(inet: Inet, rd: Reader, cur: nat, s: Ai, letter: byte, v: u16, tail: Tokens, end: nat) returns (c: nat)
    requires Sound(rd) && (letter == KEY_C || letter == KEY_P) && Lexes(rd, cur, NumEntry(letter, v, tail), end)
    ensures v > 0 ==> Lexes(rd, c, tail, end)
    ensures Entries(rd, cur, s, AiOnKey(inet, rd)) ==
            if v == 0 then None
            else Entries(rd, c, if letter == KEY_C then s.(rank := v) else s.(port := v), AiOnKey(inet, rd))
  {
    var c1 := EntryRound(rd, cur, s, AiOnKey(inet, rd), letter, Number(v, tail), end);
    c := rd.num(c1).value.1;
  }

  lemma AiDialect(inet: Inet, rd: Reader, cur: nat, s: Ai, d: bytes, tail: Tokens, end: nat) returns (c: nat)
    requires Sound(rd) && 0 !in d && Lexes(rd, cur, StrEntry(KEY_D, d, tail), end)
    ensures Lexes(rd, c, tail, end)
    ensures Entries(rd, cur, s, AiOnKey(inet, rd)) ==
            if |d| > MAX_DIALECT then None else Entries(rd, c, s.(dialect := d), AiOnKey(inet, rd))
  {
    var c1 := EntryRound(rd, cur, s, AiOnKey(inet, rd), KEY_D, Bytestring(d, tail), end);
    c := rd.str(c1).value.1;
  }

  lemma AiEncKey(inet: Inet, rd: Reader, cur: nat, s: Ai, k: bytes, tail: Tokens, end: nat) returns (c: nat)
    requires Sound(rd) && |k| == PUBKEY_SIZE && Lexes(rd, cur, StrEntry(KEY_E, k, tail), end)
    ensures Lexes(rd, c, tail, end)
    ensures Entries(rd, cur, s, AiOnKey(inet, rd)) == Entries(rd, c, s.(enckey := k), AiOnKey(inet, rd))
  {
    var c1 := EntryRound(rd, cur, s, AiOnKey(inet, rd), KEY_E, Bytestring(k, tail), end);
    c := rd.str(c1).value.1;
  }

  lemma AiIp(inet: Inet, rd: Reader, cur: nat, s: Ai, ip: bytes, tail: Tokens, end: nat) returns (c: nat)
    requires Sound(rd) && TextOk(inet) && |ip| == 16 && Lexes(rd, cur, StrEntry(KEY_I, inet.ntop(ip), tail), end)
    ensures Lexes(rd, c, tail, end)
    ensures Entries(rd, cur, s, AiOnKey(inet, rd)) == Entries(rd, c, s.(ip := ip), AiOnKey(inet, rd))
  {
    var c1 := EntryRound(rd, cur, s, AiOnKey(inet, rd), KEY_I, Bytestring(inet.ntop(ip), tail), end);
    c := rd.str(c1).value.1;
  }

  lemma AiEnd(inet: Inet, rd: Reader, cur: nat, s: Ai, tail: Tokens, end: nat) returns (c: nat)
    requires Sound(rd) && Lexes(rd, cur, Versioned(Mark(CH_E, tail)), end)
    ensures Lexes(rd, c, tail, end) && Entries(rd, cur, s, AiOnKey(inet, rd)) == Some((s, c))
  {
    var c1 := EntryRound(rd, cur, s, AiOnKey(inet, rd), CH_V, Number(PROTO_VERSION, Mark(CH_E, tail)), end);
    var c2 := rd.num(c1).value.1;
    EndRound(rd, c2, s, AiOnKey(inet, rd), tail, end);
    c := c2 + 1;
  }

  /** An encoded address reads back exactly when its rank and port are not zero
      and its dialect leaves room for the terminator; otherwise it is refused. */
  lemma AiReadBack(inet: Inet, rd: Reader, cur: nat, ai: Ai, blank: Ai, tail: Tokens, end: nat) returns (c: nat)
    requires Sound(rd) && TextOk(inet) && AiShape(ai) && Lexes(rd, cur, AiTokens(inet, ai, tail), end)
    ensures AiDecode(inet, rd, cur, blank) == if AiOk(ai) then Some((ai, c)) else None
    ensures AiOk(ai) ==> Lexes(rd, c, tail, end)
  {
    c := 0;
    var t6 := Versioned(Mark(CH_E, tail));
    var t5 := NumEntry(KEY_P, ai.port, t6);
    var t4 := StrEntry(KEY_I, inet.ntop(ai.ip), t5);
    var t3 := StrEntry(KEY_E, ai.enckey, t4);
    var c1 := AiNumber(inet, rd, cur + 1, blank, KEY_C, ai.rank, StrEntry(KEY_D, ai.dialect, t3), end);
    if ai.rank > 0 {
      var s1 := blank.(rank := ai.rank);
      var c2 := AiDialect(inet, rd, c1, s1, ai.dialect, t3, end);
      if |ai.dialect| <= MAX_DIALECT {
        var s2 := s1.(dialect := ai.dialect);
        var c3 := AiEncKey(inet, rd, c2, s2, ai.enckey, t4, end);
        var s3 := s2.(enckey := ai.enckey);
        var c4 := AiIp(inet, rd, c3, s3, ai.ip, t5, end);
        var s4 := s3.(ip := ai.ip);
        var c5 := AiNumber(inet, rd, c4, s4, KEY_P, ai.port, t6, end);
        if ai.port > 0 {
          c := AiEnd(inet, rd, c5, s4.(port := ai.port), tail, end);
        }
      }
    }
  }

  lemma XiIp(inet: Inet, rd: Reader, cur: nat, s: Xi, letter: byte, ip: bytes, tail: Tokens, end: nat) returns (c: nat)
    requires Sound(rd) && TextOk(inet) && |ip| == 16 && (letter == KEY_A || letter == KEY_B)
    requires Lexes(rd, cur, StrEntry(letter, inet.ntop(ip), tail), end)
    ensures Lexes(rd, c, tail, end)
    ensures Entries(rd, cur, s, XiOnKey(inet, rd)) ==
            Entries(rd, c, if letter == KEY_A then s.(address := ip) else s.(netmask := ip), XiOnKey(inet, rd))
  {
    var c1 := EntryRound(rd, cur, s, XiOnKey(inet, rd), letter, Bytestring(inet.ntop(ip), tail), end);
    c := rd.str(c1).value.1;
  }

  lemma XiPubKey(inet: Inet, rd: Reader, cur: nat, s: Xi, k: bytes, tail: Tokens, end: nat) returns (c: nat)
    requires Sound(rd) && |k| == PUBKEY_SIZE && Lexes(rd, cur, StrEntry(KEY_K, k, tail), end)
    ensures Lexes(rd, c, tail, end)
    ensures Entries(rd, cur, s, XiOnKey(inet, rd)) == Entries(rd, c, s.(pubkey := k), XiOnKey(inet, rd))
  {
    var c1 := EntryRound(rd, cur, s, XiOnKey(inet, rd), KEY_K, Bytestring(k, tail), end);
    c := rd.str(c1).value.1;
  }

  lemma XiEnd(inet: Inet, rd: Reader, cur: nat, s: Xi, tail: Tokens, end: nat) returns (c: nat)
    requires Sound(rd) && Lexes(rd, cur, Versioned(Mark(CH_E, tail)), end)
    ensures Lexes(rd, c, tail, end) && Entries(rd, cur, s, XiOnKey(inet, rd)) == Some((s, c))
  {
    var c1 := EntryRound(rd, cur, s, XiOnKey(inet, rd), CH_V, Number(PROTO_VERSION, Mark(CH_E, tail)), end);
    var c2 := rd.num(c1).value.1;
    EndRound(rd, c2, s, XiOnKey(inet, rd), tail, end);
    c := c2 + 1;
  }

  /** An encoded exit always reads back. */
  lemma XiReadBack(inet: Inet, rd: Reader, cur: nat, xi: Xi, blank: Xi, tail: Tokens, end: nat) returns (c: nat)
    requires Sound(rd) && TextOk(inet) && XiShape(xi) && Lexes(rd, cur, XiTokens(inet, xi, tail), end)
    ensures XiDecode(inet, rd, cur, blank) == Some((xi, c)) && Lexes(rd, c, tail, end)
  {
    var t4 := Versioned(Mark(CH_E, tail));
    var t3 := StrEntry(KEY_K, xi.pubkey, t4);
    var c1 := XiIp(inet, rd, cur + 1, blank, KEY_A, xi.address, StrEntry(KEY_B, inet.ntop(xi.netmask), t3), end);
    var s1 := blank.(address := xi.address);
    var c2 := XiIp(inet, rd, c1, s1, KEY_B, xi.netmask, t3, end);
    var s2 := s1.(netmask := xi.netmask);
    var c3 := XiPubKey(inet, rd, c2, s2, xi.pubkey, t4, end);
    c := XiEnd(inet, rd, c3, s2.(pubkey := xi.pubkey), tail, end);
  }

  lemma {:induction false} AisFromFront(inet: Inet, l: seq<Ai>, tail: Tokens)
    requires l != []
    ensures AisTokens(inet, l, tail) == AiTokens(inet, l[0], AisTokens(inet, l[1..], tail))
    decreases |l|
  {
    var n := |l| - 1;
    if n == 0 {
      assert l[..0] == [] && l[1..] == [];
    } else {
      AisFromFront(inet, l[..n], AiTokens(inet, l[n], tail));
      assert l[..n][1..] == l[1..][..n - 1];
    }
  }

  lemma {:induction false} XisFromFront(inet: Inet, l: seq<Xi>, tail: Tokens)
    requires l != []
    ensures XisTokens(inet, l, tail) == XiTokens(inet, l[0], XisTokens(inet, l[1..], tail))
    decreases |l|
  {
    var n := |l| - 1;
    if n == 0 {
      assert l[..0] == [] && l[1..] == [];
    } else {
      XisFromFront(inet, l[..n], XiTokens(inet, l[n], tail));
      assert l[..n][1..] == l[1..][..n - 1];
    }
  }

  predicate AllAiOk(l: seq<Ai>) {
    forall i :: 0 <= i < |l| ==> AiOk(l[i])
  }

  /** The first address of a list, by the list loop. */
  lemma AisFirst(inet: Inet, rd: Reader, cur: nat, l: seq<Ai>, acc: seq<Ai>, blank: Ai, tail: Tokens, end: nat) returns (c: nat)
    requires Sound(rd) && TextOk(inet) && l != [] && AiShape(l[0]) && Lexes(rd, cur, AisTokens(inet, l, tail), end)
    ensures Items(rd, cur, acc, AiOnItem(inet, rd, blank)) ==
            if AiOk(l[0]) then Items(rd, c, acc + [l[0]], AiOnItem(inet, rd, blank)) else None
    ensures AiOk(l[0]) ==> Lexes(rd, c, AisTokens(inet, l[1..], tail), end)
  {
    var rest := AisTokens(inet, l[1..], tail);
    AisFromFront(inet, l, tail);
    c := AiReadBack(inet, rd, cur, l[0], blank, rest, end);
    ItemRound(rd, cur, acc, AiOnItem(inet, rd, blank));
  }

  lemma XisFirst(inet: Inet, rd: Reader, cur: nat, l: seq<Xi>, acc: seq<Xi>, blank: Xi, tail: Tokens, end: nat) returns (c: nat)
    requires Sound(rd) && TextOk(inet) && l != [] && XiShape(l[0]) && Lexes(rd, cur, XisTokens(inet, l, tail), end)
    ensures Items(rd, cur, acc, XiOnItem(inet, rd, blank)) == Items(rd, c, acc + [l[0]], XiOnItem(inet, rd, blank))
    ensures Lexes(rd, c, XisTokens(inet, l[1..], tail), end)
  {
    var rest := XisTokens(inet, l[1..], tail);
    XisFromFront(inet, l, tail);
    c := XiReadBack(inet, rd, cur, l[0], blank, rest, end);
    ItemRound(rd, cur, acc, XiOnItem(inet, rd, blank));
  }

  lemma ItemsEnd<S(!new)>(rd: Reader, cur: nat, s: S, onItem: OnItem<S>, tail: Tokens, end: nat)
    requires Sound(rd) && Advancing(onItem) && Lexes(rd, cur, Mark(CH_E, tail), end)
    ensures Items(rd, cur, s, onItem) == Some((s, cur + 1)) && Lexes(rd, cur + 1, tail, end)
  {
  }

  lemma {:induction false} AisReadBack(inet: Inet, rd: Reader, cur: nat, l: seq<Ai>, acc: seq<Ai>, blank: Ai, tail: Tokens, end: nat)
    returns (c: nat)
    requires Sound(rd) && TextOk(inet) && (forall i :: 0 <= i < |l| ==> AiShape(l[i]))
    requires Lexes(rd, cur, AisTokens(inet, l, Mark(CH_E, tail)), end)
    ensures Items(rd, cur, acc, AiOnItem(inet, rd, blank)) == if AllAiOk(l) then Some((acc + l, c)) else None
    ensures AllAiOk(l) ==> Lexes(rd, c, tail, end)
    decreases |l|
  {
    if l == [] {
      c := cur + 1;
      assert acc + l == acc;
      ItemsEnd(rd, cur, acc, AiOnItem(inet, rd, blank), tail, end);
    } else {
      var c1 := AisFirst(inet, rd, cur, l, acc, blank, Mark(CH_E, tail), end);
      c := 0;
      if AiOk(l[0]) {
        c := AisReadBack(inet, rd, c1, l[1..], acc + [l[0]], blank, tail, end);
        assert acc + [l[0]] + l[1..] == acc + l;
        AllAiOkNext(l);
      }
    }
  }

  lemma AllAiOkNext(l: seq<Ai>)
    requires l != []
    ensures AllAiOk(l) <==> AiOk(l[0]) && AllAiOk(l[1..])
  {
    assert forall i :: 0 <= i < |l| - 1 ==> l[1..][i] == l[i + 1];
    if AiOk(l[0]) && AllAiOk(l[1..]) {
      forall i | 0 <= i < |l|
        ensures AiOk(l[i])
      {
        assert i > 0 ==> AiOk(l[1..][i - 1]);
      }
    }
  }

  lemma {:induction false} XisReadBack(inet: Inet, rd: Reader, cur: nat, l: seq<Xi>, acc: seq<Xi>, blank: Xi, tail: Tokens, end: nat)
    returns (c: nat)
    requires Sound(rd) && TextOk(inet) && (forall i :: 0 <= i < |l| ==> XiShape(l[i]))
    requires Lexes(rd, cur, XisTokens(inet, l, Mark(CH_E, tail)), end)
    ensures Items(rd, cur, acc, XiOnItem(inet, rd, blank)) == Some((acc + l, c)) && Lexes(rd, c, tail, end)
    decreases |l|
  {
    if l == [] {
      c := XisNone(inet, rd, cur, l, acc, blank, tail, end);
    } else {
      var c1 := XisFirst(inet, rd, cur, l, acc, blank, Mark(CH_E, tail), end);
      c := XisReadBack(inet, rd, c1, l[1..], acc + [l[0]], blank, tail, end);
      assert acc + [l[0]] + l[1..] == acc + l;
    }
  }

  lemma XisNone(inet: Inet, rd: Reader, cur: nat, l: seq<Xi>, acc: seq<Xi>, blank: Xi, tail: Tokens, end: nat) returns (c: nat)
    requires Sound(rd) && l == [] && Lexes(rd, cur, XisTokens(inet, l, Mark(CH_E, tail)), end)
    ensures Items(rd, cur, acc, XiOnItem(inet, rd, blank)) == Some((acc + l, c)) && Lexes(rd, c, tail, end)
  {
    c := cur + 1;
    assert acc + l == acc;
    ItemsEnd(rd, cur, acc, XiOnItem(inet, rd, blank), tail, end);
  }
}
