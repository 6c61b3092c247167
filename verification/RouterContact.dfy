/** Router contacts with their address and exit lists (udap/router_contact.cpp,
    udap/address_info.cpp, udap/exit_info.cpp, udap_rc_sign in udap/router.cpp). */
module RouterContact {
  import opened Bytes
  import opened Buffer
  import opened Bencode

  const PUBKEY_SIZE: nat := 32
  const SIG_SIZE: nat := 64
  const MAX_RC_SIZE: nat := 1024
  const MAX_DIALECT: nat := 5
  const MAX_IP_TEXT: nat := 45

  const KEY_A: byte := 0x61
  const KEY_B: byte := 0x62
  const KEY_C: byte := 0x63
  const KEY_D: byte := 0x64
  const KEY_E: byte := 0x65
  const KEY_I: byte := 0x69
  const KEY_K: byte := 0x6b
  const KEY_P: byte := 0x70
  const KEY_U: byte := 0x75
  const KEY_V: byte := 0x76
  const KEY_X: byte := 0x78
  const KEY_Z: byte := 0x7a

  datatype Ai = Ai(rank: u16, dialect: bytes, enckey: bytes, ip: bytes, port: u16)
  datatype Xi = Xi(address: bytes, netmask: bytes, pubkey: bytes)
  datatype Rc = Rc(
    addrs: Option<seq<Ai>>, enckey: bytes, pubkey: bytes,
    exits: Option<seq<Xi>>, signature: bytes, lastUpdated: u64)

  /** inet_ntop and inet_pton for AF_INET6. */
  datatype Inet = Inet(ntop: bytes -> bytes, pton: bytes -> Option<bytes>)

  ghost predicate InetOk(inet: Inet) {
    forall ip :: |ip| == 16 ==> 0 < |inet.ntop(ip)| <= MAX_IP_TEXT && inet.pton(inet.ntop(ip)) == Some(ip)
  }

  // ----- the widths that the C structs fix ----------------------------------

  predicate AiShape(ai: Ai) {
    && |ai.dialect| <= MAX_DIALECT + 1 && 0 !in ai.dialect
    && |ai.enckey| == PUBKEY_SIZE && |ai.ip| == 16
  }

  predicate XiShape(xi: Xi) {
    |xi.address| == 16 && |xi.netmask| == 16 && |xi.pubkey| == PUBKEY_SIZE
  }

  predicate RcShape(rc: Rc) {
    && (rc.addrs.Some? ==> forall i :: 0 <= i < |rc.addrs.value| ==> AiShape(rc.addrs.value[i]))
    && (rc.exits.Some? ==> forall i :: 0 <= i < |rc.exits.value| ==> XiShape(rc.exits.value[i]))
    && |rc.enckey| == PUBKEY_SIZE && |rc.pubkey| == PUBKEY_SIZE && |rc.signature| == SIG_SIZE
  }

  // ----- the canonical encodings ---------------------------------------------

  function AiHead(ai: Ai): (e: bytes)
  {
    [CH_D] + Entry(KEY_C, Int(ai.rank)) + Entry(KEY_D, Str(ai.dialect)) + Entry(KEY_E, Str(ai.enckey))
  }

  function AiEncoding(inet: Inet, ai: Ai): (e: bytes)
  {
    AiHead(ai) + Entry(KEY_I, Str(inet.ntop(ai.ip))) + Entry(KEY_P, Int(ai.port)) + VersionEntry + [CH_E]
  }

  function XiEncoding(inet: Inet, xi: Xi): (e: bytes)
  {
    [CH_D] + Entry(KEY_A, Str(inet.ntop(xi.address))) + Entry(KEY_B, Str(inet.ntop(xi.netmask)))
    + Entry(KEY_K, Str(xi.pubkey)) + VersionEntry + [CH_E]
  }

  function AisEncoding(inet: Inet, l: seq<Ai>): (e: bytes)
  {
    if l == [] then [] else AisEncoding(inet, l[..|l| - 1]) + AiEncoding(inet, l[|l| - 1])
  }

  function XisEncoding(inet: Inet, l: seq<Xi>): (e: bytes)
  {
    if l == [] then [] else XisEncoding(inet, l[..|l| - 1]) + XiEncoding(inet, l[|l| - 1])
  }

  function AddrsEncoding(inet: Inet, addrs: Option<seq<Ai>>): (e: bytes)
  {
    if addrs.None? then [] else Entry(KEY_A, [CH_L] + AisEncoding(inet, addrs.value) + [CH_E])
  }

  function ExitsEncoding(inet: Inet, exits: Option<seq<Xi>>): (e: bytes)
  {
    if exits.None? then [] else Entry(KEY_X, [CH_L] + XisEncoding(inet, exits.value) + [CH_E])
  }

  function KeysEncoding(rc: Rc): (e: bytes)
  {
    Entry(KEY_K, Str(rc.pubkey)) + Entry(KEY_P, Str(rc.enckey)) + Entry(KEY_U, Int(AsSigned(rc.lastUpdated)))
    + VersionEntry
  }

  function SealEncoding(rc: Rc): (e: bytes)
  {
    Entry(KEY_Z, Str(rc.signature)) + [CH_E]
  }

  function RcEncoding(inet: Inet, rc: Rc): (e: bytes)
  {
    [CH_D] + AddrsEncoding(inet, rc.addrs) + KeysEncoding(rc) + ExitsEncoding(inet, rc.exits) + SealEncoding(rc)
  }

  // ----- the encoders ---------------------------------------------------------

  /** More than the largest single write inside a list element. */
  const CHUNK: nat := 46

  /** The first half of udap_ai_bencode. */
  method WriteAiHead(ai: Ai, buf: Buffer) returns (ok: bool)
    requires AiShape(ai) && buf.Valid()
    modifies buf, buf.mem
    ensures buf.Valid()
    ensures Wrote(old(buf.mem[..]), old(buf.cur), buf.mem[..], buf.cur, AiHead(ai), CHUNK, ok)
  {
    ghost var m0, c0, whole := buf.mem[..], buf.cur, AiHead(ai);
    ghost var e1 := [CH_D];
    ok := WriteMark(buf, CH_D, CHUNK);
    if !ok { return; }

    ghost var m1, c1, e2 := buf.mem[..], buf.cur, Entry(KEY_C, Int(ai.rank));
    ok := WriteIntEntry(buf, KEY_C, ai.rank, CHUNK);
    WroteNext(m0, c0, m1, c1, buf.mem[..], buf.cur, e1, e2, whole, CHUNK, ok);
    if !ok { return; }

    m1, c1, e1, e2 := buf.mem[..], buf.cur, e1 + e2, Entry(KEY_D, Str(ai.dialect));
    ok := WriteStrEntry(buf, KEY_D, ai.dialect, CHUNK);
    WroteNext(m0, c0, m1, c1, buf.mem[..], buf.cur, e1, e2, whole, CHUNK, ok);
    if !ok { return; }

    m1, c1, e1, e2 := buf.mem[..], buf.cur, e1 + e2, Entry(KEY_E, Str(ai.enckey));
    ok := WriteStrEntry(buf, KEY_E, ai.enckey, CHUNK);
    WroteNext(m0, c0, m1, c1, buf.mem[..], buf.cur, e1, e2, whole, CHUNK, ok);
  }

  method AiBencode(inet: Inet, ai: Ai, buf: Buffer) returns (ok: bool)
    requires InetOk(inet) && AiShape(ai) && buf.Valid()
    modifies buf, buf.mem
    ensures buf.Valid()
    ensures Wrote(old(buf.mem[..]), old(buf.cur), buf.mem[..], buf.cur, AiEncoding(inet, ai), CHUNK, ok)
  {
    ghost var m0, c0, whole := buf.mem[..], buf.cur, AiEncoding(inet, ai);
    ghost var e1 := AiHead(ai);
    ok := WriteAiHead(ai, buf);
    if !ok { return; }

    var ipstr := inet.ntop(ai.ip);
    ghost var m1, c1, e2 := buf.mem[..], buf.cur, Entry(KEY_I, Str(ipstr));
    ok := WriteStrEntry(buf, KEY_I, ipstr, CHUNK);
    WroteNext(m0, c0, m1, c1, buf.mem[..], buf.cur, e1, e2, whole, CHUNK, ok);
    if !ok { return; }

    m1, c1, e1, e2 := buf.mem[..], buf.cur, e1 + e2, Entry(KEY_P, Int(ai.port));
    ok := WriteIntEntry(buf, KEY_P, ai.port, CHUNK);
    WroteNext(m0, c0, m1, c1, buf.mem[..], buf.cur, e1, e2, whole, CHUNK, ok);
    if !ok { return; }

    m1, c1, e1, e2 := buf.mem[..], buf.cur, e1 + e2, VersionEntry;
    ok := WriteVersionEntry(buf, CHUNK);
    WroteNext(m0, c0, m1, c1, buf.mem[..], buf.cur, e1, e2, whole, CHUNK, ok);
    if !ok { return; }

    m1, c1, e1, e2 := buf.mem[..], buf.cur, e1 + e2, [CH_E];
    ok := WriteMark(buf, CH_E, CHUNK);
    WroteNext(m0, c0, m1, c1, buf.mem[..], buf.cur, e1, e2, whole, CHUNK, ok);
  }

  method XiBencode(inet: Inet, xi: Xi, buf: Buffer) returns (ok: bool)
    requires InetOk(inet) && XiShape(xi) && buf.Valid()
    modifies buf, buf.mem
    ensures buf.Valid()
    ensures Wrote(old(buf.mem[..]), old(buf.cur), buf.mem[..], buf.cur, XiEncoding(inet, xi), CHUNK, ok)
  {
    ghost var m0, c0, whole := buf.mem[..], buf.cur, XiEncoding(inet, xi);
    ghost var e1 := [CH_D];
    ok := WriteMark(buf, CH_D, CHUNK);
    if !ok { return; }

    var addr := inet.ntop(xi.address);
    ghost var m1, c1, e2 := buf.mem[..], buf.cur, Entry(KEY_A, Str(addr));
    ok := WriteStrEntry(buf, KEY_A, addr, CHUNK);
    WroteNext(m0, c0, m1, c1, buf.mem[..], buf.cur, e1, e2, whole, CHUNK, ok);
    if !ok { return; }

    addr := inet.ntop(xi.netmask);
    m1, c1, e1, e2 := buf.mem[..], buf.cur, e1 + e2, Entry(KEY_B, Str(addr));
    ok := WriteStrEntry(buf, KEY_B, addr, CHUNK);
    WroteNext(m0, c0, m1, c1, buf.mem[..], buf.cur, e1, e2, whole, CHUNK, ok);
    if !ok { return; }

    m1, c1, e1, e2 := buf.mem[..], buf.cur, e1 + e2, Entry(KEY_K, Str(xi.pubkey));
    ok := WriteStrEntry(buf, KEY_K, xi.pubkey, CHUNK);
    WroteNext(m0, c0, m1, c1, buf.mem[..], buf.cur, e1, e2, whole, CHUNK, ok);
    if !ok { return; }

    m1, c1, e1, e2 := buf.mem[..], buf.cur, e1 + e2, VersionEntry;
    ok := WriteVersionEntry(buf, CHUNK);
    WroteNext(m0, c0, m1, c1, buf.mem[..], buf.cur, e1, e2, whole, CHUNK, ok);
    if !ok { return; }

    m1, c1, e1, e2 := buf.mem[..], buf.cur, e1 + e2, [CH_E];
    ok := WriteMark(buf, CH_E, CHUNK);
    WroteNext(m0, c0, m1, c1, buf.mem[..], buf.cur, e1, e2, whole, CHUNK, ok);
  }

  /** A list encoder says nothing about its elements: it may report success
      although one of them ran out of room. */
  ghost predicate ListWrote(m0: bytes, c0: nat, m1: bytes, c1: nat, enc: bytes, ok: bool) {
    (ok && Appended(m0, c0, m1, c1, enc)) || RanOut(m0, c0, m1, c1, enc, CHUNK)
  }

  lemma EndAfterRanOut(m0: bytes, c0: nat, m1: bytes, c1: nat, m2: bytes, c2: nat, enc: bytes, ok: bool)
    requires RanOut(m0, c0, m1, c1, enc, CHUNK) && Wrote(m1, c1, m2, c2, [CH_E], CHUNK, ok)
    ensures RanOut(m0, c0, m2, c2, enc, CHUNK)
  {
    assert m2[..c0] == m2[..c1][..c0] && m1[..c0] == m1[..c1][..c0];
  }

  lemma {:induction false} AisEncodingGrows(inet: Inet, l: seq<Ai>, k: nat)
    requires k <= |l|
    ensures |AisEncoding(inet, l[..k])| <= |AisEncoding(inet, l)|
    decreases |l| - k
  {
    if k == |l| {
      assert l[..k] == l;
    } else {
      AisEncodingGrows(inet, l, k + 1);
      AisEncodingNext(inet, l, k);
    }
  }

  lemma {:induction false} XisEncodingGrows(inet: Inet, l: seq<Xi>, k: nat)
    requires k <= |l|
    ensures |XisEncoding(inet, l[..k])| <= |XisEncoding(inet, l)|
    decreases |l| - k
  {
    if k == |l| {
      assert l[..k] == l;
    } else {
      XisEncodingGrows(inet, l, k + 1);
      XisEncodingNext(inet, l, k);
    }
  }

  lemma AisEncodingNext(inet: Inet, l: seq<Ai>, i: nat)
    requires i < |l|
    ensures AisEncoding(inet, l[..i + 1]) == AisEncoding(inet, l[..i]) + AiEncoding(inet, l[i])
  {
    assert l[..i + 1][..i] == l[..i];
  }

  lemma AisStep(inet: Inet, l: seq<Ai>, i: nat, m0: bytes, c0: nat, m1: bytes, c1: nat, m2: bytes, c2: nat, fits: bool)
    requires i < |l| && Wrote(m0, c0, m1, c1, AisEncoding(inet, l[..i]), CHUNK, true)
    requires Wrote(m1, c1, m2, c2, AiEncoding(inet, l[i]), CHUNK, fits)
    ensures Wrote(m0, c0, m2, c2, AisEncoding(inet, l[..i + 1]), CHUNK, fits)
    ensures !fits ==> Wrote(m0, c0, m2, c2, AisEncoding(inet, l), CHUNK, false)
  {
    AisEncodingGrows(inet, l, i + 1);
    AisEncodingNext(inet, l, i);
    WroteElement(m0, c0, m1, c1, m2, c2, AisEncoding(inet, l[..i]), AiEncoding(inet, l[i]),
                 AisEncoding(inet, l[..i + 1]), AisEncoding(inet, l), CHUNK, fits);
  }

  /** udap_ai_list_iterate over udap_ai_bencode: stops at the first element
      that does not fit. */
  method AiListIterate(inet: Inet, l: seq<Ai>, buf: Buffer) returns (fits: bool)
    requires InetOk(inet) && buf.Valid() && forall i :: 0 <= i < |l| ==> AiShape(l[i])
    modifies buf, buf.mem
    ensures buf.Valid()
    ensures Wrote(old(buf.mem[..]), old(buf.cur), buf.mem[..], buf.cur, AisEncoding(inet, l), CHUNK, fits)
  {
    ghost var m0, c0 := buf.mem[..], buf.cur;
    var i := 0;
    while i < |l|
      invariant i <= |l| && buf.Valid()
      invariant Wrote(m0, c0, buf.mem[..], buf.cur, AisEncoding(inet, l[..i]), CHUNK, true)
    {
      ghost var m1, c1 := buf.mem[..], buf.cur;
      fits := AiBencode(inet, l[i], buf);
      AisStep(inet, l, i, m0, c0, m1, c1, buf.mem[..], buf.cur, fits);
      if !fits {
        return;
      }
      i := i + 1;
    }
    assert l[..i] == l;
    fits := true;
  }

  /** udap_ai_list_bencode. */
  method AiListBencode(inet: Inet, l: seq<Ai>, buf: Buffer) returns (ok: bool)
    requires InetOk(inet) && buf.Valid() && forall i :: 0 <= i < |l| ==> AiShape(l[i])
    modifies buf, buf.mem
    ensures buf.Valid()
    ensures ListWrote(old(buf.mem[..]), old(buf.cur), buf.mem[..], buf.cur, [CH_L] + AisEncoding(inet, l) + [CH_E], ok)
  {
    ghost var m0, c0, whole := buf.mem[..], buf.cur, [CH_L] + AisEncoding(inet, l) + [CH_E];
    ok := WriteMark(buf, CH_L, CHUNK);
    if !ok { return; }

    ghost var m1, c1 := buf.mem[..], buf.cur;
    ghost var fits := AiListIterate(inet, l, buf);
    WroteNext(m0, c0, m1, c1, buf.mem[..], buf.cur, [CH_L], AisEncoding(inet, l), whole, CHUNK, fits);

    m1, c1 := buf.mem[..], buf.cur;
    ok := WriteMark(buf, CH_E, CHUNK);
    if fits {
      WroteNext(m0, c0, m1, c1, buf.mem[..], buf.cur, [CH_L] + AisEncoding(inet, l), [CH_E], whole, CHUNK, ok);
    } else {
      EndAfterRanOut(m0, c0, m1, c1, buf.mem[..], buf.cur, whole, ok);
    }
  }

  lemma XisEncodingNext(inet: Inet, l: seq<Xi>, i: nat)
    requires i < |l|
    ensures XisEncoding(inet, l[..i + 1]) == XisEncoding(inet, l[..i]) + XiEncoding(inet, l[i])
  {
    assert l[..i + 1][..i] == l[..i];
  }

  lemma XisStep(inet: Inet, l: seq<Xi>, i: nat, m0: bytes, c0: nat, m1: bytes, c1: nat, m2: bytes, c2: nat, fits: bool)
    requires i < |l| && Wrote(m0, c0, m1, c1, XisEncoding(inet, l[..i]), CHUNK, true)
    requires Wrote(m1, c1, m2, c2, XiEncoding(inet, l[i]), CHUNK, fits)
    ensures Wrote(m0, c0, m2, c2, XisEncoding(inet, l[..i + 1]), CHUNK, fits)
    ensures !fits ==> Wrote(m0, c0, m2, c2, XisEncoding(inet, l), CHUNK, false)
  {
    XisEncodingGrows(inet, l, i + 1);
    XisEncodingNext(inet, l, i);
    WroteElement(m0, c0, m1, c1, m2, c2, XisEncoding(inet, l[..i]), XiEncoding(inet, l[i]),
                 XisEncoding(inet, l[..i + 1]), XisEncoding(inet, l), CHUNK, fits);
  }

  /** udap_xi_list_iterate over udap_xi_bencode: stops at the first element
      that does not fit. */
  method XiListIterate(inet: Inet, l: seq<Xi>, buf: Buffer) returns (fits: bool)
    requires InetOk(inet) && buf.Valid() && forall i :: 0 <= i < |l| ==> XiShape(l[i])
    modifies buf, buf.mem
    ensures buf.Valid()
    ensures Wrote(old(buf.mem[..]), old(buf.cur), buf.mem[..], buf.cur, XisEncoding(inet, l), CHUNK, fits)
  {
    ghost var m0, c0 := buf.mem[..], buf.cur;
    var i := 0;
    while i < |l|
      invariant i <= |l| && buf.Valid()
      invariant Wrote(m0, c0, buf.mem[..], buf.cur, XisEncoding(inet, l[..i]), CHUNK, true)
    {
      ghost var m1, c1 := buf.mem[..], buf.cur;
      fits := XiBencode(inet, l[i], buf);
      XisStep(inet, l, i, m0, c0, m1, c1, buf.mem[..], buf.cur, fits);
      if !fits {
        return;
      }
      i := i + 1;
    }
    assert l[..i] == l;
    fits := true;
  }

  /** udap_xi_list_bencode. */
  method XiListBencode(inet: Inet, l: seq<Xi>, buf: Buffer) returns (ok: bool)
    requires InetOk(inet) && buf.Valid() && forall i :: 0 <= i < |l| ==> XiShape(l[i])
    modifies buf, buf.mem
    ensures buf.Valid()
    ensures ListWrote(old(buf.mem[..]), old(buf.cur), buf.mem[..], buf.cur, [CH_L] + XisEncoding(inet, l) + [CH_E], ok)
  {
    ghost var m0, c0, whole := buf.mem[..], buf.cur, [CH_L] + XisEncoding(inet, l) + [CH_E];
    ok := WriteMark(buf, CH_L, CHUNK);
    if !ok { return; }

    ghost var m1, c1 := buf.mem[..], buf.cur;
    ghost var fits := XiListIterate(inet, l, buf);
    WroteNext(m0, c0, m1, c1, buf.mem[..], buf.cur, [CH_L], XisEncoding(inet, l), whole, CHUNK, fits);

    m1, c1 := buf.mem[..], buf.cur;
    ok := WriteMark(buf, CH_E, CHUNK);
    if fits {
      WroteNext(m0, c0, m1, c1, buf.mem[..], buf.cur, [CH_L] + XisEncoding(inet, l), [CH_E], whole, CHUNK, ok);
    } else {
      EndAfterRanOut(m0, c0, m1, c1, buf.mem[..], buf.cur, whole, ok);
    }
  }

  lemma ListAfterKey(m0: bytes, c0: nat, m1: bytes, c1: nat, m2: bytes, c2: nat, e1: bytes, e2: bytes, ok: bool)
    requires Appended(m0, c0, m1, c1, e1) && ListWrote(m1, c1, m2, c2, e2, ok)
    ensures ListWrote(m0, c0, m2, c2, e1 + e2, ok)
  {
    if RanOut(m1, c1, m2, c2, e2, CHUNK) {
      AppendedThenRanOut(m0, c0, m1, c1, m2, c2, e1, e2, CHUNK);
    } else {
      AppendedTwice(m0, c0, m1, c1, m2, c2, e1, e2);
    }
  }

  method WriteAddrs(inet: Inet, addrs: Option<seq<Ai>>, buf: Buffer) returns (ok: bool)
    requires InetOk(inet) && buf.Valid()
    requires addrs.Some? ==> forall i :: 0 <= i < |addrs.value| ==> AiShape(addrs.value[i])
    modifies buf, buf.mem
    ensures buf.Valid()
    ensures ListWrote(old(buf.mem[..]), old(buf.cur), buf.mem[..], buf.cur, AddrsEncoding(inet, addrs), ok)
  {
    if addrs.None? {
      return true;
    }
    StrLength([KEY_A]);
    ok := WriteBytestring(buf, [KEY_A], CHUNK);
    if ok {
      ghost var m1, c1 := buf.mem[..], buf.cur;
      ok := AiListBencode(inet, addrs.value, buf);
      ListAfterKey(old(buf.mem[..]), old(buf.cur), m1, c1, buf.mem[..], buf.cur,
                   Str([KEY_A]), [CH_L] + AisEncoding(inet, addrs.value) + [CH_E], ok);
    }
  }

  method WriteExits(inet: Inet, exits: Option<seq<Xi>>, buf: Buffer) returns (ok: bool)
    requires InetOk(inet) && buf.Valid()
    requires exits.Some? ==> forall i :: 0 <= i < |exits.value| ==> XiShape(exits.value[i])
    modifies buf, buf.mem
    ensures buf.Valid()
    ensures ListWrote(old(buf.mem[..]), old(buf.cur), buf.mem[..], buf.cur, ExitsEncoding(inet, exits), ok)
  {
    if exits.None? {
      return true;
    }
    StrLength([KEY_X]);
    ok := WriteBytestring(buf, [KEY_X], CHUNK);
    if ok {
      ghost var m1, c1 := buf.mem[..], buf.cur;
      ok := XiListBencode(inet, exits.value, buf);
      ListAfterKey(old(buf.mem[..]), old(buf.cur), m1, c1, buf.mem[..], buf.cur,
                   Str([KEY_X]), [CH_L] + XisEncoding(inet, exits.value) + [CH_E], ok);
    }
  }

  /** More than any single write of the whole contact. */
  const BIG_CHUNK: nat := 100

  method WriteKeys(rc: Rc, buf: Buffer) returns (ok: bool)
    requires RcShape(rc) && buf.Valid()
    modifies buf, buf.mem
    ensures buf.Valid() && |KeysEncoding(rc)| >= CHUNK
    ensures Wrote(old(buf.mem[..]), old(buf.cur), buf.mem[..], buf.cur, KeysEncoding(rc), BIG_CHUNK, ok)
  {
    ghost var m0, c0, whole := buf.mem[..], buf.cur, KeysEncoding(rc);
    StrLength(rc.pubkey);
    StrLength(rc.enckey);
    ghost var e1 := Entry(KEY_K, Str(rc.pubkey));
    ok := WriteStrEntry(buf, KEY_K, rc.pubkey, BIG_CHUNK);
    if !ok { return; }

    ghost var m1, c1, e2 := buf.mem[..], buf.cur, Entry(KEY_P, Str(rc.enckey));
    ok := WriteStrEntry(buf, KEY_P, rc.enckey, BIG_CHUNK);
    WroteNext(m0, c0, m1, c1, buf.mem[..], buf.cur, e1, e2, whole, BIG_CHUNK, ok);
    if !ok { return; }

    m1, c1, e1, e2 := buf.mem[..], buf.cur, e1 + e2, Entry(KEY_U, Int(AsSigned(rc.lastUpdated)));
    ok := WriteIntEntry(buf, KEY_U, AsSigned(rc.lastUpdated), BIG_CHUNK);
    WroteNext(m0, c0, m1, c1, buf.mem[..], buf.cur, e1, e2, whole, BIG_CHUNK, ok);
    if !ok { return; }

    m1, c1, e1, e2 := buf.mem[..], buf.cur, e1 + e2, VersionEntry;
    ok := WriteVersionEntry(buf, BIG_CHUNK);
    WroteNext(m0, c0, m1, c1, buf.mem[..], buf.cur, e1, e2, whole, BIG_CHUNK, ok);
  }

  method WriteSeal(rc: Rc, buf: Buffer) returns (ok: bool)
    requires RcShape(rc) && buf.Valid()
    modifies buf, buf.mem
    ensures buf.Valid() && |SealEncoding(rc)| >= CHUNK
    ensures Wrote(old(buf.mem[..]), old(buf.cur), buf.mem[..], buf.cur, SealEncoding(rc), BIG_CHUNK, ok)
    ensures ok ==> buf.mem[..][old(buf.cur)..buf.cur] == SealEncoding(rc)
  {
    ghost var m0, c0, whole := buf.mem[..], buf.cur, SealEncoding(rc);
    StrLength(rc.signature);
    ghost var e1 := Entry(KEY_Z, Str(rc.signature));
    ok := WriteStrEntry(buf, KEY_Z, rc.signature, BIG_CHUNK);
    if !ok { return; }
    ghost var m1, c1 := buf.mem[..], buf.cur;
    ok := WriteMark(buf, CH_E, BIG_CHUNK);
    WroteNext(m0, c0, m1, c1, buf.mem[..], buf.cur, e1, [CH_E], whole, BIG_CHUNK, ok);
    if ok {
      AppendedTwice(m0, c0, m1, c1, buf.mem[..], buf.cur, e1, [CH_E]);
    }
  }

  /** udap_rc_bencode reports success exactly when the whole canonical encoding
      fits, and then it is there byte for byte, although exact-fit writes damage
      their last byte and the list encoders ignore elements that did not fit. */
  method RcBencode(inet: Inet, rc: Rc, buf: Buffer) returns (ok: bool)
    requires InetOk(inet) && RcShape(rc) && buf.Valid()
    modifies buf, buf.mem
    ensures buf.Valid()
    ensures ok <==> |RcEncoding(inet, rc)| <= old(buf.SizeLeft())
    ensures ok ==> buf.cur == old(buf.cur) + |RcEncoding(inet, rc)|
    ensures ok ==> buf.mem[..][old(buf.cur)..buf.cur] == RcEncoding(inet, rc)
    ensures buf.mem[..][..old(buf.cur)] == old(buf.mem[..])[..old(buf.cur)]
  {
    ghost var m0, c0, whole := buf.mem[..], buf.cur, RcEncoding(inet, rc);
    ghost var e1 := [CH_D];
    ok := WriteMark(buf, CH_D, BIG_CHUNK);
    if !ok { return; }

    ghost var m1, c1, e2 := buf.mem[..], buf.cur, AddrsEncoding(inet, rc.addrs);
    ok := WriteAddrs(inet, rc.addrs, buf);
    ListStep(m0, c0, m1, c1, buf.mem[..], buf.cur, e1, e2, whole, ok);
    if !ok { return; }

    m1, c1, e1, e2 := buf.mem[..], buf.cur, e1 + e2, KeysEncoding(rc);
    ok := WriteKeys(rc, buf);
    TailStep(m0, c0, m1, c1, buf.mem[..], buf.cur, e1, e2, whole, ok);
    if !ok { return; }

    m1, c1, e1, e2 := buf.mem[..], buf.cur, e1 + e2, ExitsEncoding(inet, rc.exits);
    ok := WriteExits(inet, rc.exits, buf);
    ListStep(m0, c0, m1, c1, buf.mem[..], buf.cur, e1, e2, whole, ok);
    if !ok { return; }

    m1, c1, e1, e2 := buf.mem[..], buf.cur, e1 + e2, SealEncoding(rc);
    ok := WriteSeal(rc, buf);
    TailStep(m0, c0, m1, c1, buf.mem[..], buf.cur, e1, e2, whole, ok);
    if ok {
      AppendedTwice(m0, c0, m1, c1, buf.mem[..], buf.cur, e1, e2);
    }
  }

  /** After a list: everything is in place, or the message is beyond saving. */
  ghost predicate GoodOrLost(m0: bytes, c0: nat, m1: bytes, c1: nat, e: bytes, whole: bytes) {
    Appended(m0, c0, m1, c1, e) || RanOut(m0, c0, m1, c1, whole, CHUNK)
  }

  lemma ListStep(m0: bytes, c0: nat, m1: bytes, c1: nat, m2: bytes, c2: nat, e1: bytes, e2: bytes, whole: bytes, ok: bool)
    requires Appended(m0, c0, m1, c1, e1) && ListWrote(m1, c1, m2, c2, e2, ok) && |e1| + |e2| <= |whole|
    ensures GoodOrLost(m0, c0, m2, c2, e1 + e2, whole)
    ensures !ok ==> RanOut(m0, c0, m2, c2, whole, CHUNK)
  {
    ListAfterKey(m0, c0, m1, c1, m2, c2, e1, e2, ok);
  }

  /** A part at least as long as a chunk never fits behind a damaged list. */
  lemma TailStep(m0: bytes, c0: nat, m1: bytes, c1: nat, m2: bytes, c2: nat, e1: bytes, e2: bytes, whole: bytes, ok: bool)
    requires GoodOrLost(m0, c0, m1, c1, e1, whole) && Wrote(m1, c1, m2, c2, e2, BIG_CHUNK, ok)
    requires |e2| >= CHUNK && |e1| + |e2| <= |whole|
    ensures ok ==> Appended(m0, c0, m1, c1, e1) && Appended(m0, c0, m2, c2, e1 + e2)
    ensures !ok ==> |m0| - c0 < |whole| && m2[..c0] == m0[..c0]
  {
    assert m2[..c0] == m2[..c1][..c0] && m1[..c0] == m1[..c1][..c0];
    if Appended(m0, c0, m1, c1, e1) {
      WroteBoth(m0, c0, m1, c1, m2, c2, e1, e2, BIG_CHUNK, ok);
    }
  }
}
