/** The commit record a path builder puts into each frame (LR_CommitRecord in
    udap/relay_commit.cpp), without proof of work. */
module CommitRecord {
  import opened Bytes
  import opened Buffer
  import opened Bencode

  const ID_SIZE: nat := 32
  const PATH_ID_SIZE: nat := 16

  const KEY_C: byte := 0x63
  const KEY_I: byte := 0x69
  const KEY_N: byte := 0x6e
  const KEY_R: byte := 0x72
  const KEY_T: byte := 0x74

  datatype Record = Record(commkey: bytes, nextHop: bytes, tunnelNonce: bytes, rxid: bytes, txid: bytes)

  predicate Shape(r: Record) {
    && |r.commkey| == |r.nextHop| == |r.tunnelNonce| == ID_SIZE
    && |r.rxid| == |r.txid| == PATH_ID_SIZE
  }

  function KeyPart(r: Record): (e: bytes)
  {
    [CH_D] + Entry(KEY_C, Str(r.commkey)) + Entry(KEY_I, Str(r.nextHop)) + Entry(KEY_N, Str(r.tunnelNonce))
  }

  function Encoding(r: Record): (e: bytes)
  {
    KeyPart(r) + Entry(KEY_R, Str(r.rxid)) + Entry(KEY_T, Str(r.txid)) + VersionEntry + [CH_E]
  }

  const ENCODED: nat := 166

  lemma EncodedSize(r: Record)
    requires Shape(r)
    ensures |Encoding(r)| == ENCODED
  {
    StrLength(r.commkey);
    StrLength(r.nextHop);
    StrLength(r.tunnelNonce);
    StrLength(r.rxid);
    StrLength(r.txid);
    StrLength([CH_V]);
    assert |Int(0)| == 3;
  }

  // ----- encoding ---------------------------------------------------------------

  const CHUNK: nat := 33

  method WriteKeyPart(r: Record, buf: Buffer) returns (ok: bool)
    requires Shape(r) && buf.Valid()
    modifies buf, buf.mem
    ensures buf.Valid()
    ensures Wrote(old(buf.mem[..]), old(buf.cur), buf.mem[..], buf.cur, KeyPart(r), CHUNK, ok)
  {
    ghost var m0, c0, whole := buf.mem[..], buf.cur, KeyPart(r);
    ghost var e1 := [CH_D];
    ok := WriteMark(buf, CH_D, CHUNK);
    if !ok { return; }

    ghost var m1, c1, e2 := buf.mem[..], buf.cur, Entry(KEY_C, Str(r.commkey));
    ok := WriteStrEntry(buf, KEY_C, r.commkey, CHUNK);
    WroteNext(m0, c0, m1, c1, buf.mem[..], buf.cur, e1, e2, whole, CHUNK, ok);
    if !ok { return; }

    m1, c1, e1, e2 := buf.mem[..], buf.cur, e1 + e2, Entry(KEY_I, Str(r.nextHop));
    ok := WriteStrEntry(buf, KEY_I, r.nextHop, CHUNK);
    WroteNext(m0, c0, m1, c1, buf.mem[..], buf.cur, e1, e2, whole, CHUNK, ok);
    if !ok { return; }

    m1, c1, e1, e2 := buf.mem[..], buf.cur, e1 + e2, Entry(KEY_N, Str(r.tunnelNonce));
    ok := WriteStrEntry(buf, KEY_N, r.tunnelNonce, CHUNK);
    WroteNext(m0, c0, m1, c1, buf.mem[..], buf.cur, e1, e2, whole, CHUNK, ok);
  }

  /** LR_CommitRecord::BEncode. */
  method BEncode(r: Record, buf: Buffer) returns (ok: bool)
    requires Shape(r) && buf.Valid()
    modifies buf, buf.mem
    ensures buf.Valid()
    ensures Wrote(old(buf.mem[..]), old(buf.cur), buf.mem[..], buf.cur, Encoding(r), CHUNK, ok)
  {
    ghost var m0, c0, whole := buf.mem[..], buf.cur, Encoding(r);
    ghost var e1 := KeyPart(r);
    ok := WriteKeyPart(r, buf);
    if !ok { return; }

    ghost var m1, c1, e2 := buf.mem[..], buf.cur, Entry(KEY_R, Str(r.rxid));
    ok := WriteStrEntry(buf, KEY_R, r.rxid, CHUNK);
    WroteNext(m0, c0, m1, c1, buf.mem[..], buf.cur, e1, e2, whole, CHUNK, ok);
    if !ok { return; }

    m1, c1, e1, e2 := buf.mem[..], buf.cur, e1 + e2, Entry(KEY_T, Str(r.txid));
    ok := WriteStrEntry(buf, KEY_T, r.txid, CHUNK);
    WroteNext(m0, c0, m1, c1, buf.mem[..], buf.cur, e1, e2, whole, CHUNK, ok);
    if !ok { return; }

    m1, c1, e1, e2 := buf.mem[..], buf.cur, e1 + e2, VersionEntry;
    ok := WriteVersionEntry(buf, CHUNK);
    WroteNext(m0, c0, m1, c1, buf.mem[..], buf.cur, e1, e2, whole, CHUNK, ok);
    if !ok { return; }

    m1, c1, e1, e2 := buf.mem[..], buf.cur, e1 + e2, [CH_E];
    ok := WriteMark(buf, CH_E, CHUNK);
    WroteNext(m0, c0, m1, c1, buf.mem[..], buf.cur, e1, e2, whole, CHUNK, ok);
  }

  // ----- decoding ---------------------------------------------------------------

  /** LR_CommitRecord::OnKey. */
  function RecordKey(rd: Reader, r: Record, key: bytes, cur: nat): (o: Option<(Record, nat)>)
    ensures Sound(rd) && o.Some? ==> o.value.1 >= cur
  {
    if KeyIs(key, KEY_C) then
      match ReadFixed(rd, cur, ID_SIZE) case None => None case Some((s, c)) => Some((r.(commkey := s), c))
    else if KeyIs(key, KEY_I) then
      match ReadFixed(rd, cur, ID_SIZE) case None => None case Some((s, c)) => Some((r.(nextHop := s), c))
    else if KeyIs(key, KEY_N) then
      match ReadFixed(rd, cur, ID_SIZE) case None => None case Some((s, c)) => Some((r.(tunnelNonce := s), c))
    else if KeyIs(key, KEY_R) then
      match ReadFixed(rd, cur, PATH_ID_SIZE) case None => None case Some((s, c)) => Some((r.(rxid := s), c))
    else if KeyIs(key, KEY_T) then
      match ReadFixed(rd, cur, PATH_ID_SIZE) case None => None case Some((s, c)) => Some((r.(txid := s), c))
    else if KeyIs(key, CH_V) then
      match rd.num(cur) case None => None case Some((v, c)) => if v != PROTO_VERSION then None else Some((r, c))
    else None
  }

  function OnRecordKey(rd: Reader): (f: OnKey<Record>)
    ensures Sound(rd) ==> Forward(f)
  {
    (r, key, cur) => RecordKey(rd, r, key, cur)
  }

  /** LR_CommitRecord::BDecode into a record that held `blank`. */
  function Decode(rd: Reader, cur: nat, blank: Record): (r: Option<(Record, nat)>)
    requires Sound(rd)
  {
    ReadDict(rd, cur, blank, OnRecordKey(rd))
  }

  function RecordTokens(r: Record): (t: Tokens)
  {
    Mark(CH_D, StrEntry(KEY_C, r.commkey, StrEntry(KEY_I, r.nextHop, StrEntry(KEY_N, r.tunnelNonce, IdTokens(r)))))
  }

  function IdTokens(r: Record): (t: Tokens)
  {
    StrEntry(KEY_R, r.rxid, StrEntry(KEY_T, r.txid, NumEntry(CH_V, PROTO_VERSION, Mark(CH_E, Done))))
  }

  lemma Rendered(r: Record)
    ensures Render(RecordTokens(r)) == Encoding(r)
  {
    var t5 := NumEntry(CH_V, PROTO_VERSION, Mark(CH_E, Done));
    var t4 := StrEntry(KEY_T, r.txid, t5);
    var t3 := StrEntry(KEY_R, r.rxid, t4);
    var t2 := StrEntry(KEY_N, r.tunnelNonce, t3);
    var t1 := StrEntry(KEY_I, r.nextHop, t2);
    RenderVersion(Mark(CH_E, Done));
    RenderStrEntry(KEY_T, r.txid, t5);
    RenderStrEntry(KEY_R, r.rxid, t4);
    RenderStrEntry(KEY_N, r.tunnelNonce, t3);
    RenderStrEntry(KEY_I, r.nextHop, t2);
    RenderStrEntry(KEY_C, r.commkey, t1);
    assert Render(Mark(CH_E, Done)) == [CH_E];
    Reassociated([CH_D], Entry(KEY_C, Str(r.commkey)), Entry(KEY_I, Str(r.nextHop)), Entry(KEY_N, Str(r.tunnelNonce)),
                 Entry(KEY_R, Str(r.rxid)), Entry(KEY_T, Str(r.txid)), VersionEntry, [CH_E]);
  }

  lemma Reassociated(p1: bytes, p2: bytes, p3: bytes, p4: bytes, p5: bytes, p6: bytes, p7: bytes, p8: bytes)
    ensures p1 + (p2 + (p3 + (p4 + (p5 + (p6 + (p7 + p8))))))
         == p1 + p2 + p3 + p4 + p5 + p6 + p7 + p8
  {
  }

  function WithField(s: Record, letter: byte, v: bytes): (r: Record)
  {
    if letter == KEY_C then s.(commkey := v)
    else if letter == KEY_I then s.(nextHop := v)
    else if letter == KEY_N then s.(tunnelNonce := v)
    else if letter == KEY_R then s.(rxid := v)
    else s.(txid := v)
  }

  /** One round of the dictionary loop; the result is the next position. */
  lemma FieldRound(rd: Reader, cur: nat, s: Record, letter: byte, v: bytes, tail: Tokens, end: nat) returns (c: nat)
    requires Sound(rd) && Lexes(rd, cur, StrEntry(letter, v, tail), end)
    requires || ((letter == KEY_C || letter == KEY_I || letter == KEY_N) && |v| == ID_SIZE)
             || ((letter == KEY_R || letter == KEY_T) && |v| == PATH_ID_SIZE)
    ensures Lexes(rd, c, tail, end)
    ensures Entries(rd, cur, s, OnRecordKey(rd)) == Entries(rd, c, WithField(s, letter, v), OnRecordKey(rd))
  {
    var c1 := EntryRound(rd, cur, s, OnRecordKey(rd), letter, Bytestring(v, tail), end);
    c := rd.str(c1).value.1;
  }

  lemma LastRounds(rd: Reader, cur: nat, s: Record, end: nat) returns (c: nat)
    requires Sound(rd) && Lexes(rd, cur, NumEntry(CH_V, PROTO_VERSION, Mark(CH_E, Done)), end)
    ensures Entries(rd, cur, s, OnRecordKey(rd)) == Some((s, c))
  {
    var c1 := EntryRound(rd, cur, s, OnRecordKey(rd), CH_V, Number(PROTO_VERSION, Mark(CH_E, Done)), end);
    var c2 := rd.num(c1).value.1;
    EndRound(rd, c2, s, OnRecordKey(rd), Done, end);
    c := c2 + 1;
  }

  lemma TokensReadBack(rd: Reader, cur: nat, r: Record, blank: Record, end: nat)
    requires Sound(rd) && Shape(r) && Lexes(rd, cur, RecordTokens(r), end)
    ensures Decode(rd, cur, blank).Some? && Decode(rd, cur, blank).value.0 == r
  {
    var t5 := NumEntry(CH_V, PROTO_VERSION, Mark(CH_E, Done));
    var t4 := StrEntry(KEY_T, r.txid, t5);
    var t2 := StrEntry(KEY_N, r.tunnelNonce, IdTokens(r));
    var c1 := FieldRound(rd, cur + 1, blank, KEY_C, r.commkey, StrEntry(KEY_I, r.nextHop, t2), end);
    var s1 := blank.(commkey := r.commkey);
    var c2 := FieldRound(rd, c1, s1, KEY_I, r.nextHop, t2, end);
    var s2 := s1.(nextHop := r.nextHop);
    var c3 := FieldRound(rd, c2, s2, KEY_N, r.tunnelNonce, IdTokens(r), end);
    var s3 := s2.(tunnelNonce := r.tunnelNonce);
    var c4 := FieldRound(rd, c3, s3, KEY_R, r.rxid, t4, end);
    var s4 := s3.(rxid := r.rxid);
    var c5 := FieldRound(rd, c4, s4, KEY_T, r.txid, t5, end);
    var c6 := LastRounds(rd, c5, s4.(txid := r.txid), end);
  }

  lemma RecordStringsShort(r: Record)
    requires Shape(r)
    ensures ShortStrings(RecordTokens(r))
  {
    var t5 := NumEntry(CH_V, PROTO_VERSION, Mark(CH_E, Done));
    var t2 := StrEntry(KEY_N, r.tunnelNonce, IdTokens(r));
    assert ShortStrings(t5);
    ShortEntry(KEY_T, r.txid, t5);
    ShortEntry(KEY_R, r.rxid, StrEntry(KEY_T, r.txid, t5));
    ShortEntry(KEY_N, r.tunnelNonce, IdTokens(r));
    ShortEntry(KEY_I, r.nextHop, t2);
    ShortEntry(KEY_C, r.commkey, StrEntry(KEY_I, r.nextHop, t2));
  }

  lemma ReadBackBy(rd: Reader, inp: Input, cur: nat, r: Record, blank: Record)
    requires Faithful(rd, inp) && Shape(r) && At(inp, cur, Encoding(r))
    ensures Decode(rd, cur, blank).Some? && Decode(rd, cur, blank).value.0 == r
  {
    Rendered(r);
    RecordStringsShort(r);
    RenderedLexes(rd, inp, cur, RecordTokens(r));
    TokensReadBack(rd, cur, r, blank, cur + |Render(RecordTokens(r))|);
  }

  /** A record reads back from wherever its encoding lies, whatever follows it. */
  lemma ReadBack(inp: Input, cur: nat, r: Record, blank: Record)
    requires Shape(r) && At(inp, cur, Encoding(r))
    ensures var d := Decode(ReaderOf(inp), cur, blank); d.Some? && d.value.0 == r
  {
    ReaderOfIsFaithful(inp);
    ReadBackBy(ReaderOf(inp), inp, cur, r, blank);
  }
}
