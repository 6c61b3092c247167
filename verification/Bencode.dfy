/** The bencode writers and readers (udap/bencode.c, udap/buffer.cpp,
    include/udap/bencode.hpp). */
module Bencode {
  import opened Bytes
  import opened Buffer

  const MINUS: byte := 0x2d
  const PLUS: byte := 0x2b
  const COLON: byte := 0x3a
  const CH_D: byte := 0x64
  const CH_E: byte := 0x65
  const CH_I: byte := 0x69
  const CH_L: byte := 0x6c
  const CH_V: byte := 0x76
  const PROTO_VERSION: nat := 0

  /** Room for digits in the number buffers of the readers. */
  const INT_TEXT: nat := 31
  const LEN_TEXT: nat := 9

  // ----- decimal text ------------------------------------------------------

  function Digit(d: nat): (b: byte)
    requires d < 10
  {
    (0x30 + d) as byte
  }

  /** %ld of a non-negative number. */
  function Decimal(n: nat): (s: bytes)
    ensures |s| > 0
  {
    if n < 10 then [Digit(n)] else Decimal(n / 10) + [Digit(n % 10)]
  }

  /** %ld. */
  function SignedDecimal(i: int): (s: bytes)
    ensures |s| > 0
  {
    if i < 0 then [MINUS] + Decimal(-i) else Decimal(i)
  }

  function Pow10(k: nat): (p: nat)
    ensures p > 0
  {
    if k == 0 then 1 else 10 * Pow10(k - 1)
  }

  lemma {:induction false} DecimalLength(n: nat, k: nat)
    requires k > 0 && n < Pow10(k)
    ensures |Decimal(n)| <= k
  {
    assert Pow10(1) == 10;
    if n >= 10 {
      DecimalLength(n / 10, k - 1);
    }
  }

  predicate IsSpace(b: byte) {
    b == 0x20 || b == 0x09 || b == 0x0a || b == 0x0b || b == 0x0c || b == 0x0d
  }

  function SkipSpace(s: bytes): (r: bytes)
  {
    if |s| > 0 && IsSpace(s[0]) then SkipSpace(s[1..]) else s
  }

  predicate IsDigit(b: byte) {
    0x30 <= b <= 0x39
  }

  /** The length of the longest run of digits at the front. */
  function DigitRun(s: bytes): (k: nat)
    ensures k <= |s|
  {
    if |s| == 0 || !IsDigit(s[0]) then 0 else 1 + DigitRun(s[1..])
  }

  /** The number that a run of digits denotes. */
  function DigitsToNat(s: bytes): (n: nat)
  {
    if s == [] then 0
    else 10 * DigitsToNat(s[..|s| - 1]) + (if IsDigit(s[|s| - 1]) then (s[|s| - 1] - 0x30) as nat else 0)
  }

  function LeadingNat(s: bytes): (n: nat)
  {
    DigitsToNat(s[..DigitRun(s)])
  }

  const LONG_MAX: int := 0x7fff_ffff_ffff_ffff

  /** atol, which glibc clamps to the range of a long. */
  function Atol(text: bytes): (i: int)
    ensures -LONG_MAX - 1 <= i <= LONG_MAX
  {
    var s := SkipSpace(text);
    var i: int := if |s| > 0 && s[0] == MINUS then 0 - LeadingNat(s[1..])
                  else if |s| > 0 && s[0] == PLUS then LeadingNat(s[1..])
                  else LeadingNat(s);
    if i > LONG_MAX then LONG_MAX else if i < -LONG_MAX - 1 then -LONG_MAX - 1 else i
  }

  lemma {:induction false} DecimalDigits(n: nat)
    ensures forall i :: 0 <= i < |Decimal(n)| ==> IsDigit(Decimal(n)[i])
    ensures DigitsToNat(Decimal(n)) == n
  {
    if n >= 10 {
      DecimalDigits(n / 10);
      assert Decimal(n)[..|Decimal(n)| - 1] == Decimal(n / 10);
    } else {
      assert Decimal(n)[..0] == [];
    }
  }

  lemma {:induction false} DigitRunOfDigits(s: bytes)
    requires forall i :: 0 <= i < |s| ==> IsDigit(s[i])
    ensures DigitRun(s) == |s|
  {
    if s != [] {
      DigitRunOfDigits(s[1..]);
    }
  }

  lemma AtolOfSignedDecimal(i: int)
    requires -LONG_MAX - 1 <= i <= LONG_MAX
    ensures Atol(SignedDecimal(i)) == i
  {
    var n := if i < 0 then -i else i;
    var digits := Decimal(n);
    DecimalDigits(n);
    DigitRunOfDigits(digits);
    assert digits[..|digits|] == digits;
    if i < 0 {
      assert SignedDecimal(i)[1..] == digits;
      assert SkipSpace(SignedDecimal(i)) == SignedDecimal(i);
    }
  }

  // ----- what the writers append -------------------------------------------

  function Str(s: bytes): (e: bytes)
    ensures |e| > |s|
  {
    Decimal(|s|) + [COLON] + s
  }

  function Int(i: int): (e: bytes)
    ensures |e| > 0
  {
    [CH_I] + SignedDecimal(i) + [CH_E]
  }

  /** The signed number that "%ld" sees in a uint64_t. */
  function AsSigned(v: nat): (i: int)
    requires v < U64
    ensures -LONG_MAX - 1 <= i <= LONG_MAX
  {
    if v <= LONG_MAX then v else v - U64
  }

  /** A long stored in a uint64_t. */
  function AsUnsigned(i: int): (v: nat)
    requires -LONG_MAX - 1 <= i <= LONG_MAX
    ensures v < U64 && AsSigned(v) == i
  {
    if i < 0 then i + U64 else i
  }

  const VersionEntry: bytes := Str([CH_V]) + Int(PROTO_VERSION)

  lemma StrLength(s: bytes)
    requires |s| < 100
    ensures |Str(s)| <= |s| + 3 && |Decimal(|s|)| <= 2
    ensures 10 <= |s| ==> |Str(s)| == |s| + 3
    ensures |s| < 10 ==> |Str(s)| == |s| + 2
  {
    assert Pow10(2) == 100;
    DecimalLength(|s|, 2);
  }

  lemma IntLength(i: int)
    requires -LONG_MAX - 1 <= i <= LONG_MAX
    ensures 3 <= |Int(i)| <= 22
  {
    var n := if i < 0 then -i else i;
    assert Pow10(5) == 100_000;
    assert Pow10(10) == 10_000_000_000;
    assert Pow10(15) == 1_000_000_000_000_000;
    assert Pow10(19) == 10_000_000_000_000_000_000;
    DecimalLength(n, 19);
  }

  // ----- the writers ---------------------------------------------------------

  method WriteBytestring(buf: Buffer, data: bytes, ghost chunk: nat) returns (ok: bool)
    requires buf.Valid() && |data| <= chunk && |Decimal(|data|)| < chunk
    modifies buf, buf.mem
    ensures buf.Valid() && Wrote(old(buf.mem[..]), old(buf.cur), buf.mem[..], buf.cur, Str(data), chunk, ok)
    ensures ok && |data| > 0 ==> buf.mem[old(buf.cur)..buf.cur] == Str(data)
  {
    var head := Decimal(|data|) + [COLON];
    ok := buf.WriteF(head);
    if !ok {
      return false;
    }
    ghost var m1, c1 := buf.mem[..], buf.cur;
    ok := buf.Write(data);
    WroteBoth(old(buf.mem[..]), old(buf.cur), m1, c1, buf.mem[..], buf.cur, head, data, chunk, ok);
    if ok {
      AppendedTwice(old(buf.mem[..]), old(buf.cur), m1, c1, buf.mem[..], buf.cur, head, data);
    }
  }

  /** bencode_write_int, _uint16, _int64, _uint64 and _sizeint differ only in
      the width of their argument. */
  method WriteInt(buf: Buffer, i: int, ghost chunk: nat) returns (ok: bool)
    requires buf.Valid() && -LONG_MAX - 1 <= i <= LONG_MAX && 22 <= chunk
    modifies buf, buf.mem
    ensures buf.Valid() && Wrote(old(buf.mem[..]), old(buf.cur), buf.mem[..], buf.cur, Int(i), chunk, ok)
  {
    IntLength(i);
    ok := buf.WriteF([CH_I] + SignedDecimal(i) + [CH_E]);
  }

  method WriteMark(buf: Buffer, mark: byte, ghost chunk: nat) returns (ok: bool)
    requires buf.Valid() && 1 <= chunk
    modifies buf, buf.mem
    ensures buf.Valid() && Wrote(old(buf.mem[..]), old(buf.cur), buf.mem[..], buf.cur, [mark], chunk, ok)
    ensures ok ==> buf.mem[old(buf.cur)..buf.cur] == [mark]
  {
    ok := buf.Write([mark]);
  }

  method WriteVersionEntry(buf: Buffer, ghost chunk: nat) returns (ok: bool)
    requires buf.Valid() && 30 <= chunk
    modifies buf, buf.mem
    ensures buf.Valid() && Wrote(old(buf.mem[..]), old(buf.cur), buf.mem[..], buf.cur, VersionEntry, chunk, ok)
  {
    StrLength([CH_V]);
    IntLength(PROTO_VERSION);
    ok := buf.WriteF(VersionEntry);
  }

  function Entry(letter: byte, value: bytes): (e: bytes)
    ensures |e| == 3 + |value|
  {
    StrLength([letter]);
    Str([letter]) + value
  }

  method WriteStrEntry(buf: Buffer, letter: byte, data: bytes, ghost chunk: nat) returns (ok: bool)
    requires buf.Valid() && |data| <= chunk && 4 <= chunk && |data| < 100
    modifies buf, buf.mem
    ensures buf.Valid()
    ensures Wrote(old(buf.mem[..]), old(buf.cur), buf.mem[..], buf.cur, Entry(letter, Str(data)), chunk, ok)
  {
    StrLength([letter]);
    StrLength(data);
    ok := WriteBytestring(buf, [letter], chunk);
    if ok {
      ghost var m1, c1 := buf.mem[..], buf.cur;
      ok := WriteBytestring(buf, data, chunk);
      WroteBoth(old(buf.mem[..]), old(buf.cur), m1, c1, buf.mem[..], buf.cur, Str([letter]), Str(data), chunk, ok);
    }
  }

  method WriteIntEntry(buf: Buffer, letter: byte, i: int, ghost chunk: nat) returns (ok: bool)
    requires buf.Valid() && -LONG_MAX - 1 <= i <= LONG_MAX && 22 <= chunk
    modifies buf, buf.mem
    ensures buf.Valid()
    ensures Wrote(old(buf.mem[..]), old(buf.cur), buf.mem[..], buf.cur, Entry(letter, Int(i)), chunk, ok)
  {
    StrLength([letter]);
    ok := WriteBytestring(buf, [letter], chunk);
    if ok {
      ghost var m1, c1 := buf.mem[..], buf.cur;
      ok := WriteInt(buf, i, chunk);
      WroteBoth(old(buf.mem[..]), old(buf.cur), m1, c1, buf.mem[..], buf.cur, Str([letter]), Int(i), chunk, ok);
    }
  }

  // ----- the readers ---------------------------------------------------------

  /** Memory to read from: the buffer, and the value of any byte behind it. */
  datatype Input = Input(mem: bytes, beyond: byte)

  function Left(inp: Input, cur: nat): (n: nat)
  {
    if cur > |inp.mem| then 0 else |inp.mem| - cur
  }

  function Peek(inp: Input, cur: nat): (b: byte)
  {
    if cur < |inp.mem| then inp.mem[cur] else inp.beyond
  }

  /** The bytes udap_buffer_read_until copies, at most `max` of them. */
  function Until(inp: Input, cur: nat, delim: byte, max: nat): (s: bytes)
    ensures |s| <= max
    decreases max
  {
    if Peek(inp, cur) != delim && max > 0 && cur != |inp.mem|
    then [Peek(inp, cur)] + Until(inp, cur + 1, delim, max - 1)
    else []
  }

  /** udap_buffer_read_until: the new position and the reported length. */
  method ReadUntil(inp: Input, start: nat, delim: byte, max: nat) returns (cur: nat, text: bytes, len: nat)
    ensures text == Until(inp, start, delim, max) && cur == start + |text|
    ensures len == if Left(inp, cur) > 0 then |text| else 0
  {
    cur := start;
    text := [];
    var room: nat := max;
    while Peek(inp, cur) != delim && room > 0 && cur != |inp.mem|
      invariant cur == start + |text| && room <= max
      invariant Until(inp, start, delim, max) == text + Until(inp, cur, delim, room)
      decreases room
    {
      text := text + [Peek(inp, cur)];
      cur := cur + 1;
      room := room - 1;
    }
    len := if Left(inp, cur) > 0 then |text| else 0;
  }

  /** bencode_read_integer. */
  function ReadInteger(inp: Input, cur: nat): (r: Option<(u64, nat)>)
    ensures r.Some? ==> r.value.1 >= cur + 3
  {
    if Peek(inp, cur) != CH_I then None
    else
      var text := Until(inp, cur + 1, CH_E, INT_TEXT);
      var c := cur + 1 + |text|;
      if |text| == 0 || Left(inp, c) == 0 then None
      else
        var i := Atol(text);
        if i == -1 then None else Some((AsUnsigned(i), c + 1))
  }

  /** bencode_read_string. */
  function ReadString(inp: Input, cur: nat): (r: Option<(bytes, nat)>)
    ensures r.Some? ==> cur + 2 <= r.value.1 <= |inp.mem|
  {
    var text := Until(inp, cur, COLON, LEN_TEXT);
    var c := cur + |text|;
    if |text| == 0 || Left(inp, c) == 0 then None
    else
      var n := Atol(text);
      if n < 0 || Left(inp, c + 1) < n then None
      else Some((inp.mem[c + 1..c + 1 + n], c + 1 + n))
  }

  /** udap_buffer_eq against a one-letter literal: only the first byte of the
      key is looked at. */
  predicate KeyIs(key: bytes, letter: byte) {
    |key| > 0 && key[0] == letter
  }

  /** The primitive reads over one input, by stream position. */
  datatype Reader = Reader(
    size: nat,
    peek: nat -> byte,
    str: nat -> Option<(bytes, nat)>,
    num: nat -> Option<(u64, nat)>)
  {
    /** udap_buffer_size_left. */
    function left(c: nat): (n: nat) {
      if c > size then 0 else size - c
    }
  }

  function ReaderOf(inp: Input): (rd: Reader)
    ensures Sound(rd)
  {
    Reader(|inp.mem|, (c: nat) => Peek(inp, c),
           (c: nat) => ReadString(inp, c), (c: nat) => ReadInteger(inp, c))
  }

  /** Strings take at least two bytes and integers three. */
  ghost predicate Sound(rd: Reader) {
    && (forall c: nat :: rd.str(c).Some? ==> rd.str(c).value.1 >= c + 2)
    && (forall c: nat :: rd.num(c).Some? ==> rd.num(c).value.1 >= c + 3)
  }

  /** A byte string of a fixed size. */
  function ReadFixed(rd: Reader, cur: nat, size: nat): (r: Option<(bytes, nat)>)
  {
    match rd.str(cur)
    case None => None
    case Some((s, c)) => if |s| != size then None else Some((s, c))
  }

  type OnKey<!S> = (S, bytes, nat) -> Option<(S, nat)>
  type OnItem<!S> = (S, nat) -> Option<(S, nat)>

  /** A callback never moves the stream position back. */
  ghost predicate Forward<S(!new)>(onKey: OnKey<S>) {
    forall s, k, c :: onKey(s, k, c).Some? ==> onKey(s, k, c).value.1 >= c
  }

  ghost predicate Advancing<S(!new)>(onItem: OnItem<S>) {
    forall s, c :: onItem(s, c).Some? ==> onItem(s, c).value.1 > c
  }

  /** The loop and the end of bencode_read_dict. */
  function Entries<S(!new)>(rd: Reader, cur: nat, s: S, onKey: OnKey<S>): (r: Option<(S, nat)>)
    requires Sound(rd) && Forward(onKey)
    ensures r.Some? ==> r.value.1 > cur
    decreases rd.left(cur)
  {
    if rd.left(cur) > 0 && rd.peek(cur) != CH_E then
      match rd.str(cur)
      case None => None
      case Some((key, c1)) =>
        match onKey(s, key, c1)
        case None => None
        case Some((s2, c2)) => Entries(rd, c2, s2, onKey)
    else if rd.peek(cur) != CH_E then None
    else Some((s, cur + 1))
  }

  function ReadDict<S(!new)>(rd: Reader, cur: nat, s: S, onKey: OnKey<S>): (r: Option<(S, nat)>)
    requires Sound(rd) && Forward(onKey)
    ensures r.Some? ==> r.value.1 > cur
  {
    if rd.peek(cur) != CH_D then None else Entries(rd, cur + 1, s, onKey)
  }

  /** The loop and the end of bencode_read_list. */
  function Items<S(!new)>(rd: Reader, cur: nat, s: S, onItem: OnItem<S>): (r: Option<(S, nat)>)
    requires Sound(rd) && Advancing(onItem)
    ensures r.Some? ==> r.value.1 > cur
    decreases rd.left(cur)
  {
    if rd.left(cur) > 0 && rd.peek(cur) != CH_E then
      match onItem(s, cur)
      case None => None
      case Some((s2, c2)) => Items(rd, c2, s2, onItem)
    else if rd.peek(cur) != CH_E then None
    else Some((s, cur + 1))
  }

  function ReadList<S(!new)>(rd: Reader, cur: nat, s: S, onItem: OnItem<S>): (r: Option<(S, nat)>)
    requires Sound(rd) && Advancing(onItem)
    ensures r.Some? ==> r.value.1 > cur
  {
    if rd.peek(cur) != CH_L then None else Items(rd, cur + 1, s, onItem)
  }

  /** bencode_read_dict as the loop it is. Every round that does not fail
      consumes at least two bytes, so it ends for every forward callback. */
  method ReadDictLoop<S(!new)>(rd: Reader, start: nat, s0: S, onKey: OnKey<S>) returns (r: Option<(S, nat)>)
    requires Sound(rd) && Forward(onKey)
    ensures r == ReadDict(rd, start, s0, onKey)
  {
    if rd.peek(start) != CH_D {
      return None;
    }
    var cur: nat, s := start + 1, s0;
    while rd.left(cur) > 0 && rd.peek(cur) != CH_E
      invariant ReadDict(rd, start, s0, onKey) == Entries(rd, cur, s, onKey)
      decreases rd.left(cur)
    {
      var k := rd.str(cur);
      if k.None? {
        return None;
      }
      var next := onKey(s, k.value.0, k.value.1);
      if next.None? {
        return None;
      }
      assert next.value.1 >= cur + 2;
      s, cur := next.value.0, next.value.1;
    }
    if rd.peek(cur) != CH_E {
      return None;
    }
    return Some((s, cur + 1));
  }

  /** bencode_read_list as the loop it is. */
  method ReadListLoop<S(!new)>(rd: Reader, start: nat, s0: S, onItem: OnItem<S>) returns (r: Option<(S, nat)>)
    requires Sound(rd) && Advancing(onItem)
    ensures r == ReadList(rd, start, s0, onItem)
  {
    if rd.peek(start) != CH_L {
      return None;
    }
    var cur: nat, s := start + 1, s0;
    while rd.left(cur) > 0 && rd.peek(cur) != CH_E
      invariant ReadList(rd, start, s0, onItem) == Items(rd, cur, s, onItem)
      decreases rd.left(cur)
    {
      var next := onItem(s, cur);
      if next.None? {
        return None;
      }
      s, cur := next.value.0, next.value.1;
    }
    if rd.peek(cur) != CH_E {
      return None;
    }
    return Some((s, cur + 1));
  }

  // ----- reading back what was written --------------------------------------

  ghost predicate At(inp: Input, cur: nat, e: bytes) {
    cur + |e| <= |inp.mem| && forall i :: 0 <= i < |e| ==> inp.mem[cur + i] == e[i]
  }

  lemma AtSplit(inp: Input, cur: nat, e1: bytes, e2: bytes)
    requires At(inp, cur, e1 + e2)
    ensures At(inp, cur, e1) && At(inp, cur + |e1|, e2)
  {
    forall i | 0 <= i < |e1|
      ensures inp.mem[cur + i] == e1[i]
    {
      assert inp.mem[cur + i] == (e1 + e2)[i];
    }
    forall i | 0 <= i < |e2|
      ensures inp.mem[cur + |e1| + i] == e2[i]
    {
      assert inp.mem[cur + (|e1| + i)] == (e1 + e2)[|e1| + i];
    }
  }

  lemma AtFirst(inp: Input, cur: nat, e: bytes)
    requires At(inp, cur, e) && |e| > 0
    ensures Peek(inp, cur) == e[0] && Left(inp, cur) > 0
  {
    assert inp.mem[cur + 0] == e[0];
  }

  lemma {:induction false} UntilAt(inp: Input, cur: nat, text: bytes, delim: byte, max: nat)
    requires At(inp, cur, text + [delim]) && |text| <= max && delim !in text
    ensures Until(inp, cur, delim, max) == text
    decreases |text|
  {
    AtFirst(inp, cur, text + [delim]);
    if text != [] {
      assert text + [delim] == [text[0]] + (text[1..] + [delim]);
      AtSplit(inp, cur, [text[0]], text[1..] + [delim]);
      UntilAt(inp, cur + 1, text[1..], delim, max - 1);
    }
  }

  /** A string shorter than 10^9 reads back exactly, with the position just past it. */
  lemma ReadStringAt(inp: Input, cur: nat, s: bytes)
    requires At(inp, cur, Str(s)) && |s| < 1_000_000_000
    ensures ReadString(inp, cur) == Some((s, cur + |Str(s)|))
  {
    var text := LengthTextAt(inp, cur, s);
    ReadStringOf(inp, cur, text, s);
  }

  lemma LengthTextAt(inp: Input, cur: nat, s: bytes) returns (text: bytes)
    requires At(inp, cur, Str(s)) && |s| < 1_000_000_000
    ensures Until(inp, cur, COLON, LEN_TEXT) == text && |text| > 0 && Atol(text) == |s|
    ensures At(inp, cur + |text| + 1, s) && |Str(s)| == |text| + 1 + |s|
  {
    text := Decimal(|s|);
    LengthTextFits(|s|);
    AtSplit(inp, cur, Decimal(|s|) + [COLON], s);
    DecimalUntil(inp, cur, |s|, COLON, LEN_TEXT);
    AtolOfSignedDecimal(|s|);
  }

  lemma ReadStringOf(inp: Input, cur: nat, text: bytes, s: bytes)
    requires |text| > 0 && Until(inp, cur, COLON, LEN_TEXT) == text && Atol(text) == |s|
    requires At(inp, cur + |text| + 1, s)
    ensures ReadString(inp, cur) == Some((s, cur + |text| + 1 + |s|))
  {
    var c := cur + |text| + 1;
    assert inp.mem[c..c + |s|] == s;
  }

  lemma LengthTextFits(n: nat)
    requires n < 1_000_000_000
    ensures |Decimal(n)| <= LEN_TEXT
  {
    assert Pow10(5) == 100_000;
    assert Pow10(9) == 1_000_000_000;
    DecimalLength(n, 9);
  }

  lemma DecimalUntil(inp: Input, cur: nat, i: int, delim: byte, max: nat)
    requires delim == COLON || delim == CH_E
    requires At(inp, cur, SignedDecimal(i) + [delim]) && |SignedDecimal(i)| <= max
    ensures Until(inp, cur, delim, max) == SignedDecimal(i)
  {
    DecimalDigits(if i < 0 then -i else i);
    UntilAt(inp, cur, SignedDecimal(i), delim, max);
  }

  /** Every 64-bit value but 2^64-1 survives its signed decimal form. */
  lemma ReadIntegerAt(inp: Input, cur: nat, v: nat)
    requires v < U64 && At(inp, cur, Int(AsSigned(v)))
    ensures ReadInteger(inp, cur) == if v == U64 - 1 then None else Some((v, cur + |Int(AsSigned(v))|))
  {
    var i := AsSigned(v);
    assert AsUnsigned(i) == v && (i == -1 <==> v == U64 - 1);
    ReadSignedAt(inp, cur, i);
  }

  lemma ReadSignedAt(inp: Input, cur: nat, i: int)
    requires -LONG_MAX - 1 <= i <= LONG_MAX && At(inp, cur, Int(i))
    ensures ReadInteger(inp, cur) == if i == -1 then None else Some((AsUnsigned(i), cur + |Int(i)|))
  {
    var text := IntTextAt(inp, cur, i);
    ReadIntegerOf(inp, cur, text);
  }

  lemma IntTextAt(inp: Input, cur: nat, i: int) returns (text: bytes)
    requires -LONG_MAX - 1 <= i <= LONG_MAX && At(inp, cur, Int(i))
    ensures Peek(inp, cur) == CH_I && At(inp, cur + 1, text + [CH_E])
    ensures Until(inp, cur + 1, CH_E, INT_TEXT) == text && |text| > 0 && Atol(text) == i
    ensures |Int(i)| == |text| + 2
  {
    text := SignedDecimal(i);
    IntAt(inp, cur, i);
    IntLength(i);
    DecimalUntil(inp, cur + 1, i, CH_E, INT_TEXT);
    AtolOfSignedDecimal(i);
  }

  lemma IntAt(inp: Input, cur: nat, i: int)
    requires At(inp, cur, Int(i))
    ensures Peek(inp, cur) == CH_I && At(inp, cur + 1, SignedDecimal(i) + [CH_E])
  {
    assert Int(i) == [CH_I] + (SignedDecimal(i) + [CH_E]);
    AtSplit(inp, cur, [CH_I], SignedDecimal(i) + [CH_E]);
    AtFirst(inp, cur, [CH_I]);
  }

  lemma ReadIntegerOf(inp: Input, cur: nat, text: bytes)
    requires Peek(inp, cur) == CH_I && |text| > 0 && Until(inp, cur + 1, CH_E, INT_TEXT) == text
    requires At(inp, cur + 1, text + [CH_E])
    ensures ReadInteger(inp, cur) ==
            var i := Atol(text);
            if i == -1 then None else Some((AsUnsigned(i), cur + |text| + 2))
  {
  }

  // ----- written text as tokens ----------------------------------------------

  /** What a text consists of, in front of more text. */
  datatype Tokens =
    | Done
    | Mark(mark: byte, tail: Tokens)
    | Bytestring(s: bytes, tail: Tokens)
    | Number(v: u64, tail: Tokens)

  function Render(toks: Tokens): (e: bytes) {
    match toks
    case Done => []
    case Mark(mark, tail) => [mark] + Render(tail)
    case Bytestring(s, tail) => Str(s) + Render(tail)
    case Number(v, tail) => Int(AsSigned(v)) + Render(tail)
  }

  predicate ShortStrings(toks: Tokens) {
    match toks
    case Done => true
    case Mark(_, tail) => ShortStrings(tail)
    case Bytestring(s, tail) => |s| < 1_000_000_000 && ShortStrings(tail)
    case Number(_, tail) => ShortStrings(tail)
  }

  /** From `cur` to `end` the reader finds these tokens. A number that the reader
      refuses ends the story. */
  ghost predicate Lexes(rd: Reader, cur: nat, toks: Tokens, end: nat)
    decreases toks
  {
    match toks
    case Done => cur == end
    case Mark(mark, tail) =>
      rd.left(cur) > 0 && rd.peek(cur) == mark && Lexes(rd, cur + 1, tail, end)
    case Bytestring(s, tail) =>
      && rd.left(cur) > 0 && rd.peek(cur) != CH_E
      && rd.str(cur).Some? && rd.str(cur).value.0 == s && Lexes(rd, rd.str(cur).value.1, tail, end)
    case Number(v, tail) =>
      if v == U64 - 1 then rd.num(cur).None?
      else rd.num(cur).Some? && rd.num(cur).value.0 == v && Lexes(rd, rd.num(cur).value.1, tail, end)
  }

  ghost predicate ReadsMarks(rd: Reader, inp: Input) {
    forall c: nat, mark: byte {:trigger At(inp, c, [mark])} :: At(inp, c, [mark]) ==> rd.left(c) > 0 && rd.peek(c) == mark
  }

  ghost predicate ReadsStrings(rd: Reader, inp: Input) {
    forall c: nat, s: bytes {:trigger At(inp, c, Str(s))} :: At(inp, c, Str(s)) && |s| < 1_000_000_000 ==>
      rd.left(c) > 0 && rd.peek(c) != CH_E && rd.str(c) == Some((s, c + |Str(s)|))
  }

  ghost predicate ReadsNumbers(rd: Reader, inp: Input) {
    forall c: nat, v: nat {:trigger At(inp, c, Int(AsSigned(v)))} :: v < U64 && At(inp, c, Int(AsSigned(v))) ==>
      rd.num(c) == if v == U64 - 1 then None else Some((v, c + |Int(AsSigned(v))|))
  }

  /** The reader reads back what is written in the input. */
  ghost predicate Faithful(rd: Reader, inp: Input) {
    Sound(rd) && ReadsMarks(rd, inp) && ReadsStrings(rd, inp) && ReadsNumbers(rd, inp)
  }

  lemma ReaderOfReadsMarks(inp: Input)
    ensures ReadsMarks(ReaderOf(inp), inp)
  {
    forall c: nat, mark: byte | At(inp, c, [mark])
      ensures ReaderOf(inp).left(c) > 0 && ReaderOf(inp).peek(c) == mark
    {
      AtFirst(inp, c, [mark]);
    }
  }

  lemma ReaderOfReadsStrings(inp: Input)
    ensures ReadsStrings(ReaderOf(inp), inp)
  {
    forall c: nat, s: bytes | At(inp, c, Str(s)) && |s| < 1_000_000_000
      ensures Left(inp, c) > 0 && Peek(inp, c) != CH_E && ReadString(inp, c) == Some((s, c + |Str(s)|))
    {
      StrStart(inp, c, s);
      ReadStringAt(inp, c, s);
    }
  }

  lemma ReaderOfReadsNumbers(inp: Input)
    ensures ReadsNumbers(ReaderOf(inp), inp)
  {
    forall c: nat, v: nat | v < U64 && At(inp, c, Int(AsSigned(v)))
      ensures ReadInteger(inp, c) == if v == U64 - 1 then None else Some((v, c + |Int(AsSigned(v))|))
    {
      ReadIntegerAt(inp, c, v);
    }
  }

  lemma ReaderOfIsFaithful(inp: Input)
    ensures Faithful(ReaderOf(inp), inp)
  {
    ReaderOfReadsMarks(inp);
    ReaderOfReadsStrings(inp);
    ReaderOfReadsNumbers(inp);
  }

  lemma StrStart(inp: Input, cur: nat, s: bytes)
    requires At(inp, cur, Str(s))
    ensures Left(inp, cur) > 0 && Peek(inp, cur) != CH_E
  {
    AtFirst(inp, cur, Str(s));
    DecimalDigits(|s|);
  }

  /** Every token is in its place in the input. */
  ghost predicate Placed(inp: Input, cur: nat, toks: Tokens)
    decreases toks
  {
    match toks
    case Done => true
    case Mark(mark, tail) => At(inp, cur, [mark]) && Placed(inp, cur + 1, tail)
    case Bytestring(s, tail) => At(inp, cur, Str(s)) && Placed(inp, cur + |Str(s)|, tail)
    case Number(v, tail) => At(inp, cur, Int(AsSigned(v))) && Placed(inp, cur + |Int(AsSigned(v))|, tail)
  }

  lemma {:induction false} RenderedIsPlaced(inp: Input, cur: nat, toks: Tokens)
    requires At(inp, cur, Render(toks))
    ensures Placed(inp, cur, toks)
    decreases toks
  {
    match toks
    case Done =>
    case Mark(mark, tail) =>
      AtSplit(inp, cur, [mark], Render(tail));
      RenderedIsPlaced(inp, cur + 1, tail);
    case Bytestring(s, tail) =>
      AtSplit(inp, cur, Str(s), Render(tail));
      RenderedIsPlaced(inp, cur + |Str(s)|, tail);
    case Number(v, tail) =>
      AtSplit(inp, cur, Int(AsSigned(v)), Render(tail));
      RenderedIsPlaced(inp, cur + |Int(AsSigned(v))|, tail);
  }

  lemma {:induction false} PlacedLexes(rd: Reader, inp: Input, cur: nat, toks: Tokens)
    requires Faithful(rd, inp) && ShortStrings(toks) && Placed(inp, cur, toks)
    ensures Lexes(rd, cur, toks, cur + |Render(toks)|)
    decreases toks, 1
  {
    match toks
    case Done =>
    case Mark(mark, tail) => PlacedMarkLexes(rd, inp, cur, mark, tail);
    case Bytestring(s, tail) => PlacedStrLexes(rd, inp, cur, s, tail);
    case Number(v, tail) => PlacedNumLexes(rd, inp, cur, v, tail);
  }

  lemma {:induction false} PlacedMarkLexes(rd: Reader, inp: Input, cur: nat, mark: byte, tail: Tokens)
    requires Faithful(rd, inp) && ShortStrings(tail) && At(inp, cur, [mark]) && Placed(inp, cur + 1, tail)
    ensures Lexes(rd, cur, Mark(mark, tail), cur + |Render(Mark(mark, tail))|)
    decreases tail, 2
  {
    PlacedLexes(rd, inp, cur + 1, tail);
    LexMark(rd, inp, cur, mark, tail, cur + 1 + |Render(tail)|);
  }

  lemma {:induction false} PlacedStrLexes(rd: Reader, inp: Input, cur: nat, s: bytes, tail: Tokens)
    requires Faithful(rd, inp) && ShortStrings(tail) && |s| < 1_000_000_000
    requires At(inp, cur, Str(s)) && Placed(inp, cur + |Str(s)|, tail)
    ensures Lexes(rd, cur, Bytestring(s, tail), cur + |Render(Bytestring(s, tail))|)
    decreases tail, 2
  {
    PlacedLexes(rd, inp, cur + |Str(s)|, tail);
    LexStr(rd, inp, cur, s, tail, cur + |Str(s)| + |Render(tail)|);
  }

  lemma {:induction false} PlacedNumLexes(rd: Reader, inp: Input, cur: nat, v: u64, tail: Tokens)
    requires Faithful(rd, inp) && ShortStrings(tail)
    requires At(inp, cur, Int(AsSigned(v))) && Placed(inp, cur + |Int(AsSigned(v))|, tail)
    ensures Lexes(rd, cur, Number(v, tail), cur + |Render(Number(v, tail))|)
    decreases tail, 2
  {
    PlacedLexes(rd, inp, cur + |Int(AsSigned(v))|, tail);
    LexNum(rd, inp, cur, v, tail, cur + |Int(AsSigned(v))| + |Render(tail)|);
  }

  /** A rendered text is found again, token by token. */
  lemma RenderedLexes(rd: Reader, inp: Input, cur: nat, toks: Tokens)
    requires Faithful(rd, inp) && ShortStrings(toks) && At(inp, cur, Render(toks))
    ensures Lexes(rd, cur, toks, cur + |Render(toks)|)
  {
    RenderedIsPlaced(inp, cur, toks);
    PlacedLexes(rd, inp, cur, toks);
  }

  lemma LexMark(rd: Reader, inp: Input, cur: nat, mark: byte, tail: Tokens, end: nat)
    requires ReadsMarks(rd, inp) && At(inp, cur, [mark]) && Lexes(rd, cur + 1, tail, end)
    ensures Lexes(rd, cur, Mark(mark, tail), end)
  {
  }

  lemma LexStr(rd: Reader, inp: Input, cur: nat, s: bytes, tail: Tokens, end: nat)
    requires ReadsStrings(rd, inp) && |s| < 1_000_000_000
    requires At(inp, cur, Str(s)) && Lexes(rd, cur + |Str(s)|, tail, end)
    ensures Lexes(rd, cur, Bytestring(s, tail), end)
  {
  }

  lemma LexNum(rd: Reader, inp: Input, cur: nat, v: u64, tail: Tokens, end: nat)
    requires ReadsNumbers(rd, inp)
    requires At(inp, cur, Int(AsSigned(v))) && Lexes(rd, cur + |Int(AsSigned(v))|, tail, end)
    ensures Lexes(rd, cur, Number(v, tail), end)
  {
  }

  function StrEntry(letter: byte, s: bytes, tail: Tokens): (t: Tokens) {
    Bytestring([letter], Bytestring(s, tail))
  }

  function NumEntry(letter: byte, v: u64, tail: Tokens): (t: Tokens) {
    Bytestring([letter], Number(v, tail))
  }

  lemma RenderStrEntry(letter: byte, s: bytes, tail: Tokens)
    ensures Render(StrEntry(letter, s, tail)) == Entry(letter, Str(s)) + Render(tail)
  {
  }

  lemma RenderNumEntry(letter: byte, v: u64, tail: Tokens)
    ensures Render(NumEntry(letter, v, tail)) == Entry(letter, Int(AsSigned(v))) + Render(tail)
  {
  }

  lemma RenderVersion(tail: Tokens)
    ensures Render(NumEntry(CH_V, PROTO_VERSION, tail)) == VersionEntry + Render(tail)
  {
    assert VersionEntry == Entry(CH_V, Int(AsSigned(PROTO_VERSION)));
  }

  lemma ShortEntry(letter: byte, s: bytes, tail: Tokens)
    requires |s| < 1_000_000_000 && ShortStrings(tail)
    ensures ShortStrings(StrEntry(letter, s, tail))
  {
  }

  lemma ShortNumEntry(letter: byte, v: u64, tail: Tokens)
    requires ShortStrings(tail)
    ensures ShortStrings(NumEntry(letter, v, tail))
  {
  }

  /** One round of the list loop. */
  lemma ItemRound<S(!new)>(rd: Reader, cur: nat, s: S, onItem: OnItem<S>)
    requires Sound(rd) && Advancing(onItem) && rd.left(cur) > 0 && rd.peek(cur) != CH_E
    ensures Items(rd, cur, s, onItem) ==
            match onItem(s, cur)
            case None => None
            case Some((s2, c2)) => Items(rd, c2, s2, onItem)
  {
  }

  /** One round of the dictionary loop; `c` is where the value starts. */
  lemma EntryRound<S(!new)>(rd: Reader, cur: nat, s: S, onKey: OnKey<S>, letter: byte, value: Tokens, end: nat)
    returns (c: nat)
    requires Sound(rd) && Forward(onKey) && Lexes(rd, cur, Bytestring([letter], value), end)
    ensures Lexes(rd, c, value, end)
    ensures Entries(rd, cur, s, onKey) ==
            match onKey(s, [letter], c)
            case None => None
            case Some((s2, c2)) => Entries(rd, c2, s2, onKey)
  {
    c := rd.str(cur).value.1;
  }

  lemma EndRound<S(!new)>(rd: Reader, cur: nat, s: S, onKey: OnKey<S>, tail: Tokens, end: nat)
    requires Sound(rd) && Forward(onKey) && Lexes(rd, cur, Mark(CH_E, tail), end)
    ensures Entries(rd, cur, s, onKey) == Some((s, cur + 1)) && Lexes(rd, cur + 1, tail, end)
  {
  }
}
