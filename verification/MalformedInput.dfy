/** What the decoders accept, whatever a peer sends (udap/bencode.c,
    udap/router_contact.cpp, udap/address_info.cpp, udap/exit_info.cpp,
    udap/relay_commit.cpp). */
module MalformedInput {
  import opened Bytes
  import opened Bencode
  import opened RouterContact
  import opened RouterContactDecode
  import CR = CommitRecord

  // ----- integers and strings -----------------------------------------------------------

  lemma {:induction false} UntilIsThere(inp: Input, cur: nat, delim: byte, max: nat)
    requires cur <= |inp.mem|
    ensures var s := Until(inp, cur, delim, max);
            && cur + |s| <= |inp.mem| && s == inp.mem[cur..cur + |s|] && delim !in s
            && (|s| < max && cur + |s| < |inp.mem| ==> inp.mem[cur + |s|] == delim)
    decreases max
  {
    var s := Until(inp, cur, delim, max);
    if s != [] {
      UntilIsThere(inp, cur + 1, delim, max - 1);
      assert s == [inp.mem[cur]] + Until(inp, cur + 1, delim, max - 1);
    }
  }

  /** An integer is read only from `i`, at most 31 bytes of text and one byte behind them,
      and is what that text denotes; 2^64-1 is never the result. */
  lemma {:induction false} IntegerIsThere(inp: Input, cur: nat)
    requires cur < |inp.mem|
    ensures match ReadInteger(inp, cur)
            case None => true
            case Some((v, end)) =>
              && cur + 3 <= end <= |inp.mem| && end <= cur + 2 + INT_TEXT && inp.mem[cur] == CH_I
              && v == AsUnsigned(Atol(inp.mem[cur + 1..end - 1])) && Atol(inp.mem[cur + 1..end - 1]) != -1
              && (end < cur + 2 + INT_TEXT ==> inp.mem[end - 1] == CH_E)
  {
    UntilIsThere(inp, cur + 1, CH_E, INT_TEXT);
  }

  /** s is a string that starts at `cur`: a text of at most nine bytes that denotes its
      length, one more byte, and as many bytes as that, all within the input. */
  ghost predicate IsString(inp: Input, cur: nat, at: nat, s: bytes, end: nat) {
    && cur < at <= cur + LEN_TEXT && at + 1 <= end <= |inp.mem|
    && Atol(inp.mem[cur..at]) == |s| && s == inp.mem[at + 1..end]
    && (at < cur + LEN_TEXT ==> inp.mem[at] == COLON)
  }

  lemma {:induction false} StringParts(inp: Input, cur: nat, text: bytes, at: nat)
    requires text == Until(inp, cur, COLON, LEN_TEXT) && at == cur + |text|
    ensures var r := ReadString(inp, cur);
            r.Some? ==> text != [] && at < |inp.mem| && Atol(text) >= 0 && at + 1 + Atol(text) <= |inp.mem|
                        && r == Some((inp.mem[at + 1..at + 1 + Atol(text)], at + 1 + Atol(text)))
  {
  }

  lemma {:induction false} PartsMakeAString(inp: Input, cur: nat, text: bytes, at: nat, n: nat)
    requires at == cur + |text| && text != [] && |text| <= LEN_TEXT && at < |inp.mem| && text == inp.mem[cur..at]
    requires |text| < LEN_TEXT ==> inp.mem[at] == COLON
    requires Atol(text) == n && at + 1 + n <= |inp.mem|
    ensures IsString(inp, cur, at, inp.mem[at + 1..at + 1 + n], at + 1 + n)
  {
  }

  /** Whatever is read is a string in that sense. */
  lemma {:induction false} StringIsThere(inp: Input, cur: nat) returns (at: nat)
    requires cur <= |inp.mem|
    ensures ReadString(inp, cur).Some? ==> IsString(inp, cur, at, ReadString(inp, cur).value.0, ReadString(inp, cur).value.1)
  {
    var text := Until(inp, cur, COLON, LEN_TEXT);
    at := cur + |text|;
    UntilIsThere(inp, cur, COLON, LEN_TEXT);
    StringParts(inp, cur, text, at);
    if ReadString(inp, cur).Some? {
      PartsMakeAString(inp, cur, text, at, Atol(text));
    }
  }

  // ----- dictionaries and lists -----------------------------------------------------------

  lemma {:induction false} EntriesEnd<S(!new)>(rd: Reader, cur: nat, s: S, onKey: OnKey<S>)
    requires Sound(rd) && Forward(onKey)
    ensures var r := Entries(rd, cur, s, onKey); r.Some? ==> rd.peek(r.value.1 - 1) == CH_E
    decreases rd.left(cur)
  {
    if rd.left(cur) > 0 && rd.peek(cur) != CH_E && rd.str(cur).Some? {
      var (key, c1) := rd.str(cur).value;
      if onKey(s, key, c1).Some? {
        var (s2, c2) := onKey(s, key, c1).value;
        EntriesEnd(rd, c2, s2, onKey);
      }
    }
  }

  lemma {:induction false} ItemsEnd<S(!new)>(rd: Reader, cur: nat, s: S, onItem: OnItem<S>)
    requires Sound(rd) && Advancing(onItem)
    ensures var r := Items(rd, cur, s, onItem); r.Some? ==> rd.peek(r.value.1 - 1) == CH_E
    decreases rd.left(cur)
  {
    if rd.left(cur) > 0 && rd.peek(cur) != CH_E && onItem(s, cur).Some? {
      var (s2, c2) := onItem(s, cur).value;
      ItemsEnd(rd, c2, s2, onItem);
    }
  }

  /** A dictionary that is accepted begins with `d` and ends with `e`, a list with `l`
      and `e`. */
  lemma {:induction false} DictIsMarked<S(!new)>(rd: Reader, cur: nat, s: S, onKey: OnKey<S>)
    requires Sound(rd) && Forward(onKey)
    ensures var r := ReadDict(rd, cur, s, onKey);
            r.Some? ==> cur + 2 <= r.value.1 && rd.peek(cur) == CH_D && rd.peek(r.value.1 - 1) == CH_E
  {
    EntriesEnd(rd, cur + 1, s, onKey);
  }

  lemma {:induction false} ListIsMarked<S(!new)>(rd: Reader, cur: nat, s: S, onItem: OnItem<S>)
    requires Sound(rd) && Advancing(onItem)
    ensures var r := ReadList(rd, cur, s, onItem);
            r.Some? ==> cur + 2 <= r.value.1 && rd.peek(cur) == CH_L && rd.peek(r.value.1 - 1) == CH_E
  {
    ItemsEnd(rd, cur + 1, s, onItem);
  }

  /** What every entry keeps, the dictionary keeps. */
  ghost predicate KeepsEntry<S(!new)>(onKey: OnKey<S>, p: S -> bool) {
    forall s, k, c {:trigger onKey(s, k, c)} :: p(s) && onKey(s, k, c).Some? ==> p(onKey(s, k, c).value.0)
  }

  ghost predicate KeepsItem<S(!new)>(onItem: OnItem<S>, p: S -> bool) {
    forall s, c {:trigger onItem(s, c)} :: p(s) && onItem(s, c).Some? ==> p(onItem(s, c).value.0)
  }

  lemma {:induction false} EntriesKeep<S(!new)>(rd: Reader, cur: nat, s: S, onKey: OnKey<S>, p: S -> bool)
    requires Sound(rd) && Forward(onKey) && KeepsEntry(onKey, p) && p(s)
    ensures var r := Entries(rd, cur, s, onKey); r.Some? ==> p(r.value.0)
    decreases rd.left(cur)
  {
    if rd.left(cur) > 0 && rd.peek(cur) != CH_E && rd.str(cur).Some? {
      var (key, c1) := rd.str(cur).value;
      if onKey(s, key, c1).Some? {
        var (s2, c2) := onKey(s, key, c1).value;
        EntriesKeep(rd, c2, s2, onKey, p);
      }
    }
  }

  lemma {:induction false} ItemsKeep<S(!new)>(rd: Reader, cur: nat, s: S, onItem: OnItem<S>, p: S -> bool)
    requires Sound(rd) && Advancing(onItem) && KeepsItem(onItem, p) && p(s)
    ensures var r := Items(rd, cur, s, onItem); r.Some? ==> p(r.value.0)
    decreases rd.left(cur)
  {
    if rd.left(cur) > 0 && rd.peek(cur) != CH_E && onItem(s, cur).Some? {
      var (s2, c2) := onItem(s, cur).value;
      ItemsKeep(rd, c2, s2, onItem, p);
    }
  }

  // ----- contacts ------------------------------------------------------------------------------

  /** inet_pton fills sixteen bytes. */
  ghost predicate PtonSized(inet: Inet) {
    forall t {:trigger inet.pton(t)} :: inet.pton(t).Some? ==> |inet.pton(t).value| == 16
  }

  lemma {:induction false} CStringHasNoNul(s: bytes)
    ensures 0 !in CString(s) && |CString(s)| <= |s|
  {
    if s != [] && s[0] != 0 {
      CStringHasNoNul(s[1..]);
    }
  }

  lemma {:induction false} AiKeyKeeps(inet: Inet, rd: Reader, ai: Ai, key: bytes, cur: nat)
    requires PtonSized(inet) && AiShape(ai)
    ensures var r := AiKey(inet, rd, ai, key, cur); r.Some? ==> AiShape(r.value.0)
  {
    if rd.str(cur).Some? {
      CStringHasNoNul(rd.str(cur).value.0);
    }
  }

  lemma {:induction false} AiIsShaped(inet: Inet, rd: Reader, cur: nat, blank: Ai)
    requires PtonSized(inet) && Sound(rd) && AiShape(blank)
    ensures var r := AiDecode(inet, rd, cur, blank); r.Some? ==> AiShape(r.value.0)
  {
    var onKey, p := AiOnKey(inet, rd), (ai: Ai) => AiShape(ai);
    forall ai, k, c | p(ai) && onKey(ai, k, c).Some?
      ensures p(onKey(ai, k, c).value.0)
    {
      AiKeyKeeps(inet, rd, ai, k, c);
    }
    EntriesKeep(rd, cur + 1, blank, onKey, p);
  }

  lemma {:induction false} XiIsShaped(inet: Inet, rd: Reader, cur: nat, blank: Xi)
    requires PtonSized(inet) && Sound(rd) && XiShape(blank)
    ensures var r := XiDecode(inet, rd, cur, blank); r.Some? ==> XiShape(r.value.0)
  {
    EntriesKeep(rd, cur + 1, blank, XiOnKey(inet, rd), (xi: Xi) => XiShape(xi));
  }

  predicate AllAi(l: seq<Ai>) {
    forall i :: 0 <= i < |l| ==> AiShape(l[i])
  }

  predicate AllXi(l: seq<Xi>) {
    forall i :: 0 <= i < |l| ==> XiShape(l[i])
  }

  lemma {:induction false} AisAreShaped(inet: Inet, rd: Reader, cur: nat, blank: Ai)
    requires PtonSized(inet) && Sound(rd) && AiShape(blank)
    ensures var r := ReadList(rd, cur, [], AiOnItem(inet, rd, blank)); r.Some? ==> AllAi(r.value.0)
  {
    var onItem, p := AiOnItem(inet, rd, blank), (l: seq<Ai>) => AllAi(l);
    forall l, c | p(l) && onItem(l, c).Some?
      ensures p(onItem(l, c).value.0)
    {
      AiIsShaped(inet, rd, c, blank);
    }
    ItemsKeep(rd, cur + 1, [], onItem, p);
  }

  lemma {:induction false} XisAreShaped(inet: Inet, rd: Reader, cur: nat)
    requires PtonSized(inet) && Sound(rd)
    ensures var r := ReadList(rd, cur, [], XiOnItem(inet, rd, BlankXi)); r.Some? ==> AllXi(r.value.0)
  {
    var onItem, p := XiOnItem(inet, rd, BlankXi), (l: seq<Xi>) => AllXi(l);
    forall l, c | p(l) && onItem(l, c).Some?
      ensures p(onItem(l, c).value.0)
    {
      XiIsShaped(inet, rd, c, BlankXi);
    }
    ItemsKeep(rd, cur + 1, [], onItem, p);
  }

  lemma {:induction false} RcKeyKeeps(inet: Inet, rd: Reader, blank: Ai, rc: Rc, key: bytes, cur: nat)
    requires PtonSized(inet) && Sound(rd) && AiShape(blank) && RcShape(rc)
    ensures var r := RcKey(inet, rd, blank, rc, key, cur); r.Some? ==> RcShape(r.value.0)
  {
    if KeyIs(key, KEY_A) {
      AisAreShaped(inet, rd, cur, blank);
    } else if KeyIs(key, KEY_X) {
      XisAreShaped(inet, rd, cur);
    }
  }

  lemma {:induction false} RcIsShaped(inet: Inet, rd: Reader, cur: nat, blank: Ai)
    requires PtonSized(inet) && AiShape(blank) && Sound(rd)
    ensures var r := RcDecode(inet, rd, cur, blank); r.Some? ==> RcShape(r.value.0)
  {
    var onKey, p := RcOnKey(inet, rd, blank), (rc: Rc) => RcShape(rc);
    forall rc, k, c | p(rc) && onKey(rc, k, c).Some?
      ensures p(onKey(rc, k, c).value.0)
    {
      RcKeyKeeps(inet, rd, blank, rc, k, c);
    }
    EntriesKeep(rd, cur + 1, ClearedRc, onKey, p);
  }

  lemma {:induction false} RcIsMarked(inet: Inet, rd: Reader, cur: nat, blank: Ai)
    requires Sound(rd)
    ensures var r := RcDecode(inet, rd, cur, blank);
            r.Some? ==> cur + 2 <= r.value.1 && rd.peek(cur) == CH_D && rd.peek(r.value.1 - 1) == CH_E
  {
    DictIsMarked(rd, cur, ClearedRc, RcOnKey(inet, rd, blank));
  }

  /** Whatever bytes a peer sends, a contact that is decoded has keys of 32 bytes, a
      signature of 64, and well-formed addresses and exits, and came from a text between
      `d` and `e`. */
  lemma {:induction false} DecodedContactIsShaped(inet: Inet, rd: Reader, cur: nat, blank: Ai)
    requires PtonSized(inet) && AiShape(blank) && Sound(rd)
    ensures var r := RcDecode(inet, rd, cur, blank);
            r.Some? ==> RcShape(r.value.0) && cur + 2 <= r.value.1 && rd.peek(cur) == CH_D && rd.peek(r.value.1 - 1) == CH_E
  {
    RcIsShaped(inet, rd, cur, blank);
    RcIsMarked(inet, rd, cur, blank);
  }

  /** An entry is refused if its key is empty or begins with no letter of the format, if
      its version is not 0, if it is a key or a signature of another size, or if a list
      does not begin with `l`. */
  lemma {:induction false} BadEntryIsRefused(inet: Inet, inp: Input, blank: Ai, rc: Rc, key: bytes, cur: nat)
    ensures var r := RcKey(inet, ReaderOf(inp), blank, rc, key, cur);
            && (key == [] || key[0] !in [0x61, 0x6b, 0x70, 0x75, 0x76, 0x78, 0x7a] ==> r.None?)
            && (key != [] && key[0] == 0x76 && r.Some? ==> ReadInteger(inp, cur).Some? && ReadInteger(inp, cur).value.0 == 0)
            && (key != [] && key[0] in [0x6b, 0x70] && r.Some? ==> ReadString(inp, cur).Some? && |ReadString(inp, cur).value.0| == 32)
            && (key != [] && key[0] == 0x7a && r.Some? ==> ReadString(inp, cur).Some? && |ReadString(inp, cur).value.0| == 64)
            && (key != [] && key[0] in [0x61, 0x78] && r.Some? ==> Peek(inp, cur) == CH_L)
  {
  }

  /** The same for the entries of an address and of an exit; rank and port are refused if
      they are 0 or above 65536, a dialect if it is longer than five bytes, an ip if its
      text is too long or does not denote one. */
  lemma {:induction false} BadAddressEntryIsRefused(inet: Inet, inp: Input, ai: Ai, key: bytes, cur: nat)
    ensures var r, num, str := AiKey(inet, ReaderOf(inp), ai, key, cur), ReadInteger(inp, cur), ReadString(inp, cur);
            && (key == [] || key[0] !in [0x63, 0x64, 0x65, 0x69, 0x70, 0x76] ==> r.None?)
            && (key != [] && key[0] in [0x63, 0x70] && r.Some? ==> num.Some? && 0 < num.value.0 <= 65536)
            && (key != [] && key[0] == 0x64 && r.Some? ==> str.Some? && |str.value.0| <= 5)
            && (key != [] && key[0] == 0x65 && r.Some? ==> str.Some? && |str.value.0| == 32)
            && (key != [] && key[0] == 0x69 && r.Some? ==> str.Some? && |str.value.0| < 128 && inet.pton(CString(str.value.0)).Some?)
            && (key != [] && key[0] == 0x76 && r.Some? ==> num.Some? && num.value.0 == 0)
  {
  }

  lemma {:induction false} BadExitEntryIsRefused(inet: Inet, inp: Input, xi: Xi, key: bytes, cur: nat)
    ensures var r, num, str := XiKey(inet, ReaderOf(inp), xi, key, cur), ReadInteger(inp, cur), ReadString(inp, cur);
            && (key == [] || key[0] !in [0x61, 0x62, 0x6b, 0x76] ==> r.None?)
            && (key != [] && key[0] in [0x61, 0x62] && r.Some? ==> str.Some? && |str.value.0| < 128 && inet.pton(CString(str.value.0)).Some?)
            && (key != [] && key[0] == 0x6b && r.Some? ==> str.Some? && |str.value.0| == 32)
            && (key != [] && key[0] == 0x76 && r.Some? ==> num.Some? && num.value.0 == 0)
  {
  }

  // ----- commit records ---------------------------------------------------------------------------

  lemma {:induction false} FieldKeeps(rd: Reader, r: CR.Record, key: bytes, cur: nat)
    requires CR.Shape(r)
    ensures var o := CR.RecordKey(rd, r, key, cur); o.Some? ==> CR.Shape(o.value.0)
  {
  }

  lemma {:induction false} RecordIsShaped(rd: Reader, cur: nat, blank: CR.Record)
    requires CR.Shape(blank) && Sound(rd)
    ensures var r := CR.Decode(rd, cur, blank); r.Some? ==> CR.Shape(r.value.0)
  {
    var onKey, p := CR.OnRecordKey(rd), (r: CR.Record) => CR.Shape(r);
    forall r, k, c | p(r) && onKey(r, k, c).Some?
      ensures p(onKey(r, k, c).value.0)
    {
      FieldKeeps(rd, r, k, c);
    }
    EntriesKeep(rd, cur + 1, blank, onKey, p);
  }

  lemma {:induction false} RecordIsMarked(rd: Reader, cur: nat, blank: CR.Record)
    requires Sound(rd)
    ensures var r := CR.Decode(rd, cur, blank);
            r.Some? ==> cur + 2 <= r.value.1 && rd.peek(cur) == CH_D && rd.peek(r.value.1 - 1) == CH_E
  {
    DictIsMarked(rd, cur, blank, CR.OnRecordKey(rd));
  }

  /** The same for the record in a frame: ids and keys have their sizes. */
  lemma {:induction false} DecodedRecordIsShaped(rd: Reader, cur: nat, blank: CR.Record)
    requires CR.Shape(blank) && Sound(rd)
    ensures var r := CR.Decode(rd, cur, blank);
            r.Some? ==> CR.Shape(r.value.0) && cur + 2 <= r.value.1 && rd.peek(cur) == CH_D && rd.peek(r.value.1 - 1) == CH_E
  {
    RecordIsShaped(rd, cur, blank);
    RecordIsMarked(rd, cur, blank);
  }

  lemma {:induction false} BadFieldIsRefused(inp: Input, r: CR.Record, key: bytes, cur: nat)
    ensures var o := CR.RecordKey(ReaderOf(inp), r, key, cur);
            && (key == [] || key[0] !in [0x63, 0x69, 0x6e, 0x72, 0x74, 0x76] ==> o.None?)
            && (key != [] && key[0] == 0x76 && o.Some? ==> ReadInteger(inp, cur).Some? && ReadInteger(inp, cur).value.0 == 0)
            && (key != [] && key[0] in [0x63, 0x69, 0x6e] && o.Some? ==> ReadString(inp, cur).Some? && |ReadString(inp, cur).value.0| == 32)
            && (key != [] && key[0] in [0x72, 0x74] && o.Some? ==> ReadString(inp, cur).Some? && |ReadString(inp, cur).value.0| == 16)
  {
  }
}
