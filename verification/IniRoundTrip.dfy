/** Parsing what dump prints gives the same tree back (udap/ini.hpp). */
module IniRoundTrip {
  import opened Bytes
  import opened Ini

  // ----- the trees this holds for ---------------------------------------------------

  /** What a section name, a key and a value can be once they were parsed. */
  predicate CleanName(name: string) {
    OneLine(name) && (name != "" ==> name[0] != '[')
  }

  predicate CleanPair(p: Pair) {
    && Trimmed(p.0) && OneLine(p.0) && '=' !in p.0 && (p.0 != "" ==> p.0[0] != '[')
    && Trimmed(p.1) && OneLine(p.1)
  }

  /** A key that makes its line a comment. */
  predicate Commented(p: Pair) {
    p.0 != "" && (p.0[0] == '#' || p.0[0] == ';')
  }

  predicate GoodPair(p: Pair) {
    CleanPair(p) && !Commented(p)
  }

  predicate GoodPairs(values: seq<Pair>) {
    forall i {:trigger values[i]} :: 0 <= i < |values| ==> GoodPair(values[i])
  }

  ghost predicate DistinctNames(sections: seq<Section>) {
    forall i, j {:trigger sections[i], sections[j]} :: 0 <= i < j < |sections| ==> sections[i].name != sections[j].name
  }

  /** Names, keys and values are clean, no key starts a comment, and siblings are
      distinct. */
  ghost predicate Readable(l: Level)
    decreases l
  {
    GoodPairs(l.values) && ReadableAll(l.sections)
  }

  ghost predicate ReadableAll(sections: seq<Section>)
    decreases sections
  {
    && DistinctNames(sections)
    && (forall i {:trigger sections[i]} :: 0 <= i < |sections| ==> CleanName(sections[i].name) && Readable(sections[i].level))
  }

  /** A section as it comes up in print: the order of all sections, inner ones behind
      the one they are in. */
  datatype Heading = Heading(depth: nat, name: string, values: seq<Pair>)

  function Headings(sections: seq<Section>, depth: nat): (h: seq<Heading>)
    decreases sections
  {
    if sections == [] then []
    else [Heading(depth, sections[0].name, sections[0].level.values)]
         + Headings(sections[0].level.sections, depth + 1) + Headings(sections[1..], depth)
  }

  /** Brackets without a name get no newline of their own: such a section must have no
      values, and the next one in print, which opens a new line, must have a name. */
  predicate Spaced(heads: seq<Heading>) {
    forall i {:trigger heads[i]} :: 0 <= i < |heads| && heads[i].name == "" ==>
      heads[i].values == [] && (i + 1 < |heads| ==> heads[i + 1].name != "")
  }

  ghost predicate Good(l: Level) {
    Readable(l) && Spaced(Headings(l.sections, 1))
  }

  // ----- what is printed, piece by piece ----------------------------------------------------

  function Header(depth: nat, name: string): (s: string) {
    Repeat('[', depth) + name + Repeat(']', depth)
  }

  function ValueLine(p: Pair): (s: string) {
    p.0 + "=" + p.1
  }

  function ValueLines(values: seq<Pair>): (l: seq<string>)
    ensures |l| == |values|
  {
    if values == [] then [] else [ValueLine(values[0])] + ValueLines(values[1..])
  }

  /** A piece of print: a whole line, or text with more behind it. */
  datatype Piece = Full(text: string) | Open(text: string)

  function Print(pieces: seq<Piece>): (t: string)
  {
    if pieces == [] then ""
    else (if pieces[0].Full? then pieces[0].text + "\n" else pieces[0].text) + Print(pieces[1..])
  }

  function ValuePieces(values: seq<Pair>): (p: seq<Piece>)
  {
    if values == [] then [] else [Full(ValueLine(values[0]))] + ValuePieces(values[1..])
  }

  function HeadPieces(h: Heading): (p: seq<Piece>)
  {
    if h.name != "" then [Full(""), Full(Header(h.depth, h.name))] else [Open(Header(h.depth, h.name))]
  }

  function Pieces(heads: seq<Heading>): (p: seq<Piece>)
  {
    if heads == [] then [] else HeadPieces(heads[0]) + (ValuePieces(heads[0].values) + Pieces(heads[1..]))
  }

  lemma {:induction false} PrintBoth(a: seq<Piece>, b: seq<Piece>)
    ensures Print(a + b) == Print(a) + Print(b)
  {
    if a == [] {
      assert a + b == b;
    } else {
      assert (a + b)[1..] == a[1..] + b;
      PrintBoth(a[1..], b);
    }
  }

  lemma {:induction false} PiecesBoth(a: seq<Heading>, b: seq<Heading>)
    ensures Pieces(a + b) == Pieces(a) + Pieces(b)
  {
    if a == [] {
      assert a + b == b;
    } else {
      assert (a + b)[1..] == a[1..] + b;
      PiecesBoth(a[1..], b);
      PiecesAssociated(HeadPieces(a[0]), ValuePieces(a[0].values), Pieces(a[1..]), Pieces(b));
    }
  }

  lemma {:induction false} PiecesAssociated(a: seq<Piece>, b: seq<Piece>, c: seq<Piece>, d: seq<Piece>)
    ensures a + (b + (c + d)) == a + (b + c) + d
  {
  }

  lemma {:induction false} ValuesPrint(values: seq<Pair>)
    ensures Print(ValuePieces(values)) == DumpValues(values)
  {
    if values != [] {
      ValuesPrint(values[1..]);
      assert ValuePieces(values)[1..] == ValuePieces(values[1..]);
    }
  }

  lemma {:induction false} HeadPrint(h: Heading)
    ensures Print(HeadPieces(h)) == DumpHeader(h.depth, h.name)
  {
    var line := Header(h.depth, h.name);
    if h.name != "" {
      assert [Full(""), Full(line)][1..] == [Full(line)];
      assert Print([Full(line)]) == line + "\n" + Print([]);
    } else {
      assert Print([Open(line)]) == line + Print([]);
      assert Repeat('[', h.depth) + h.name == Repeat('[', h.depth);
    }
  }

  /** dump prints the headings with their values, one after the other. */
  lemma {:induction false} SectionsPrint(sections: seq<Section>, depth: nat)
    ensures Print(Pieces(Headings(sections, depth))) == DumpSections(sections, depth)
    decreases sections
  {
    if sections != [] {
      var s := sections[0];
      var h, inner, rest := Heading(depth, s.name, s.level.values), Headings(s.level.sections, depth + 1), Headings(sections[1..], depth);
      SectionsPrint(s.level.sections, depth + 1);
      SectionsPrint(sections[1..], depth);
      PiecesBoth([h] + inner, rest);
      PiecesBoth([h], inner);
      OneHeadPrints(h);
      PrintBoth(Pieces([h] + inner), Pieces(rest));
      PrintBoth(Pieces([h]), Pieces(inner));
    }
  }

  lemma {:induction false} OneHeadPrints(h: Heading)
    ensures Print(Pieces([h])) == DumpHeader(h.depth, h.name) + DumpValues(h.values)
  {
    HeadPrint(h);
    ValuesPrint(h.values);
    assert [h][1..] == [];
    assert ValuePieces(h.values) + Pieces([]) == ValuePieces(h.values);
    PrintBoth(HeadPieces(h), ValuePieces(h.values));
  }

  /** The pieces of a whole file. */
  function AllPieces(values: seq<Pair>, heads: seq<Heading>): (p: seq<Piece>)
  {
    ValuePieces(values) + Pieces(heads)
  }

  lemma {:induction false} DumpPrints(l: Level, depth: nat, name: string)
    ensures Dump(l, depth, name) == DumpHeader(depth, name) + Print(AllPieces(l.values, Headings(l.sections, depth + 1)))
  {
    ValuesPrint(l.values);
    SectionsPrint(l.sections, depth + 1);
    PrintBoth(ValuePieces(l.values), Pieces(Headings(l.sections, depth + 1)));
    TextAssociated(DumpHeader(depth, name), DumpValues(l.values), DumpSections(l.sections, depth + 1));
  }

  lemma {:induction false} TextAssociated(a: string, b: string, c: string)
    ensures a + b + c == a + (b + c)
  {
  }

  lemma {:induction false} TopPrints(l: Level, depth: nat, name: string, heads: seq<Heading>)
    requires depth == 0 && name == "" && heads == Headings(l.sections, depth + 1)
    ensures Dump(l, depth, name) == Print(AllPieces(l.values, heads))
  {
    DumpPrints(l, depth, name);
    var text := Print(AllPieces(l.values, heads));
    assert DumpHeader(depth, name) + text == text;
  }

  // ----- the lines of the print -----------------------------------------------------------------

  /** What getline makes of the pieces, with `pending` text before them. */
  function Merge(pieces: seq<Piece>, pending: string): (l: seq<string>)
    decreases |pieces|
  {
    if pieces == [] then (if pending == "" then [] else [pending])
    else if pieces[0].Open? then Merge(pieces[1..], pending + pieces[0].text)
    else [pending + pieces[0].text] + Merge(pieces[1..], "")
  }

  ghost predicate OneLiners(pieces: seq<Piece>) {
    forall i {:trigger pieces[i]} :: 0 <= i < |pieces| ==> OneLine(pieces[i].text)
  }

  lemma {:induction false} LinesCons(line: string, rest: string)
    requires OneLine(line)
    ensures Lines(line + "\n" + rest) == [line] + Lines(rest)
  {
    var t, k := line + "\n" + rest, |line|;
    assert t[k] == '\n' && t[..k] == line && t[k + 1..] == rest;
    assert forall j :: 0 <= j < k ==> t[j] == line[j];
    var f := Find(t, '\n', 0);
    assert f == Some(k);
  }

  lemma {:induction false} LinesOfPrint(pieces: seq<Piece>, pending: string)
    requires OneLiners(pieces) && OneLine(pending)
    ensures Lines(pending + Print(pieces)) == Merge(pieces, pending)
    decreases |pieces|
  {
    if pieces == [] {
      assert pending + Print(pieces) == pending;
      assert Find(pending, '\n', 0).None?;
    } else {
      var p, rest := pieces[0], pieces[1..];
      assert OneLine(p.text);
      if p.Open? {
        assert pending + (p.text + Print(rest)) == pending + p.text + Print(rest);
        LinesOfPrint(rest, pending + p.text);
      } else {
        assert pending + (p.text + "\n" + Print(rest)) == (pending + p.text) + "\n" + Print(rest);
        assert "" + Print(rest) == Print(rest);
        LinesCons(pending + p.text, Print(rest));
        LinesOfPrint(rest, "");
      }
    }
  }

  /** What a heading may hold so that no newline gets into the print. */
  ghost predicate OneLineHeads(heads: seq<Heading>) {
    forall i {:trigger heads[i]} :: 0 <= i < |heads| ==>
      OneLine(heads[i].name) && OneLineValues(heads[i].values) && heads[i].depth > 0
  }

  predicate OneLineValues(values: seq<Pair>) {
    forall i {:trigger values[i]} :: 0 <= i < |values| ==> OneLine(values[i].0) && OneLine(values[i].1)
  }

  lemma {:induction false} ValuesOneLine(values: seq<Pair>)
    requires OneLineValues(values)
    ensures OneLiners(ValuePieces(values))
  {
    if values != [] {
      ValuesOneLine(values[1..]);
      assert OneLine(values[0].0) && OneLine(values[0].1);
      assert OneLine(ValueLine(values[0]));
    }
  }

  lemma {:induction false} PiecesOneLine(heads: seq<Heading>)
    requires OneLineHeads(heads)
    ensures OneLiners(Pieces(heads))
  {
    if heads != [] {
      var h := heads[0];
      assert OneLine(h.name) && OneLineValues(h.values);
      assert OneLine(Header(h.depth, h.name));
      assert OneLiners(HeadPieces(h));
      ValuesOneLine(h.values);
      PiecesOneLine(heads[1..]);
      OneLinersBoth(ValuePieces(h.values), Pieces(heads[1..]));
      OneLinersBoth(HeadPieces(h), ValuePieces(h.values) + Pieces(heads[1..]));
    }
  }

  lemma {:induction false} OneLinersBoth(a: seq<Piece>, b: seq<Piece>)
    requires OneLiners(a) && OneLiners(b)
    ensures OneLiners(a + b)
  {
    forall i | 0 <= i < |a + b|
      ensures OneLine((a + b)[i].text)
    {
      assert (a + b)[i] == if i < |a| then a[i] else b[i - |a|];
    }
  }

  /** getline on a dumped file. */
  lemma {:induction false} DumpedLines(l: Level, depth: nat, name: string, heads: seq<Heading>)
    requires depth == 0 && name == "" && heads == Headings(l.sections, depth + 1)
    requires OneLineValues(l.values) && OneLineHeads(heads)
    ensures Lines(Dump(l, depth, name)) == Merge(AllPieces(l.values, heads), "")
  {
    TopPrints(l, depth, name, heads);
    ValuesOneLine(l.values);
    PiecesOneLine(heads);
    OneLinersBoth(ValuePieces(l.values), Pieces(heads));
    LinesOfPrint(AllPieces(l.values, heads), "");
    assert "" + Print(AllPieces(l.values, heads)) == Print(AllPieces(l.values, heads));
  }

  lemma {:induction false} MergeFull(text: string, rest: seq<Piece>, pending: string)
    ensures Merge([Full(text)] + rest, pending) == [pending + text] + Merge(rest, "")
  {
    assert ([Full(text)] + rest)[1..] == rest;
  }

  lemma {:induction false} MergeValues(values: seq<Pair>, rest: seq<Piece>)
    ensures Merge(ValuePieces(values) + rest, "") == ValueLines(values) + Merge(rest, "")
  {
    if values == [] {
      assert ValuePieces(values) + rest == rest;
    } else {
      var t, more := ValueLine(values[0]), ValuePieces(values[1..]) + rest;
      assert ValuePieces(values) + rest == [Full(t)] + more;
      MergeFull(t, more, "");
      MergeValues(values[1..], rest);
      assert "" + t == t;
      LinesAssociated([t], ValueLines(values[1..]), Merge(rest, ""));
    }
  }

  lemma {:induction false} LinesAssociated(a: seq<string>, b: seq<string>, c: seq<string>)
    ensures a + (b + c) == a + b + c
  {
  }

  lemma {:induction false} MergeNamed(h: Heading, rest: seq<Piece>, pending: string)
    requires h.name != ""
    ensures Merge(HeadPieces(h) + rest, pending) == [pending, Header(h.depth, h.name)] + Merge(rest, "")
  {
    var line := Header(h.depth, h.name);
    var all := HeadPieces(h) + rest;
    assert all[0] == Full("") && all[1..][0] == Full(line) && all[1..][1..] == rest;
    assert pending + "" == pending && "" + line == line;
  }

  lemma {:induction false} MergeUnnamed(h: Heading, rest: seq<Piece>, pending: string)
    requires h.name == ""
    ensures Merge(HeadPieces(h) + rest, pending) == Merge(rest, pending + Header(h.depth, h.name))
  {
    var all := HeadPieces(h) + rest;
    assert all[0] == Open(Header(h.depth, h.name)) && all[1..] == rest;
  }

  // ----- printed lines without the blank ones ------------------------------------------------------

  function NonBlank(lines: seq<string>): (l: seq<string>)
  {
    if lines == [] then [] else (if lines[0] == "" then [] else [lines[0]]) + NonBlank(lines[1..])
  }

  lemma {:induction false} NonBlankBoth(a: seq<string>, b: seq<string>)
    ensures NonBlank(a + b) == NonBlank(a) + NonBlank(b)
  {
    if a == [] {
      assert a + b == b;
    } else {
      assert (a + b)[1..] == a[1..] + b;
      NonBlankBoth(a[1..], b);
    }
  }

  lemma {:induction false} ValuesNonBlank(values: seq<Pair>)
    ensures NonBlank(ValueLines(values)) == ValueLines(values)
  {
    if values != [] {
      assert ValueLines(values)[1..] == ValueLines(values[1..]);
      ValuesNonBlank(values[1..]);
    }
  }

  /** Headings and values, line by line. */
  function Core(heads: seq<Heading>): (l: seq<string>)
  {
    if heads == [] then []
    else [Header(heads[0].depth, heads[0].name)] + (ValueLines(heads[0].values) + Core(heads[1..]))
  }

  function Given(pending: string): (l: seq<string>)
  {
    if pending == "" then [] else [pending]
  }

  /** Where unnamed sections are spaced, the lines of the print are the headings and
      values; `pending` is the unnamed heading just before them. */
  lemma {:induction false} SpacedMerge(heads: seq<Heading>, pending: string)
    requires Spaced(heads) && OneLineHeads(heads) && (pending != "" && heads != [] ==> heads[0].name != "")
    ensures NonBlank(Merge(Pieces(heads), pending)) == Given(pending) + Core(heads)
    decreases |heads|
  {
    if heads != [] {
      SpacedRest(heads);
      if heads[0].name != "" {
        SpacedMerge(heads[1..], "");
        NamedMerge(heads, pending);
      } else {
        SpacedMerge(heads[1..], Header(heads[0].depth, heads[0].name));
        UnnamedMerge(heads);
      }
    }
  }

  lemma {:induction false} NamedMerge(heads: seq<Heading>, pending: string)
    requires heads != [] && heads[0].name != ""
    requires NonBlank(Merge(Pieces(heads[1..]), "")) == Given("") + Core(heads[1..])
    ensures NonBlank(Merge(Pieces(heads), pending)) == Given(pending) + Core(heads)
  {
    var h, rest := heads[0], heads[1..];
    var line := Header(h.depth, h.name);
    MergeNamed(h, ValuePieces(h.values) + Pieces(rest), pending);
    MergeValues(h.values, Pieces(rest));
    NonBlankBoth([pending, line], ValueLines(h.values) + Merge(Pieces(rest), ""));
    NonBlankBoth(ValueLines(h.values), Merge(Pieces(rest), ""));
    ValuesNonBlank(h.values);
    PendingNonBlank(pending, line);
    CoreAssociated(Given(pending), line, ValueLines(h.values), Core(rest));
    assert Given("") + Core(rest) == Core(rest);
  }

  lemma {:induction false} UnnamedMerge(heads: seq<Heading>)
    requires heads != [] && heads[0].name == "" && heads[0].values == [] && heads[0].depth > 0
    requires var line := Header(heads[0].depth, heads[0].name);
             NonBlank(Merge(Pieces(heads[1..]), line)) == Given(line) + Core(heads[1..])
    ensures NonBlank(Merge(Pieces(heads), "")) == Given("") + Core(heads)
  {
    var h, rest := heads[0], heads[1..];
    var line := Header(h.depth, h.name);
    assert |line| >= h.depth && line != "";
    MergeUnnamed(h, ValuePieces(h.values) + Pieces(rest), "");
    assert ValuePieces(h.values) + Pieces(rest) == Pieces(rest) && "" + line == line;
    assert ValueLines(h.values) + Core(rest) == Core(rest);
    assert Given("") + Core(heads) == Core(heads);
  }

  lemma {:induction false} SpacedRest(heads: seq<Heading>)
    requires heads != [] && Spaced(heads) && OneLineHeads(heads)
    ensures Spaced(heads[1..]) && OneLineHeads(heads[1..])
    ensures heads[0].name == "" ==> heads[0].values == [] && (heads[1..] != [] ==> heads[1..][0].name != "")
  {
    var rest := heads[1..];
    assert heads[0].name == "" && rest != [] ==> heads[1].name != "";
    forall i | 0 <= i < |rest| && rest[i].name == ""
      ensures rest[i].values == [] && (i + 1 < |rest| ==> rest[i + 1].name != "")
    {
      assert rest[i] == heads[i + 1];
      assert i + 1 < |rest| ==> rest[i + 1] == heads[i + 2];
    }
    forall i | 0 <= i < |rest|
      ensures OneLine(rest[i].name) && OneLineValues(rest[i].values) && rest[i].depth > 0
    {
      assert rest[i] == heads[i + 1];
    }
  }

  lemma {:induction false} PendingNonBlank(pending: string, line: string)
    requires line != ""
    ensures NonBlank([pending, line]) == Given(pending) + [line]
  {
    assert [pending, line][1..] == [line] && [line][1..] == [];
    assert NonBlank([line]) == [line] + NonBlank([]);
  }

  lemma {:induction false} CoreAssociated(a: seq<string>, line: string, b: seq<string>, c: seq<string>)
    ensures a + [line] + (b + c) == a + ([line] + (b + c))
  {
  }

  /** The lines of sections by structure. */
  function SectionLines(sections: seq<Section>, depth: nat): (l: seq<string>)
    decreases sections
  {
    if sections == [] then []
    else [Header(depth, sections[0].name)] + LevelLines(sections[0].level, depth) + SectionLines(sections[1..], depth)
  }

  function LevelLines(l: Level, depth: nat): (r: seq<string>)
    decreases l
  {
    ValueLines(l.values) + SectionLines(l.sections, depth + 1)
  }

  lemma {:induction false} CoreBoth(a: seq<Heading>, b: seq<Heading>)
    ensures Core(a + b) == Core(a) + Core(b)
  {
    if a == [] {
      assert a + b == b;
    } else {
      assert (a + b)[1..] == a[1..] + b;
      CoreBoth(a[1..], b);
      assert ValueLines(a[0].values) + (Core(a[1..]) + Core(b)) == ValueLines(a[0].values) + Core(a[1..]) + Core(b);
    }
  }

  lemma {:induction false} CoreOfSections(sections: seq<Section>, depth: nat)
    ensures Core(Headings(sections, depth)) == SectionLines(sections, depth)
    decreases sections
  {
    if sections != [] {
      var s := sections[0];
      var h, inner, rest := Heading(depth, s.name, s.level.values), Headings(s.level.sections, depth + 1), Headings(sections[1..], depth);
      CoreOfSections(s.level.sections, depth + 1);
      CoreOfSections(sections[1..], depth);
      CoreBoth([h] + inner, rest);
      CoreBoth([h], inner);
      assert Core([h]) == [Header(depth, s.name)] + ValueLines(s.level.values) by {
        assert [h][1..] == [];
        assert ValueLines(h.values) + Core([]) == ValueLines(h.values);
      }
      assert [Header(depth, s.name)] + ValueLines(s.level.values) + Core(inner) == [Header(depth, s.name)] + LevelLines(s.level, depth);
    }
  }

  lemma {:induction false} GoodPairsOneLine(values: seq<Pair>)
    requires GoodPairs(values)
    ensures OneLineValues(values)
  {
    forall i | 0 <= i < |values|
      ensures OneLine(values[i].0) && OneLine(values[i].1)
    {
      assert GoodPair(values[i]);
    }
  }

  lemma {:induction false} ReadableHeads(sections: seq<Section>, depth: nat)
    requires ReadableAll(sections) && depth > 0
    ensures OneLineHeads(Headings(sections, depth))
    decreases sections
  {
    if sections != [] {
      var s := sections[0];
      assert CleanName(s.name) && Readable(s.level);
      ReadableHeads(s.level.sections, depth + 1);
      ReadableTail(sections);
      ReadableHeads(sections[1..], depth);
      GoodPairsOneLine(s.level.values);
      HeadsBoth([Heading(depth, s.name, s.level.values)], Headings(s.level.sections, depth + 1));
      HeadsBoth([Heading(depth, s.name, s.level.values)] + Headings(s.level.sections, depth + 1), Headings(sections[1..], depth));
    }
  }

  lemma {:induction false} HeadsBoth(a: seq<Heading>, b: seq<Heading>)
    requires OneLineHeads(a) && OneLineHeads(b)
    ensures OneLineHeads(a + b)
  {
    forall i | 0 <= i < |a + b|
      ensures OneLine((a + b)[i].name) && OneLineValues((a + b)[i].values) && (a + b)[i].depth > 0
    {
      assert (a + b)[i] == if i < |a| then a[i] else b[i - |a|];
    }
  }

  lemma {:induction false} ReadableTail(sections: seq<Section>)
    requires sections != [] && ReadableAll(sections)
    ensures ReadableAll(sections[1..])
  {
    var rest := sections[1..];
    forall i | 0 <= i < |rest|
      ensures CleanName(rest[i].name) && Readable(rest[i].level)
    {
      assert rest[i] == sections[i + 1];
    }
    forall i, j | 0 <= i < j < |rest|
      ensures rest[i].name != rest[j].name
    {
      assert rest[i] == sections[i + 1] && rest[j] == sections[j + 1];
    }
  }

  /** The lines of a good file, without blank ones. */
  lemma {:induction false} GoodLines(l: Level, heads: seq<Heading>, depth: nat)
    requires depth == 0 && heads == Headings(l.sections, depth + 1) && Readable(l) && Spaced(heads)
    ensures OneLineValues(l.values) && OneLineHeads(heads)
    ensures NonBlank(Merge(AllPieces(l.values, heads), "")) == LevelLines(l, depth)
  {
    ReadableHeads(l.sections, depth + 1);
    GoodPairsOneLine(l.values);
    MergeValues(l.values, Pieces(heads));
    NonBlankBoth(ValueLines(l.values), Merge(Pieces(heads), ""));
    ValuesNonBlank(l.values);
    SpacedMerge(heads, "");
    CoreOfSections(l.sections, depth + 1);
    assert Given("") + Core(heads) == Core(heads);
  }

  // ----- what one printed line does ------------------------------------------------------

  lemma {:induction false} BlankLine(nodes: seq<Node>, cur: nat, raw: string, ln: nat)
    requires WellFormed(nodes) && cur < |nodes| && raw == ""
    ensures Step(nodes, cur, raw, ln) == Ok(nodes, cur)
  {
    TrimLaws(raw);
  }

  lemma {:induction false} OpeningOf(line: string, i: nat, depth: nat)
    requires i <= depth < |line| && (forall j :: i <= j < depth ==> line[j] == '[') && line[depth] != '['
    ensures Opening(line, i) == depth
    decreases depth - i
  {
    if i < depth {
      OpeningOf(line, i + 1, depth);
    }
  }

  lemma {:induction false} HeaderReads(depth: nat, name: string)
    requires depth > 0 && CleanName(name)
    ensures var line := Header(depth, name);
            Trim(line) == line && line != "" && line[0] == '[' && Opening(line, 0) == depth && SectionName(line, depth) == name
  {
    var line := Header(depth, name);
    assert line[0] == '[' && line[|line| - 1] == ']' && line[depth] == if name == "" then ']' else name[0];
    TrimLaws(line);
    OpeningOf(line, 0, depth);
    assert line[depth..|line| - depth] == name;
  }

  lemma {:induction false} HeaderLine(nodes: seq<Node>, cur: nat, depth: nat, name: string, ln: nat)
    requires WellFormed(nodes) && cur < |nodes| && 0 < depth <= nodes[cur].depth + 1 && CleanName(name)
    requires !HasSection(nodes[Ancestor(nodes, cur, depth - 1)].sections, name)
    ensures Step(nodes, cur, Header(depth, name), ln)
         == Ok(AddSection(nodes, Ancestor(nodes, cur, depth - 1), name, depth), |nodes|)
  {
    HeaderReads(depth, name);
  }

  lemma {:induction false} ValueReads(p: Pair)
    requires GoodPair(p)
    ensures var line := ValueLine(p);
            && Trim(line) == line && line != "" && line[0] != '[' && line[0] != '#' && line[0] != ';'
            && Find(line, '=', 0) == Some(|p.0|) && line[..|p.0|] == p.0 && line[|p.0| + 1..] == p.1
  {
    var line, n := ValueLine(p), |p.0|;
    assert line[n] == '=' && line[..n] == p.0 && line[n + 1..] == p.1;
    assert forall j :: 0 <= j < n ==> line[j] == p.0[j];
    assert n > 0 ==> line[0] == p.0[0];
    assert p.1 != "" ==> line[|line| - 1] == p.1[|p.1| - 1];
    TrimLaws(line);
    var k := Find(line, '=', 0);
    assert k.Some? && k.value == n;
  }

  lemma {:induction false} ValueStep(nodes: seq<Node>, cur: nat, p: Pair, ln: nat)
    requires WellFormed(nodes) && cur < |nodes| && GoodPair(p)
    ensures Step(nodes, cur, ValueLine(p), ln) == Ok(AddValue(nodes, cur, p.0, p.1), cur)
  {
    ValueReads(p);
    TrimLaws(p.0);
    TrimLaws(p.1);
  }

  /** The handler does with printed lines what they say; the proofs below need no more
      about it. */
  ghost predicate Reads(step: Stepper)
  {
    Keeps(step) && ReadsBlank(step) && ReadsHeaders(step) && ReadsValues(step)
  }

  ghost predicate ReadsBlank(step: Stepper)
  {
    forall nodes: seq<Node>, cur: nat, raw: string, ln: nat {:trigger step(nodes, cur, raw, ln)} ::
      WellFormed(nodes) && cur < |nodes| && raw == "" ==> step(nodes, cur, raw, ln) == Ok(nodes, cur)
  }

  ghost predicate ReadsHeaders(step: Stepper)
  {
    forall nodes: seq<Node>, cur: nat, depth: nat, name: string, ln: nat {:trigger step(nodes, cur, Header(depth, name), ln)} ::
      && WellFormed(nodes) && cur < |nodes| && 0 < depth <= nodes[cur].depth + 1 && CleanName(name)
      && !HasSection(nodes[Ancestor(nodes, cur, depth - 1)].sections, name) ==>
        step(nodes, cur, Header(depth, name), ln) == Ok(AddSection(nodes, Ancestor(nodes, cur, depth - 1), name, depth), |nodes|)
  }

  ghost predicate ReadsValues(step: Stepper)
  {
    forall nodes: seq<Node>, cur: nat, p: Pair, ln: nat {:trigger step(nodes, cur, ValueLine(p), ln)} ::
      WellFormed(nodes) && cur < |nodes| && GoodPair(p) ==>
        step(nodes, cur, ValueLine(p), ln) == Ok(AddValue(nodes, cur, p.0, p.1), cur)
  }

  lemma {:induction false} SteppingReads()
    ensures Reads(Stepping())
  {
    var step := Stepping();
    assert ReadsBlank(step) by {
      forall nodes: seq<Node>, cur: nat, raw: string, ln: nat | WellFormed(nodes) && cur < |nodes| && raw == ""
        ensures step(nodes, cur, raw, ln) == Ok(nodes, cur)
      {
        BlankLine(nodes, cur, raw, ln);
      }
    }
    assert ReadsValues(step) by {
      forall nodes: seq<Node>, cur: nat, p: Pair, ln: nat | WellFormed(nodes) && cur < |nodes| && GoodPair(p)
        ensures step(nodes, cur, ValueLine(p), ln) == Ok(AddValue(nodes, cur, p.0, p.1), cur)
      {
        ValueStep(nodes, cur, p, ln);
      }
    }
    SteppingReadsHeaders();
  }

  lemma {:induction false} SteppingReadsHeaders()
    ensures ReadsHeaders(Stepping())
  {
    var step := Stepping();
    forall nodes: seq<Node>, cur: nat, depth: nat, name: string, ln: nat |
      && WellFormed(nodes) && cur < |nodes| && 0 < depth <= nodes[cur].depth + 1 && CleanName(name)
      && !HasSection(nodes[Ancestor(nodes, cur, depth - 1)].sections, name)
      ensures step(nodes, cur, Header(depth, name), ln) == Ok(AddSection(nodes, Ancestor(nodes, cur, depth - 1), name, depth), |nodes|)
    {
      HeaderLine(nodes, cur, depth, name, ln);
    }
  }

  /** One line, whatever comes behind it. */
  lemma {:induction false} OneStep(step: Stepper, nodes: seq<Node>, cur: nat, line: string, rest1: seq<string>, rest2: seq<string>, ln: nat) returns (s: Parsed)
    requires Keeps(step) && WellFormed(nodes) && cur < |nodes|
    ensures s.Ok? ==> WellFormed(s.nodes) && s.cur < |s.nodes|
    ensures ParseLines(step, nodes, cur, [line] + rest1, ln) ==
            match s case Err(e, n) => Err(e, n) case Ok(nodes2, cur2) => ParseLines(step, nodes2, cur2, rest1, ln + 1)
    ensures ParseLines(step, nodes, cur, [line] + rest2, ln) ==
            match s case Err(e, n) => Err(e, n) case Ok(nodes2, cur2) => ParseLines(step, nodes2, cur2, rest2, ln + 1)
  {
    s := step(nodes, cur, line, ln + 1);
    ParseCons(step, nodes, cur, line, rest1, ln);
    ParseCons(step, nodes, cur, line, rest2, ln);
  }

  lemma {:induction false} ParseBoth(step: Stepper, nodes: seq<Node>, cur: nat, a: seq<string>, b: seq<string>, ln: nat)
    requires Keeps(step) && WellFormed(nodes) && cur < |nodes|
    ensures ParseLines(step, nodes, cur, a + b, ln) ==
            match ParseLines(step, nodes, cur, a, ln)
            case Err(e, n) => Err(e, n)
            case Ok(nodes2, cur2) => ParseLines(step, nodes2, cur2, b, ln + |a|)
    decreases |a|
  {
    if a == [] {
      assert a + b == b;
    } else {
      assert a == [a[0]] + a[1..] && a + b == [a[0]] + (a[1..] + b);
      var s := OneStep(step, nodes, cur, a[0], a[1..] + b, a[1..], ln);
      if s.Ok? {
        ParseBoth(step, s.nodes, s.cur, a[1..], b, ln + 1);
      }
    }
  }

  function AddValues(nodes: seq<Node>, cur: nat, values: seq<Pair>): (r: seq<Node>)
    requires cur < |nodes|
    ensures |r| == |nodes|
  {
    nodes[cur := nodes[cur].(values := nodes[cur].values + values)]
  }

  lemma {:induction false} AddValuesNext(nodes: seq<Node>, cur: nat, values: seq<Pair>)
    requires cur < |nodes| && values != []
    ensures AddValues(AddValue(nodes, cur, values[0].0, values[0].1), cur, values[1..]) == AddValues(nodes, cur, values)
  {
    assert (values[0].0, values[0].1) == values[0];
    assert nodes[cur].values + [values[0]] + values[1..] == nodes[cur].values + values;
  }

  lemma {:induction false} FirstValueParsed(step: Stepper, nodes: seq<Node>, cur: nat, p: Pair, rest: seq<string>, ln: nat)
    requires Reads(step) && WellFormed(nodes) && cur < |nodes| && GoodPair(p)
    ensures var next := AddValue(nodes, cur, p.0, p.1);
            WellFormed(next) && ParseLines(step, nodes, cur, [ValueLine(p)] + rest, ln) == ParseLines(step, next, cur, rest, ln + 1)
  {
    ParseCons(step, nodes, cur, ValueLine(p), rest, ln);
    AddValueWellFormed(nodes, cur, p.0, p.1);
  }

  /** The values of a level go to the current node, in order. */
  lemma {:induction false} ValuesParsed(step: Stepper, nodes: seq<Node>, cur: nat, values: seq<Pair>, ln: nat)
    requires Reads(step) && WellFormed(nodes) && cur < |nodes| && GoodPairs(values)
    ensures ParseLines(step, nodes, cur, ValueLines(values), ln) == Ok(AddValues(nodes, cur, values), cur)
    decreases |values|
  {
    if values == [] {
      assert nodes[cur].values + values == nodes[cur].values;
      assert nodes[cur := nodes[cur]] == nodes;
    } else {
      var next := AddValue(nodes, cur, values[0].0, values[0].1);
      FirstValueParsed(step, nodes, cur, values[0], ValueLines(values[1..]), ln);
      ValuesParsed(step, next, cur, values[1..], ln + 1);
      AddValuesNext(nodes, cur, values);
    }
  }

  lemma {:induction false} ValuesThen(step: Stepper, nodes: seq<Node>, cur: nat, values: seq<Pair>, rest: seq<string>, ln: nat)
    requires Reads(step) && WellFormed(nodes) && cur < |nodes| && GoodPairs(values)
    ensures var next := AddValues(nodes, cur, values);
            && WellFormed(next)
            && ParseLines(step, nodes, cur, ValueLines(values) + rest, ln) == ParseLines(step, next, cur, rest, ln + |values|)
  {
    ValuesParsed(step, nodes, cur, values, ln);
    ParseBoth(step, nodes, cur, ValueLines(values), rest, ln);
  }

  lemma {:induction false} HeaderParsed(step: Stepper, nodes: seq<Node>, cur: nat, depth: nat, name: string, rest: seq<string>, ln: nat)
    requires Reads(step) && WellFormed(nodes) && cur < |nodes| && 0 < depth <= nodes[cur].depth + 1 && CleanName(name)
    requires !HasSection(nodes[Ancestor(nodes, cur, depth - 1)].sections, name)
    ensures var next := AddSection(nodes, Ancestor(nodes, cur, depth - 1), name, depth);
            && WellFormed(next)
            && ParseLines(step, nodes, cur, [Header(depth, name)] + rest, ln) == ParseLines(step, next, |nodes|, rest, ln + 1)
  {
    ParseCons(step, nodes, cur, Header(depth, name), rest, ln);
    AddSectionWellFormed(nodes, Ancestor(nodes, cur, depth - 1), name);
  }

  // ----- trees in the arena ------------------------------------------------------------------

  /** The tree at node i is `l`, and lies below `hi`. */
  ghost predicate Holds(nodes: seq<Node>, i: nat, l: Level, hi: nat)
    decreases l
  {
    && i < hi <= |nodes| && nodes[i].values == l.values && HoldsAll(nodes, i, nodes[i].sections, l.sections, hi)
  }

  ghost predicate HoldsAll(nodes: seq<Node>, i: nat, refs: seq<(string, nat)>, sections: seq<Section>, hi: nat)
    decreases sections
  {
    && |refs| == |sections|
    && forall j {:trigger refs[j]} {:trigger sections[j]} :: 0 <= j < |refs| ==>
         refs[j].0 == sections[j].name && i < refs[j].1 && Holds(nodes, refs[j].1, sections[j].level, hi)
  }

  /** A stored tree is determined by the nodes. */
  lemma {:induction false} HoldsOne(nodes: seq<Node>, i: nat, l: Level, m: Level, hi: nat)
    requires Holds(nodes, i, l, hi) && Holds(nodes, i, m, hi)
    ensures l == m
    decreases l
  {
    forall j | 0 <= j < |l.sections|
      ensures l.sections[j] == m.sections[j]
    {
      var c := nodes[i].sections[j];
      HoldsOne(nodes, c.1, l.sections[j].level, m.sections[j].level, hi);
    }
    assert l.sections == m.sections;
  }

  /** A stored tree is not affected by changes elsewhere. */
  lemma {:induction false} HoldsStill(nodes: seq<Node>, more: seq<Node>, i: nat, l: Level, hi: nat, top: nat)
    requires Holds(nodes, i, l, hi) && hi <= top <= |more|
    requires forall k {:trigger more[k]} :: i <= k < hi ==> more[k] == nodes[k]
    ensures Holds(more, i, l, top)
    decreases l
  {
    assert more[i] == nodes[i];
    forall j | 0 <= j < |l.sections|
      ensures Holds(more, nodes[i].sections[j].1, l.sections[j].level, top)
    {
      HoldsStill(nodes, more, nodes[i].sections[j].1, l.sections[j].level, hi, top);
    }
  }

  /** Ancestors depend on parents and depths only. */
  lemma {:induction false} SameAncestor(nodes: seq<Node>, more: seq<Node>, i: nat, depth: nat)
    requires WellFormed(nodes) && WellFormed(more) && i < |nodes| <= |more| && depth <= nodes[i].depth
    requires forall k {:trigger more[k]} :: 0 <= k < |nodes| ==> more[k].parent == nodes[k].parent && more[k].depth == nodes[k].depth
    ensures more[i].depth == nodes[i].depth && Ancestor(more, i, depth) == Ancestor(nodes, i, depth)
    decreases i
  {
    assert more[i].depth == nodes[i].depth;
    if nodes[i].depth != depth {
      assert HasParent(nodes, i);
      SameAncestor(nodes, more, nodes[i].parent, depth);
    }
  }

  lemma {:induction false} AncestorAbove(nodes: seq<Node>, i: nat, depth: nat)
    requires WellFormed(nodes) && i < |nodes| && 0 < depth <= nodes[i].depth
    ensures Ancestor(nodes, i, depth - 1) == nodes[Ancestor(nodes, i, depth)].parent
    decreases i
  {
    assert HasParent(nodes, i);
    if nodes[i].depth != depth {
      AncestorAbove(nodes, nodes[i].parent, depth);
    }
  }

  // ----- the round trip ------------------------------------------------------------------------

  /** Only node p changes, and it gets new sections; everything else is added behind. */
  ghost predicate Grown(nodes: seq<Node>, p: nat, more: seq<Node>)
  {
    && p < |nodes| <= |more|
    && (forall k {:trigger more[k]} :: 0 <= k < |nodes| && k != p ==> more[k] == nodes[k])
    && more[p].values == nodes[p].values && more[p].parent == nodes[p].parent && more[p].depth == nodes[p].depth
  }

  /** Section `name` with tree `l` was added below p. */
  ghost predicate Added(nodes: seq<Node>, p: nat, name: string, l: Level, depth: nat, r: Parsed)
  {
    && r.Ok? && WellFormed(r.nodes) && |nodes| <= r.cur < |r.nodes| && Grown(nodes, p, r.nodes)
    && r.nodes[p].sections == nodes[p].sections + [(name, |nodes|)]
    && Holds(r.nodes, |nodes|, l, |r.nodes|)
    && depth <= r.nodes[r.cur].depth && Ancestor(r.nodes, r.cur, depth) == |nodes| && r.nodes[|nodes|].parent == p
  }

  /** The sections were added below p, in order. */
  ghost predicate AddedAll(nodes: seq<Node>, p: nat, sections: seq<Section>, depth: nat, r: Parsed)
  {
    && r.Ok? && WellFormed(r.nodes) && p <= r.cur < |r.nodes| && Grown(nodes, p, r.nodes)
    && |r.nodes[p].sections| == |nodes[p].sections| + |sections|
    && r.nodes[p].sections[..|nodes[p].sections|] == nodes[p].sections
    && HoldsAll(r.nodes, p, r.nodes[p].sections[|nodes[p].sections|..], sections, |r.nodes|)
    && depth <= r.nodes[r.cur].depth && Ancestor(r.nodes, r.cur, depth) == p
  }

  ghost predicate Unused(refs: seq<(string, nat)>, sections: seq<Section>)
  {
    forall j {:trigger sections[j]} :: 0 <= j < |sections| ==> !HasSection(refs, sections[j].name)
  }

  /** One section, from any node below its parent. */
  lemma {:induction false} SectionParsed(step: Stepper, nodes: seq<Node>, cur: nat, s: Section, depth: nat, ln: nat)
    requires Reads(step) && WellFormed(nodes) && cur < |nodes| && 0 < depth <= nodes[cur].depth + 1 && CleanName(s.name) && Readable(s.level)
    requires !HasSection(nodes[Ancestor(nodes, cur, depth - 1)].sections, s.name)
    ensures Added(nodes, Ancestor(nodes, cur, depth - 1), s.name, s.level, depth,
                  ParseLines(step, nodes, cur, [Header(depth, s.name)] + LevelLines(s.level, depth), ln))
    decreases s, 1
  {
    var p, me := Ancestor(nodes, cur, depth - 1), |nodes|;
    HeaderParsed(step, nodes, cur, depth, s.name, LevelLines(s.level, depth), ln);
    var n1 := AddSection(nodes, p, s.name, depth);
    ValuesThen(step, n1, me, s.level.values, SectionLines(s.level.sections, depth + 1), ln + 1);
    var n2 := AddValues(n1, me, s.level.values);
    var l2 := ln + 1 + |s.level.values|;
    SectionsParsed(step, n2, me, me, s.level.sections, depth, l2);
    Assembled(nodes, p, s.name, s.level, depth, ParseLines(step, n2, me, SectionLines(s.level.sections, depth + 1), l2));
  }

  /** The parts of a section make the whole. */
  lemma {:induction false} Assembled(nodes: seq<Node>, p: nat, name: string, l: Level, depth: nat, r: Parsed)
    requires WellFormed(nodes) && p < |nodes|
    requires var n1 := AddSection(nodes, p, name, depth);
             AddedAll(AddValues(n1, |nodes|, l.values), |nodes|, l.sections, depth, r)
    ensures Added(nodes, p, name, l, depth, r)
  {
    var me := |nodes|;
    var n2 := AddValues(AddSection(nodes, p, name, depth), me, l.values);
    assert n2[me] == Node([] + l.values, [], p, depth);
    assert [] + l.values == l.values;
    assert r.nodes[me].sections[0..] == r.nodes[me].sections;
    assert r.nodes[p] == n2[p];
  }

  /** The sections of node p, one after the other. */
  lemma {:induction false} SectionsParsed(step: Stepper, nodes: seq<Node>, cur: nat, p: nat, sections: seq<Section>, depth: nat, ln: nat)
    requires Reads(step) && WellFormed(nodes) && p <= cur < |nodes| && depth <= nodes[cur].depth && Ancestor(nodes, cur, depth) == p
    requires ReadableAll(sections) && Unused(nodes[p].sections, sections)
    ensures AddedAll(nodes, p, sections, depth, ParseLines(step, nodes, cur, SectionLines(sections, depth + 1), ln))
    decreases sections, 1
  {
    if sections == [] {
      NoneAdded(nodes, cur, p, depth);
    } else {
      var r, ln2 := FirstSectionParsed(step, nodes, cur, p, sections, depth, ln);
      SectionsParsed(step, r.nodes, r.cur, p, sections[1..], depth, ln2);
      OneMoreAdded(nodes, p, sections, depth, r, ParseLines(step, r.nodes, r.cur, SectionLines(sections[1..], depth + 1), ln2));
    }
  }

  lemma {:induction false} FirstSectionParsed(step: Stepper, nodes: seq<Node>, cur: nat, p: nat, sections: seq<Section>, depth: nat, ln: nat)
    returns (r: Parsed, ln2: nat)
    requires Reads(step) && WellFormed(nodes) && p <= cur < |nodes| && depth <= nodes[cur].depth && Ancestor(nodes, cur, depth) == p
    requires sections != [] && ReadableAll(sections) && Unused(nodes[p].sections, sections)
    ensures Added(nodes, p, sections[0].name, sections[0].level, depth + 1, r)
    ensures WellFormed(r.nodes) && p <= r.cur < |r.nodes| && depth <= r.nodes[r.cur].depth && Ancestor(r.nodes, r.cur, depth) == p
    ensures ReadableAll(sections[1..]) && Unused(r.nodes[p].sections, sections[1..])
    ensures ParseLines(step, nodes, cur, SectionLines(sections, depth + 1), ln)
         == ParseLines(step, r.nodes, r.cur, SectionLines(sections[1..], depth + 1), ln2)
    decreases sections, 0
  {
    SectionParsed(step, nodes, cur, sections[0], depth + 1, ln);
    r, ln2 := RestAfterFirst(step, nodes, cur, sections, depth + 1, ln);
    ReadyForNext(nodes, p, sections, depth, r);
  }

  lemma {:induction false} RestAfterFirst(step: Stepper, nodes: seq<Node>, cur: nat, sections: seq<Section>, depth: nat, ln: nat)
    returns (r: Parsed, ln2: nat)
    requires Reads(step) && WellFormed(nodes) && cur < |nodes| && sections != []
    requires ParseLines(step, nodes, cur, [Header(depth, sections[0].name)] + LevelLines(sections[0].level, depth), ln).Ok?
    ensures r == ParseLines(step, nodes, cur, [Header(depth, sections[0].name)] + LevelLines(sections[0].level, depth), ln)
    ensures ParseLines(step, nodes, cur, SectionLines(sections, depth), ln)
         == ParseLines(step, r.nodes, r.cur, SectionLines(sections[1..], depth), ln2)
  {
    var first := [Header(depth, sections[0].name)] + LevelLines(sections[0].level, depth);
    ParseBoth(step, nodes, cur, first, SectionLines(sections[1..], depth), ln);
    r, ln2 := ParseLines(step, nodes, cur, first, ln), ln + |first|;
  }

  lemma {:induction false} NoneAdded(nodes: seq<Node>, cur: nat, p: nat, depth: nat)
    requires WellFormed(nodes) && p <= cur < |nodes| && depth <= nodes[cur].depth && Ancestor(nodes, cur, depth) == p
    ensures AddedAll(nodes, p, [], depth, Ok(nodes, cur))
  {
    assert nodes[p].sections[|nodes[p].sections|..] == [];
  }

  lemma {:induction false} ReadyForNext(nodes: seq<Node>, p: nat, sections: seq<Section>, depth: nat, r: Parsed)
    requires sections != [] && p < |nodes| && ReadableAll(sections) && Unused(nodes[p].sections, sections)
    requires Added(nodes, p, sections[0].name, sections[0].level, depth + 1, r)
    ensures WellFormed(r.nodes) && p <= r.cur < |r.nodes| && depth <= r.nodes[r.cur].depth && Ancestor(r.nodes, r.cur, depth) == p
    ensures ReadableAll(sections[1..]) && Unused(r.nodes[p].sections, sections[1..])
  {
    AncestorAbove(r.nodes, r.cur, depth + 1);
    StillUnused(nodes[p].sections, sections, |nodes|);
  }

  lemma {:induction false} StillUnused(refs: seq<(string, nat)>, sections: seq<Section>, c: nat)
    requires sections != [] && ReadableAll(sections) && Unused(refs, sections)
    ensures ReadableAll(sections[1..]) && Unused(refs + [(sections[0].name, c)], sections[1..])
  {
    ReadableTail(sections);
    var rest := sections[1..];
    forall j | 0 <= j < |rest|
      ensures !HasSection(refs + [(sections[0].name, c)], rest[j].name)
    {
      assert rest[j] == sections[j + 1];
      assert sections[0].name != sections[j + 1].name;
    }
  }

  lemma {:induction false} OneMoreAdded(nodes: seq<Node>, p: nat, sections: seq<Section>, depth: nat, r: Parsed, t: Parsed)
    requires sections != [] && WellFormed(nodes) && Added(nodes, p, sections[0].name, sections[0].level, depth + 1, r)
    requires AddedAll(r.nodes, p, sections[1..], depth, t)
    ensures AddedAll(nodes, p, sections, depth, t)
  {
    var k := |nodes[p].sections|;
    var refs: seq<(string, nat)> := t.nodes[p].sections;
    assert refs[..k + 1] == nodes[p].sections + [(sections[0].name, |nodes|)];
    assert refs[..k] == refs[..k + 1][..k] && refs[k] == refs[..k + 1][k];
    HoldsStill(r.nodes, t.nodes, |nodes|, sections[0].level, |r.nodes|, |t.nodes|);
    forall j | 0 <= j < |sections|
      ensures refs[k..][j].0 == sections[j].name && p < refs[k..][j].1 && Holds(t.nodes, refs[k..][j].1, sections[j].level, |t.nodes|)
    {
      if j > 0 {
        assert refs[k..][j] == refs[k + 1..][j - 1] && sections[j] == sections[1..][j - 1];
      }
    }
  }

  lemma {:induction false} TopParsed(step: Stepper, l: Level, start: seq<Node>, top: nat, depth: nat, ln: nat)
    requires Reads(step) && Readable(l) && depth == 0 == top && start == [Node([], [], top, depth)]
    ensures WellFormed(start)
    ensures var r := ParseLines(step, start, top, LevelLines(l, depth), ln);
            r.Ok? && Holds(r.nodes, top, l, |r.nodes|)
  {
    assert WellFormed(start);
    ValuesThen(step, start, top, l.values, SectionLines(l.sections, depth + 1), ln);
    var n2 := AddValues(start, top, l.values);
    assert n2[top] == Node([] + l.values, [], top, depth) && [] + l.values == l.values;
    SectionsParsed(step, n2, top, top, l.sections, depth, ln + |l.values|);
    TopAssembled(l, n2, top, depth, ParseLines(step, n2, top, SectionLines(l.sections, depth + 1), ln + |l.values|));
  }

  lemma {:induction false} TopAssembled(l: Level, nodes: seq<Node>, top: nat, depth: nat, r: Parsed)
    requires top < |nodes| && nodes[top].values == l.values && nodes[top].sections == []
    requires AddedAll(nodes, top, l.sections, depth, r)
    ensures Holds(r.nodes, top, l, |r.nodes|)
  {
    assert r.nodes[top].sections[0..] == r.nodes[top].sections;
  }

  // ----- blank lines do not matter --------------------------------------------------------------------

  /** What a line does does not depend on its number, unless it is an error. */
  ghost predicate CountsOnly(step: Stepper)
  {
    forall nodes: seq<Node>, cur: nat, raw: string, ln: nat, ln2: nat {:trigger step(nodes, cur, raw, ln), step(nodes, cur, raw, ln2)} ::
      step(nodes, cur, raw, ln).Ok? ==> step(nodes, cur, raw, ln2) == step(nodes, cur, raw, ln)
  }

  lemma {:induction false} SteppingCountsOnly()
    ensures CountsOnly(Stepping())
  {
  }

  lemma {:induction false} BlanksDoNotMatter(step: Stepper, nodes: seq<Node>, cur: nat, lines: seq<string>, ln: nat, ln2: nat)
    requires Reads(step) && CountsOnly(step) && WellFormed(nodes) && cur < |nodes|
    requires ParseLines(step, nodes, cur, NonBlank(lines), ln2).Ok?
    ensures ParseLines(step, nodes, cur, lines, ln) == ParseLines(step, nodes, cur, NonBlank(lines), ln2)
    decreases |lines|
  {
    if lines != [] {
      assert lines == [lines[0]] + lines[1..];
      ParseCons(step, nodes, cur, lines[0], lines[1..], ln);
      if lines[0] == "" {
        assert NonBlank(lines) == NonBlank(lines[1..]);
        BlanksDoNotMatter(step, nodes, cur, lines[1..], ln + 1, ln2);
      } else {
        ParseCons(step, nodes, cur, lines[0], NonBlank(lines[1..]), ln2);
        var s := step(nodes, cur, lines[0], ln2 + 1);
        assert step(nodes, cur, lines[0], ln + 1) == s;
        BlanksDoNotMatter(step, s.nodes, s.cur, lines[1..], ln + 1, ln2 + 1);
      }
    }
  }

  /** Parsing what was printed yields the tree that was printed, for every good tree:
      same values, same sections, same order, at every depth. */
  lemma {:induction false} GoodSurvives(l: Level, depth: nat, name: string)
    requires Readable(l) && Spaced(Headings(l.sections, depth + 1)) && depth == 0 && name == ""
    ensures var r := ParseText(Dump(l, depth, name));
            r.Ok? && Holds(r.nodes, 0, l, |r.nodes|)
  {
    var heads := Headings(l.sections, depth + 1);
    GoodLines(l, heads, depth);
    DumpedLines(l, depth, name, heads);
    SteppingReads();
    SteppingCountsOnly();
    TopParsed(Stepping(), l, Top, 0, depth, 0);
    BlanksDoNotMatter(Stepping(), Top, 0, Merge(AllPieces(l.values, heads), ""), 0, 0);
  }
}
