/** The INI parser and printer (udap/ini.hpp). */
module Ini {
  import opened Bytes

  type Pair = (string, string)

  /** A section tree, values and sections in order. */
  datatype Level = Level(values: seq<Pair>, sections: seq<Section>)
  datatype Section = Section(name: string, level: Level)

  // ----- text -------------------------------------------------------------------------

  /** strchr also finds the terminator of the set it searches. */
  predicate Blank(c: char) {
    c == ' ' || c == '\t' || c == '\r' || c == '\n' || c == '\0'
  }

  /** The first index from `i` on that is not blank. */
  function Lead(s: string, i: nat): (k: nat)
    requires i <= |s|
    ensures i <= k <= |s| && (k < |s| ==> !Blank(s[k])) && forall j :: i <= j < k ==> Blank(s[j])
    decreases |s| - i
  {
    if i < |s| && Blank(s[i]) then Lead(s, i + 1) else i
  }

  /** One past the last index below `e` that is not blank. */
  function Tail(s: string, e: nat): (k: nat)
    requires e <= |s|
    ensures k <= e && (k > 0 ==> !Blank(s[k - 1])) && forall j :: k <= j < e ==> Blank(s[j])
  {
    if e > 0 && Blank(s[e - 1]) then Tail(s, e - 1) else e
  }

  function Trim(s: string): (t: string)
  {
    if Lead(s, 0) >= Tail(s, |s|) then "" else s[Lead(s, 0)..Tail(s, |s|)]
  }

  predicate Trimmed(s: string) {
    s == "" || (!Blank(s[0]) && !Blank(s[|s| - 1]))
  }

  /** `s` from a to b, with nothing but delimiters cut off. */
  predicate CutOut(s: string, a: nat, b: nat, t: string) {
    && a <= b <= |s| && t == s[a..b]
    && (forall i :: 0 <= i < a ==> s[i] in " \t\r\n\0") && (forall i :: b <= i < |s| ==> s[i] in " \t\r\n\0")
  }

  /** Trimming gives a trimmed text, and leaves a trimmed text alone. */
  lemma TrimLaws(s: string)
    ensures Trimmed(Trim(s)) && (Trimmed(s) ==> Trim(s) == s)
  {
    if Trimmed(s) && s != "" {
      assert Lead(s, 0) == 0 && Tail(s, |s|) == |s|;
    }
  }

  /** It cuts delimiters off both ends and nothing else. */
  lemma {:induction false} TrimCuts(s: string)
    ensures exists a: nat, b: nat :: CutOut(s, a, b, Trim(s))
    ensures Trim(s) != "" ==> Trim(s)[0] !in " \t\r\n\0" && Trim(s)[|Trim(s)| - 1] !in " \t\r\n\0"
  {
    if Lead(s, 0) >= Tail(s, |s|) {
      assert Trim(s) == "";
      assert CutOut(s, Lead(s, 0), Lead(s, 0), Trim(s));
    } else {
      assert CutOut(s, Lead(s, 0), Tail(s, |s|), Trim(s));
    }
  }

  /** trim, with its two indices. */
  method TrimLoop(s: string) returns (t: string)
    ensures t == Trim(s)
  {
    var sp: int, ep: int := 0, |s| - 1;
    while sp <= ep
      invariant 0 <= sp <= |s| && Lead(s, 0) == Lead(s, sp)
      decreases |s| - sp
    {
      if !Blank(s[sp]) {
        break;
      }
      sp := sp + 1;
    }
    while ep >= 0
      invariant -1 <= ep < |s| && Tail(s, |s|) == Tail(s, ep + 1)
      decreases ep + 1
    {
      if !Blank(s[ep]) {
        break;
      }
      ep := ep - 1;
    }
    // substr with a count that may be negative: then there is nothing at sp
    t := if ep - sp + 1 <= 0 then "" else s[sp..ep + 1];
  }

  function Find(s: string, c: char, i: nat): (k: Option<nat>)
    requires i <= |s|
    ensures k.Some? ==> i <= k.value < |s| && s[k.value] == c && forall j :: i <= j < k.value ==> s[j] != c
    ensures k.None? ==> forall j :: i <= j < |s| ==> s[j] != c
    decreases |s| - i
  {
    if i == |s| then None else if s[i] == c then Some(i) else Find(s, c, i + 1)
  }

  /** The lines getline yields: a text that ends in a newline has no empty line
      behind it. */
  function Lines(text: string): (l: seq<string>)
    decreases |text|
  {
    if text == "" then []
    else match Find(text, '\n', 0)
         case None => [text]
         case Some(k) => [text[..k]] + Lines(text[k + 1..])
  }

  predicate OneLine(s: string) {
    forall i :: 0 <= i < |s| ==> s[i] != '\n'
  }

  // ----- printing ------------------------------------------------------------------------

  function Repeat(c: char, n: nat): (s: string)
    ensures |s| == n && forall i :: 0 <= i < n ==> s[i] == c
  {
    if n == 0 then "" else [c] + Repeat(c, n - 1)
  }

  function DumpValues(values: seq<Pair>): (t: string)
  {
    if values == [] then "" else values[0].0 + "=" + values[0].1 + "\n" + DumpValues(values[1..])
  }

  function DumpHeader(depth: nat, name: string): (t: string)
  {
    if name != "" then "\n" + Repeat('[', depth) + name + Repeat(']', depth) + "\n"
    else Repeat('[', depth) + Repeat(']', depth)
  }

  function DumpSections(sections: seq<Section>, depth: nat): (t: string)
    decreases sections
  {
    if sections == [] then ""
    else Dump(sections[0].level, depth, sections[0].name) + DumpSections(sections[1..], depth)
  }

  /** What dump prints for a level at a depth; the top has depth 0 and no name. */
  function Dump(l: Level, depth: nat, name: string): (t: string)
    decreases l
  {
    DumpHeader(depth, name) + DumpValues(l.values) + DumpSections(l.sections, depth + 1)
  }

  method DumpValuesLoop(values: seq<Pair>) returns (r: string)
    ensures r == DumpValues(values)
  {
    r := "";
    var i := 0;
    while i < |values|
      invariant i <= |values| && r == DumpValues(values[..i])
    {
      ValuesSnoc(values[..i], values[i]);
      assert values[..i] + [values[i]] == values[..i + 1];
      r := r + (values[i].0 + "=" + values[i].1 + "\n");
      i := i + 1;
    }
    assert values[..i] == values;
  }

  lemma {:induction false} ValuesSnoc(values: seq<Pair>, p: Pair)
    ensures DumpValues(values + [p]) == DumpValues(values) + (p.0 + "=" + p.1 + "\n")
  {
    if values == [] {
      assert (values + [p])[1..] == [];
    } else {
      ValuesSnoc(values[1..], p);
      assert (values + [p])[1..] == values[1..] + [p];
    }
  }

  lemma {:induction false} SectionsSnoc(sections: seq<Section>, s: Section, depth: nat)
    ensures DumpSections(sections + [s], depth) == DumpSections(sections, depth) + Dump(s.level, depth, s.name)
  {
    if sections == [] {
      assert (sections + [s])[1..] == [];
    } else {
      SectionsSnoc(sections[1..], s, depth);
      assert (sections + [s])[1..] == sections[1..] + [s];
    }
  }

  lemma {:induction false} SectionsUpTo(sections: seq<Section>, i: nat, depth: nat)
    requires i < |sections|
    ensures DumpSections(sections[..i + 1], depth) == DumpSections(sections[..i], depth) + Dump(sections[i].level, depth, sections[i].name)
  {
    assert sections[..i] + [sections[i]] == sections[..i + 1];
    SectionsSnoc(sections[..i], sections[i], depth);
  }

  method Brackets(c: char, depth: nat, out: string) returns (r: string)
    ensures r == out + Repeat(c, depth)
  {
    r := out;
    var i := 0;
    while i < depth
      invariant i <= depth && r == out + Repeat(c, i)
    {
      r := r + [c];
      assert Repeat(c, i) + [c] == Repeat(c, i + 1);
      i := i + 1;
    }
  }

  method DumpHeaderLoop(depth: nat, name: string) returns (r: string)
    ensures r == DumpHeader(depth, name)
  {
    r := "";
    if name != "" {
      r := "\n";
    }
    r := Brackets('[', depth, r);
    r := r + name;
    r := Brackets(']', depth, r);
    if name != "" {
      r := r + "\n";
    }
  }

  /** dump. */
  method DumpLoop(l: Level, depth: nat, name: string) returns (r: string)
    ensures r == Dump(l, depth, name)
    decreases l
  {
    var header := DumpHeaderLoop(depth, name);
    var values := DumpValuesLoop(l.values);
    var sections := DumpSectionsLoop(l.sections, depth + 1);
    r := header + values + sections;
  }

  method DumpSectionsLoop(sections: seq<Section>, depth: nat) returns (r: string)
    ensures r == DumpSections(sections, depth)
    decreases sections
  {
    r := "";
    var i := 0;
    while i < |sections|
      invariant i <= |sections| && r == DumpSections(sections[..i], depth)
    {
      SectionsUpTo(sections, i, depth);
      var one := DumpLoop(sections[i].level, depth, sections[i].name);
      r := r + one;
      i := i + 1;
    }
    assert sections[..i] == sections;
  }

  // ----- parsing -------------------------------------------------------------------------

  /** A level as the parser keeps it: sections name other nodes, and `parent` is the
      pointer to go back by. The top is node 0 and its own parent here. */
  datatype Node = Node(values: seq<Pair>, sections: seq<(string, nat)>, parent: nat, depth: nat)

  datatype Error = WrongDepth | Duplicate | NoEquals

  /** The nodes with the one being filled, or the error and its line number. */
  datatype Parsed = Ok(nodes: seq<Node>, cur: nat) | Err(error: Error, line: nat)

  predicate WellFormed(nodes: seq<Node>)
  {
    && |nodes| > 0 && nodes[0].depth == 0
    && forall i {:trigger HasParent(nodes, i)} :: 0 < i < |nodes| ==> HasParent(nodes, i)
  }

  predicate HasParent(nodes: seq<Node>, i: nat)
    requires i < |nodes|
  {
    nodes[i].parent < i && nodes[i].depth == nodes[nodes[i].parent].depth + 1
  }

  /** The ancestor of i at the given depth. */
  function Ancestor(nodes: seq<Node>, i: nat, depth: nat): (a: nat)
    requires WellFormed(nodes) && i < |nodes| && depth <= nodes[i].depth
    ensures a <= i && a < |nodes| && nodes[a].depth == depth
  {
    if nodes[i].depth == depth then i
    else
      assert HasParent(nodes, i);
      Ancestor(nodes, nodes[i].parent, depth)
  }

  predicate HasSection(sections: seq<(string, nat)>, name: string) {
    exists i {:trigger sections[i]} :: 0 <= i < |sections| && sections[i].0 == name
  }

  /** The number of brackets a line opens with, from index i on. */
  function Opening(line: string, i: nat): (depth: nat)
    requires i <= |line|
    ensures i <= depth <= |line| && (depth < |line| ==> line[depth] != '[') && forall j :: i <= j < depth ==> line[j] == '['
    decreases |line| - i
  {
    if i < |line| && line[i] == '[' then Opening(line, i + 1) else i
  }

  /** substr(depth, length - 2 * depth), whose count wraps around when negative. */
  function SectionName(line: string, depth: nat): (name: string)
    requires depth <= |line|
  {
    if |line| < 2 * depth then line[depth..] else line[depth..|line| - depth]
  }

  function AddSection(nodes: seq<Node>, p: nat, name: string, depth: nat): (r: seq<Node>)
    requires p < |nodes|
  {
    nodes[p := nodes[p].(sections := nodes[p].sections + [(name, |nodes|)])] + [Node([], [], p, depth)]
  }

  function AddValue(nodes: seq<Node>, i: nat, k: string, v: string): (r: seq<Node>)
    requires i < |nodes|
  {
    nodes[i := nodes[i].(values := nodes[i].values + [(k, v)])]
  }

  lemma AddSectionWellFormed(nodes: seq<Node>, p: nat, name: string)
    requires WellFormed(nodes) && p < |nodes|
    ensures WellFormed(AddSection(nodes, p, name, nodes[p].depth + 1))
  {
    var r := AddSection(nodes, p, name, nodes[p].depth + 1);
    forall i | 0 < i < |r|
      ensures HasParent(r, i)
    {
      assert i < |nodes| ==> HasParent(nodes, i);
    }
  }

  lemma AddValueWellFormed(nodes: seq<Node>, i: nat, k: string, v: string)
    requires WellFormed(nodes) && i < |nodes|
    ensures WellFormed(AddValue(nodes, i, k, v))
  {
    var r := AddValue(nodes, i, k, v);
    forall j | 0 < j < |r|
      ensures HasParent(r, j)
    {
      assert HasParent(nodes, j);
    }
  }

  /** A line that opens a section. */
  function OnHeader(nodes: seq<Node>, cur: nat, line: string, ln: nat): (r: Parsed)
    requires WellFormed(nodes) && cur < |nodes| && line != "" && line[0] == '['
    ensures r.Ok? ==> WellFormed(r.nodes) && r.cur < |r.nodes|
  {
    var depth := Opening(line, 0);
    if depth > nodes[cur].depth + 1 then Err(WrongDepth, ln)
    else
      var p := Ancestor(nodes, cur, depth - 1);
      var name := SectionName(line, depth);
      if HasSection(nodes[p].sections, name) then Err(Duplicate, ln)
      else
        AddSectionWellFormed(nodes, p, name);
        Ok(AddSection(nodes, p, name, depth), |nodes|)
  }

  function OnValue(nodes: seq<Node>, cur: nat, line: string, ln: nat): (r: Parsed)
    requires WellFormed(nodes) && cur < |nodes|
    ensures r.Ok? ==> WellFormed(r.nodes) && r.cur < |r.nodes|
  {
    match Find(line, '=', 0)
    case None => Err(NoEquals, ln)
    case Some(n) =>
      AddValueWellFormed(nodes, cur, Trim(line[..n]), Trim(line[n + 1..]));
      Ok(AddValue(nodes, cur, Trim(line[..n]), Trim(line[n + 1..])), cur)
  }

  /** One round of the loop in parse. */
  function Step(nodes: seq<Node>, cur: nat, raw: string, ln: nat): (r: Parsed)
    requires WellFormed(nodes) && cur < |nodes|
    ensures r.Ok? ==> WellFormed(r.nodes) && r.cur < |r.nodes|
  {
    if raw != "" && (raw[0] == '#' || raw[0] == ';') then Ok(nodes, cur)
    else
      var line := Trim(raw);
      if line == "" then Ok(nodes, cur)
      else if line[0] == '[' then OnHeader(nodes, cur, line, ln)
      else OnValue(nodes, cur, line, ln)
  }

  /** What is done with one line. */
  type Stepper = (seq<Node>, nat, string, nat) -> Parsed

  ghost predicate Keeps(step: Stepper)
  {
    forall nodes: seq<Node>, cur: nat, raw: string, ln: nat {:trigger step(nodes, cur, raw, ln)} ::
      WellFormed(nodes) && cur < |nodes| && step(nodes, cur, raw, ln).Ok? ==>
        WellFormed(step(nodes, cur, raw, ln).nodes) && step(nodes, cur, raw, ln).cur < |step(nodes, cur, raw, ln).nodes|
  }

  function Stepping(): (step: Stepper)
    ensures Keeps(step)
  {
    (nodes: seq<Node>, cur: nat, raw: string, ln: nat) => if WellFormed(nodes) && cur < |nodes| then Step(nodes, cur, raw, ln) else Err(WrongDepth, ln)
  }

  /** The rest of the lines; `ln` counts those before. */
  function ParseLines(step: Stepper, nodes: seq<Node>, cur: nat, lines: seq<string>, ln: nat): (r: Parsed)
    requires Keeps(step) && WellFormed(nodes) && cur < |nodes|
    ensures r.Ok? ==> WellFormed(r.nodes) && r.cur < |r.nodes|
    decreases |lines|
  {
    if lines == [] then Ok(nodes, cur)
    else match step(nodes, cur, lines[0], ln + 1)
         case Err(e, n) => Err(e, n)
         case Ok(nodes2, cur2) => ParseLines(step, nodes2, cur2, lines[1..], ln + 1)
  }

  const Top := [Node([], [], 0, 0)]

  function ParseText(text: string): (r: Parsed)
  {
    ParseLines(Stepping(), Top, 0, Lines(text), 0)
  }

  /** parseSLine. */
  method ParseSLine(line: string) returns (name: string, depth: nat)
    ensures depth == Opening(line, 0) && name == SectionName(line, depth)
  {
    depth := 0;
    while depth < |line|
      invariant depth <= |line| && Opening(line, 0) == Opening(line, depth)
    {
      if line[depth] != '[' {
        break;
      }
      depth := depth + 1;
    }
    name := SectionName(line, depth);
  }

  /** Going up by parent pointers, as often as the source counts, ends at the ancestor. */
  method GoUp(nodes: seq<Node>, cur: nat, depth: nat) returns (p: nat)
    requires WellFormed(nodes) && cur < |nodes| && 0 < depth <= nodes[cur].depth
    ensures p == Ancestor(nodes, cur, depth - 1)
  {
    assert HasParent(nodes, cur);
    p := nodes[cur].parent;
    var n := nodes[cur].depth - depth;
    var i := 0;
    while i < n
      invariant 0 <= i <= n && p < |nodes| && nodes[p].depth == nodes[cur].depth - 1 - i
      invariant Ancestor(nodes, p, depth - 1) == Ancestor(nodes, cur, depth - 1)
    {
      assert HasParent(nodes, p);
      p := nodes[p].parent;
      i := i + 1;
    }
  }

  /** `input` is what getline has yet to yield. */
  class Parser {
    var input: seq<string>
    var line: string
    var ln: nat
    var nodes: seq<Node>
    var error: Option<Error>

    constructor (text: string)
      ensures error.None? <==> ParseText(text).Ok?
      ensures match ParseText(text)
              case Ok(n, _) => nodes == n
              case Err(e, n) => error == Some(e) && ln == n
    {
      input, line, ln, nodes, error := Lines(text), "", 0, Top, None;
      new;
      Parse(0);
    }

    /** std::getline. */
    method GetLine() returns (ok: bool)
      modifies this`input, this`line
      ensures ok <==> old(input) != []
      ensures if ok then line == old(input)[0] && input == old(input)[1..] else input == old(input)
    {
      if input == [] {
        return false;
      }
      line, input := input[0], input[1..];
      return true;
    }

    /** The branch of the loop in parse for a line that opens a section. */
    method ParseHeader(l: nat) returns (next: nat)
      requires WellFormed(nodes) && l < |nodes| && error.None? && line != "" && line[0] == '['
      modifies this`nodes, this`error
      ensures match OnHeader(old(nodes), l, line, ln)
              case Ok(n, c) => error.None? && nodes == n && next == c
              case Err(e, n) => error == Some(e) && ln == n
    {
      next := l;
      var name, depth := ParseSLine(line);
      if depth > nodes[l].depth + 1 {
        error := Some(WrongDepth);
        return;
      }
      var parent := l;
      if nodes[l].depth != depth - 1 {
        parent := GoUp(nodes, l, depth);
      }
      if HasSection(nodes[parent].sections, name) {
        error := Some(Duplicate);
        return;
      }
      nodes := AddSection(nodes, parent, name, depth);
      next := |nodes| - 1;
    }

    /** The branch for a key and its value. */
    method ParseValue(l: nat)
      requires WellFormed(nodes) && l < |nodes| && error.None?
      modifies this`nodes, this`error
      ensures match OnValue(old(nodes), l, line, ln)
              case Ok(n, c) => error.None? && nodes == n && c == l
              case Err(e, n) => error == Some(e) && ln == n
    {
      var n := Find(line, '=', 0);
      if n.None? {
        error := Some(NoEquals);
        return;
      }
      var k := TrimLoop(line[..n.value]);
      var v := TrimLoop(line[n.value + 1..]);
      nodes := AddValue(nodes, l, k, v);
    }

    /** One round of the loop in parse on the current line; `next` is the level to
        go on with. */
    method ParseLine(l: nat) returns (next: nat)
      requires WellFormed(nodes) && l < |nodes| && error.None?
      modifies this`line, this`nodes, this`error
      ensures match Step(old(nodes), l, old(line), ln)
              case Ok(n, c) => error.None? && nodes == n && next == c
              case Err(e, n) => error == Some(e) && ln == n
    {
      next := l;
      if line != "" && (line[0] == '#' || line[0] == ';') {
        return;
      }
      line := TrimLoop(line);
      if line == "" {
        return;
      }
      if line[0] == '[' {
        next := ParseHeader(l);
      } else {
        ParseValue(l);
      }
    }

    /** The same round, as the first of the rounds that are left. */
    method ParseRound(l: nat) returns (next: nat)
      requires WellFormed(nodes) && l < |nodes| && error.None?
      modifies this`line, this`ln, this`nodes, this`error
      ensures ln == old(ln) + 1
      ensures var whole := ParseLines(Stepping(), old(nodes), l, [old(line)] + input, old(ln));
              if error.Some? then whole == Err(error.value, ln)
              else WellFormed(nodes) && next < |nodes| && whole == ParseLines(Stepping(), nodes, next, input, ln)
    {
      ghost var step := Stepping();
      ghost var one := step(nodes, l, line, ln + 1);
      ParseCons(step, nodes, l, line, input, ln);
      ln := ln + 1;
      next := ParseLine(l);
      assert one == if error.Some? then Err(error.value, ln) else Ok(nodes, next);
    }

    /** parse: fills level l and, once a section opens, goes on with that one. */
    method Parse(l: nat)
      requires WellFormed(nodes) && l < |nodes| && error.None?
      modifies this
      ensures match ParseLines(Stepping(), old(nodes), l, old(input), old(ln))
              case Ok(n, _) => error.None? && nodes == n && input == []
              case Err(e, n) => error == Some(e) && ln == n
      decreases |input|
    {
      ghost var whole := ParseLines(Stepping(), nodes, l, input, ln);
      assert input != [] ==> [input[0]] + input[1..] == input;
      var more := GetLine();
      while more
        invariant error.None?
        invariant more ==> WellFormed(nodes) && l < |nodes| && |input| < |old(input)|
                           && whole == ParseLines(Stepping(), nodes, l, [line] + input, ln)
        invariant !more ==> input == [] && whole.Ok? && whole.nodes == nodes
        decreases more, |input|
      {
        var next := ParseRound(l);
        if error.Some? {
          return;
        }
        if next != l {
          Parse(next);
          if error.Some? {
            return;
          }
        }
        assert input != [] ==> [input[0]] + input[1..] == input;
        more := GetLine();
      }
    }
  }

  lemma ParseCons(step: Stepper, nodes: seq<Node>, cur: nat, line: string, rest: seq<string>, ln: nat)
    requires Keeps(step) && WellFormed(nodes) && cur < |nodes|
    ensures ParseLines(step, nodes, cur, [line] + rest, ln) ==
            match step(nodes, cur, line, ln + 1)
            case Err(e, n) => Err(e, n)
            case Ok(nodes2, cur2) => ParseLines(step, nodes2, cur2, rest, ln + 1)
  {
    assert ([line] + rest)[1..] == rest;
  }
}
