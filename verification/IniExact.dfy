/** Exactly which trees survive printing and parsing (udap/ini.hpp).

    Every line the parser reads adds at most one section or one value, so a file with
    fewer such lines than the tree has sections and values cannot give it back; and
    what a parser adds is clean. */
module IniExact {
  import opened Bytes
  import opened Ini
  import opened IniRoundTrip

  // ----- what one line can do ---------------------------------------------------------------

  datatype Effect = Nothing | NewSection(depth: nat, name: string) | NewValue(k: string, v: string)

  /** A line that is neither blank nor a comment. */
  predicate Productive(raw: string) {
    !(raw != "" && (raw[0] == '#' || raw[0] == ';')) && Trim(raw) != ""
  }

  function Count(lines: seq<string>): (n: nat)
  {
    if lines == [] then 0 else (if Productive(lines[0]) then 1 else 0) + Count(lines[1..])
  }

  /** The effect of a line on the nodes, with what it adds clean. */
  ghost predicate Happens(nodes: seq<Node>, cur: nat, e: Effect, r: Parsed)
    requires WellFormed(nodes) && cur < |nodes|
  {
    match e
    case Nothing => r == Ok(nodes, cur)
    case NewSection(depth, name) =>
      && 0 < depth <= nodes[cur].depth + 1 && CleanName(name)
      && var p := Ancestor(nodes, cur, depth - 1);
         !HasSection(nodes[p].sections, name) && r == Ok(AddSection(nodes, p, name, depth), |nodes|)
    case NewValue(k, v) => CleanPair((k, v)) && r == Ok(AddValue(nodes, cur, k, v), cur)
  }

  lemma {:induction false} TrimOneLine(s: string)
    requires OneLine(s)
    ensures OneLine(Trim(s)) && Trimmed(Trim(s))
  {
    TrimLaws(s);
    var a, b := Lead(s, 0), Tail(s, |s|);
    if a < b {
      forall i | 0 <= i < b - a
        ensures s[a..b][i] != '\n'
      {
        assert s[a..b][i] == s[a + i];
      }
    }
  }

  /** A key keeps its first character: the line it is cut from is trimmed. */
  lemma {:induction false} KeyStart(line: string, n: nat)
    requires Trimmed(line) && n < |line|
    ensures Trim(line[..n]) != "" ==> Trim(line[..n])[0] == line[0]
  {
    var key := line[..n];
    if n > 0 {
      assert key[0] == line[0] && !Blank(line[0]);
      assert Lead(key, 0) == 0;
    }
  }

  lemma {:induction false} SubLine(s: string, a: nat, b: nat)
    requires OneLine(s) && a <= b <= |s|
    ensures OneLine(s[a..b])
  {
    forall i | 0 <= i < b - a
      ensures s[a..b][i] != '\n'
    {
      assert s[a..b][i] == s[a + i];
    }
  }

  lemma {:induction false} ValueIsClean(line: string, n: nat)
    requires OneLine(line) && Trimmed(line) && line != "" && line[0] != '[' && Find(line, '=', 0) == Some(n)
    ensures n < |line| && CleanPair((Trim(line[..n]), Trim(line[n + 1..])))
  {
    var k, v := line[..n], line[n + 1..];
    assert line[0..n] == k && line[n + 1..|line|] == v;
    SubLine(line, 0, n);
    SubLine(line, n + 1, |line|);
    TrimOneLine(k);
    TrimOneLine(v);
    KeyStart(line, n);
    forall c | c in Trim(k)
      ensures c != '='
    {
      var i :| 0 <= i < |Trim(k)| && Trim(k)[i] == c;
      assert Trim(k) == k[Lead(k, 0)..Tail(k, |k|)];
      assert Trim(k)[i] == k[Lead(k, 0) + i] == line[Lead(k, 0) + i];
    }
  }

  lemma {:induction false} NameIsClean(line: string)
    requires OneLine(line) && line != "" && line[0] == '['
    ensures Opening(line, 0) > 0 && CleanName(SectionName(line, Opening(line, 0)))
  {
    var d := Opening(line, 0);
    if |line| < 2 * d {
      SubLine(line, d, |line|);
      assert line[d..|line|] == line[d..];
    } else {
      SubLine(line, d, |line| - d);
    }
  }

  /** One line does one of three things. */
  lemma {:induction false} StepHappens(nodes: seq<Node>, cur: nat, raw: string, ln: nat) returns (e: Effect)
    requires WellFormed(nodes) && cur < |nodes| && OneLine(raw)
    ensures var r := Step(nodes, cur, raw, ln); r.Ok? ==> Happens(nodes, cur, e, r) && (e != Nothing ==> Productive(raw))
  {
    var line := Trim(raw);
    e := Nothing;
    if Productive(raw) {
      TrimOneLine(raw);
      if line[0] == '[' {
        NameIsClean(line);
        e := NewSection(Opening(line, 0), SectionName(line, Opening(line, 0)));
      } else {
        var n := Find(line, '=', 0);
        if n.Some? {
          ValueIsClean(line, n.value);
          e := NewValue(Trim(line[..n.value]), Trim(line[n.value + 1..]));
        }
      }
    }
  }

  /** Which lines are errors: a heading more than one level deeper than the section being
      filled, or named like a sibling; and a line that is no heading and has no '='. */
  lemma {:induction false} ErrorExactly(nodes: seq<Node>, cur: nat, raw: string, ln: nat)
    requires WellFormed(nodes) && cur < |nodes|
    ensures var r, line := Step(nodes, cur, raw, ln), Trim(raw);
            if !Productive(raw) then r == Ok(nodes, cur)
            else if line[0] == '[' then
              var depth := Opening(line, 0);
              if depth > nodes[cur].depth + 1 then r == Err(WrongDepth, ln)
              else
                var siblings := nodes[Ancestor(nodes, cur, depth - 1)].sections;
                && (r == Err(Duplicate, ln) <==> exists i {:trigger siblings[i]} :: 0 <= i < |siblings| && siblings[i].0 == SectionName(line, depth))
                && (r.Err? ==> r == Err(Duplicate, ln))
            else (r == Err(NoEquals, ln) <==> '=' !in line) && (r.Err? ==> r == Err(NoEquals, ln))
  {
  }

  /** Line k is where it went wrong: all before it were taken. */
  ghost predicate FailsAt(step: Stepper, nodes: seq<Node>, cur: nat, lines: seq<string>, ln: nat, k: nat, r: Parsed)
    requires Keeps(step) && WellFormed(nodes) && cur < |nodes| && k < |lines|
  {
    var before := ParseLines(step, nodes, cur, lines[..k], ln);
    before.Ok? && step(before.nodes, before.cur, lines[k], ln + k + 1) == r
  }

  lemma {:induction false} FailsLater(step: Stepper, nodes: seq<Node>, cur: nat, lines: seq<string>, ln: nat, k: nat, r: Parsed)
    requires Keeps(step) && WellFormed(nodes) && cur < |nodes| && lines != [] && k + 1 < |lines|
    requires var one := step(nodes, cur, lines[0], ln + 1); one.Ok? && FailsAt(step, one.nodes, one.cur, lines[1..], ln + 1, k, r)
    ensures FailsAt(step, nodes, cur, lines, ln, k + 1, r)
  {
    assert lines[..k + 1] == [lines[0]] + lines[1..][..k] && lines[1..][k] == lines[k + 1];
    ParseCons(step, nodes, cur, lines[0], lines[1..][..k], ln);
  }

  /** The error reported is the first, with the number of its line. */
  lemma {:induction false} FirstError(step: Stepper, nodes: seq<Node>, cur: nat, lines: seq<string>, ln: nat) returns (k: nat)
    requires Keeps(step) && WellFormed(nodes) && cur < |nodes|
    ensures var r := ParseLines(step, nodes, cur, lines, ln);
            r.Err? ==> k < |lines| && FailsAt(step, nodes, cur, lines, ln, k, r)
    decreases |lines|
  {
    k := 0;
    if lines != [] {
      var one := step(nodes, cur, lines[0], ln + 1);
      var r := ParseLines(step, nodes, cur, lines, ln);
      if one.Ok? {
        var j := FirstError(step, one.nodes, one.cur, lines[1..], ln + 1);
        if r.Err? {
          FailsLater(step, nodes, cur, lines, ln, j, r);
          k := j + 1;
        }
      } else {
        assert lines[..0] == [];
      }
    }
  }

  // ----- the nodes are clean ------------------------------------------------------------------

  ghost predicate CleanNode(n: Node)
  {
    && (forall i {:trigger n.values[i]} :: 0 <= i < |n.values| ==> CleanPair(n.values[i]))
    && (forall i {:trigger n.sections[i]} :: 0 <= i < |n.sections| ==> CleanName(n.sections[i].0))
    && (forall i, j {:trigger n.sections[i], n.sections[j]} :: 0 <= i < j < |n.sections| ==> n.sections[i].0 != n.sections[j].0)
  }

  ghost predicate CleanNodes(nodes: seq<Node>)
  {
    forall i {:trigger nodes[i]} :: 0 <= i < |nodes| ==> CleanNode(nodes[i])
  }

  lemma {:induction false} HappensKeepsClean(nodes: seq<Node>, cur: nat, e: Effect, r: Parsed)
    requires WellFormed(nodes) && cur < |nodes| && CleanNodes(nodes) && Happens(nodes, cur, e, r)
    ensures CleanNodes(r.nodes)
  {
    match e
    case Nothing =>
    case NewSection(depth, name) =>
      var p := Ancestor(nodes, cur, depth - 1);
      assert CleanNode(nodes[p]);
      forall i | 0 <= i < |r.nodes|
        ensures CleanNode(r.nodes[i])
      {
        assert i < |nodes| && i != p ==> r.nodes[i] == nodes[i] && CleanNode(nodes[i]);
      }
    case NewValue(k, v) =>
      assert CleanNode(nodes[cur]);
      forall i | 0 <= i < |r.nodes|
        ensures CleanNode(r.nodes[i])
      {
        assert i != cur ==> r.nodes[i] == nodes[i] && CleanNode(nodes[i]);
      }
  }

  /** Names and values clean, siblings distinct: what parsing can yield at all. */
  ghost predicate Clean(l: Level)
    decreases l
  {
    (forall i {:trigger l.values[i]} :: 0 <= i < |l.values| ==> CleanPair(l.values[i])) && CleanAll(l.sections)
  }

  ghost predicate CleanAll(sections: seq<Section>)
    decreases sections
  {
    && DistinctNames(sections)
    && (forall i {:trigger sections[i]} :: 0 <= i < |sections| ==> CleanName(sections[i].name) && Clean(sections[i].level))
  }

  lemma {:induction false} HeldIsClean(nodes: seq<Node>, i: nat, l: Level, hi: nat)
    requires CleanNodes(nodes) && Holds(nodes, i, l, hi)
    ensures Clean(l)
    decreases l
  {
    var n := nodes[i];
    assert CleanNode(n);
    forall j | 0 <= j < |l.sections|
      ensures CleanName(l.sections[j].name) && Clean(l.sections[j].level)
    {
      assert CleanName(n.sections[j].0);
      HeldIsClean(nodes, n.sections[j].1, l.sections[j].level, hi);
    }
    forall j, k | 0 <= j < k < |l.sections|
      ensures l.sections[j].name != l.sections[k].name
    {
      assert n.sections[j].0 != n.sections[k].0;
    }
  }

  // ----- the nodes hold a tree -------------------------------------------------------------------

  /** The number of sections and values of a tree. */
  function Size(l: Level): (n: nat)
    decreases l
  {
    |l.values| + SizeAll(l.sections)
  }

  function SizeAll(sections: seq<Section>): (n: nat)
    decreases sections
  {
    if sections == [] then 0 else 1 + Size(sections[0].level) + SizeAll(sections[1..])
  }

  lemma {:induction false} SizeSnoc(sections: seq<Section>, s: Section)
    ensures SizeAll(sections + [s]) == SizeAll(sections) + 1 + Size(s.level)
  {
    if sections == [] {
      assert (sections + [s])[1..] == [];
    } else {
      assert (sections + [s])[1..] == sections[1..] + [s];
      SizeSnoc(sections[1..], s);
    }
  }

  /** Where the nodes of section j end: at the next section, or at `hi`. */
  function Bound(refs: seq<(string, nat)>, j: nat, hi: nat): (b: nat)
    requires j < |refs|
  {
    if j + 1 < |refs| then refs[j + 1].1 else hi
  }

  /** The tree at node i is `l`, its nodes are those from i to `hi`, and those of each
      section lie together. */
  ghost predicate Laid(nodes: seq<Node>, i: nat, l: Level, hi: nat)
    decreases l
  {
    i < hi <= |nodes| && nodes[i].values == l.values && LaidAll(nodes, i, nodes[i].sections, l.sections, hi)
  }

  ghost predicate LaidAll(nodes: seq<Node>, i: nat, refs: seq<(string, nat)>, sections: seq<Section>, hi: nat)
    decreases sections, 1
  {
    && |refs| == |sections|
    && forall j {:trigger LaidOne(nodes, i, refs, sections, j, hi)} :: 0 <= j < |refs| ==> LaidOne(nodes, i, refs, sections, j, hi)
  }

  ghost predicate LaidOne(nodes: seq<Node>, i: nat, refs: seq<(string, nat)>, sections: seq<Section>, j: nat, hi: nat)
    requires j < |refs| == |sections|
    decreases sections, 0
  {
    && refs[j].0 == sections[j].name && i < refs[j].1 && Bound(refs, j, hi) <= hi
    && Laid(nodes, refs[j].1, sections[j].level, Bound(refs, j, hi))
  }

  lemma {:induction false} LaidHolds(nodes: seq<Node>, i: nat, l: Level, hi: nat, top: nat)
    requires Laid(nodes, i, l, hi) && hi <= top <= |nodes|
    ensures Holds(nodes, i, l, top)
    decreases l
  {
    var refs := nodes[i].sections;
    forall j | 0 <= j < |l.sections|
      ensures refs[j].0 == l.sections[j].name && i < refs[j].1 && Holds(nodes, refs[j].1, l.sections[j].level, top)
    {
      assert LaidOne(nodes, i, refs, l.sections, j, hi);
      LaidHolds(nodes, refs[j].1, l.sections[j].level, Bound(refs, j, hi), top);
    }
  }

  lemma {:induction false} LaidStill(nodes: seq<Node>, more: seq<Node>, i: nat, l: Level, hi: nat)
    requires Laid(nodes, i, l, hi) && hi <= |more|
    requires forall k {:trigger more[k]} :: i <= k < hi ==> more[k] == nodes[k]
    ensures Laid(more, i, l, hi)
    decreases l
  {
    assert more[i] == nodes[i];
    var refs := nodes[i].sections;
    forall j | 0 <= j < |l.sections|
      ensures LaidOne(more, i, refs, l.sections, j, hi)
    {
      assert LaidOne(nodes, i, refs, l.sections, j, hi);
      LaidStill(nodes, more, refs[j].1, l.sections[j].level, Bound(refs, j, hi));
    }
  }

  lemma {:induction false} AncestorOfAncestor(nodes: seq<Node>, i: nat, d: nat, e: nat)
    requires WellFormed(nodes) && i < |nodes| && d <= e <= nodes[i].depth
    ensures Ancestor(nodes, Ancestor(nodes, i, e), d) == Ancestor(nodes, i, d)
    decreases i
  {
    if nodes[i].depth != e {
      assert HasParent(nodes, i);
      AncestorOfAncestor(nodes, nodes[i].parent, d, e);
    }
  }

  lemma {:induction false} TopIsAncestor(nodes: seq<Node>, i: nat)
    requires WellFormed(nodes) && i < |nodes|
    ensures Ancestor(nodes, i, 0) == 0
  {
    var a := Ancestor(nodes, i, 0);
    assert a > 0 ==> HasParent(nodes, a);
  }

  /** The way from the top to the node being filled goes by last sections. */
  ghost predicate OpenAt(nodes: seq<Node>, cur: nat, d: nat)
    requires WellFormed(nodes) && cur < |nodes| && d < nodes[cur].depth
  {
    var refs := nodes[Ancestor(nodes, cur, d)].sections;
    |refs| > 0 && refs[|refs| - 1].1 == Ancestor(nodes, cur, d + 1)
  }

  ghost predicate OpenPath(nodes: seq<Node>, cur: nat)
  {
    && WellFormed(nodes) && cur < |nodes|
    && forall d {:trigger OpenAt(nodes, cur, d)} :: 0 <= d < nodes[cur].depth ==> OpenAt(nodes, cur, d)
  }

  /** `more` differs from `nodes` at p and by what was added behind. */
  ghost predicate Differs(nodes: seq<Node>, p: nat, more: seq<Node>)
  {
    p < |nodes| <= |more| && forall k {:trigger more[k]} :: 0 <= k < |nodes| && k != p ==> more[k] == nodes[k]
  }

  /** A change at node p of the open path shows in every tree above it, once. */
  lemma {:induction false} ChangeShows(nodes: seq<Node>, cur: nat, p: nat, i: nat, l: Level, lp: Level, more: seq<Node>) returns (m: Level)
    requires OpenPath(nodes, cur) && i <= p < |nodes| && nodes[i].depth <= nodes[p].depth <= nodes[cur].depth
    requires Ancestor(nodes, cur, nodes[i].depth) == i && Ancestor(nodes, cur, nodes[p].depth) == p
    requires Laid(nodes, i, l, |nodes|) && Differs(nodes, p, more)
    requires Laid(more, p, lp, |more|) && forall old_p :: Laid(nodes, p, old_p, |nodes|) ==> Size(lp) == Size(old_p) + 1
    ensures Laid(more, i, m, |more|) && Size(m) == Size(l) + 1
    decreases l
  {
    if i == p {
      m := lp;
    } else {
      var d := nodes[i].depth;
      PathGoesDown(nodes, cur, p, i);
      var refs, n := nodes[i].sections, |nodes[i].sections| - 1;
      var c := refs[n].1;
      assert LaidAll(nodes, i, refs, l.sections, |nodes|);
      assert LaidOne(nodes, i, refs, l.sections, n, |nodes|);
      var inner := ChangeShows(nodes, cur, p, c, l.sections[n].level, lp, more);
      m := Replaced(nodes, p, i, l, inner, more);
    }
  }

  /** Below i the path goes on with its last section. */
  lemma {:induction false} PathGoesDown(nodes: seq<Node>, cur: nat, p: nat, i: nat)
    requires OpenPath(nodes, cur) && i < p < |nodes| && nodes[i].depth <= nodes[p].depth <= nodes[cur].depth
    requires Ancestor(nodes, cur, nodes[i].depth) == i && Ancestor(nodes, cur, nodes[p].depth) == p
    ensures nodes[i].depth < nodes[p].depth && |nodes[i].sections| > 0
    ensures var c := nodes[i].sections[|nodes[i].sections| - 1].1;
            c < |nodes| && c <= p && nodes[c].depth == nodes[i].depth + 1 && Ancestor(nodes, cur, nodes[c].depth) == c
  {
    var d := nodes[i].depth;
    assert OpenAt(nodes, cur, d);
    AncestorOfAncestor(nodes, cur, d + 1, nodes[p].depth);
  }

  /** The tree at i with another tree in its last section. */
  lemma {:induction false} Replaced(nodes: seq<Node>, p: nat, i: nat, l: Level, inner: Level, more: seq<Node>) returns (m: Level)
    requires i < p < |nodes| && Laid(nodes, i, l, |nodes|) && Differs(nodes, p, more) && |nodes[i].sections| > 0
    requires var refs := nodes[i].sections;
             var c := refs[|refs| - 1].1;
             && c <= p && Laid(more, c, inner, |more|) && |l.sections| == |refs|
             && Size(inner) == Size(l.sections[|refs| - 1].level) + 1
    ensures Laid(more, i, m, |more|) && Size(m) == Size(l) + 1
  {
    var refs, n := nodes[i].sections, |nodes[i].sections| - 1;
    var last := l.sections[n];
    m := l.(sections := l.sections[..n] + [Section(last.name, inner)]);
    assert more[i] == nodes[i];
    forall j | 0 <= j < |refs|
      ensures LaidOne(more, i, refs, m.sections, j, |more|)
    {
      assert LaidOne(nodes, i, refs, l.sections, j, |nodes|);
      if j < n {
        BoundsGrow(nodes, i, refs, l.sections, j, n);
        LaidStill(nodes, more, refs[j].1, l.sections[j].level, Bound(refs, j, |nodes|));
      }
    }
    assert l.sections == l.sections[..n] + [last];
    SizeSnoc(l.sections[..n], last);
    SizeSnoc(l.sections[..n], Section(last.name, inner));
  }

  lemma {:induction false} LaidBelow(nodes: seq<Node>, i: nat, l: Level, hi: nat)
    requires Laid(nodes, i, l, hi)
    ensures i < hi
  {
  }

  /** Sections lie one after the other. */
  lemma {:induction false} BoundsGrow(nodes: seq<Node>, i: nat, refs: seq<(string, nat)>, sections: seq<Section>, j: nat, n: nat)
    requires LaidAll(nodes, i, refs, sections, |nodes|) && j < n < |refs|
    ensures Bound(refs, j, |nodes|) == refs[j + 1].1 <= refs[n].1
    decreases n - j
  {
    if j + 1 < n {
      assert LaidOne(nodes, i, refs, sections, j + 1, |nodes|);
      LaidBelow(nodes, refs[j + 1].1, sections[j + 1].level, Bound(refs, j + 1, |nodes|));
      BoundsGrow(nodes, i, refs, sections, j + 1, n);
    }
  }

  // ----- parsing builds the tree, one item a line -----------------------------------------------------

  /** The tree below p before and after the change. */
  lemma {:induction false} LaidIsOne(nodes: seq<Node>, i: nat, l: Level, m: Level)
    requires Laid(nodes, i, l, |nodes|) && Laid(nodes, i, m, |nodes|)
    ensures l == m
  {
    LaidHolds(nodes, i, l, |nodes|, |nodes|);
    LaidHolds(nodes, i, m, |nodes|, |nodes|);
    HoldsOne(nodes, i, l, m, |nodes|);
  }

  /** The tree at a node of the open path, out of the tree above it. */
  lemma {:induction false} TreeAt(nodes: seq<Node>, cur: nat, p: nat, i: nat, l: Level) returns (lp: Level)
    requires OpenPath(nodes, cur) && i <= p < |nodes| && nodes[i].depth <= nodes[p].depth <= nodes[cur].depth
    requires Ancestor(nodes, cur, nodes[i].depth) == i && Ancestor(nodes, cur, nodes[p].depth) == p
    requires Laid(nodes, i, l, |nodes|)
    ensures Laid(nodes, p, lp, |nodes|)
    decreases l
  {
    if i == p {
      lp := l;
    } else {
      PathGoesDown(nodes, cur, p, i);
      var refs, n := nodes[i].sections, |nodes[i].sections| - 1;
      assert LaidAll(nodes, i, refs, l.sections, |nodes|);
      assert LaidOne(nodes, i, refs, l.sections, n, |nodes|);
      lp := TreeAt(nodes, cur, p, refs[n].1, l.sections[n].level);
    }
  }

  lemma {:induction false} SectionShowsAt(nodes: seq<Node>, p: nat, lp: Level, name: string, depth: nat) returns (m: Level)
    requires p < |nodes| && Laid(nodes, p, lp, |nodes|)
    ensures var more := AddSection(nodes, p, name, depth); Laid(more, p, m, |more|) && Size(m) == Size(lp) + 1
  {
    var more := AddSection(nodes, p, name, depth);
    var fresh_l := Level([], []);
    m := lp.(sections := lp.sections + [Section(name, fresh_l)]);
    SizeSnoc(lp.sections, Section(name, fresh_l));
    var refs, now := nodes[p].sections, more[p].sections;
    assert more[|nodes|] == Node([], [], p, depth);
    assert Laid(more, |nodes|, fresh_l, |more|);
    assert LaidAll(nodes, p, refs, lp.sections, |nodes|);
    forall j | 0 <= j < |now|
      ensures LaidOne(more, p, now, m.sections, j, |more|)
    {
      if j < |refs| {
        assert LaidOne(nodes, p, refs, lp.sections, j, |nodes|);
        assert now[j] == refs[j] && Bound(now, j, |more|) == Bound(refs, j, |nodes|);
        LaidStill(nodes, more, refs[j].1, lp.sections[j].level, Bound(refs, j, |nodes|));
      }
    }
  }

  lemma {:induction false} ValueShowsAt(nodes: seq<Node>, p: nat, lp: Level, k: string, v: string) returns (m: Level)
    requires p < |nodes| && Laid(nodes, p, lp, |nodes|)
    ensures var more := AddValue(nodes, p, k, v); Laid(more, p, m, |more|) && Size(m) == Size(lp) + 1
  {
    var more := AddValue(nodes, p, k, v);
    m := lp.(values := lp.values + [(k, v)]);
    var refs := nodes[p].sections;
    assert LaidAll(nodes, p, refs, lp.sections, |nodes|);
    forall j | 0 <= j < |refs|
      ensures LaidOne(more, p, refs, m.sections, j, |more|)
    {
      assert LaidOne(nodes, p, refs, lp.sections, j, |nodes|);
      LaidStill(nodes, more, refs[j].1, lp.sections[j].level, Bound(refs, j, |nodes|));
    }
  }

  /** The state of a parser with the tree it has read so far. */
  ghost predicate Carries(nodes: seq<Node>, cur: nat, l: Level)
  {
    OpenPath(nodes, cur) && CleanNodes(nodes) && Laid(nodes, 0, l, |nodes|)
  }

  lemma {:induction false} SectionCarries(nodes: seq<Node>, cur: nat, l: Level, depth: nat, name: string) returns (m: Level)
    requires Carries(nodes, cur, l) && 0 < depth <= nodes[cur].depth + 1
    ensures var more := AddSection(nodes, Ancestor(nodes, cur, depth - 1), name, depth);
            OpenPath(more, |nodes|) && Laid(more, 0, m, |more|) && Size(m) == Size(l) + 1
  {
    var p := Ancestor(nodes, cur, depth - 1);
    TopIsAncestor(nodes, cur);
    var lp := TreeAt(nodes, cur, p, 0, l);
    var mp := SectionShowsAt(nodes, p, lp, name, depth);
    forall q | Laid(nodes, p, q, |nodes|)
      ensures Size(mp) == Size(q) + 1
    {
      LaidIsOne(nodes, p, lp, q);
    }
    m := ChangeShows(nodes, cur, p, 0, l, mp, AddSection(nodes, p, name, depth));
    SectionOpens(nodes, cur, depth, name);
  }

  lemma {:induction false} ValueCarries(nodes: seq<Node>, cur: nat, l: Level, k: string, v: string) returns (m: Level)
    requires Carries(nodes, cur, l)
    ensures var more := AddValue(nodes, cur, k, v);
            OpenPath(more, cur) && Laid(more, 0, m, |more|) && Size(m) == Size(l) + 1
  {
    TopIsAncestor(nodes, cur);
    var lp := TreeAt(nodes, cur, cur, 0, l);
    var mp := ValueShowsAt(nodes, cur, lp, k, v);
    forall q | Laid(nodes, cur, q, |nodes|)
      ensures Size(mp) == Size(q) + 1
    {
      LaidIsOne(nodes, cur, lp, q);
    }
    m := ChangeShows(nodes, cur, cur, 0, l, mp, AddValue(nodes, cur, k, v));
    ValueOpens(nodes, cur, k, v);
  }

  lemma {:induction false} ValueOpens(nodes: seq<Node>, cur: nat, k: string, v: string)
    requires OpenPath(nodes, cur)
    ensures OpenPath(AddValue(nodes, cur, k, v), cur)
  {
    var more := AddValue(nodes, cur, k, v);
    AddValueWellFormed(nodes, cur, k, v);
    forall d | 0 <= d < more[cur].depth
      ensures OpenAt(more, cur, d)
    {
      assert OpenAt(nodes, cur, d);
      SameAncestor(nodes, more, cur, d);
      SameAncestor(nodes, more, cur, d + 1);
    }
  }

  lemma {:induction false} SectionOpens(nodes: seq<Node>, cur: nat, depth: nat, name: string)
    requires OpenPath(nodes, cur) && 0 < depth <= nodes[cur].depth + 1
    ensures OpenPath(AddSection(nodes, Ancestor(nodes, cur, depth - 1), name, depth), |nodes|)
  {
    var p := Ancestor(nodes, cur, depth - 1);
    var more := AddSection(nodes, p, name, depth);
    AddSectionWellFormed(nodes, p, name);
    assert more[|nodes|] == Node([], [], p, depth);
    forall d | 0 <= d < depth
      ensures OpenAt(more, |nodes|, d)
    {
      NewAncestor(nodes, cur, depth, name, d);
      if d + 1 < depth {
        NewAncestor(nodes, cur, depth, name, d + 1);
        assert OpenAt(nodes, cur, d);
        AncestorDepth(nodes, cur, d);
        AncestorDepth(nodes, cur, depth - 1);
      }
    }
  }

  lemma {:induction false} AncestorDepth(nodes: seq<Node>, i: nat, d: nat)
    requires WellFormed(nodes) && i < |nodes| && d <= nodes[i].depth
    ensures nodes[Ancestor(nodes, i, d)].depth == d
  {
  }

  lemma {:induction false} NewAncestor(nodes: seq<Node>, cur: nat, depth: nat, name: string, d: nat)
    requires WellFormed(nodes) && cur < |nodes| && d < depth <= nodes[cur].depth + 1
    ensures var more := AddSection(nodes, Ancestor(nodes, cur, depth - 1), name, depth);
            WellFormed(more) && more[|nodes|].depth == depth && Ancestor(more, |nodes|, d) == Ancestor(nodes, cur, d)
  {
    var p := Ancestor(nodes, cur, depth - 1);
    var more := AddSection(nodes, p, name, depth);
    AddSectionWellFormed(nodes, p, name);
    assert more[|nodes|] == Node([], [], p, depth);
    SameAncestor(nodes, more, p, d);
    AncestorOfAncestor(nodes, cur, d, depth - 1);
  }

  /** One line adds at most one item, and none if it is blank or a comment. */
  lemma {:induction false} StepCarries(nodes: seq<Node>, cur: nat, l: Level, raw: string, ln: nat) returns (m: Level)
    requires Carries(nodes, cur, l) && OneLine(raw)
    ensures var r := Step(nodes, cur, raw, ln);
            r.Ok? ==> Carries(r.nodes, r.cur, m) && Size(m) <= Size(l) + if Productive(raw) then 1 else 0
  {
    var e := StepHappens(nodes, cur, raw, ln);
    m := EffectCarries(nodes, cur, l, e, Step(nodes, cur, raw, ln));
  }

  lemma {:induction false} EffectCarries(nodes: seq<Node>, cur: nat, l: Level, e: Effect, r: Parsed) returns (m: Level)
    requires Carries(nodes, cur, l)
    ensures Happens(nodes, cur, e, r) ==> Carries(r.nodes, r.cur, m) && Size(m) == Size(l) + if e == Nothing then 0 else 1
  {
    m := l;
    if Happens(nodes, cur, e, r) {
      HappensKeepsClean(nodes, cur, e, r);
      match e
      case Nothing =>
      case NewSection(depth, name) => m := SectionCarries(nodes, cur, l, depth, name);
      case NewValue(k, v) => m := ValueCarries(nodes, cur, l, k, v);
    }
  }

  ghost predicate OneLines(lines: seq<string>)
  {
    forall i {:trigger lines[i]} :: 0 <= i < |lines| ==> OneLine(lines[i])
  }

  /** So a successful parse has read a tree, with no more items than productive lines. */
  lemma {:induction false} RunCarries(nodes: seq<Node>, cur: nat, l: Level, lines: seq<string>, ln: nat) returns (m: Level)
    requires Carries(nodes, cur, l) && OneLines(lines)
    ensures var r := ParseLines(Stepping(), nodes, cur, lines, ln);
            r.Ok? ==> Carries(r.nodes, r.cur, m) && Size(m) <= Size(l) + Count(lines)
    decreases |lines|
  {
    m := l;
    if lines != [] {
      assert lines == [lines[0]] + lines[1..];
      ParseCons(Stepping(), nodes, cur, lines[0], lines[1..], ln);
      var step := StepCarries(nodes, cur, l, lines[0], ln + 1);
      var s := Step(nodes, cur, lines[0], ln + 1);
      if s.Ok? {
        m := RunCarries(s.nodes, s.cur, step, lines[1..], ln + 1);
      }
    }
  }

  lemma {:induction false} LinesAreOneLine(text: string)
    ensures OneLines(Lines(text))
    decreases |text|
  {
    if text != "" {
      var k := Find(text, '\n', 0);
      if k.Some? {
        LinesAreOneLine(text[k.value + 1..]);
        assert OneLine(text[..k.value]);
      }
    }
  }

  /** Every successful parse reads one tree; it is clean, and no larger than the number of
      productive lines. */
  lemma {:induction false} ParseReadsATree(text: string) returns (m: Level)
    ensures var r := ParseText(text);
            r.Ok? ==> Holds(r.nodes, 0, m, |r.nodes|) && Clean(m) && Size(m) <= Count(Lines(text))
  {
    var top := Top;
    TopCarries();
    LinesAreOneLine(text);
    m := RunCarries(top, 0, Level([], []), Lines(text), 0);
    var r := ParseText(text);
    if r.Ok? {
      LaidHolds(r.nodes, 0, m, |r.nodes|, |r.nodes|);
      HeldIsClean(r.nodes, 0, m, |r.nodes|);
    }
  }

  lemma {:induction false} TopCarries()
    ensures Carries(Top, 0, Level([], []))
  {
    assert CleanNode(Top[0]);
  }

  // ----- the productive lines of a print ----------------------------------------------------------------

  function HeadsSize(heads: seq<Heading>): (n: nat)
  {
    if heads == [] then 0 else 1 + |heads[0].values| + HeadsSize(heads[1..])
  }

  lemma {:induction false} HeadsSizeBoth(a: seq<Heading>, b: seq<Heading>)
    ensures HeadsSize(a + b) == HeadsSize(a) + HeadsSize(b)
  {
    if a == [] {
      assert a + b == b;
    } else {
      assert (a + b)[1..] == a[1..] + b;
      HeadsSizeBoth(a[1..], b);
    }
  }

  lemma {:induction false} SizeOfHeads(sections: seq<Section>, depth: nat)
    ensures HeadsSize(Headings(sections, depth)) == SizeAll(sections)
    decreases sections
  {
    if sections != [] {
      var s := sections[0];
      var h, inner, rest := Heading(depth, s.name, s.level.values), Headings(s.level.sections, depth + 1), Headings(sections[1..], depth);
      SizeOfHeads(s.level.sections, depth + 1);
      SizeOfHeads(sections[1..], depth);
      HeadsSizeBoth([h] + inner, rest);
      HeadsSizeBoth([h], inner);
      assert [h][1..] == [];
      assert HeadsSize([h]) == 1 + |h.values|;
    }
  }

  lemma {:induction false} CountBoth(a: seq<string>, b: seq<string>)
    ensures Count(a + b) == Count(a) + Count(b)
  {
    if a == [] {
      assert a + b == b;
    } else {
      assert (a + b)[1..] == a[1..] + b;
      CountBoth(a[1..], b);
    }
  }

  predicate NoComments(values: seq<Pair>) {
    forall i {:trigger values[i]} :: 0 <= i < |values| ==> !Commented(values[i])
  }

  lemma {:induction false} CommentedLine(p: Pair)
    ensures Commented(p) ==> !Productive(ValueLine(p))
  {
    if Commented(p) {
      assert ValueLine(p)[0] == p.0[0];
    }
  }

  /** A value is a line of its own and counts unless it is a comment. */
  lemma {:induction false} CountValues(values: seq<Pair>)
    ensures Count(ValueLines(values)) <= |values|
    ensures Count(ValueLines(values)) == |values| ==> NoComments(values)
  {
    if values != [] {
      var p := values[0];
      assert ValueLines(values)[1..] == ValueLines(values[1..]) && ValueLines(values)[0] == ValueLine(p);
      CommentedLine(p);
      CountValues(values[1..]);
      if Count(ValueLines(values)) == |values| {
        forall i | 0 <= i < |values|
          ensures !Commented(values[i])
        {
          assert i > 0 ==> values[i] == values[1..][i - 1];
        }
      }
    }
  }

  predicate NoCommentsIn(heads: seq<Heading>) {
    forall i {:trigger heads[i]} :: 0 <= i < |heads| ==> NoComments(heads[i].values)
  }

  /** What a file must be like for every item to get a line of its own, with text still
      pending before it. */
  predicate Tight(heads: seq<Heading>, pending: string)
  {
    NoCommentsIn(heads) && Spaced(heads) && (pending != "" && heads != [] ==> heads[0].name != "")
  }

  function One(pending: string): (n: nat) {
    if pending == "" then 0 else 1
  }

  /** Items and productive lines: never more lines than items, and as many only where
      nothing is a comment and unnamed sections are spaced. */
  lemma {:induction false} CountHeads(heads: seq<Heading>, pending: string)
    requires forall i {:trigger heads[i]} :: 0 <= i < |heads| ==> heads[i].depth > 0
    ensures var n := Count(Merge(Pieces(heads), pending));
            n <= HeadsSize(heads) + One(pending) && (n == HeadsSize(heads) + One(pending) ==> Tight(heads, pending))
    decreases |heads|
  {
    if heads == [] {
      CountAtMost([pending]);
    } else {
      var h, rest := heads[0], heads[1..];
      assert forall i :: 0 <= i < |rest| ==> rest[i] == heads[i + 1];
      if h.name != "" {
        CountHeads(rest, "");
        CountNamed(heads, pending);
      } else if h.values == [] {
        CountHeads(rest, pending + Header(h.depth, h.name));
        CountUnnamed(heads, pending);
      } else {
        CountHeads(rest, "");
        CountMisread(heads, pending);
      }
    }
  }

  lemma {:induction false} CountAtMost(lines: seq<string>)
    ensures Count(lines) <= |lines|
  {
    if lines != [] {
      CountAtMost(lines[1..]);
    }
  }

  lemma {:induction false} FullNext(heads: seq<Heading>, pending: string)
    requires heads != [] && heads[0].name != "" && NoComments(heads[0].values) && Tight(heads[1..], "")
    ensures Tight(heads, pending)
  {
    forall i | 0 <= i < |heads|
      ensures NoComments(heads[i].values)
      ensures heads[i].name == "" ==> heads[i].values == [] && (i + 1 < |heads| ==> heads[i + 1].name != "")
    {
      if i > 0 {
        assert heads[i] == heads[1..][i - 1];
        assert i + 1 < |heads| ==> heads[i + 1] == heads[1..][i];
      }
    }
  }

  lemma {:induction false} FullUnnamed(heads: seq<Heading>, line: string)
    requires heads != [] && heads[0].name == "" && heads[0].values == [] && line != "" && Tight(heads[1..], line)
    ensures Tight(heads, "")
  {
    forall i | 0 <= i < |heads|
      ensures NoComments(heads[i].values)
      ensures heads[i].name == "" ==> heads[i].values == [] && (i + 1 < |heads| ==> heads[i + 1].name != "")
    {
      if i > 0 {
        assert heads[i] == heads[1..][i - 1];
        assert i + 1 < |heads| ==> heads[i + 1] == heads[1..][i];
      } else {
        assert |heads| > 1 ==> heads[1] == heads[1..][0];
      }
    }
  }

  lemma {:induction false} CountNamed(heads: seq<Heading>, pending: string)
    requires heads != [] && heads[0].name != ""
    requires var n := Count(Merge(Pieces(heads[1..]), ""));
             n <= HeadsSize(heads[1..]) && (n == HeadsSize(heads[1..]) ==> Tight(heads[1..], ""))
    ensures var n := Count(Merge(Pieces(heads), pending));
            n <= HeadsSize(heads) + One(pending) && (n == HeadsSize(heads) + One(pending) ==> Tight(heads, pending))
  {
    var h, rest := heads[0], heads[1..];
    var line := Header(h.depth, h.name);
    MergeNamed(h, ValuePieces(h.values) + Pieces(rest), pending);
    MergeValues(h.values, Pieces(rest));
    CountBoth([pending, line], ValueLines(h.values) + Merge(Pieces(rest), ""));
    CountBoth(ValueLines(h.values), Merge(Pieces(rest), ""));
    CountValues(h.values);
    CountPending(pending, line);
    if NoComments(h.values) && Tight(rest, "") {
      FullNext(heads, pending);
    }
  }

  lemma {:induction false} CountPending(pending: string, line: string)
    ensures Count([pending, line]) <= One(pending) + 1
  {
    assert [pending, line][1..] == [line] && [line][1..] == [];
    CountAtMost([line]);
    assert !Productive("");
  }

  lemma {:induction false} CountUnnamed(heads: seq<Heading>, pending: string)
    requires heads != [] && heads[0].name == "" && heads[0].values == []
    requires var line := pending + Header(heads[0].depth, heads[0].name);
             var n := Count(Merge(Pieces(heads[1..]), line));
             n <= HeadsSize(heads[1..]) + One(line) && (n == HeadsSize(heads[1..]) + One(line) ==> Tight(heads[1..], line))
    ensures var n := Count(Merge(Pieces(heads), pending));
            n <= HeadsSize(heads) + One(pending) && (heads[0].depth > 0 && n == HeadsSize(heads) + One(pending) ==> Tight(heads, pending))
  {
    var h, rest := heads[0], heads[1..];
    var line := pending + Header(h.depth, h.name);
    MergeUnnamed(h, ValuePieces(h.values) + Pieces(rest), pending);
    assert ValuePieces(h.values) + Pieces(rest) == Pieces(rest);
    if h.depth > 0 && pending == "" && Tight(rest, line) {
      assert |Header(h.depth, h.name)| >= h.depth;
      FullUnnamed(heads, line);
    }
  }

  /** The first value of an unnamed section is read as part of a section name: one line
      for two items. */
  lemma {:induction false} CountMisread(heads: seq<Heading>, pending: string)
    requires heads != [] && heads[0].name == "" && heads[0].values != []
    requires Count(Merge(Pieces(heads[1..]), "")) <= HeadsSize(heads[1..])
    ensures Count(Merge(Pieces(heads), pending)) <= HeadsSize(heads) - 1
  {
    var h, rest := heads[0], heads[1..];
    var line := pending + Header(h.depth, h.name);
    var t, more := ValueLine(h.values[0]), ValuePieces(h.values[1..]) + Pieces(rest);
    assert ValuePieces(h.values) + Pieces(rest) == [Full(t)] + more;
    MergeUnnamed(h, ValuePieces(h.values) + Pieces(rest), pending);
    MergeFull(t, more, line);
    MergeValues(h.values[1..], Pieces(rest));
    CountBoth([line + t], ValueLines(h.values[1..]) + Merge(Pieces(rest), ""));
    CountBoth(ValueLines(h.values[1..]), Merge(Pieces(rest), ""));
    CountValues(h.values[1..]);
    CountAtMost([line + t]);
  }

  // ----- the round trip ------------------------------------------------------------------------------------

  lemma {:induction false} CleanValues(values: seq<Pair>)
    requires forall i {:trigger values[i]} :: 0 <= i < |values| ==> CleanPair(values[i])
    ensures OneLineValues(values) && (NoComments(values) ==> GoodPairs(values))
  {
    forall i | 0 <= i < |values|
      ensures OneLine(values[i].0) && OneLine(values[i].1) && (NoComments(values) ==> GoodPair(values[i]))
    {
      assert CleanPair(values[i]);
    }
  }

  lemma {:induction false} CleanTail(sections: seq<Section>)
    requires sections != [] && CleanAll(sections)
    ensures CleanAll(sections[1..])
  {
    var rest := sections[1..];
    forall i | 0 <= i < |rest|
      ensures CleanName(rest[i].name) && Clean(rest[i].level)
    {
      assert rest[i] == sections[i + 1];
    }
    forall i, j | 0 <= i < j < |rest|
      ensures rest[i].name != rest[j].name
    {
      assert rest[i] == sections[i + 1] && rest[j] == sections[j + 1];
    }
  }

  lemma {:induction false} CleanHeads(sections: seq<Section>, depth: nat)
    requires CleanAll(sections) && depth > 0
    ensures OneLineHeads(Headings(sections, depth))
    decreases sections
  {
    if sections != [] {
      var s := sections[0];
      assert CleanName(s.name) && Clean(s.level);
      CleanValues(s.level.values);
      CleanHeads(s.level.sections, depth + 1);
      CleanTail(sections);
      CleanHeads(sections[1..], depth);
      HeadsBoth([Heading(depth, s.name, s.level.values)], Headings(s.level.sections, depth + 1));
      HeadsBoth([Heading(depth, s.name, s.level.values)] + Headings(s.level.sections, depth + 1), Headings(sections[1..], depth));
    }
  }

  lemma {:induction false} NoCommentsParts(a: seq<Heading>, b: seq<Heading>)
    requires NoCommentsIn(a + b)
    ensures NoCommentsIn(a) && NoCommentsIn(b)
  {
    forall i | 0 <= i < |a|
      ensures NoComments(a[i].values)
    {
      assert (a + b)[i] == a[i];
    }
    forall i | 0 <= i < |b|
      ensures NoComments(b[i].values)
    {
      assert (a + b)[|a| + i] == b[i];
    }
  }

  lemma {:induction false} CleanIsReadable(sections: seq<Section>, depth: nat)
    requires CleanAll(sections) && NoCommentsIn(Headings(sections, depth))
    ensures ReadableAll(sections)
    decreases sections
  {
    if sections != [] {
      var s := sections[0];
      var h, inner, rest := Heading(depth, s.name, s.level.values), Headings(s.level.sections, depth + 1), Headings(sections[1..], depth);
      NoCommentsParts([h] + inner, rest);
      NoCommentsParts([h], inner);
      assert CleanName(s.name) && Clean(s.level) && NoComments([h][0].values);
      CleanValues(s.level.values);
      CleanIsReadable(s.level.sections, depth + 1);
      CleanTail(sections);
      CleanIsReadable(sections[1..], depth);
      ReadableCons(sections);
    }
  }

  lemma {:induction false} ReadableCons(sections: seq<Section>)
    requires sections != [] && DistinctNames(sections) && CleanName(sections[0].name) && Readable(sections[0].level) && ReadableAll(sections[1..])
    ensures ReadableAll(sections)
  {
    forall i | 0 <= i < |sections|
      ensures CleanName(sections[i].name) && Readable(sections[i].level)
    {
      assert i > 0 ==> sections[i] == sections[1..][i - 1];
    }
  }

  /** As many productive lines as items: the file is good. */
  lemma {:induction false} EnoughLines(l: Level, heads: seq<Heading>, depth: nat)
    requires depth > 0 && heads == Headings(l.sections, depth) && Clean(l)
    requires Size(l) <= Count(Merge(AllPieces(l.values, heads), ""))
    ensures Readable(l) && Spaced(heads)
  {
    CleanHeads(l.sections, depth);
    CleanValues(l.values);
    MergeValues(l.values, Pieces(heads));
    CountBoth(ValueLines(l.values), Merge(Pieces(heads), ""));
    CountValues(l.values);
    HeadsAreDeep(heads);
    CountHeads(heads, "");
    SizeOfHeads(l.sections, depth);
    CleanIsReadable(l.sections, depth);
  }

  lemma {:induction false} HeadsAreDeep(heads: seq<Heading>)
    requires OneLineHeads(heads)
    ensures forall i {:trigger heads[i]} :: 0 <= i < |heads| ==> heads[i].depth > 0
  {
  }

  ghost predicate Survives(l: Level, text: string)
  {
    var r := ParseText(text);
    r.Ok? && Holds(r.nodes, 0, l, |r.nodes|)
  }

  lemma {:induction false} SurvivorsAreGood(l: Level, depth: nat, name: string)
    requires depth == 0 && name == "" && Survives(l, Dump(l, depth, name))
    ensures Readable(l) && Spaced(Headings(l.sections, depth + 1))
  {
    var text, heads := Dump(l, depth, name), Headings(l.sections, depth + 1);
    var m := ParseReadsATree(text);
    HoldsOne(ParseText(text).nodes, 0, l, m, |ParseText(text).nodes|);
    CleanHeads(l.sections, depth + 1);
    CleanValues(l.values);
    DumpedLines(l, depth, name, heads);
    EnoughLines(l, heads, depth + 1);
  }

  lemma {:induction false} OneSurvivor(l: Level, m: Level, text: string)
    requires Survives(l, text) && Survives(m, text)
    ensures l == m
  {
    var r := ParseText(text);
    HoldsOne(r.nodes, 0, l, m, |r.nodes|);
  }

  lemma {:induction false} SurvivesIffGood(l: Level, depth: nat, name: string)
    requires depth == 0 && name == ""
    ensures Survives(l, Dump(l, depth, name)) <==> Readable(l) && Spaced(Headings(l.sections, depth + 1))
  {
    if Readable(l) && Spaced(Headings(l.sections, depth + 1)) {
      GoodSurvives(l, depth, name);
    } else if Survives(l, Dump(l, depth, name)) {
      SurvivorsAreGood(l, depth, name);
    }
  }

  /** Parsing what dump printed gives back the tree, with every value and section in
      order and at its depth, if and only if the tree is good; and it never gives back
      two trees. */
  lemma {:induction false} RoundTrip(l: Level, text: string)
    requires text == Dump(l, 0, "")
    ensures Survives(l, text) <==> Good(l)
    ensures Good(l) ==> forall m {:trigger Survives(m, text)} :: Survives(m, text) ==> m == l
  {
    SurvivesIffGood(l, 0, "");
    forall m | Survives(l, text) && Survives(m, text)
      ensures m == l
    {
      OneSurvivor(l, m, text);
    }
  }

  /** Why an unnamed section must have no values: its brackets and its first value make
      one line, which is read as the heading of a section that has a name. */
  lemma {:induction false} UnnamedSectionIsMisread(l: Level, depth: nat, name: string, line: string)
    requires depth > 0 && name == "" && l.values != [] && CleanPair(l.values[0]) && line == Header(depth, name) + ValueLine(l.values[0])
    ensures |Lines(Dump(l, depth, name))| > 0 && Lines(Dump(l, depth, name))[0] == line
    ensures Trim(line) == line && line[0] == '[' && Opening(line, 0) == depth
    ensures SectionName(line, depth) == (Repeat(']', depth) + ValueLine(l.values[0]))[..|ValueLine(l.values[0])|] != ""
  {
    var p := l.values[0];
    var rest := DumpValues(l.values[1..]) + DumpSections(l.sections, depth + 1);
    MisreadDump(l, depth, name);
    MisreadLine(p, depth, name, line);
    LinesCons(line, rest);
  }

  lemma {:induction false} MisreadDump(l: Level, depth: nat, name: string)
    requires name == "" && l.values != []
    ensures Dump(l, depth, name) == Header(depth, name) + ValueLine(l.values[0]) + "\n" + (DumpValues(l.values[1..]) + DumpSections(l.sections, depth + 1))
  {
    assert Header(depth, name) == DumpHeader(depth, name);
    assert DumpValues(l.values) == ValueLine(l.values[0]) + "\n" + DumpValues(l.values[1..]);
  }

  lemma {:induction false} MisreadLine(p: Pair, depth: nat, name: string, line: string)
    requires depth > 0 && name == "" && CleanPair(p) && line == Header(depth, name) + ValueLine(p)
    ensures OneLine(line) && Trim(line) == line && line != "" && line[0] == '[' && Opening(line, 0) == depth
    ensures SectionName(line, depth) == (Repeat(']', depth) + ValueLine(p))[..|ValueLine(p)|] != ""
  {
    ValueLineEnds(p, ValueLine(p));
    assert Header(depth, name) == Repeat('[', depth) + Repeat(']', depth);
    BracketsThen(depth, ValueLine(p), line);
  }

  lemma {:induction false} BracketsThen(depth: nat, v: string, line: string)
    requires depth > 0 && OneLine(v) && v != "" && !Blank(v[|v| - 1]) && line == Repeat('[', depth) + Repeat(']', depth) + v
    ensures OneLine(line) && Trim(line) == line && line != "" && line[0] == '[' && Opening(line, 0) == depth
    ensures SectionName(line, depth) == (Repeat(']', depth) + v)[..|v|] != ""
  {
    assert line[0] == '[' && line[depth] == ']' && line[|line| - 1] == v[|v| - 1];
    TrimLaws(line);
    OpeningOf(line, 0, depth);
    var tail := Repeat(']', depth) + v;
    assert line == Repeat('[', depth) + tail;
    assert line[depth..|line| - depth] == tail[..|v|];
  }

  lemma {:induction false} ValueLineEnds(p: Pair, v: string)
    requires CleanPair(p) && v == ValueLine(p)
    ensures OneLine(v) && v != "" && !Blank(v[|v| - 1])
  {
    assert v[|v| - 1] == if p.1 == "" then '=' else p.1[|p.1| - 1];
  }
}
