/**
 * The `stringify` methods of the query elements: how a policy tree becomes a SPARQL group graph pattern, and
 * a line-level reading of the same text.
 */
module TreeRender {
  import opened Types
  import opened Text
  import opened PolicyTree

  /** The text between the blocks of a union. */
  const UNION_SEPARATOR := DELIMITER + "UNION" + DELIMITER

  /** The keyword a subtraction puts on a line of its own. */
  const MINUS_LINE := "MINUS"

  /** The line that closes every pattern. */
  const TRIPLE_LINE := "?s ?p ?o."

  /** The text of the unconstrained element. */
  const ANY_TEXT := "?s ?p ?o"

  /** A `VALUES` clause binding `variable` to the space-separated terms. */
  function Clause(variable: string, terms: seq<string>): string {
    "VALUES " + variable + " { " + Join(terms, " ") + " }"
  }

  /**
   * The `values` helper of a pattern: no clause for a missing or `null` field or the string '*', otherwise a
   * clause over the field's terms (a lone string being a one-term list).
   */
  function ValuesClause(variable: string, t: Terms): (r: Option<string>)
    ensures r.None? <==> Constraint(t).None?
    ensures r.Some? ==> r.value == Clause(variable, Constraint(t).value)
  {
    match t
    case Absent => None
    case Null => None
    case One(v) => if v == "*" then None else Some(Clause(variable, [v]))
    case Many(vs) => Some(Clause(variable, vs))
  }

  /** The clauses that are present, as lines. */
  function Present(clause: Option<string>): seq<string> {
    if clause.Some? then [clause.value] else []
  }

  /** The lines of a pattern: the clauses for ?s, ?p and ?o that are present, then the triple pattern. */
  function PatternLines(p: Policy): seq<string> {
    Present(ValuesClause("?s", p.subj)) + Present(ValuesClause("?p", p.pred)) + Present(ValuesClause("?o", p.obj))
      + [TRIPLE_LINE]
  }

  /**
   * `stringify` of a query element. It needs a well-formed tree: `stringify` of an empty union fails on its
   * missing first child, and `BuildTree` never builds one.
   */
  function Render(n: Node): string
    requires WellFormed(n)
  {
    match n
    case Any => ANY_TEXT
    case Pattern(p) => Join(PatternLines(p), DELIMITER)
    case Union(cs) => if |cs| > 1 then Join(Blocks(cs), UNION_SEPARATOR) else Render(cs[0])
    case Minus(l, r) =>
      Join(["{", IndentString(Render(l), INDENT), "}", MINUS_LINE, "{", IndentString(Render(r), INDENT), "}"], DELIMITER)
  }

  /** Each child of a union as an indented block between braces. */
  function Blocks(cs: seq<Node>): (r: seq<string>)
    requires forall c :: c in cs ==> WellFormed(c)
    ensures |r| == |cs|
  {
    if cs == [] then []
    else
      var last := cs[|cs| - 1];
      Blocks(cs[..|cs| - 1]) + [Join(["{", IndentString(Render(last), INDENT), "}"], DELIMITER)]
  }

  /**
   * Line-level reading of `stringify`: a pattern is its lines, a subtraction and every branch of a union of
   * two or more children are nested blocks whose lines are indented, and `UNION` and `MINUS` stand on lines
   * of their own.
   */
  function RenderLines(n: Node): (r: seq<string>)
    requires WellFormed(n)
    ensures |r| > 0
    decreases n, 0
  {
    match n
    case Any => [ANY_TEXT]
    case Pattern(p) => PatternLines(p)
    case Union(cs) => if |cs| > 1 then UnionLines(cs) else RenderLines(cs[0])
    case Minus(l, r) =>
      ["{"] + IndentLines(RenderLines(l), INDENT) + ["}", MINUS_LINE, "{"] + IndentLines(RenderLines(r), INDENT) + ["}"]
  }

  function UnionLines(cs: seq<Node>): (r: seq<string>)
    requires |cs| > 0 && forall c :: c in cs ==> WellFormed(c)
    ensures |r| > 0
    decreases cs, 0
  {
    var last := cs[|cs| - 1];
    if |cs| == 1 then BlockLines(last) else UnionLines(cs[..|cs| - 1]) + ["UNION"] + BlockLines(last)
  }

  /** Whether a field's terms stay on one line. */
  predicate LineSafe(t: Terms) {
    match t
    case One(v) => NoBreaks(v)
    case Many(vs) => AllNoBreaks(vs)
    case _ => true
  }

  predicate LineSafePolicy(p: Policy) {
    LineSafe(p.subj) && LineSafe(p.pred) && LineSafe(p.obj)
  }

  lemma {:induction false} JoinNoBreaks(parts: seq<string>, sep: string)
    requires AllNoBreaks(parts) && NoBreaks(sep)
    ensures NoBreaks(Join(parts, sep))
  {
    if |parts| > 1 {
      assert parts[0] in parts;
      assert AllNoBreaks(parts[1..]) by {
        forall l | l in parts[1..] ensures NoBreaks(l) {
          assert l in parts;
        }
      }
      JoinNoBreaks(parts[1..], sep);
    } else if |parts| == 1 {
      assert parts[0] in parts;
    }
  }

  lemma ClauseNoBreaks(variable: string, t: Terms)
    requires NoBreaks(variable) && LineSafe(t) && Constraint(t).Some?
    ensures NoBreaks(Clause(variable, Constraint(t).value))
  {
    var vs := Constraint(t).value;
    if t.One? {
      assert vs == [t.term];
      assert AllNoBreaks(vs) by {
        forall l | l in vs ensures NoBreaks(l) {
          assert l == t.term;
        }
      }
    }
    JoinNoBreaks(vs, " ");
    assert NoBreaks("VALUES ");
    assert NoBreaks(" { ");
    assert NoBreaks(" }");
  }

  lemma PatternLinesNoBreaks(p: Policy)
    requires LineSafePolicy(p)
    ensures AllNoBreaks(PatternLines(p))
  {
    if Constraint(p.subj).Some? {
      ClauseNoBreaks("?s", p.subj);
    }
    if Constraint(p.pred).Some? {
      ClauseNoBreaks("?p", p.pred);
    }
    if Constraint(p.obj).Some? {
      ClauseNoBreaks("?o", p.obj);
    }
    FixedLinesNoBreaks();
  }

  lemma {:induction false} IndentLinesNoBreaks(lines: seq<string>, count: nat)
    requires AllNoBreaks(lines)
    ensures AllNoBreaks(IndentLines(lines, count))
  {
    var r := IndentLines(lines, count);
    forall l | l in r ensures NoBreaks(l) {
      var i :| 0 <= i < |r| && r[i] == l;
      assert lines[i] in lines;
    }
  }

  /** The text of a block, as lines. */
  lemma BlockAsLines(c: Node)
    requires WellFormed(c)
    requires AllNoBreaks(RenderLines(c)) && Render(c) == Join(RenderLines(c), DELIMITER)
    ensures Join(["{", IndentString(Render(c), INDENT), "}"], DELIMITER)
         == Join(["{"] + IndentLines(RenderLines(c), INDENT) + ["}"], DELIMITER)
  {
    IndentJoin(RenderLines(c), INDENT);
    JoinBracketed("{", "}", IndentLines(RenderLines(c), INDENT), DELIMITER);
  }

  /** Flattening a block between an opening and a closing line. */
  lemma JoinBracketed(open: string, close: string, lines: seq<string>, sep: string)
    requires |lines| > 0
    ensures Join([open, Join(lines, sep), close], sep) == Join([open] + lines + [close], sep)
  {
    assert [open, Join(lines, sep), close] == [open] + [Join(lines, sep)] + [close];
    JoinFlatten([open], lines, [close], sep);
  }

  /** None of the fixed lines of the rendering holds a line break. */
  lemma FixedLinesNoBreaks()
    ensures NoBreaks("{") && NoBreaks("}") && NoBreaks(MINUS_LINE) && NoBreaks("UNION")
    ensures NoBreaks(ANY_TEXT) && NoBreaks(TRIPLE_LINE)
  {
  }

  /**
   * When no term holds a line break, the text `stringify` produces is exactly the line-level reading joined
   * with line feeds, and no line of that reading holds a line break.
   */
  lemma {:induction false} RenderAsLines(n: Node)
    requires WellFormed(n)
    requires forall p :: p in Leaves(n) ==> LineSafePolicy(p)
    ensures AllNoBreaks(RenderLines(n))
    ensures Render(n) == Join(RenderLines(n), DELIMITER)
  {
    match n
    case Any =>
      FixedLinesNoBreaks();
    case Pattern(p) =>
      assert p in Leaves(n);
      PatternLinesNoBreaks(p);
    case Union(cs) =>
      if |cs| > 1 {
        UnionAsLines(cs);
      } else {
        assert cs[0] in cs;
        assert LeavesAll(cs) == LeavesAll(cs[..0]) + Leaves(cs[0]);
        RenderAsLines(cs[0]);
      }
    case Minus(l, r) =>
      RenderAsLines(l);
      RenderAsLines(r);
      MinusAsLines(l, r);
  }

  lemma MinusAsLines(l: Node, r: Node)
    requires WellFormed(Minus(l, r))
    requires AllNoBreaks(RenderLines(l)) && Render(l) == Join(RenderLines(l), DELIMITER)
    requires AllNoBreaks(RenderLines(r)) && Render(r) == Join(RenderLines(r), DELIMITER)
    ensures AllNoBreaks(RenderLines(Minus(l, r)))
    ensures Render(Minus(l, r)) == Join(RenderLines(Minus(l, r)), DELIMITER)
  {
    var ls, rs := IndentLines(RenderLines(l), INDENT), IndentLines(RenderLines(r), INDENT);
    IndentJoin(RenderLines(l), INDENT);
    IndentJoin(RenderLines(r), INDENT);
    IndentLinesNoBreaks(RenderLines(l), INDENT);
    IndentLinesNoBreaks(RenderLines(r), INDENT);
    var lt, rt := IndentString(Render(l), INDENT), IndentString(Render(r), INDENT);
    assert Render(Minus(l, r)) == Join(["{", lt, "}", MINUS_LINE, "{", rt, "}"], DELIMITER);
    JoinSubtraction("{", "}", MINUS_LINE, ls, rs, DELIMITER);
    var mid := ["}", MINUS_LINE, "{"];
    BracketsNoBreaks(ls, mid, rs);
  }

  /** Flattening the two nested blocks of a subtraction, for any bracket and keyword lines. */
  lemma JoinSubtraction(open: string, close: string, keyword: string, ls: seq<string>, rs: seq<string>, sep: string)
    requires |ls| > 0 && |rs| > 0
    ensures Join([open, Join(ls, sep), close, keyword, open, Join(rs, sep), close], sep)
         == Join([open] + ls + [close, keyword, open] + rs + [close], sep)
  {
    var lt, rt := Join(ls, sep), Join(rs, sep);
    assert [open, lt, close, keyword, open, rt, close] == [open] + [lt] + [close, keyword, open] + [rt] + [close];
    JoinFlattenTwo([open], ls, [close, keyword, open], rs, [close], sep);
  }

  lemma BracketsNoBreaks(ls: seq<string>, mid: seq<string>, rs: seq<string>)
    requires AllNoBreaks(ls) && AllNoBreaks(rs) && mid == ["}", MINUS_LINE, "{"]
    ensures AllNoBreaks(["{"] + ls + mid + rs + ["}"])
  {
    FixedLinesNoBreaks();
  }

  /** One more block in a union, at text and at line level. */
  lemma UnionStep(blocks: seq<string>, lines: seq<string>, b: string, block: seq<string>, keyword: string, sep: string)
    requires |blocks| > 0 && |lines| > 0 && |block| > 0
    requires Join(blocks, sep + keyword + sep) == Join(lines, sep) && b == Join(block, sep)
    ensures Join(blocks + [b], sep + keyword + sep) == Join(lines + [keyword] + block, sep)
  {
    var head := Join(lines, sep);
    assert head + sep + keyword + sep + b == head + (sep + keyword + sep) + b;
    JoinLast(blocks, b, sep + keyword + sep);
    JoinLast(lines, keyword, sep);
    JoinAppend(lines + [keyword], block, sep);
  }

  lemma JoinLast(parts: seq<string>, x: string, sep: string)
    requires |parts| > 0
    ensures Join(parts + [x], sep) == Join(parts, sep) + sep + x
  {
    JoinAppend(parts, [x], sep);
  }

  lemma {:induction false} UnionAsLines(cs: seq<Node>)
    requires |cs| > 0 && forall c :: c in cs ==> WellFormed(c)
    requires forall p :: p in LeavesAll(cs) ==> LineSafePolicy(p)
    ensures AllNoBreaks(UnionLines(cs))
    ensures Join(Blocks(cs), UNION_SEPARATOR) == Join(UnionLines(cs), DELIMITER)
  {
    var init, last := cs[..|cs| - 1], cs[|cs| - 1];
    assert last in cs;
    assert LeavesAll(cs) == LeavesAll(init) + Leaves(last);
    RenderAsLines(last);
    var b := BlockAsText(last);
    if |cs| > 1 {
      assert forall c :: c in init ==> c in cs;
      UnionAsLines(init);
      assert Blocks(cs) == Blocks(init) + [b];
      UnionStep(Blocks(init), UnionLines(init), b, BlockLines(last), "UNION", DELIMITER);
      UnionLinesNoBreaks(UnionLines(init), BlockLines(last));
    } else {
      assert Blocks(cs) == [] + [b];
    }
  }

  /** The lines of one union branch. */
  function BlockLines(c: Node): seq<string>
    requires WellFormed(c)
    decreases c, 1
  {
    ["{"] + IndentLines(RenderLines(c), INDENT) + ["}"]
  }

  lemma BlockAsText(c: Node) returns (b: string)
    requires WellFormed(c)
    requires AllNoBreaks(RenderLines(c)) && Render(c) == Join(RenderLines(c), DELIMITER)
    ensures b == Join(["{", IndentString(Render(c), INDENT), "}"], DELIMITER)
    ensures b == Join(BlockLines(c), DELIMITER)
    ensures AllNoBreaks(BlockLines(c))
  {
    b := Join(["{", IndentString(Render(c), INDENT), "}"], DELIMITER);
    BlockAsLines(c);
    IndentLinesNoBreaks(RenderLines(c), INDENT);
    FixedLinesNoBreaks();
  }

  lemma UnionLinesNoBreaks(lines: seq<string>, block: seq<string>)
    requires AllNoBreaks(lines) && AllNoBreaks(block)
    ensures AllNoBreaks(lines + ["UNION"] + block)
  {
    FixedLinesNoBreaks();
  }

  lemma KeywordCountOne(line: string, keyword: string)
    ensures KeywordCount([line], keyword) == if StripSpaces(line) == keyword then 1 else 0
  {
    assert [line][1..] == [];
  }

  /** The fixed lines are neither a subtraction keyword nor a closing triple pattern. */
  lemma FixedLineCounts(line: string)
    requires line in ["{", "}", "UNION", ANY_TEXT]
    ensures KeywordCount([line], MINUS_LINE) == 0 && KeywordCount([line], TRIPLE_LINE) == 0
  {
    KeywordCountOne(line, MINUS_LINE);
    KeywordCountOne(line, TRIPLE_LINE);
  }

  /** A `VALUES` line counts as neither keyword. */
  lemma ClauseCounts(variable: string, terms: seq<string>)
    ensures KeywordCount([Clause(variable, terms)], MINUS_LINE) == 0
    ensures KeywordCount([Clause(variable, terms)], TRIPLE_LINE) == 0
  {
    var line := Clause(variable, terms);
    assert line[0] == 'V';
    KeywordCountOne(line, MINUS_LINE);
    KeywordCountOne(line, TRIPLE_LINE);
  }

  lemma PresentCounts(variable: string, t: Terms)
    ensures KeywordCount(Present(ValuesClause(variable, t)), MINUS_LINE) == 0
    ensures KeywordCount(Present(ValuesClause(variable, t)), TRIPLE_LINE) == 0
  {
    if Constraint(t).Some? {
      ClauseCounts(variable, Constraint(t).value);
    }
  }

  /** A pattern has one closing triple line and no subtraction keyword. */
  lemma PatternCounts(p: Policy)
    ensures KeywordCount(PatternLines(p), MINUS_LINE) == 0
    ensures KeywordCount(PatternLines(p), TRIPLE_LINE) == 1
  {
    var s, pr, o := Present(ValuesClause("?s", p.subj)), Present(ValuesClause("?p", p.pred)), Present(ValuesClause("?o", p.obj));
    PresentCounts("?s", p.subj);
    PresentCounts("?p", p.pred);
    PresentCounts("?o", p.obj);
    KeywordCountOne(TRIPLE_LINE, MINUS_LINE);
    KeywordCountOne(TRIPLE_LINE, TRIPLE_LINE);
    forall k | k == MINUS_LINE || k == TRIPLE_LINE
      ensures KeywordCount(PatternLines(p), k) == KeywordCount([TRIPLE_LINE], k)
    {
      KeywordCountAppend(s + pr + o, [TRIPLE_LINE], k);
      KeywordCountAppend(s + pr, o, k);
      KeywordCountAppend(s, pr, k);
    }
  }

  /**
   * The rendered lines hold one `MINUS` line per subtraction node of the tree and one closing `?s ?p ?o.` line
   * per pattern leaf.
   */
  lemma {:induction false} RenderCounts(n: Node)
    requires WellFormed(n)
    ensures KeywordCount(RenderLines(n), MINUS_LINE) == MinusCount(n)
    ensures KeywordCount(RenderLines(n), TRIPLE_LINE) == |Leaves(n)|
  {
    match n
    case Any =>
      FixedLineCounts(ANY_TEXT);
    case Pattern(p) =>
      PatternCounts(p);
    case Union(cs) =>
      if |cs| > 1 {
        UnionCounts(cs);
      } else {
        assert cs[0] in cs;
        assert cs == [] + [cs[0]];
        AppendChild([], cs[0]);
        RenderCounts(cs[0]);
      }
    case Minus(l, r) =>
      RenderCounts(l);
      RenderCounts(r);
      MinusCounts(l, r);
  }

  lemma MinusCounts(l: Node, r: Node)
    requires WellFormed(Minus(l, r))
    requires KeywordCount(RenderLines(l), MINUS_LINE) == MinusCount(l)
    requires KeywordCount(RenderLines(l), TRIPLE_LINE) == |Leaves(l)|
    requires KeywordCount(RenderLines(r), MINUS_LINE) == MinusCount(r)
    requires KeywordCount(RenderLines(r), TRIPLE_LINE) == |Leaves(r)|
    ensures KeywordCount(RenderLines(Minus(l, r)), MINUS_LINE) == MinusCount(Minus(l, r))
    ensures KeywordCount(RenderLines(Minus(l, r)), TRIPLE_LINE) == |Leaves(Minus(l, r))|
  {
    SubtractionCount(l, r, MINUS_LINE);
    SubtractionCount(l, r, TRIPLE_LINE);
    KeywordCountOne(MINUS_LINE, MINUS_LINE);
    KeywordCountOne(MINUS_LINE, TRIPLE_LINE);
  }

  lemma SubtractionCount(l: Node, r: Node, k: string)
    requires WellFormed(Minus(l, r))
    requires k == MINUS_LINE || k == TRIPLE_LINE
    ensures KeywordCount(RenderLines(Minus(l, r)), k)
         == KeywordCount(RenderLines(l), k) + KeywordCount([MINUS_LINE], k) + KeywordCount(RenderLines(r), k)
  {
    var ls, rs := IndentLines(RenderLines(l), INDENT), IndentLines(RenderLines(r), INDENT);
    assert RenderLines(Minus(l, r)) == ["{"] + ls + ["}", MINUS_LINE, "{"] + rs + ["}"];
    SubtractionLineCount(ls, rs, k);
    KeywordCountIndent(RenderLines(l), INDENT, k);
    KeywordCountIndent(RenderLines(r), INDENT, k);
  }

  lemma SubtractionLineCount(ls: seq<string>, rs: seq<string>, k: string)
    requires k == MINUS_LINE || k == TRIPLE_LINE
    ensures KeywordCount(["{"] + ls + ["}", MINUS_LINE, "{"] + rs + ["}"], k)
         == KeywordCount(ls, k) + KeywordCount([MINUS_LINE], k) + KeywordCount(rs, k)
  {
    var mid := ["}", MINUS_LINE, "{"];
    FixedLineCounts("{");
    FixedLineCounts("}");
    KeywordCountAppend(["{"] + ls + mid + rs, ["}"], k);
    KeywordCountAppend(["{"] + ls + mid, rs, k);
    KeywordCountAppend(["{"] + ls, mid, k);
    KeywordCountAppend(["{"], ls, k);
    assert mid == ["}"] + [MINUS_LINE] + ["{"];
    KeywordCountAppend(["}"] + [MINUS_LINE], ["{"], k);
    KeywordCountAppend(["}"], [MINUS_LINE], k);
  }

  lemma BlockCounts(c: Node, k: string)
    requires WellFormed(c)
    requires k == MINUS_LINE || k == TRIPLE_LINE
    ensures KeywordCount(BlockLines(c), k) == KeywordCount(RenderLines(c), k)
  {
    var ls := IndentLines(RenderLines(c), INDENT);
    FixedLineCounts("{");
    FixedLineCounts("}");
    KeywordCountAppend(["{"] + ls, ["}"], k);
    KeywordCountAppend(["{"], ls, k);
    KeywordCountIndent(RenderLines(c), INDENT, k);
  }

  lemma {:induction false} UnionCounts(cs: seq<Node>)
    requires |cs| > 0 && forall c :: c in cs ==> WellFormed(c)
    ensures KeywordCount(UnionLines(cs), MINUS_LINE) == MinusCountAll(cs)
    ensures KeywordCount(UnionLines(cs), TRIPLE_LINE) == |LeavesAll(cs)|
  {
    var init, last := cs[..|cs| - 1], cs[|cs| - 1];
    assert last in cs;
    RenderCounts(last);
    BlockCounts(last, MINUS_LINE);
    BlockCounts(last, TRIPLE_LINE);
    if |cs| > 1 {
      assert forall c :: c in init ==> c in cs;
      UnionCounts(init);
      FixedLineCounts("UNION");
      forall k | k == MINUS_LINE || k == TRIPLE_LINE
        ensures KeywordCount(UnionLines(cs), k)
             == KeywordCount(UnionLines(init), k) + KeywordCount(BlockLines(last), k)
      {
        KeywordCountAppend(UnionLines(init) + ["UNION"], BlockLines(last), k);
        KeywordCountAppend(UnionLines(init), ["UNION"], k);
      }
    } else {
      assert init == [];
    }
  }
}
