/**
 * Reading the lines of a rendered pattern back into the constraints they state. The round trip shows that
 * the text of a pattern carries exactly the constraints of its policy, in the order ?s, ?p, ?o, whenever the
 * terms are single tokens (non-empty, without spaces).
 */
module PatternRead {
  import opened Types
  import opened Text
  import opened TreeRender

  /** A term that survives being joined with spaces and split again. */
  predicate IsToken(v: string) {
    v != "" && ' ' !in v
  }

  predicate Tokenized(t: Terms) {
    Constraint(t).Some? ==> forall v :: v in Constraint(t).value ==> IsToken(v)
  }

  /** `s` cut at every space, empty pieces kept. */
  function Fields(s: string): (r: seq<string>)
    ensures |r| > 0
  {
    if s == [] then [""]
    else
      var rest := Fields(s[1..]);
      if s[0] == ' ' then [""] + rest else [[s[0]] + rest[0]] + rest[1..]
  }

  /** The terms of a `VALUES` clause body: none for the empty body, otherwise its space-separated pieces. */
  function SplitTerms(s: string): seq<string> {
    if s == "" then [] else Fields(s)
  }

  lemma {:induction false} FieldsOfToken(w: string)
    requires ' ' !in w
    ensures Fields(w) == [w]
  {
    if w != [] {
      assert w[0] in w;
      assert forall c :: c in w[1..] ==> c in w;
      FieldsOfToken(w[1..]);
      assert [w[0]] + w[1..] == w;
    }
  }

  lemma {:induction false} FieldsAfterToken(w: string, rest: string)
    requires ' ' !in w
    ensures Fields(w + " " + rest) == [w] + Fields(rest)
  {
    if w == [] {
      assert (w + " " + rest)[1..] == rest;
    } else {
      assert w[0] in w;
      assert forall c :: c in w[1..] ==> c in w;
      assert (w + " " + rest)[1..] == w[1..] + " " + rest;
      FieldsAfterToken(w[1..], rest);
      assert [w[0]] + w[1..] == w;
    }
  }

  /** Splitting a space-joined list of tokens gives the list back. */
  lemma {:induction false} SplitJoin(vs: seq<string>)
    requires forall v :: v in vs ==> IsToken(v)
    ensures SplitTerms(Join(vs, " ")) == vs
  {
    if |vs| == 1 {
      assert vs[0] in vs;
      FieldsOfToken(vs[0]);
    } else if |vs| > 1 {
      var rest := vs[1..];
      assert vs[0] in vs && rest[0] in vs;
      assert forall v :: v in rest ==> v in vs;
      SplitJoin(rest);
      FieldsAfterToken(vs[0], Join(rest, " "));
      JoinNonEmpty(rest);
      assert [vs[0]] + rest == vs;
    }
  }

  lemma JoinNonEmpty(vs: seq<string>)
    requires |vs| > 0 && vs[0] != ""
    ensures Join(vs, " ") != ""
  {
  }

  /** The opening of a `VALUES` line for `variable`. */
  function ClauseHead(variable: string): string {
    "VALUES " + variable + " { "
  }

  /** The terms of `line` when it is a `VALUES` line for `variable`. */
  function ReadClause(variable: string, line: string): Option<seq<string>> {
    var head := ClauseHead(variable);
    if |line| >= |head| + 2 && line[..|head|] == head && line[|line| - 2..] == " }"
    then Some(SplitTerms(line[|head|..|line| - 2]))
    else None
  }

  lemma ClauseShape(variable: string, vs: seq<string>)
    ensures Clause(variable, vs) == ClauseHead(variable) + Join(vs, " ") + " }"
  {
  }

  lemma ReadClauseBack(variable: string, vs: seq<string>)
    requires forall v :: v in vs ==> IsToken(v)
    ensures ReadClause(variable, Clause(variable, vs)) == Some(vs)
  {
    var head, body := ClauseHead(variable), Join(vs, " ");
    var line := Clause(variable, vs);
    ClauseShape(variable, vs);
    assert line[..|head|] == head;
    assert line[|line| - 2..] == " }";
    assert line[|head|..|line| - 2] == body;
    SplitJoin(vs);
  }

  /** A `VALUES` line for one variable is not read as one for another variable of the same length. */
  lemma ReadClauseOther(variable: string, other: string, vs: seq<string>)
    requires |variable| == |other| && variable != other
    ensures ReadClause(other, Clause(variable, vs)).None?
  {
    var line := Clause(variable, vs);
    var head := ClauseHead(other);
    ClauseShape(variable, vs);
    assert line[..|head|] == ClauseHead(variable);
    HeadsDiffer(variable, other);
  }

  lemma HeadsDiffer(variable: string, other: string)
    requires |variable| == |other| && variable != other
    ensures ClauseHead(variable) != ClauseHead(other)
  {
    assert ClauseHead(variable)[7..7 + |variable|] == variable;
    assert ClauseHead(other)[7..7 + |other|] == other;
  }

  /** The closing triple pattern is not a `VALUES` line. */
  lemma ReadClauseTriple(variable: string)
    ensures ReadClause(variable, TRIPLE_LINE).None?
  {
  }

  /** The three constraints a pattern's lines state. */
  datatype Constraints = Constraints(subj: Option<seq<string>>, pred: Option<seq<string>>, obj: Option<seq<string>>)

  /** Reads a `VALUES` line for `variable` off the front of `lines`, if there is one. */
  function TakeClause(variable: string, lines: seq<string>): (Option<seq<string>>, seq<string>) {
    if |lines| > 0 && ReadClause(variable, lines[0]).Some? then (ReadClause(variable, lines[0]), lines[1..])
    else (None, lines)
  }

  /** The constraints stated by the lines of a pattern, or `None` when the lines are not a pattern. */
  function ReadPattern(lines: seq<string>): Option<Constraints> {
    var (s, afterS) := TakeClause("?s", lines);
    var (p, afterP) := TakeClause("?p", afterS);
    var (o, afterO) := TakeClause("?o", afterP);
    if afterO == [TRIPLE_LINE] then Some(Constraints(s, p, o)) else None
  }

  lemma TakePresent(variable: string, t: Terms, rest: seq<string>)
    requires Tokenized(t)
    requires rest != [] && ReadClause(variable, rest[0]).None?
    ensures TakeClause(variable, Present(ValuesClause(variable, t)) + rest) == (Constraint(t), rest)
  {
    if Constraint(t).Some? {
      ReadClauseBack(variable, Constraint(t).value);
      assert (Present(ValuesClause(variable, t)) + rest)[1..] == rest;
    } else {
      assert Present(ValuesClause(variable, t)) + rest == rest;
    }
  }

  /** The first line after the clauses that are present, for a reader looking for `variable`'s clause. */
  lemma NotRead(variable: string, other: string, t: Terms, rest: seq<string>)
    requires |variable| == |other| && variable != other
    requires rest != [] && ReadClause(variable, rest[0]).None?
    ensures ReadClause(variable, (Present(ValuesClause(other, t)) + rest)[0]).None?
  {
    if Constraint(t).Some? {
      ReadClauseOther(other, variable, Constraint(t).value);
    }
  }

  /**
   * Reading back the lines of a rendered pattern recovers the constraint of each of its three fields; a
   * field that constrains nothing reads back as no clause.
   */
  lemma PatternRoundTrip(p: Policy)
    requires Tokenized(p.subj) && Tokenized(p.pred) && Tokenized(p.obj)
    ensures ReadPattern(PatternLines(p)) == Some(Constraints(Constraint(p.subj), Constraint(p.pred), Constraint(p.obj)))
  {
    var s, pr, o := Present(ValuesClause("?s", p.subj)), Present(ValuesClause("?p", p.pred)), Present(ValuesClause("?o", p.obj));
    var t := [TRIPLE_LINE];
    assert PatternLines(p) == s + (pr + (o + t));
    ReadClauseTriple("?o");
    ReadClauseTriple("?p");
    ReadClauseTriple("?s");
    TakePresent("?o", p.obj, t);
    NotRead("?p", "?o", p.obj, t);
    TakePresent("?p", p.pred, o + t);
    NotRead("?s", "?o", p.obj, t);
    NotRead("?s", "?p", p.pred, o + t);
    TakePresent("?s", p.subj, pr + (o + t));
  }
}
