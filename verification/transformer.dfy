/**
 * `allowedDataQuery` and `stringifyPrefixes`: the full `CONSTRUCT` query around the rendered policy tree.
 */
module Transformer {
  import opened Types
  import opened Text
  import opened PolicySort
  import opened PolicyTree
  import opened TreeRender

  /** The head of the query. */
  const CONSTRUCT_LINE := "CONSTRUCT { ?s ?p ?o. } WHERE"

  /** One prefix declaration. */
  function PrefixLine(key: string, value: string): string {
    "PREFIX " + key + ": " + value
  }

  /**
   * `stringifyPrefixes`: one declaration per entry of the prefix map, in entry order. The map is given as
   * its list of entries.
   */
  function StringifyPrefixes(prefixes: seq<(string, string)>): (r: seq<string>)
    ensures |r| == |prefixes|
  {
    if prefixes == [] then []
    else [PrefixLine(prefixes[0].0, prefixes[0].1)] + StringifyPrefixes(prefixes[1..])
  }

  /** The first position of `c` in `s`. */
  function IndexOf(s: string, c: char): (r: Option<nat>)
    ensures r.Some? ==> r.value < |s| && s[r.value] == c && c !in s[..r.value]
    ensures r.None? ==> c !in s
  {
    if s == [] then None
    else if s[0] == c then Some(0)
    else
      var i := IndexOf(s[1..], c);
      if i.Some? then
        assert s[..i.value + 1] == [s[0]] + s[1..][..i.value];
        Some(i.value + 1)
      else None
  }

  /** The prefix name and IRI a declaration line states, split at its first colon. */
  function ReadPrefix(line: string): Option<(string, string)> {
    if |line| < 7 || line[..7] != "PREFIX " then None
    else
      var rest := line[7..];
      match IndexOf(rest, ':')
      case None => None
      case Some(i) => if i + 1 < |rest| && rest[i + 1] == ' ' then Some((rest[..i], rest[i + 2..])) else None
  }

  function ReadPrefixes(lines: seq<string>): Option<seq<(string, string)>> {
    if lines == [] then Some([])
    else
      match (ReadPrefix(lines[0]), ReadPrefixes(lines[1..]))
      case (Some(e), Some(es)) => Some([e] + es)
      case _ => None
  }

  lemma PrefixLineBack(key: string, value: string)
    requires ':' !in key
    ensures ReadPrefix(PrefixLine(key, value)) == Some((key, value))
  {
    var line := PrefixLine(key, value);
    assert line[..7] == "PREFIX ";
    var rest := line[7..];
    assert rest == key + ": " + value;
    assert rest[..|key|] == key;
    assert rest[|key|] == ':';
    assert IndexOf(rest, ':') == Some(|key|);
    assert rest[|key| + 2..] == value;
  }

  /**
   * The prefix declarations read back as the entries they were made from, in the same order, whenever no
   * prefix name holds a colon (a SPARQL prefix name never does).
   */
  lemma {:induction false} PrefixesRoundTrip(prefixes: seq<(string, string)>)
    requires forall e :: e in prefixes ==> ':' !in e.0
    ensures ReadPrefixes(StringifyPrefixes(prefixes)) == Some(prefixes)
  {
    if prefixes != [] {
      assert prefixes[0] in prefixes;
      assert forall e :: e in prefixes[1..] ==> e in prefixes;
      PrefixLineBack(prefixes[0].0, prefixes[0].1);
      PrefixesRoundTrip(prefixes[1..]);
      assert [prefixes[0]] + prefixes[1..] == prefixes;
    }
  }

  /** The query text around a rendered tree. */
  function QueryText(tree: Node, prefixes: seq<(string, string)>): string
    requires WellFormed(tree)
  {
    Join(StringifyPrefixes(prefixes) + [CONSTRUCT_LINE, "{", IndentString(Render(tree), INDENT), "}"], DELIMITER)
  }

  /**
   * What `allowedDataQuery` returns for a list of policies: the query over the tree of the sorted list, or
   * an error when there is no tree to render.
   */
  function AllowedQuery(policies: seq<Policy>, prefixes: seq<(string, string)>): Result<string> {
    var tree := BuildTree(SortByPriority(policies));
    if tree.None? then Err(NullTree) else Ok(QueryText(tree.value, prefixes))
  }

  /**
   * `allowedDataQuery`: compiles the policies (sorting the given array in place) and wraps the rendered tree
   * in the query. Without an allow or deny policy there is no tree, and the source fails on it.
   */
  method AllowedDataQuery(policies: array<Policy>, prefixes: seq<(string, string)>) returns (query: Result<string>)
    modifies policies
    ensures policies[..] == SortByPriority(old(policies[..]))
    ensures query == AllowedQuery(old(policies[..]), prefixes)
  {
    var tree := CreatePolicyTree(policies);
    if tree.None? {
      return Err(NullTree);
    }
    var pattern := Render(tree.value);
    query := Ok(Join(StringifyPrefixes(prefixes) + [CONSTRUCT_LINE, "{", IndentString(pattern, INDENT), "}"], DELIMITER));
  }

  /** The line-level reading of the query. */
  function QueryLines(tree: Node, prefixes: seq<(string, string)>): seq<string>
    requires WellFormed(tree)
  {
    StringifyPrefixes(prefixes) + [CONSTRUCT_LINE, "{"] + IndentLines(RenderLines(tree), INDENT) + ["}"]
  }

  predicate PrefixesLineSafe(prefixes: seq<(string, string)>) {
    forall e :: e in prefixes ==> NoBreaks(e.0) && NoBreaks(e.1)
  }

  lemma {:induction false} PrefixLinesNoBreaks(prefixes: seq<(string, string)>)
    requires PrefixesLineSafe(prefixes)
    ensures AllNoBreaks(StringifyPrefixes(prefixes))
  {
    if prefixes != [] {
      var e := prefixes[0];
      assert e in prefixes;
      assert forall x :: x in prefixes[1..] ==> x in prefixes;
      PrefixLinesNoBreaks(prefixes[1..]);
      assert NoBreaks("PREFIX ") && NoBreaks(": ");
      assert NoBreaks(PrefixLine(e.0, e.1));
    }
  }

  /**
   * The query is, line by line: the prefix declarations, the `CONSTRUCT` head and `{`, every line of the
   * rendered tree indented by two spaces, and `}` — provided no term, prefix name or IRI holds a line break.
   */
  lemma QueryAsLines(tree: Node, prefixes: seq<(string, string)>)
    requires WellFormed(tree) && PrefixesLineSafe(prefixes)
    requires forall p :: p in Leaves(tree) ==> LineSafePolicy(p)
    ensures AllNoBreaks(QueryLines(tree, prefixes))
    ensures QueryText(tree, prefixes) == Join(QueryLines(tree, prefixes), DELIMITER)
  {
    var px, body := StringifyPrefixes(prefixes), IndentLines(RenderLines(tree), INDENT);
    RenderAsLines(tree);
    IndentJoin(RenderLines(tree), INDENT);
    JoinWrapped(px, CONSTRUCT_LINE, "{", "}", body, DELIMITER);
    QueryLinesNoBreaks(tree, prefixes);
  }

  lemma QueryLinesNoBreaks(tree: Node, prefixes: seq<(string, string)>)
    requires WellFormed(tree) && PrefixesLineSafe(prefixes) && AllNoBreaks(RenderLines(tree))
    ensures AllNoBreaks(QueryLines(tree, prefixes))
  {
    IndentLinesNoBreaks(RenderLines(tree), INDENT);
    PrefixLinesNoBreaks(prefixes);
    FixedLinesNoBreaks();
    assert NoBreaks(CONSTRUCT_LINE);
  }

  /** Flattening the block of lines that closes a list of lines. */
  lemma JoinWrapped(front: seq<string>, head: string, open: string, close: string, lines: seq<string>, sep: string)
    requires |lines| > 0
    ensures Join(front + [head, open, Join(lines, sep), close], sep) == Join(front + [head, open] + lines + [close], sep)
  {
    var text := Join(lines, sep);
    assert front + [head, open, text, close] == front + [head, open] + [text] + [close];
    JoinFlatten(front + [head, open], lines, [close], sep);
  }

  /** Neither a prefix declaration nor the query head counts as a keyword line. */
  lemma HeadCounts(prefixes: seq<(string, string)>, k: string)
    requires k == MINUS_LINE || k == TRIPLE_LINE
    ensures KeywordCount(StringifyPrefixes(prefixes) + [CONSTRUCT_LINE, "{"], k) == 0
  {
    PrefixCounts(prefixes, k);
    KeywordCountOne(CONSTRUCT_LINE, k);
    FixedLineCounts("{");
    KeywordCountAppend(StringifyPrefixes(prefixes), [CONSTRUCT_LINE] + ["{"], k);
    KeywordCountAppend([CONSTRUCT_LINE], ["{"], k);
    assert [CONSTRUCT_LINE] + ["{"] == [CONSTRUCT_LINE, "{"];
  }

  lemma {:induction false} PrefixCounts(prefixes: seq<(string, string)>, k: string)
    requires k == MINUS_LINE || k == TRIPLE_LINE
    ensures KeywordCount(StringifyPrefixes(prefixes), k) == 0
  {
    if prefixes != [] {
      var line := PrefixLine(prefixes[0].0, prefixes[0].1);
      assert line[0] == 'P';
      PrefixCounts(prefixes[1..], k);
    }
  }

  /** How many allow and deny policies a list has does not depend on its order. */
  lemma {:induction false} EffectiveCount(s: seq<Policy>, p: Policy)
    ensures multiset(EffectivePolicies(s))[p] == if Effective(p) then multiset(s)[p] else 0
  {
    if s != [] {
      EffectiveCount(s[..|s| - 1], p);
      assert s == s[..|s| - 1] + [s[|s| - 1]];
    }
  }

  lemma EffectiveCountPermutation(a: seq<Policy>, b: seq<Policy>)
    requires multiset(a) == multiset(b)
    ensures |EffectivePolicies(a)| == |EffectivePolicies(b)|
  {
    forall p ensures multiset(EffectivePolicies(a))[p] == multiset(EffectivePolicies(b))[p] {
      EffectiveCount(a, p);
      EffectiveCount(b, p);
    }
    assert multiset(EffectivePolicies(a)) == multiset(EffectivePolicies(b));
    assert |multiset(EffectivePolicies(a))| == |EffectivePolicies(a)|;
    assert |multiset(EffectivePolicies(b))| == |EffectivePolicies(b)|;
  }

  lemma {:induction false} NoEffectIff(s: seq<Policy>)
    ensures LastEffect(s).None? <==> forall p :: p in s ==> !Effective(p)
  {
    if s != [] {
      NoEffectIff(s[..|s| - 1]);
      assert s == s[..|s| - 1] + [s[|s| - 1]];
    }
  }

  /** `allowedDataQuery` fails exactly when the list holds no allow or deny policy at all. */
  lemma QueryFailsIff(policies: seq<Policy>, prefixes: seq<(string, string)>)
    ensures AllowedQuery(policies, prefixes).Err? <==> forall p :: p in policies ==> !Effective(p)
  {
    var sorted := SortByPriority(policies);
    SortIsPermutation(policies);
    NoEffectIff(sorted);
    assert forall p :: p in sorted <==> p in multiset(sorted);
    assert forall p :: p in policies <==> p in multiset(policies);
  }

  /**
   * The query has one closing `?s ?p ?o.` line per allow or deny policy of the input, and one `MINUS` line
   * per maximal run of deny policies in priority order.
   */
  lemma QueryCounts(policies: seq<Policy>, prefixes: seq<(string, string)>)
    requires BuildTree(SortByPriority(policies)).Some?
    ensures var tree := BuildTree(SortByPriority(policies)).value;
      WellFormed(tree)
      && KeywordCount(QueryLines(tree, prefixes), TRIPLE_LINE) == |EffectivePolicies(policies)|
      && KeywordCount(QueryLines(tree, prefixes), MINUS_LINE) == DenyRuns(SortByPriority(policies))
  {
    var sorted := SortByPriority(policies);
    var tree := BuildTree(sorted).value;
    FoldLeaves(sorted);
    FoldMinusCount(sorted);
    RenderCounts(tree);
    SortIsPermutation(policies);
    EffectiveCountPermutation(sorted, policies);
    forall k | k == MINUS_LINE || k == TRIPLE_LINE
      ensures KeywordCount(QueryLines(tree, prefixes), k) == KeywordCount(RenderLines(tree), k)
    {
      var head := StringifyPrefixes(prefixes) + [CONSTRUCT_LINE, "{"];
      HeadCounts(prefixes, k);
      KeywordCountIndent(RenderLines(tree), INDENT, k);
      FixedLineCounts("}");
      KeywordCountAppend(head + IndentLines(RenderLines(tree), INDENT), ["}"], k);
      KeywordCountAppend(head, IndentLines(RenderLines(tree), INDENT), k);
    }
  }
}
