/**
 * What the compiled tree admits. The SPARQL 1.1 operators the tree is rendered with give each node kind a
 * meaning over triples: a pattern with `VALUES` clauses admits a triple whose constrained positions hold one
 * of the listed terms (section 10.2 of SPARQL 1.1 Query Language), a `UNION` admits what any branch admits
 * (section 7), and `MINUS` over the shared variables ?s ?p ?o removes from its left side every triple its
 * right side admits (section 8.2). Terms are compared as written.
 */
module PolicySemantics {
  import opened Types
  import opened PolicySort
  import opened PolicyTree

  datatype Triple = Triple(s: string, p: string, o: string)

  /** Whether a term field lets `term` through: a field that constrains nothing admits every term. */
  predicate Admits(t: Terms, term: string) {
    match Constraint(t)
    case None => true
    case Some(vs) => term in vs
  }

  predicate PolicyMatches(p: Policy, tr: Triple) {
    Admits(p.subj, tr.s) && Admits(p.pred, tr.p) && Admits(p.obj, tr.o)
  }

  /** The triples a tree admits. */
  predicate Matches(n: Node, tr: Triple) {
    match n
    case Any => true
    case Pattern(p) => PolicyMatches(p, tr)
    case Union(cs) => exists c :: c in cs && Matches(c, tr)
    case Minus(l, r) => Matches(l, tr) && !Matches(r, tr)
  }

  /** Whether the last allow or deny policy of `s` that matches `tr` allows it; `None` when none matches. */
  function Verdict(s: seq<Policy>, tr: Triple): Option<bool> {
    if s == [] then None
    else if Effective(s[|s| - 1]) && PolicyMatches(s[|s| - 1], tr) then Some(s[|s| - 1].permission == Allow)
    else Verdict(s[..|s| - 1], tr)
  }

  /** The permission of the first allow or deny policy of `s`, if any. */
  function FirstEffect(s: seq<Policy>): Option<Permission> {
    if s == [] then None
    else if Effective(s[0]) then Some(s[0].permission)
    else FirstEffect(s[1..])
  }

  /**
   * Reference decision for a list taken in order: the last matching allow or deny policy decides; when none
   * matches, the triple is visible exactly when the first allow or deny policy is a deny (a leading deny
   * subtracts from Any, a leading allow starts from nothing).
   */
  predicate Visible(s: seq<Policy>, tr: Triple) {
    match Verdict(s, tr)
    case Some(allowed) => allowed
    case None => FirstEffect(s) == Some(Deny)
  }

  lemma {:induction false} FirstEffectAppend(s: seq<Policy>, p: Policy)
    ensures FirstEffect(s + [p])
         == if FirstEffect(s).Some? then FirstEffect(s) else if Effective(p) then Some(p.permission) else None
  {
    if s == [] {
      assert s + [p] == [p];
      assert [p][1..] == [];
    } else {
      assert (s + [p])[1..] == s[1..] + [p];
      FirstEffectAppend(s[1..], p);
    }
  }

  lemma {:induction false} NoEffectEitherEnd(s: seq<Policy>)
    requires LastEffect(s).None?
    ensures FirstEffect(s).None?
    ensures forall tr :: Verdict(s, tr).None?
  {
    if s != [] {
      NoEffectEitherEnd(s[..|s| - 1]);
      FirstEffectAppend(s[..|s| - 1], s[|s| - 1]);
      assert s == s[..|s| - 1] + [s[|s| - 1]];
    }
  }

  lemma MatchesAppended(cs: seq<Node>, c: Node, tr: Triple)
    ensures Matches(Union(cs + [c]), tr) <==> Matches(Union(cs), tr) || Matches(c, tr)
  {
    if Matches(c, tr) {
      assert c in cs + [c];
    }
    if Matches(Union(cs), tr) {
      var d :| d in cs && Matches(d, tr);
      assert d in cs + [c];
    }
  }

  lemma StepMeaningAllow(root: Option<Node>, p: Policy, tr: Triple)
    requires p.permission == Allow
    requires root.Some? && root.value.Minus? ==> root.value.rhs.Union?
    ensures Matches(Step(root, p).value, tr)
        <==> (root.Some? && Matches(root.value, tr)) || PolicyMatches(p, tr)
  {
    var cs := if root.Some? && root.value.Union? then root.value.children
              else if root.Some? then [root.value] else [];
    assert Step(root, p) == Some(Union(cs + [Pattern(p)]));
    MatchesAppended(cs, Pattern(p), tr);
    if root.Some? && !root.value.Union? {
      assert Matches(Union(cs), tr) <==> Matches(root.value, tr) by {
        assert root.value in cs;
      }
    }
  }

  lemma StepMeaningDeny(root: Option<Node>, p: Policy, tr: Triple)
    requires p.permission == Deny
    requires root.Some? && root.value.Minus? ==> root.value.rhs.Union?
    ensures Matches(Step(root, p).value, tr)
        <==> (root.None? || Matches(root.value, tr)) && !PolicyMatches(p, tr)
  {
    if root.Some? && root.value.Minus? {
      var l, cs := root.value.lhs, root.value.rhs.children;
      assert Step(root, p) == Some(Minus(l, Union(cs + [Pattern(p)])));
      MatchesAppended(cs, Pattern(p), tr);
    } else {
      var base := if root.Some? then root.value else Any;
      assert Step(root, p) == Some(Minus(base, Union([] + [Pattern(p)])));
      MatchesAppended([], Pattern(p), tr);
    }
  }

  /**
   * The tree of the fold admits exactly the triples the reference decision makes visible: the last matching
   * allow or deny policy decides, and a triple no policy matches is visible only under a leading deny.
   */
  lemma {:induction false} TreeMeaning(s: seq<Policy>, tr: Triple)
    requires BuildTree(s).Some?
    ensures Matches(BuildTree(s).value, tr) <==> Visible(s, tr)
  {
    var init, p := s[..|s| - 1], s[|s| - 1];
    var root := BuildTree(init);
    assert s == init + [p];
    assert BuildTree(s) == Step(root, p);
    assert Verdict(s, tr) == if Effective(p) && PolicyMatches(p, tr) then Some(p.permission == Allow) else Verdict(init, tr);
    FirstEffectAppend(init, p);
    if root.None? {
      NoEffectEitherEnd(init);
    } else {
      TreeMeaning(init, tr);
      FirstEffectSome(init);
    }
    if p.permission == Allow {
      StepMeaningAllow(root, p, tr);
    } else if p.permission == Deny {
      StepMeaningDeny(root, p, tr);
    }
  }

  lemma {:induction false} FirstEffectSome(s: seq<Policy>)
    requires LastEffect(s).Some?
    ensures FirstEffect(s).Some?
  {
    var init, p := s[..|s| - 1], s[|s| - 1];
    assert s == init + [p];
    FirstEffectAppend(init, p);
    if !Effective(p) {
      FirstEffectSome(init);
    }
  }

  /** The verdict, when there is one, comes from the last allow or deny policy that matches. */
  lemma {:induction false} VerdictSource(s: seq<Policy>, tr: Triple) returns (i: nat)
    requires Verdict(s, tr).Some?
    ensures i < |s| && Effective(s[i]) && PolicyMatches(s[i], tr)
    ensures Verdict(s, tr) == Some(s[i].permission == Allow)
    ensures forall j :: i < j < |s| ==> !(Effective(s[j]) && PolicyMatches(s[j], tr))
  {
    var last := s[|s| - 1];
    if Effective(last) && PolicyMatches(last, tr) {
      i := |s| - 1;
    } else {
      var init := s[..|s| - 1];
      i := VerdictSource(init, tr);
      assert forall j :: i < j < |init| ==> init[j] == s[j];
    }
  }

  /** Every allow or deny policy that matches yields a verdict. */
  lemma {:induction false} MatchGivesVerdict(s: seq<Policy>, k: nat, tr: Triple)
    requires k < |s| && Effective(s[k]) && PolicyMatches(s[k], tr)
    ensures Verdict(s, tr).Some?
  {
    if k < |s| - 1 {
      var init := s[..|s| - 1];
      assert init[k] == s[k];
      MatchGivesVerdict(init, k, tr);
    }
  }

  /**
   * After `createPolicyTree` has sorted the list, the matching allow or deny policy with the strictly highest
   * priority alone decides whether a triple is visible, whatever the order the policies came in.
   */
  lemma HighestPriorityMatchWins(s: seq<Policy>, r: Policy, tr: Triple)
    requires r in s && Effective(r) && PolicyMatches(r, tr)
    requires forall q :: q in s && Effective(q) && PolicyMatches(q, tr) && q != r ==> q.priority < r.priority
    ensures BuildTree(SortByPriority(s)).Some?
    ensures Matches(BuildTree(SortByPriority(s)).value, tr) <==> r.permission == Allow
  {
    var sorted := SortByPriority(s);
    SortIsPermutation(s);
    SortIsOrdered(s);
    assert forall q :: q in sorted ==> q in multiset(s);
    assert r in multiset(sorted);
    var k := TopMatchDecides(sorted, r, tr);
    EffectiveMeansTree(sorted, k);
    TreeMeaning(sorted, tr);
  }

  /** In a list sorted by priority, the matching policy of strictly highest priority gives the verdict. */
  lemma TopMatchDecides(sorted: seq<Policy>, r: Policy, tr: Triple) returns (k: nat)
    requires SortedByPriority(sorted)
    requires r in sorted && Effective(r) && PolicyMatches(r, tr)
    requires forall q :: q in sorted && Effective(q) && PolicyMatches(q, tr) && q != r ==> q.priority < r.priority
    ensures k < |sorted| && sorted[k] == r
    ensures Verdict(sorted, tr) == Some(r.permission == Allow)
  {
    k :| 0 <= k < |sorted| && sorted[k] == r;
    MatchGivesVerdict(sorted, k, tr);
    var i := VerdictSource(sorted, tr);
    assert k <= i;
    assert sorted[i] in sorted;
    assert r.priority <= sorted[i].priority;
  }

  /** An allow or deny policy anywhere in the list gives the fold a tree. */
  lemma {:induction false} EffectiveMeansTree(s: seq<Policy>, k: nat)
    requires k < |s| && Effective(s[k])
    ensures BuildTree(s).Some?
  {
    if k < |s| - 1 && !Effective(s[|s| - 1]) {
      var init := s[..|s| - 1];
      assert init[k] == s[k];
      EffectiveMeansTree(init, k);
    }
  }
}
