/**
 * The algebra tree of `createPolicyTree` (proxy/src/policy-transformer.js) and the fold that builds it from
 * the policies in priority order.
 */
module PolicyTree {
  import opened Types
  import opened PolicySort

  /** `AnyElement`, `PatternElement`, `UnionElement` and `MinusElement`. */
  datatype Node =
    | Any
    | Pattern(policy: Policy)
    | Union(children: seq<Node>)
    | Minus(lhs: Node, rhs: Node)

  /** The shape the fold keeps: every union has a child, and every subtraction's right side is a union. */
  predicate WellFormed(n: Node) {
    match n
    case Any => true
    case Pattern(_) => true
    case Union(cs) => |cs| > 0 && forall c :: c in cs ==> WellFormed(c)
    case Minus(l, r) => r.Union? && WellFormed(l) && WellFormed(r)
  }

  /** The allow and deny policies of `s`, in order: the ones the fold acts on. */
  function EffectivePolicies(s: seq<Policy>): seq<Policy> {
    if s == [] then []
    else EffectivePolicies(s[..|s| - 1]) + (if Effective(s[|s| - 1]) then [s[|s| - 1]] else [])
  }

  /** The permission of the last allow or deny policy of `s`, if any. */
  function LastEffect(s: seq<Policy>): Option<Permission> {
    if s == [] then None
    else if Effective(s[|s| - 1]) then Some(s[|s| - 1].permission)
    else LastEffect(s[..|s| - 1])
  }

  /**
   * One round of the fold. An allow policy makes the root a union (wrapping a previous non-union root as its
   * first child) and appends its pattern to it; a deny policy makes the root a subtraction (from the previous
   * non-subtraction root, or from Any when there is none) and appends its pattern to the subtracted union.
   * Other permissions leave the root as it is.
   */
  function Step(root: Option<Node>, p: Policy): Option<Node>
    requires root.Some? && root.value.Minus? ==> root.value.rhs.Union?
  {
    match p.permission
    case Allow =>
      var u := if root.Some? && root.value.Union? then root.value
               else Union(if root.Some? then [root.value] else []);
      Some(Union(u.children + [Pattern(p)]))
    case Deny =>
      var m := if root.Some? && root.value.Minus? then root.value
               else Minus(if root.Some? then root.value else Any, Union([]));
      Some(Minus(m.lhs, Union(m.rhs.children + [Pattern(p)])))
    case Other(_) => root
  }

  /**
   * The tree of the fold over `s`, taken in the order given (the source sorts first). There is no tree
   * (`null` in the source) exactly when `s` has no allow or deny policy; otherwise the tree is well formed
   * and its root kind is decided by the last allow or deny policy.
   */
  function BuildTree(s: seq<Policy>): (r: Option<Node>)
    ensures r.None? <==> LastEffect(s).None?
    ensures r.Some? ==> WellFormed(r.value)
    ensures r.Some? ==> (r.value.Union? <==> LastEffect(s) == Some(Allow))
    ensures r.Some? ==> (r.value.Minus? <==> LastEffect(s) == Some(Deny))
  {
    if s == [] then None
    else
      var root := BuildTree(s[..|s| - 1]);
      StepKeepsShape(root, s[|s| - 1]);
      Step(root, s[|s| - 1])
  }

  lemma AppendKeepsShape(cs: seq<Node>, p: Policy)
    requires forall c :: c in cs ==> WellFormed(c)
    ensures WellFormed(Union(cs + [Pattern(p)]))
  {
    forall c | c in cs + [Pattern(p)] ensures WellFormed(c) {
      if c !in cs {
        assert c == Pattern(p);
      }
    }
  }

  lemma StepKeepsShape(root: Option<Node>, p: Policy)
    requires root.Some? ==> WellFormed(root.value)
    ensures Step(root, p).Some? ==> WellFormed(Step(root, p).value)
  {
    match p.permission
    case Allow =>
      if root.Some? && root.value.Union? {
        AppendKeepsShape(root.value.children, p);
      } else {
        AppendKeepsShape(if root.Some? then [root.value] else [], p);
      }
    case Deny =>
      if root.Some? && root.value.Minus? {
        AppendKeepsShape(root.value.rhs.children, p);
      } else {
        AppendKeepsShape([], p);
      }
    case Other(_) =>
  }

  /**
   * `createPolicyTree`: sorts the given array in place by ascending priority, then folds the policies into a
   * tree with a mutable root. The result is the fold over the sorted array.
   */
  method CreatePolicyTree(policies: array<Policy>) returns (root: Option<Node>)
    modifies policies
    ensures policies[..] == SortByPriority(old(policies[..]))
    ensures root == BuildTree(policies[..])
  {
    SortInPlace(policies);
    root := None;
    var i := 0;
    while i < policies.Length
      invariant 0 <= i <= policies.Length
      invariant policies[..] == SortByPriority(old(policies[..]))
      invariant root == BuildTree(policies[..i])
    {
      var policy := policies[i];
      assert policies[..i + 1] == policies[..i] + [policy];
      assert policies[..i + 1][..i] == policies[..i];
      match policy.permission {
        case Allow =>
          // make the root a union
          if !(root.Some? && root.value.Union?) {
            root := Some(Union(if root.Some? then [root.value] else []));
          }
          // add the policy's pattern to the union's children
          root := Some(Union(root.value.children + [Pattern(policy)]));
        case Deny =>
          // make the root a subtraction
          if !(root.Some? && root.value.Minus?) {
            root := Some(Minus(if root.Some? then root.value else Any, Union([])));
          }
          // add the policy's pattern to the subtracted union
          root := Some(Minus(root.value.lhs, Union(root.value.rhs.children + [Pattern(policy)])));
        case Other(_) =>
      }
      i := i + 1;
    }
    assert policies[..i] == policies[..];
  }

  /** The policies of the tree's pattern leaves, left to right. */
  function Leaves(n: Node): seq<Policy> {
    match n
    case Any => []
    case Pattern(p) => [p]
    case Union(cs) => LeavesAll(cs)
    case Minus(l, r) => Leaves(l) + Leaves(r)
  }

  function LeavesAll(cs: seq<Node>): seq<Policy> {
    if cs == [] then [] else LeavesAll(cs[..|cs| - 1]) + Leaves(cs[|cs| - 1])
  }

  function LeavesOf(root: Option<Node>): seq<Policy> {
    if root.Some? then Leaves(root.value) else []
  }

  /** How many subtraction (MINUS) nodes the tree has. */
  function MinusCount(n: Node): nat {
    match n
    case Any => 0
    case Pattern(_) => 0
    case Union(cs) => MinusCountAll(cs)
    case Minus(l, r) => 1 + MinusCount(l) + MinusCount(r)
  }

  function MinusCountAll(cs: seq<Node>): nat {
    if cs == [] then 0 else MinusCountAll(cs[..|cs| - 1]) + MinusCount(cs[|cs| - 1])
  }

  function MinusCountOf(root: Option<Node>): nat {
    if root.Some? then MinusCount(root.value) else 0
  }

  /** How many maximal runs of consecutive deny policies `s` has, ignoring policies that are neither allow nor deny. */
  function DenyRuns(s: seq<Policy>): nat {
    if s == [] then 0
    else
      var init := s[..|s| - 1];
      DenyRuns(init) + (if s[|s| - 1].permission == Deny && LastEffect(init) != Some(Deny) then 1 else 0)
  }

  lemma AppendChild(cs: seq<Node>, c: Node)
    ensures LeavesAll(cs + [c]) == LeavesAll(cs) + Leaves(c)
    ensures MinusCountAll(cs + [c]) == MinusCountAll(cs) + MinusCount(c)
  {
    assert (cs + [c])[..|cs|] == cs;
  }

  lemma StepLeaves(root: Option<Node>, p: Policy)
    requires root.Some? && root.value.Minus? ==> root.value.rhs.Union?
    ensures LeavesOf(Step(root, p)) == LeavesOf(root) + (if Effective(p) then [p] else [])
    ensures MinusCountOf(Step(root, p))
         == MinusCountOf(root) + (if p.permission == Deny && !(root.Some? && root.value.Minus?) then 1 else 0)
  {
    if p.permission == Allow {
      StepAllowCounts(root, p);
    } else if p.permission == Deny {
      StepDenyCounts(root, p);
    }
  }

  lemma StepAllowCounts(root: Option<Node>, p: Policy)
    requires p.permission == Allow
    requires root.Some? && root.value.Minus? ==> root.value.rhs.Union?
    ensures LeavesOf(Step(root, p)) == LeavesOf(root) + [p]
    ensures MinusCountOf(Step(root, p)) == MinusCountOf(root)
  {
    var cs := if root.Some? && root.value.Union? then root.value.children
              else if root.Some? then [root.value] else [];
    assert Step(root, p) == Some(Union(cs + [Pattern(p)]));
    AppendChild(cs, Pattern(p));
    if root.Some? && !root.value.Union? {
      AppendChild([], root.value);
      assert [] + [root.value] == cs;
    }
  }

  lemma StepDenyCounts(root: Option<Node>, p: Policy)
    requires p.permission == Deny
    requires root.Some? && root.value.Minus? ==> root.value.rhs.Union?
    ensures LeavesOf(Step(root, p)) == LeavesOf(root) + [p]
    ensures MinusCountOf(Step(root, p)) == MinusCountOf(root) + (if root.Some? && root.value.Minus? then 0 else 1)
  {
    if root.Some? && root.value.Minus? {
      var l, cs := root.value.lhs, root.value.rhs.children;
      assert root.value == Minus(l, Union(cs));
      assert Step(root, p) == Some(Minus(l, Union(cs + [Pattern(p)])));
      AppendChild(cs, Pattern(p));
      assert Leaves(Minus(l, Union(cs + [Pattern(p)]))) == Leaves(l) + LeavesAll(cs) + [p];
      assert MinusCount(Minus(l, Union(cs + [Pattern(p)]))) == 1 + MinusCount(l) + MinusCountAll(cs);
      assert Leaves(Union(cs)) == LeavesAll(cs) && MinusCount(Union(cs)) == MinusCountAll(cs);
      assert Leaves(root.value) == Leaves(l) + Leaves(Union(cs));
      assert MinusCount(root.value) == 1 + MinusCount(l) + MinusCount(Union(cs));
    } else {
      var base := if root.Some? then root.value else Any;
      var u := Union([] + [Pattern(p)]);
      assert Step(root, p) == Some(Minus(base, u));
      AppendChild([], Pattern(p));
      assert Leaves(u) == [p] && MinusCount(u) == 0;
      assert Leaves(Minus(base, u)) == Leaves(base) + [p];
      assert MinusCount(Minus(base, u)) == 1 + MinusCount(base);
      assert Leaves(base) == LeavesOf(root) && MinusCount(base) == MinusCountOf(root);
    }
  }

  /**
   * Each allow or deny policy adds exactly one pattern leaf, in order, and every other policy adds none: the
   * leaves of the tree are the allow and deny policies of `s`, in the order of `s`.
   */
  lemma {:induction false} FoldLeaves(s: seq<Policy>)
    ensures LeavesOf(BuildTree(s)) == EffectivePolicies(s)
  {
    if s != [] {
      FoldLeaves(s[..|s| - 1]);
      StepLeaves(BuildTree(s[..|s| - 1]), s[|s| - 1]);
    }
  }

  /** The tree has one MINUS node per maximal run of deny policies. */
  lemma {:induction false} FoldMinusCount(s: seq<Policy>)
    ensures MinusCountOf(BuildTree(s)) == DenyRuns(s)
  {
    if s != [] {
      FoldMinusCount(s[..|s| - 1]);
      StepLeaves(BuildTree(s[..|s| - 1]), s[|s| - 1]);
    }
  }

  /**
   * After an allow policy the root is a union whose last child is that policy's pattern. A previous root that
   * was not a union is its first child, a previous union keeps its children in front, and with no previous
   * root the union holds only the new pattern.
   */
  lemma FoldAllow(s: seq<Policy>, p: Policy)
    requires p.permission == Allow
    ensures var r := BuildTree(s + [p]);
      && r.Some? && r.value.Union?
      && r.value.children[|r.value.children| - 1] == Pattern(p)
      && (BuildTree(s).None? ==> r.value.children == [Pattern(p)])
      && (BuildTree(s).Some? && !BuildTree(s).value.Union? ==> r.value.children == [BuildTree(s).value, Pattern(p)])
      && (BuildTree(s).Some? && BuildTree(s).value.Union? ==>
            r.value.children == BuildTree(s).value.children + [Pattern(p)])
  {
    assert (s + [p])[..|s|] == s;
  }

  /**
   * After a deny policy the root is a subtraction whose subtracted union ends with that policy's pattern. A
   * previous root that was not a subtraction is what is subtracted from (Any when there was none); a previous
   * subtraction keeps its left side and its subtracted patterns.
   */
  lemma FoldDeny(s: seq<Policy>, p: Policy)
    requires p.permission == Deny
    ensures var r := BuildTree(s + [p]);
      && r.Some? && r.value.Minus? && r.value.rhs.Union?
      && r.value.rhs.children[|r.value.rhs.children| - 1] == Pattern(p)
      && (BuildTree(s).None? ==> r.value == Minus(Any, Union([Pattern(p)])))
      && (BuildTree(s).Some? && !BuildTree(s).value.Minus? ==>
            r.value == Minus(BuildTree(s).value, Union([Pattern(p)])))
      && (BuildTree(s).Some? && BuildTree(s).value.Minus? ==>
            r.value == Minus(BuildTree(s).value.lhs, Union(BuildTree(s).value.rhs.children + [Pattern(p)])))
  {
    assert (s + [p])[..|s|] == s;
  }

  /** A policy that is neither allow nor deny leaves the tree unchanged. */
  lemma FoldOther(s: seq<Policy>, p: Policy)
    requires !Effective(p)
    ensures BuildTree(s + [p]) == BuildTree(s)
  {
    assert (s + [p])[..|s|] == s;
  }
}
