/**
 * `PolicyProvider`: holds the stored policies and selects the ones that apply to a role. The provider never
 * changes its list after construction, so it is a value here.
 */
module Provider {
  import opened Types

  /** `validate`: every list of policies is accepted. */
  function Validate(policies: seq<Policy>): bool {
    true
  }

  /** Whether a policy applies to the requested role: it has no role (`null`) or exactly that role. */
  predicate AppliesTo(p: Policy, role: RoleValue) {
    p.role == NullRole || p.role == role
  }

  /** The `filter` of `filterPolicies`: the policies that apply to `role`, in their stored order. */
  function Filter(policies: seq<Policy>, role: RoleValue): (r: seq<Policy>)
    ensures forall p :: p in r <==> p in policies && AppliesTo(p, role)
    ensures |r| <= |policies|
  {
    if policies == [] then []
    else (if AppliesTo(policies[0], role) then [policies[0]] else []) + Filter(policies[1..], role)
  }

  datatype PolicyProvider = PolicyProvider(policies: seq<Policy>) {

    /**
     * `filterPolicies(role)`: a new list of exactly the stored policies that apply to `role`; every
     * role-less policy is in it whatever the role, and for role `null` nothing else is.
     */
    function FilterPolicies(role: RoleValue): (r: seq<Policy>)
      ensures forall p :: p in r <==> p in policies && AppliesTo(p, role)
      ensures forall p :: p in policies && p.role == NullRole ==> p in r
      ensures role == NullRole ==> forall p :: p in r ==> p.role == NullRole
    {
      Filter(policies, role)
    }
  }

  /**
   * The constructor: `validate` accepts every list, so construction always succeeds and keeps the list as
   * given. `None` would stand for the error the constructor throws on a rejected list.
   */
  function NewPolicyProvider(policies: seq<Policy>): (r: Option<PolicyProvider>)
    ensures r.Some? && r.value.policies == policies
  {
    if Validate(policies) then Some(PolicyProvider(policies)) else None
  }

  /** `x` occurs in `y` in order, possibly with gaps. */
  predicate IsSubsequence(x: seq<Policy>, y: seq<Policy>) {
    if x == [] then true
    else if y == [] then false
    else if x[0] == y[0] then IsSubsequence(x[1..], y[1..])
    else IsSubsequence(x, y[1..])
  }

  /** The selection keeps the stored order: it is a subsequence of the stored list. */
  lemma {:induction false} FilterIsSubsequence(policies: seq<Policy>, role: RoleValue)
    ensures IsSubsequence(Filter(policies, role), policies)
  {
    if policies != [] {
      FilterIsSubsequence(policies[1..], role);
      var r := Filter(policies, role);
      if !AppliesTo(policies[0], role) {
        assert r == Filter(policies[1..], role);
        SubsequenceSkip(r, policies);
      } else {
        assert r[1..] == Filter(policies[1..], role);
      }
    }
  }

  lemma SubsequenceSkip(x: seq<Policy>, y: seq<Policy>)
    requires y != [] && IsSubsequence(x, y[1..])
    ensures IsSubsequence(x, y)
    decreases |y|, 0
  {
    if x != [] && x[0] == y[0] {
      SubsequenceDrop(x, y[1..]);
    }
  }

  lemma SubsequenceDrop(x: seq<Policy>, y: seq<Policy>)
    requires x != [] && IsSubsequence(x, y)
    ensures IsSubsequence(x[1..], y)
    decreases |y|, 1
  {
    if y != [] {
      if x[0] == y[0] {
        if x[1..] != [] {
          SubsequenceDrop(x[1..], y[1..]);
          SubsequenceSkip(x[1..], y);
        }
      } else {
        SubsequenceDrop(x, y[1..]);
        if x[1..] != [] {
          SubsequenceSkip(x[1..], y);
        }
      }
    }
  }

  /** Selecting from two lists one after the other is selecting from each and joining the results. */
  lemma {:induction false} FilterConcat(a: seq<Policy>, b: seq<Policy>, role: RoleValue)
    ensures Filter(a + b, role) == Filter(a, role) + Filter(b, role)
  {
    if a == [] {
      assert a + b == b;
    } else {
      assert (a + b)[1..] == a[1..] + b;
      FilterConcat(a[1..], b, role);
    }
  }

  /** Selecting again for the same role changes nothing. */
  lemma {:induction false} FilterIdempotent(policies: seq<Policy>, role: RoleValue)
    ensures Filter(Filter(policies, role), role) == Filter(policies, role)
  {
    if policies != [] {
      FilterIdempotent(policies[1..], role);
      var head := if AppliesTo(policies[0], role) then [policies[0]] else [];
      FilterConcat(head, Filter(policies[1..], role), role);
    }
  }

  /** The role-less policies selected for any role are exactly the ones selected for role `null`. */
  lemma {:induction false} NullSelectionWithin(policies: seq<Policy>, role: RoleValue)
    ensures Filter(Filter(policies, role), NullRole) == Filter(policies, NullRole)
  {
    if policies != [] {
      NullSelectionWithin(policies[1..], role);
      var head := if AppliesTo(policies[0], role) then [policies[0]] else [];
      FilterConcat(head, Filter(policies[1..], role), NullRole);
    }
  }
}
