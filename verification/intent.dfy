/**
 * The part of `IntentProcessor.process` that decides what a caller may see: select the policies for the
 * caller's role, then compile and render them into the `CONSTRUCT` query. Sending that query to the
 * endpoint and running the caller's own query on the result are not part of this model.
 */
module IntentComposition {
  import opened Types
  import opened PolicySort
  import opened PolicyTree
  import opened PolicySemantics
  import opened Transformer
  import opened Provider

  /** The query built for an intent: `allowedDataQuery(filterPolicies(intent.role), prefixes)`. */
  function ComposedQuery(provider: PolicyProvider, intent: Intent, prefixes: seq<(string, string)>): Result<string> {
    AllowedQuery(provider.FilterPolicies(intent.role), prefixes)
  }

  /**
   * Lines 49-50 of `process`: the selection is a new array, which the compiler then sorts in place; the
   * provider's own list is a value and stays as it was.
   */
  method ConstructQueryFor(provider: PolicyProvider, intent: Intent, prefixes: seq<(string, string)>)
    returns (query: Result<string>)
    ensures query == ComposedQuery(provider, intent, prefixes)
  {
    var selected := provider.FilterPolicies(intent.role);
    var filtered := new Policy[|selected|](i requires 0 <= i < |selected| => selected[i]);
    assert filtered[..] == selected;
    query := AllowedDataQuery(filtered, prefixes);
  }

  /** There is no query for a role exactly when no allow or deny policy applies to it. */
  lemma ComposedQueryFails(provider: PolicyProvider, intent: Intent, prefixes: seq<(string, string)>)
    ensures ComposedQuery(provider, intent, prefixes).Err?
        <==> forall p :: p in provider.policies && AppliesTo(p, intent.role) ==> !Effective(p)
  {
    QueryFailsIff(provider.FilterPolicies(intent.role), prefixes);
  }

  /** Policies stored for other roles, wherever they sit in the list, do not change the query for a role. */
  lemma OtherRolesIrrelevant(
    before: seq<Policy>, others: seq<Policy>, after: seq<Policy>, intent: Intent, prefixes: seq<(string, string)>)
    requires forall p :: p in others ==> !AppliesTo(p, intent.role)
    ensures ComposedQuery(PolicyProvider(before + others + after), intent, prefixes)
         == ComposedQuery(PolicyProvider(before + after), intent, prefixes)
  {
    OthersFiltered(before, others, after, intent.role);
    assert PolicyProvider(before + others + after).FilterPolicies(intent.role)
        == PolicyProvider(before + after).FilterPolicies(intent.role);
  }

  lemma OthersFiltered(before: seq<Policy>, others: seq<Policy>, after: seq<Policy>, role: RoleValue)
    requires forall p :: p in others ==> !AppliesTo(p, role)
    ensures Filter(before + others + after, role) == Filter(before + after, role)
  {
    FilterConcat(before + others, after, role);
    FilterConcat(before, others, role);
    FilterConcat(before, after, role);
    FilterNone(others, role);
  }

  /**
   * What the query admits for a role: a triple is visible exactly as the applicable allow and deny policies
   * decide in priority order — the highest-priority matching one (the later one among equal priorities)
   * decides, and with none matching the lowest-priority applicable one being a deny makes it visible.
   */
  lemma ComposedMeaning(provider: PolicyProvider, intent: Intent, tr: Triple)
    requires exists p :: p in provider.policies && AppliesTo(p, intent.role) && Effective(p)
    ensures var sorted := SortByPriority(provider.FilterPolicies(intent.role));
      BuildTree(sorted).Some? && (Matches(BuildTree(sorted).value, tr) <==> Visible(sorted, tr))
  {
    var selected := provider.FilterPolicies(intent.role);
    QueryFailsIff(selected, []);
    TreeMeaning(SortByPriority(selected), tr);
  }

  lemma {:induction false} FilterNone(policies: seq<Policy>, role: RoleValue)
    requires forall p :: p in policies ==> !AppliesTo(p, role)
    ensures Filter(policies, role) == []
  {
    if policies != [] {
      assert policies[0] in policies;
      assert forall p :: p in policies[1..] ==> p in policies;
      FilterNone(policies[1..], role);
    }
  }
}
