# Policy compiler and role selector of the SPARQL access-control proxy

The proxy lets each caller see only the triples that the caller's role is allowed to see. It does this in two steps:

- It selects the stored allow/deny policies that apply to the role (`PolicyProvider.filterPolicies`).
- It compiles those policies into a SPARQL 1.1 `CONSTRUCT` query (`allowedDataQuery`). The proxy later runs that query against the upstream endpoint.

This project models both steps and the composition the intent processor makes of them, and proves what the compiled query means.

Modules:

- `Types` — the policy record.
  - `Permission`: allow, deny, or any other string.
  - `RoleValue`: `null`, `undefined`, or a role name.
  - `Terms`: a subject/predicate/object field that is `undefined`, `null`, one string, or a list of strings.
  - `Constraint`: which terms a field restricts its position to. `undefined`, `null` and `'*'` restrict nothing.
- `PolicySort` — the in-place sort of `createPolicyTree`.
  - `SortInPlace` is an insertion sort on an `array`.
  - It is specified by the function `SortByPriority`. Lemmas prove that function is a permutation, ordered and stable, and the only sequence with those properties.
- `PolicyTree` — the algebra tree (`Any`, `Pattern`, `Union`, `Minus`).
  - `CreatePolicyTree` is the imperative fold with its mutable root.
  - `BuildTree` is the same fold as a function. Lemmas cover each step of the fold and what the whole fold produces.
- `PolicySemantics` — which triples a tree admits, in the sense of SPARQL `VALUES`, `UNION` and `MINUS` (sections 10.2, 7 and 8.2 of the SPARQL 1.1 Query Language recommendation).
  - The main theorem: the tree admits a triple exactly when the policies, read in priority order, let it through.
- `Text` — `Array.prototype.join`, `indentString` (the `/^/gm` replace), and a line-by-line reading of both.
- `TreeRender` — the `stringify` methods, plus a line-level rendering that the text is proved equal to.
- `PatternRead` — reads a rendered pattern back into its constraints. This is the round trip of pattern rendering.
- `Transformer` — `stringifyPrefixes` (with its round trip) and `allowedDataQuery`.
- `Provider` — `PolicyProvider`, `filterPolicies` and `validate`.
- `IntentComposition` — lines 49-50 of `IntentProcessor.process`: select, then compile.

## Model

| member | source | states |
|---|---|---|
| PolicySort.SortByPriority | proxy/src/policy-transformer.js:36 | the order the fold visits the policies in; its length is the input's, and `SortIsPermutation`, `SortIsOrdered`, `SortIsStable` and `StableSortIsUnique` state what makes it the stable ascending sort |
| PolicySort.SortInPlace | proxy/src/policy-transformer.js:36 | the array is reordered in place into the stable ascending-priority order of its old contents |
| PolicySort.InsertNext | proxy/src/policy-transformer.js:36 | one round of the in-place sort: the next policy moves into place within the sorted prefix, and everything behind it stays put |
| PolicySort.SortIsPermutation | proxy/src/policy-transformer.js:36 | sorting loses, duplicates or invents no policy (same multiset) |
| PolicySort.SortIsOrdered | proxy/src/policy-transformer.js:36 | after sorting, priorities never decrease from one policy to the next |
| PolicySort.SortIsStable | proxy/src/policy-transformer.js:36 | for every priority, the policies with that priority keep their input order |
| PolicySort.StableSortIsUnique | proxy/src/policy-transformer.js:36 | any ordered rearrangement that keeps each priority's policies in input order is exactly the model's sort, so the model fixes the one order a stable sort can give |
| PolicyTree.Step | proxy/src/policy-transformer.js:40-59 | one round of the loop body; `FoldAllow`, `FoldDeny` and `FoldOther` state its three cases as seen through the fold, and `StepKeepsShape` that it keeps the tree well formed |
| PolicyTree.BuildTree | proxy/src/policy-transformer.js:38-61 | there is no tree exactly when no policy is allow or deny; otherwise every union has a child and every Minus subtracts a union; the root is a Union iff the last allow/deny policy is an allow, and a Minus iff it is a deny |
| PolicyTree.CreatePolicyTree | proxy/src/policy-transformer.js:33-64 | the input array ends up sorted by priority, and the returned root is the fold over that sorted order |
| PolicyTree.FoldAllow | proxy/src/policy-transformer.js:42-49 | after an allow, the root is a Union whose last child is its pattern; a previous non-union root is the first child, a previous union keeps its children in front, and with no previous root the union holds only the new pattern |
| PolicyTree.FoldDeny | proxy/src/policy-transformer.js:51-58 | after a deny, the root is a Minus whose subtracted union ends with its pattern; a previous non-Minus root (Any when there was none) is the left side, and a previous Minus keeps its left side and subtracted patterns |
| PolicyTree.FoldOther | proxy/src/policy-transformer.js:40-59 | a policy whose permission is neither allow nor deny leaves the tree unchanged |
| PolicyTree.FoldLeaves | proxy/src/policy-transformer.js:38-61 | the pattern leaves of the tree, left to right, are exactly the allow and deny policies in the order folded: one leaf each, none for other permissions |
| PolicyTree.FoldMinusCount | proxy/src/policy-transformer.js:51-58 | the tree has one Minus node per maximal run of consecutive deny policies |
| PolicySemantics.TreeMeaning | proxy/src/policy-transformer.js:38-61 | the tree admits a triple exactly when the last matching allow/deny policy is an allow; when none matches, exactly when the first allow/deny policy is a deny |
| PolicySemantics.HighestPriorityMatchWins | proxy/src/policy-transformer.js:36-61 | whatever the input order, if one matching policy has strictly the highest priority among the matching allow/deny policies, then the compiled tree admits the triple iff that policy is an allow |
| PolicySemantics.EffectiveMeansTree | proxy/src/policy-transformer.js:35-63 | one allow or deny policy anywhere in the list is enough for the fold to produce a tree |
| Types.Constraint | proxy/src/policy-transformer.js:88-96 | the terms a field restricts its position to: none for `undefined`, `null` or a lone `'*'`, a one-term list for any other lone string, the list itself otherwise; `ValuesClause` renders exactly this, and `PatternRoundTrip` reads it back |
| TreeRender.ValuesClause | proxy/src/policy-transformer.js:88-98 | a field yields a clause iff it is not `undefined`, `null` or `'*'`; the clause lists the field's terms space-joined verbatim, with a lone string as a one-term list |
| TreeRender.Render | proxy/src/policy-transformer.js:70-151 | the four `stringify` methods over a well-formed tree, which `BuildTree` always yields, so line 129's `children[0]` is always defined; `RenderAsLines` and `RenderCounts` state its line structure and what its lines count |
| TreeRender.PatternCounts | proxy/src/policy-transformer.js:100-105 | a rendered pattern has exactly one `?s ?p ?o.` line and no `MINUS` line |
| TreeRender.RenderAsLines | proxy/src/policy-transformer.js:70-151 | the stringified text of a tree is the line-feed join of its line-level rendering, and no line holds a line break, given terms without line breaks |
| TreeRender.RenderCounts | proxy/src/policy-transformer.js:122-151 | the rendered lines contain one `MINUS` line per Minus node and one `?s ?p ?o.` line per pattern leaf |
| PatternRead.ReadClauseBack | proxy/src/policy-transformer.js:97 | a `VALUES` line for single-token terms reads back as exactly those terms |
| PatternRead.SplitJoin | proxy/src/policy-transformer.js:97 | joining tokens with spaces and splitting at spaces gives the list back |
| PatternRead.PatternRoundTrip | proxy/src/policy-transformer.js:87-108 | reading a rendered pattern back gives the subject, predicate and object constraints of its policy, in that order; unconstrained fields read back as no clause |
| Transformer.StringifyPrefixes | proxy/src/policy-transformer.js:24-26 | one prefix line per entry |
| Transformer.PrefixesRoundTrip | proxy/src/policy-transformer.js:24-26 | reading the prefix lines back gives the entries in their order, when no prefix name contains a colon |
| Transformer.AllowedQuery | proxy/src/policy-transformer.js:11-17 | the result of `allowedDataQuery` for a list: `QueryFailsIff` states when it is an error, `QueryAsLines` its line structure, `QueryCounts` what its lines count, and `AllowedDataQuery` that the in-place method computes it |
| Transformer.AllowedDataQuery | proxy/src/policy-transformer.js:11-17 | the given array is sorted in place, and the result is the query for the policies: an error when there is no tree to stringify |
| Transformer.QueryAsLines | proxy/src/policy-transformer.js:15 | the query is the line-feed join of: the prefix lines, the `CONSTRUCT { ?s ?p ?o. } WHERE` line, `{`, every tree line indented by two spaces, and `}` |
| Transformer.QueryFailsIff | proxy/src/policy-transformer.js:13-14 | the compiler fails exactly when no policy is allow or deny |
| Transformer.QueryCounts | proxy/src/policy-transformer.js:11-17 | in the line-level reading of the query (its lines when no term, prefix name or IRI holds a line terminator), there is one `?s ?p ?o.` pattern line per allow/deny policy and one `MINUS` line per maximal deny run in priority order |
| Text.IndentString | proxy/src/policy-transformer.js:154-156 | `indentString`: padding at the start and after every line terminator, as the `/^/gm` replace does; `IndentJoin` states what it does to line-feed-joined lines |
| Text.IndentJoin | proxy/src/policy-transformer.js:154-156 | indenting line-feed-joined lines puts `count` spaces before every line and changes nothing else |
| Provider.Filter | proxy/src/policy-provider.js:20 | a policy is kept iff its role is `null` or equals the requested role exactly; the result is never longer than the list |
| Provider.PolicyProvider.FilterPolicies | proxy/src/policy-provider.js:19-21 | the selection holds exactly the stored policies that apply; every role-less policy is in it for any role, and for role `null` nothing else is |
| Provider.NewPolicyProvider | proxy/src/policy-provider.js:9-13 | construction always succeeds (`validate` accepts every list) and stores the list unchanged |
| Provider.FilterIsSubsequence | proxy/src/policy-provider.js:20 | the selection keeps the stored order: it is a subsequence of the stored list |
| Provider.FilterConcat | proxy/src/policy-provider.js:20 | selecting from two lists placed one after the other is the same as selecting from each and joining |
| Provider.FilterIdempotent | proxy/src/policy-provider.js:20 | selecting again for the same role changes nothing |
| Provider.NullSelectionWithin | proxy/src/policy-provider.js:20 | the role-less policies in any role's selection are exactly the selection for role `null` |
| IntentComposition.ComposedQuery | proxy/src/intent-processor.js:49-50 | select for the intent's role, then compile; `ComposedQueryFails`, `OtherRolesIrrelevant` and `ComposedMeaning` state its properties, and `ConstructQueryFor` that the array-based composition computes it |
| IntentComposition.ConstructQueryFor | proxy/src/intent-processor.js:49-50 | the query built for an intent is the compiler applied to a fresh copy of the role's selection; the provider's list is not reordered |
| IntentComposition.ComposedQueryFails | proxy/src/intent-processor.js:49-50 | there is no query for a role exactly when no applicable policy is allow or deny |
| IntentComposition.OtherRolesIrrelevant | proxy/src/intent-processor.js:49-50 | policies stored for other roles, wherever they sit in the list, do not change a role's query |
| IntentComposition.ComposedMeaning | proxy/src/intent-processor.js:49-50 | for a role with some applicable allow/deny policy, the compiled tree admits exactly the triples its policies let through in priority order |

## Behaviour of the code worth knowing

- Fields are not normalized and keep their raw form (`undefined`, `null`, `'*'`, a string or a list).
  - Only a lone `'*'` means "unconstrained". A list `['*']` still renders the clause `VALUES ?s { * }`, and `*` is not a SPARQL data-block value, so that query is not valid SPARQL.
  - An empty list renders `VALUES ?s {  }`, which matches nothing.
- Policies with identical patterns are not merged: every allow/deny policy becomes one pattern leaf.
- An empty selection, or one with no allow/deny policy, gives a `null` tree.
  - `allowedDataQuery` then calls `stringify` on `null` and throws.
  - The model returns the error `NullTree` for that case.
- When no policy matches a triple, whether the triple is visible depends on the lowest-priority allow/deny policy. A deny there leaves the `Any` base in place, which admits the triple.

## Left out

- The HTTP fetch of the constructed query, loading the snapshot store, and running the caller's query are not modelled. They are foreign, asynchronous I/O (proxy/src/intent-processor.js after line 50). The routing, CLI, configuration loading and schema validation of proxy/main.js are also out.
- Priorities are integers. The JavaScript comparator `a.priority - b.priority` on fractional, missing or non-numeric priorities (NaN) is not modelled.
- The policy's `graph` field is not modelled, because the compiler never reads it.
- Prefixes are given as the ordered entry list that `Object.entries` yields. JavaScript's ordering rule for integer-like keys is not modelled.
- List items that are not strings (numbers, objects) are not modelled. Terms are strings.
- Tree nodes are values. The source pushes onto `root.children` and `root.rhs.children`, but a wrapped previous root is reachable only from the new root, so no aliasing is observable. Nodes are rebuilt here instead of mutated.
- `Validate` has no contract of its own: it is the constant `true`, and its consequence is stated on `NewPolicyProvider`.
- PolicySemantics.TreeMeaning, PolicySemantics.HighestPriorityMatchWins, IntentComposition.ComposedMeaning: a field's terms are compared with a triple's as whole strings, as written. This is what the endpoint does only when every term is one SPARQL term token. Not modelled:
  - Expanding prefixed names against the `PREFIX` lines, and IRI or literal equality.
  - A string holding several whitespace-separated terms (`"ex:a ex:b"` renders `VALUES ?s { ex:a ex:b }`, which the endpoint reads as two terms).
  - The keyword `UNDEF` as a term (it leaves the position unbound, so it matches everything).
  - Terms that are not valid SPARQL data-block values (such as `*`), which make the whole query invalid.
- PatternRead.PatternRoundTrip: holds only for terms that are non-empty and free of spaces. A term such as `"a b"` splits into two terms on reading.
- TreeRender.RenderAsLines, Transformer.QueryAsLines, Transformer.QueryCounts: the line-level reading needs terms, prefix names and IRIs without line terminators. With a line break inside a term, `indentString` also indents the inside of the term.
- Transformer.PrefixesRoundTrip: needs prefix names without a colon.
- TreeRender.Render requires a well-formed tree. The source throws on an empty union, and `PolicyTree.BuildTree` never builds one.
