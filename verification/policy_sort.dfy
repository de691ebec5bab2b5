/**
 * The ordering step of `createPolicyTree`: `policies.sort((a, b) => a.priority - b.priority)`, a stable sort
 * by ascending priority that reorders the given array in place.
 */
module PolicySort {
  import opened Types

  ghost predicate SortedByPriority(s: seq<Policy>) {
    forall i, j :: 0 <= i < j < |s| ==> s[i].priority <= s[j].priority
  }

  /** The policies of `s` whose priority is `k`, in the order of `s`. */
  function WithPriority(s: seq<Policy>, k: int): seq<Policy> {
    if s == [] then []
    else WithPriority(s[..|s| - 1], k) + (if s[|s| - 1].priority == k then [s[|s| - 1]] else [])
  }

  /**
   * `sorted` with `p` placed right after the last element whose priority is not above `p.priority`: the
   * elements ahead of `p` with a higher priority move behind it, and nothing else moves.
   */
  function InsertByPriority(sorted: seq<Policy>, p: Policy): (r: seq<Policy>)
    ensures |r| == |sorted| + 1
  {
    if sorted == [] || sorted[|sorted| - 1].priority <= p.priority then sorted + [p]
    else
      var last := sorted[|sorted| - 1];
      assert sorted == sorted[..|sorted| - 1] + [last];
      InsertByPriority(sorted[..|sorted| - 1], p) + [last]
  }

  /** The order in which `createPolicyTree` visits the policies: a stable sort by ascending priority. */
  function SortByPriority(s: seq<Policy>): (r: seq<Policy>)
    ensures |r| == |s|
  {
    if s == [] then []
    else
      assert s == s[..|s| - 1] + [s[|s| - 1]];
      InsertByPriority(SortByPriority(s[..|s| - 1]), s[|s| - 1])
  }

  lemma {:induction false} InsertIsPermutation(sorted: seq<Policy>, p: Policy)
    ensures multiset(InsertByPriority(sorted, p)) == multiset(sorted) + multiset{p}
  {
    if sorted != [] && sorted[|sorted| - 1].priority > p.priority {
      var init, last := sorted[..|sorted| - 1], sorted[|sorted| - 1];
      InsertIsPermutation(init, p);
      assert sorted == init + [last];
    }
  }

  /** Sorting neither drops nor duplicates a policy. */
  lemma {:induction false} SortIsPermutation(s: seq<Policy>)
    ensures multiset(SortByPriority(s)) == multiset(s)
  {
    if s != [] {
      SortIsPermutation(s[..|s| - 1]);
      InsertIsPermutation(SortByPriority(s[..|s| - 1]), s[|s| - 1]);
      assert s == s[..|s| - 1] + [s[|s| - 1]];
    }
  }

  lemma {:induction false} InsertKeepsOrder(sorted: seq<Policy>, p: Policy)
    requires SortedByPriority(sorted)
    ensures SortedByPriority(InsertByPriority(sorted, p))
  {
    if sorted == [] || sorted[|sorted| - 1].priority <= p.priority {
      OrderedAppend(sorted, p);
    } else {
      var init, last := sorted[..|sorted| - 1], sorted[|sorted| - 1];
      InsertKeepsOrder(init, p);
      var front := InsertByPriority(init, p);
      InsertIsPermutation(init, p);
      forall q | q in front ensures q.priority <= last.priority {
        assert q in multiset(front);
        if q != p {
          assert q in multiset(init);
        }
      }
      OrderedAppend(front, last);
    }
  }

  lemma OrderedAppend(s: seq<Policy>, p: Policy)
    requires SortedByPriority(s)
    requires forall q :: q in s ==> q.priority <= p.priority
    ensures SortedByPriority(s + [p])
  {
    forall i, j | 0 <= i < j < |s| + 1 ensures (s + [p])[i].priority <= (s + [p])[j].priority {
      assert (s + [p])[i] in s;
      if j < |s| {
        assert (s + [p])[j] == s[j];
      }
    }
  }

  /** Sorting orders the policies by ascending priority. */
  lemma {:induction false} SortIsOrdered(s: seq<Policy>)
    ensures SortedByPriority(SortByPriority(s))
  {
    if s != [] {
      SortIsOrdered(s[..|s| - 1]);
      InsertKeepsOrder(SortByPriority(s[..|s| - 1]), s[|s| - 1]);
    }
  }

  lemma {:induction false} WithPriorityAppend(a: seq<Policy>, b: seq<Policy>, k: int)
    ensures WithPriority(a + b, k) == WithPriority(a, k) + WithPriority(b, k)
  {
    if b == [] {
      assert a + b == a;
    } else {
      assert (a + b)[..|a + b| - 1] == a + b[..|b| - 1];
      WithPriorityAppend(a, b[..|b| - 1], k);
    }
  }

  lemma {:induction false} InsertKeepsTies(sorted: seq<Policy>, p: Policy, k: int)
    ensures WithPriority(InsertByPriority(sorted, p), k)
         == WithPriority(sorted, k) + (if p.priority == k then [p] else [])
  {
    if sorted == [] || sorted[|sorted| - 1].priority <= p.priority {
      WithPriorityAppend(sorted, [p], k);
      WithPrioritySingle(p, k);
    } else {
      var init, last := sorted[..|sorted| - 1], sorted[|sorted| - 1];
      InsertKeepsTies(init, p, k);
      ShiftKeepsTies(init, last, p, k);
      assert sorted == init + [last];
    }
  }

  lemma WithPrioritySingle(p: Policy, k: int)
    ensures WithPriority([p], k) == if p.priority == k then [p] else []
  {
    assert [p][..0] == [];
  }

  /** Inserting before a last element of higher priority: the ties come out as if the policy were appended. */
  lemma ShiftKeepsTies(init: seq<Policy>, last: Policy, p: Policy, k: int)
    requires last.priority > p.priority
    requires WithPriority(InsertByPriority(init, p), k) == WithPriority(init, k) + (if p.priority == k then [p] else [])
    ensures WithPriority(InsertByPriority(init, p) + [last], k)
         == WithPriority(init + [last], k) + (if p.priority == k then [p] else [])
  {
    var front := InsertByPriority(init, p);
    WithPriorityAppend(front, [last], k);
    WithPriorityAppend(init, [last], k);
    WithPrioritySingle(last, k);
  }

  /** The sort is stable: the policies of any one priority keep their relative input order. */
  lemma {:induction false} SortIsStable(s: seq<Policy>, k: int)
    ensures WithPriority(SortByPriority(s), k) == WithPriority(s, k)
  {
    if s != [] {
      SortIsStable(s[..|s| - 1], k);
      InsertKeepsTies(SortByPriority(s[..|s| - 1]), s[|s| - 1], k);
    }
  }

  lemma {:induction false} WithPriorityHas(s: seq<Policy>, p: Policy)
    requires p in s
    ensures WithPriority(s, p.priority) != []
  {
    if s[|s| - 1] != p {
      assert s == s[..|s| - 1] + [s[|s| - 1]];
      WithPriorityHas(s[..|s| - 1], p);
    }
  }

  /**
   * A stable ordering by priority is unique: any sequence that is ordered by priority and lists each
   * priority's policies in their input order equals `SortByPriority`. So any stable sort, whatever its
   * algorithm, produces exactly `SortByPriority(s)`.
   */
  lemma StableSortIsUnique(s: seq<Policy>, r: seq<Policy>)
    requires SortedByPriority(r)
    requires forall k :: WithPriority(r, k) == WithPriority(s, k)
    ensures r == SortByPriority(s)
  {
    SortIsOrdered(s);
    forall k ensures WithPriority(r, k) == WithPriority(SortByPriority(s), k) {
      SortIsStable(s, k);
    }
    SameTiesSameOrder(r, SortByPriority(s));
  }

  lemma {:induction false} WithPriorityMember(s: seq<Policy>, k: int, p: Policy)
    requires p in WithPriority(s, k)
    ensures p in s && p.priority == k
  {
    assert s == s[..|s| - 1] + [s[|s| - 1]];
    if p !in WithPriority(s[..|s| - 1], k) {
      assert p == s[|s| - 1];
    } else {
      WithPriorityMember(s[..|s| - 1], k, p);
    }
  }

  lemma LastHasTopPriority(x: seq<Policy>, q: Policy)
    requires SortedByPriority(x) && q in x
    ensures q.priority <= x[|x| - 1].priority
  {
    var i :| 0 <= i < |x| && x[i] == q;
    assert i == |x| - 1 || x[i].priority <= x[|x| - 1].priority;
  }

  /** Two priority-ordered sequences with the same ties end with policies of the same priority. */
  lemma SameTiesSameTop(x: seq<Policy>, y: seq<Policy>)
    requires SortedByPriority(x) && SortedByPriority(y) && x != [] && y != []
    requires forall k :: WithPriority(x, k) == WithPriority(y, k)
    ensures x[|x| - 1].priority == y[|y| - 1].priority
  {
    var a, b := x[|x| - 1], y[|y| - 1];
    WithPriorityHas(x, a);
    assert WithPriority(y, a.priority) != [];
    var ya := WithPriority(y, a.priority)[0];
    WithPriorityMember(y, a.priority, ya);
    LastHasTopPriority(y, ya);
    WithPriorityHas(y, b);
    assert WithPriority(x, b.priority) != [];
    var xb := WithPriority(x, b.priority)[0];
    WithPriorityMember(x, b.priority, xb);
    LastHasTopPriority(x, xb);
  }

  lemma {:induction false} SameTiesSameOrder(x: seq<Policy>, y: seq<Policy>)
    requires SortedByPriority(x) && SortedByPriority(y)
    requires forall k :: WithPriority(x, k) == WithPriority(y, k)
    ensures x == y
    decreases |x| + |y|
  {
    if x == [] && y != [] {
      WithPriorityHas(y, y[0]);
      assert false;
    } else if x != [] && y == [] {
      WithPriorityHas(x, x[0]);
      assert false;
    } else if x != [] {
      var x', a, y', b := x[..|x| - 1], x[|x| - 1], y[..|y| - 1], y[|y| - 1];
      assert x == x' + [a] && y == y' + [b];
      SameTiesSameTop(x, y);
      SameTiesWithoutLast(x', a, y', b);
      SameTiesSameOrder(x', y');
    }
  }

  /** Two sequences with the same ties whose last elements share a priority: those elements are equal, and the rest have the same ties. */
  lemma SameTiesWithoutLast(x': seq<Policy>, a: Policy, y': seq<Policy>, b: Policy)
    requires a.priority == b.priority
    requires forall k :: WithPriority(x' + [a], k) == WithPriority(y' + [b], k)
    ensures a == b
    ensures forall k :: WithPriority(x', k) == WithPriority(y', k)
  {
    var top := a.priority;
    assert (x' + [a])[..|x'|] == x' && (y' + [b])[..|y'|] == y';
    assert WithPriority(x' + [a], top) == WithPriority(y' + [b], top);
    LastInjective(WithPriority(x', top), WithPriority(y', top), a, b);
    forall k ensures WithPriority(x', k) == WithPriority(y', k) {
      DropLastTie(x', y', a, k);
    }
  }

  lemma DropLastTie(x': seq<Policy>, y': seq<Policy>, a: Policy, k: int)
    requires WithPriority(x' + [a], k) == WithPriority(y' + [a], k)
    ensures WithPriority(x', k) == WithPriority(y', k)
  {
    assert (x' + [a])[..|x'|] == x' && (y' + [a])[..|y'|] == y';
    var t := if a.priority == k then [a] else [];
    var u, v := WithPriority(x', k), WithPriority(y', k);
    assert u + t == v + t;
    assert u == (u + t)[..|u|] && v == (v + t)[..|v|];
  }

  lemma LastInjective(u: seq<Policy>, v: seq<Policy>, a: Policy, b: Policy)
    requires u + [a] == v + [b]
    ensures u == v && a == b
  {
    assert (u + [a])[|u|] == a && (v + [b])[|v|] == b;
    assert u == (u + [a])[..|u|];
    assert v == (v + [b])[..|v|];
  }

  /**
   * The in-place sort. Each round takes the next policy and shifts the already sorted elements with a higher
   * priority one place to the right, then drops the policy into the gap.
   */
  method SortInPlace(a: array<Policy>)
    modifies a
    ensures a[..] == SortByPriority(old(a[..]))
  {
    ghost var input := a[..];
    var i := 0;
    while i < a.Length
      invariant 0 <= i <= a.Length
      invariant a[..i] == SortByPriority(input[..i])
      invariant a[i..] == input[i..]
    {
      ghost var before := a[..];
      InsertNext(a, i);
      SortStep(input, i);
      assert before[i..] == input[i..];
      assert before[i] == input[i];
      assert before[i + 1..] == before[i..][1..];
      assert a[i + 1..] == before[i + 1..];
      i := i + 1;
    }
    assert input[..a.Length] == input;
  }

  lemma SortStep(s: seq<Policy>, i: nat)
    requires i < |s|
    ensures SortByPriority(s[..i + 1]) == InsertByPriority(SortByPriority(s[..i]), s[i])
  {
    assert s[..i + 1][..i] == s[..i];
  }

  /** Moves `a[i]` into its place among the sorted `a[..i]`. */
  method InsertNext(a: array<Policy>, i: nat)
    requires i < a.Length
    modifies a
    ensures a[..i + 1] == InsertByPriority(old(a[..i]), old(a[i]))
    ensures a[i + 1..] == old(a[i + 1..])
  {
    ghost var done := a[..i];
    var x := a[i];
    var j := i;
    while j > 0 && a[j - 1].priority > x.priority
      invariant 0 <= j <= i
      invariant forall k :: 0 <= k < j ==> a[k] == done[k]
      invariant forall k :: j < k <= i ==> a[k] == done[k - 1]
      invariant forall k :: i < k < a.Length ==> a[k] == old(a[k])
      invariant forall k :: j <= k < i ==> done[k].priority > x.priority
    {
      a[j] := a[j - 1];
      j := j - 1;
    }
    assert j > 0 ==> a[j - 1] == done[j - 1];
    InsertSplit(done, j, x);
    a[j] := x;
    Assemble(a[..], old(a[..]), done, i, j, x);
  }

  /**
   * The array after the insertion, as a sequence `s` next to the old contents `o`: it agrees with `done` with
   * `x` dropped in at `j`, and is unchanged from `i + 1` on.
   */
  lemma Assemble(s: seq<Policy>, o: seq<Policy>, done: seq<Policy>, i: nat, j: nat, x: Policy)
    requires j <= i == |done| && i < |s| == |o|
    requires forall k :: 0 <= k < j ==> s[k] == done[k]
    requires s[j] == x
    requires forall k :: j < k <= i ==> s[k] == done[k - 1]
    requires forall k :: i < k < |s| ==> s[k] == o[k]
    ensures s[..i + 1] == done[..j] + [x] + done[j..]
    ensures s[i + 1..] == o[i + 1..]
  {
  }

  /**
   * Where the insertion step puts `p`: behind every element whose priority is not above its own, and in front
   * of the run of higher-priority elements at the end.
   */
  lemma {:induction false} InsertSplit(sorted: seq<Policy>, j: nat, p: Policy)
    requires j <= |sorted|
    requires j == 0 || sorted[j - 1].priority <= p.priority
    requires forall k :: j <= k < |sorted| ==> sorted[k].priority > p.priority
    ensures InsertByPriority(sorted, p) == sorted[..j] + [p] + sorted[j..]
    decreases |sorted|
  {
    if j < |sorted| {
      var n := |sorted| - 1;
      var init := sorted[..n];
      assert init[..j] == sorted[..j];
      InsertSplit(init, j, p);
      assert sorted[j..] == init[j..] + [sorted[n]];
    }
  }
}
