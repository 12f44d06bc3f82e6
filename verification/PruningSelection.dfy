/** Choosing the groups to prune. */
module PruningSelection {
  import opened Prelude
  import opened PruningTypes
  import opened Sorting

  // ---- candidates ----

  predicate Eligible(group: Group, route: Route, config: PruningConfig, includeTtlProtected: bool) {
    && !group.classProtected && group.hasDisposable
    && !group.recentMessageProtected && !group.recentToolProtected
    && (group.ttlProtected ==> includeTtlProtected)
    && (route == Soft ==> group.softAllowed)
    && (route == Hard ==> group.hardAllowed)
    && group.savings >= config.minSavedTokens
  }

  function Candidates(groups: seq<Group>, route: Route, config: PruningConfig, includeTtlProtected: bool): seq<Group> {
    Filter(groups, (group: Group) => Eligible(group, route, config, includeTtlProtected))
  }

  lemma CandidatesStep(groups: seq<Group>, i: nat, route: Route, config: PruningConfig, includeTtlProtected: bool)
    requires i < |groups|
    ensures Candidates(groups[..i + 1], route, config, includeTtlProtected)
         == Candidates(groups[..i], route, config, includeTtlProtected)
            + if Eligible(groups[i], route, config, includeTtlProtected) then [groups[i]] else []
  {
    assert groups[..i + 1] == groups[..i] + [groups[i]];
    assert [groups[i]][1..] == [];
    FilterConcat(groups[..i], [groups[i]], (group: Group) => Eligible(group, route, config, includeTtlProtected));
  }

  method CandidateGroups(groups: seq<Group>, route: Route, config: PruningConfig, includeTtlProtected: bool)
    returns (candidates: seq<Group>)
    ensures candidates == Candidates(groups, route, config, includeTtlProtected)
  {
    candidates := [];
    for i := 0 to |groups|
      invariant candidates == Candidates(groups[..i], route, config, includeTtlProtected)
    {
      var group := groups[i];
      CandidatesStep(groups, i, route, config, includeTtlProtected);
      if group.classProtected || !group.hasDisposable {
        continue;
      }
      if group.recentMessageProtected || group.recentToolProtected {
        continue;
      }
      if group.ttlProtected && !includeTtlProtected {
        continue;
      }
      if route == Soft && !group.softAllowed {
        continue;
      }
      if route == Hard && !group.hardAllowed {
        continue;
      }
      if group.savings < config.minSavedTokens {
        continue;
      }
      candidates := candidates + [group];
    }
    assert groups[..|groups|] == groups;
  }

  // ---- what optimal means ----

  function MinIndex(groups: seq<Group>): int
    requires groups != []
  {
    if |groups| == 1 then groups[0].index else Min(groups[0].index, MinIndex(groups[1..]))
  }

  /** `a` is at least as good as `b`: later earliest mutation, then fewer groups, then larger savings. */
  ghost predicate AtLeastAsGood(a: seq<Group>, b: seq<Group>)
    requires a != [] && b != []
  {
    || MinIndex(a) > MinIndex(b)
    || (MinIndex(a) == MinIndex(b)
        && (|a| < |b| || (|a| == |b| && TotalSavings(a) >= TotalSavings(b))))
  }

  ghost predicate Subset(sub: seq<Group>, groups: seq<Group>) {
    multiset(sub) <= multiset(groups)
  }

  /** `r` meets the target and no sub-collection of the candidates that meets it is better. */
  ghost predicate Optimal(r: seq<Group>, candidates: seq<Group>, target: int)
    requires target > 0
  {
    && r != [] && Subset(r, candidates) && TotalSavings(r) >= target
    && forall sub :: Subset(sub, candidates) && TotalSavings(sub) >= target ==> sub != [] && AtLeastAsGood(r, sub)
  }

  // ---- sums over sub-collections ----

  lemma {:induction false} TotalSplit(a: seq<Group>, b: seq<Group>)
    ensures TotalSavings(a + b) == TotalSavings(a) + TotalSavings(b)
  {
    if a == [] {
      assert a + b == b;
    } else {
      assert (a + b)[1..] == a[1..] + b;
      TotalSplit(a[1..], b);
    }
  }

  function RemoveAt(xs: seq<Group>, i: nat): seq<Group>
    requires i < |xs|
  {
    xs[..i] + xs[i + 1..]
  }

  lemma RemovedTotal(xs: seq<Group>, i: nat)
    requires i < |xs|
    ensures TotalSavings(xs) == xs[i].savings + TotalSavings(RemoveAt(xs, i))
    ensures multiset(xs) == multiset{xs[i]} + multiset(RemoveAt(xs, i))
  {
    SplitAt(xs, i);
    InsertedTotal(xs[..i], xs[i], xs[i + 1..]);
    InsertedMembers(xs[..i], xs[i], xs[i + 1..]);
  }

  lemma SplitAt(xs: seq<Group>, i: nat)
    requires i < |xs|
    ensures xs[..i] + ([xs[i]] + xs[i + 1..]) == xs
  {
  }

  lemma InsertedTotal(a: seq<Group>, g: Group, b: seq<Group>)
    ensures TotalSavings(a + ([g] + b)) == g.savings + TotalSavings(a + b)
  {
    TotalSplit(a, [g] + b);
    TotalSplit(a, b);
    assert ([g] + b)[1..] == b;
  }

  lemma InsertedMembers(a: seq<Group>, g: Group, b: seq<Group>)
    ensures multiset(a + ([g] + b)) == multiset{g} + multiset(a + b)
  {
  }

  /** Taking the same group out of both sides. */
  lemma SubsetTail(sub: seq<Group>, xs: seq<Group>) returns (i: nat)
    requires sub != [] && Subset(sub, xs)
    ensures i < |xs| && xs[i] == sub[0] && Subset(sub[1..], RemoveAt(xs, i))
  {
    assert sub[0] in multiset(sub);
    assert sub[0] in multiset(xs);
    i :| 0 <= i < |xs| && xs[i] == sub[0];
    RemovedTotal(xs, i);
    RemovedTotal(sub, 0);
    assert RemoveAt(sub, 0) == sub[1..];
    var rest := RemoveAt(xs, i);
    forall g
      ensures multiset(sub[1..])[g] <= multiset(rest)[g]
    {
      assert multiset(sub)[g] == multiset{sub[0]}[g] + multiset(sub[1..])[g];
      assert multiset(xs)[g] == multiset{sub[0]}[g] + multiset(rest)[g];
    }
  }

  lemma {:induction false} SubsetTotal(sub: seq<Group>, xs: seq<Group>)
    requires Subset(sub, xs)
    ensures TotalSavings(sub) <= TotalSavings(xs) && |sub| <= |xs|
  {
    if sub != [] {
      var i := SubsetTail(sub, xs);
      RemovedTotal(xs, i);
      SubsetTotal(sub[1..], RemoveAt(xs, i));
    }
  }

  ghost predicate LargestFirst(xs: seq<Group>) {
    forall i, j :: 0 <= i < j < |xs| ==> xs[i].savings >= xs[j].savings
  }

  lemma PrefixWithout(xs: seq<Group>, i: nat, k: nat)
    requires LargestFirst(xs) && i < |xs| && 0 < k <= |xs|
    ensures LargestFirst(RemoveAt(xs, i))
    ensures xs[i].savings + TotalSavings(RemoveAt(xs, i)[..k - 1]) <= TotalSavings(xs[..k])
  {
    if i < k {
      assert RemoveAt(xs, i)[..k - 1] == RemoveAt(xs[..k], i);
      RemovedTotal(xs[..k], i);
    } else {
      assert RemoveAt(xs, i)[..k - 1] == xs[..k - 1];
      assert xs[..k] == xs[..k - 1] + [xs[k - 1]];
      TotalSplit(xs[..k - 1], [xs[k - 1]]);
      assert [xs[k - 1]][1..] == [];
    }
  }

  /** Exchange: no k groups save more than the k largest. */
  lemma {:induction false} LargestAreBest(sub: seq<Group>, xs: seq<Group>)
    requires LargestFirst(xs) && Subset(sub, xs)
    ensures |sub| <= |xs| && TotalSavings(sub) <= TotalSavings(xs[..|sub|])
  {
    SubsetTotal(sub, xs);
    if sub != [] {
      var i := SubsetTail(sub, xs);
      PrefixWithout(xs, i, |sub|);
      LargestAreBest(sub[1..], RemoveAt(xs, i));
    }
  }

  lemma {:induction false} FilterCounts(xs: seq<Group>, p: Group -> bool, x: Group)
    ensures multiset(Filter(xs, p))[x] == if p(x) then multiset(xs)[x] else 0
  {
    if xs != [] {
      FilterCounts(xs[1..], p, x);
      assert xs == [xs[0]] + xs[1..];
      assert multiset((if p(xs[0]) then [xs[0]] else []) + Filter(xs[1..], p))
          == multiset(if p(xs[0]) then [xs[0]] else []) + multiset(Filter(xs[1..], p));
    }
  }

  lemma SubsetOfFilter(sub: seq<Group>, xs: seq<Group>, p: Group -> bool)
    requires Subset(sub, xs) && forall g :: g in sub ==> p(g)
    ensures Subset(sub, Filter(xs, p))
  {
    forall g
      ensures multiset(sub)[g] <= multiset(Filter(xs, p))[g]
    {
      FilterCounts(xs, p, g);
      assert multiset(sub)[g] > 0 ==> g in sub;
    }
  }

  lemma FilterIsSubset(xs: seq<Group>, p: Group -> bool)
    ensures Subset(Filter(xs, p), xs)
  {
    forall g
      ensures multiset(Filter(xs, p))[g] <= multiset(xs)[g]
    {
      FilterCounts(xs, p, g);
    }
  }

  lemma {:induction false} MinIndexBounds(groups: seq<Group>)
    requires groups != []
    ensures forall g :: g in groups ==> MinIndex(groups) <= g.index
    ensures exists g :: g in groups && g.index == MinIndex(groups)
  {
    if |groups| > 1 {
      MinIndexBounds(groups[1..]);
      assert groups[0] in groups;
      var g :| g in groups[1..] && g.index == MinIndex(groups[1..]);
      assert g in groups;
      assert forall x :: x in groups <==> x == groups[0] || x in groups[1..];
    } else {
      assert groups[0] in groups;
    }
  }

  // ---- the selection algorithm ----

  predicate SavesMore(a: Group, b: Group) {
    a.savings > b.savings
    || (a.savings == b.savings && CreatedOrZero(a) <= CreatedOrZero(b))
  }

  function CreatedOrZero(group: Group): nat {
    if group.oldestCreatedAt.Some? then group.oldestCreatedAt.value else 0
  }

  function From(candidates: seq<Group>, earliest: int): seq<Group> {
    Filter(candidates, (group: Group) => group.index >= earliest)
  }

  /** The groups of `available` in order until the target is met. */
  method TakeUntil(available: seq<Group>, target: int) returns (r: Option<seq<Group>>)
    requires target > 0
    ensures r.None? ==> TotalSavings(available) < target
    ensures r.Some? ==>
              var k := |r.value|;
              && 0 < k <= |available| && r.value == available[..k]
              && TotalSavings(available[..k]) >= target && TotalSavings(available[..k - 1]) < target
  {
    var selected, total := [], 0;
    for i := 0 to |available|
      invariant selected == available[..i] && total == TotalSavings(selected) < target
    {
      assert available[..i + 1] == available[..i] + [available[i]];
      TotalSplit(available[..i], [available[i]]);
      assert [available[i]][1..] == [];
      selected := selected + [available[i]];
      total := total + available[i].savings;
      if total >= target {
        return Some(selected);
      }
    }
    assert available[..|available|] == available;
    r := None;
  }

  /** The groups of `r` are the first of the candidates from r's own earliest index on, largest savings first and, among
      equal savings, oldest first. */
  predicate Greedy(r: seq<Group>, candidates: seq<Group>)
    requires r != []
  {
    r <= Sort(From(candidates, MinIndex(r)), SavesMore)
  }

  /** The one answer of the search: optimal and, among the optimal ones, greedy. */
  ghost predicate Best(r: seq<Group>, candidates: seq<Group>, target: int)
    requires target > 0
  {
    Optimal(r, candidates, target) && Greedy(r, candidates)
  }

  lemma BestIsUnique(r: seq<Group>, r': seq<Group>, candidates: seq<Group>, target: int)
    requires target > 0 && Best(r, candidates, target) && Best(r', candidates, target)
    ensures r == r'
  {
    assert AtLeastAsGood(r, r') && AtLeastAsGood(r', r);
    assert MinIndex(r) == MinIndex(r') && |r| == |r'|;
  }

  /** A sufficient prefix of the groups from the latest sufficient index on begins at that index. */
  lemma PrefixSpans(candidates: seq<Group>, target: int, earliest: int, available: seq<Group>, k: nat) returns (r: seq<Group>)
    requires target > 0 && 0 < k <= |available| && TotalSavings(available[..k]) >= target
    requires multiset(available) == multiset(From(candidates, earliest))
    requires TotalSavings(From(candidates, earliest + 1)) < target
    ensures r == available[..k] && r != [] && Subset(r, candidates) && MinIndex(r) == earliest
  {
    r := available[..k];
    FilterIsSubset(candidates, (group: Group) => group.index >= earliest);
    PrefixSubset(available, k);
    SpansEarliest(candidates, target, earliest, r);
    MinIndexBounds(r);
    forall g | g in r
      ensures g.index >= earliest
    {
      assert g in available && g in multiset(available);
      FilterMembers(candidates, (group: Group) => group.index >= earliest, g);
    }
  }

  /** Whatever meets the target begins no later, and when it begins at the same index it is no shorter than the shortest
      sufficient prefix of the largest groups, and no richer at the same length. */
  lemma NoneIsBetter(candidates: seq<Group>, target: int, earliest: int, available: seq<Group>, k: nat, sub: seq<Group>)
    requires target > 0 && 0 < k <= |available| && TotalSavings(available[..k - 1]) < target
    requires multiset(available) == multiset(From(candidates, earliest)) && LargestFirst(available)
    requires TotalSavings(From(candidates, earliest + 1)) < target
    requires Subset(sub, candidates) && TotalSavings(sub) >= target
    ensures sub != [] && MinIndex(sub) <= earliest
    ensures MinIndex(sub) == earliest ==> k <= |sub| && (k == |sub| ==> TotalSavings(sub) <= TotalSavings(available[..k]))
  {
    StartsBy(candidates, target, earliest, sub);
    if MinIndex(sub) == earliest {
      WithinAvailable(candidates, earliest, available, sub);
      LargestAreBest(sub, available);
      ShortestAndRichest(available, target, k, sub);
    }
  }

  lemma StartsBy(candidates: seq<Group>, target: int, earliest: int, sub: seq<Group>)
    requires Subset(sub, candidates) && TotalSavings(sub) >= target > TotalSavings(From(candidates, earliest + 1))
    ensures sub != [] && MinIndex(sub) <= earliest
  {
    SpansEarliest(candidates, target, earliest, sub);
    MinIndexBounds(sub);
  }

  lemma WithinAvailable(candidates: seq<Group>, earliest: int, available: seq<Group>, sub: seq<Group>)
    requires Subset(sub, candidates) && sub != [] && MinIndex(sub) == earliest
    requires multiset(available) == multiset(From(candidates, earliest))
    ensures Subset(sub, available)
  {
    MinIndexBounds(sub);
    SubsetOfFilter(sub, candidates, (group: Group) => group.index >= earliest);
  }

  lemma ShortestAndRichest(available: seq<Group>, target: int, k: nat, sub: seq<Group>)
    requires |sub| <= |available| && target <= TotalSavings(sub) <= TotalSavings(available[..|sub|])
    requires 0 < k <= |available| && TotalSavings(available[..k - 1]) < target
    ensures k <= |sub| && (k == |sub| ==> TotalSavings(sub) <= TotalSavings(available[..k]))
  {
    PrefixTotalMonotone(available, |sub|, k - 1);
  }

  /** The shortest sufficient prefix of the largest groups from the latest sufficient index on is optimal. */
  lemma GreedyIsOptimal(candidates: seq<Group>, target: int, earliest: int, available: seq<Group>, k: nat)
    requires target > 0
    requires multiset(available) == multiset(From(candidates, earliest)) && LargestFirst(available)
    requires TotalSavings(From(candidates, earliest + 1)) < target
    requires 0 < k <= |available|
    requires TotalSavings(available[..k]) >= target && TotalSavings(available[..k - 1]) < target
    ensures Optimal(available[..k], candidates, target) && MinIndex(available[..k]) == earliest
  {
    var r := PrefixSpans(candidates, target, earliest, available, k);
    forall sub | Subset(sub, candidates) && TotalSavings(sub) >= target
      ensures sub != [] && AtLeastAsGood(r, sub)
    {
      NoneIsBetter(candidates, target, earliest, available, k, sub);
    }
  }

  lemma PrefixSubset(xs: seq<Group>, k: nat)
    requires k <= |xs|
    ensures Subset(xs[..k], xs)
  {
    assert xs == xs[..k] + xs[k..];
  }

  lemma PrefixTotalMonotone(xs: seq<Group>, j: nat, k: nat)
    requires j <= |xs| && k <= |xs|
    ensures j <= k ==> TotalSavings(xs[..j]) <= TotalSavings(xs[..k])
  {
    if j <= k {
      assert xs[..k] == xs[..j] + xs[j..k];
      TotalSplit(xs[..j], xs[j..k]);
    }
  }

  /** Whatever meets the target reaches back to `earliest` or before. */
  lemma SpansEarliest(candidates: seq<Group>, target: int, earliest: int, sub: seq<Group>)
    requires Subset(sub, candidates) && TotalSavings(sub) >= target > TotalSavings(From(candidates, earliest + 1))
    ensures exists g :: g in sub && g.index <= earliest
  {
    if forall g :: g in sub ==> g.index >= earliest + 1 {
      SubsetOfFilter(sub, candidates, (group: Group) => group.index >= earliest + 1);
      SubsetTotal(sub, From(candidates, earliest + 1));
      assert false;
    }
  }

  lemma LastIndex(candidates: seq<Group>, indices: seq<int>, g: Group)
    requires g in candidates && g.index in indices && Ordered(indices, (a: int, b: int) => a <= b)
    ensures g.index <= indices[|indices| - 1]
  {
    var j :| 0 <= j < |indices| && indices[j] == g.index;
  }

  /** Every group after the i-th index is at or after the next one. */
  lemma LaterIndices(candidates: seq<Group>, indices: seq<int>, i: nat)
    requires i < |indices| && Ordered(indices, (a: int, b: int) => a <= b)
    requires forall g :: g in candidates ==> g.index in indices
    ensures TotalSavings(From(candidates, indices[i] + 1))
            <= if i + 1 < |indices| then TotalSavings(From(candidates, indices[i + 1])) else 0
  {
    var later := From(candidates, indices[i] + 1);
    var isLater := (group: Group) => group.index >= indices[i] + 1;
    if i + 1 == |indices| {
      if later != [] {
        assert later[0] in later;
        FilterMembers(candidates, isLater, later[0]);
        LastIndex(candidates, indices, later[0]);
      }
    } else {
      forall g | g in later
        ensures g.index >= indices[i + 1]
      {
        FilterMembers(candidates, isLater, g);
        var j :| 0 <= j < |indices| && indices[j] == g.index;
      }
      FilterIsSubset(candidates, isLater);
      SubsetOfFilter(later, candidates, (group: Group) => group.index >= indices[i + 1]);
      SubsetTotal(later, From(candidates, indices[i + 1]));
    }
  }

  method SortedIndices(candidates: seq<Group>) returns (indices: seq<int>)
    ensures Ordered(indices, (a: int, b: int) => a <= b)
    ensures forall g :: g in candidates ==> g.index in indices
  {
    var distinct := Listing(set group | group in candidates :: group.index);
    indices := Sort(distinct, (a: int, b: int) => a <= b);
    SortOrders(distinct, (a: int, b: int) => a <= b);
    forall g | g in candidates
      ensures g.index in indices
    {
      assert g.index in distinct;
      assert g.index in multiset(distinct);
      assert g.index in multiset(indices);
    }
  }

  method LargestFrom(candidates: seq<Group>, earliest: int) returns (available: seq<Group>)
    ensures multiset(available) == multiset(From(candidates, earliest)) && LargestFirst(available)
    ensures available == Sort(From(candidates, earliest), SavesMore)
  {
    available := Sort(From(candidates, earliest), SavesMore);
    SortOrders(From(candidates, earliest), SavesMore);
  }

  /** One round of the search: the groups from `earliest` on, when later groups alone fall short. */
  method TryEarliest(candidates: seq<Group>, target: int, earliest: int) returns (r: Option<seq<Group>>)
    requires target > TotalSavings(From(candidates, earliest + 1))
    ensures r.None? ==> TotalSavings(From(candidates, earliest)) < target
    ensures r.Some? ==> Best(r.value, candidates, target)
  {
    var available := LargestFrom(candidates, earliest);
    SubsetTotal(From(candidates, earliest), available);
    r := TakeUntil(available, target);
    if r.Some? {
      GreedyIsOptimal(candidates, target, earliest, available, |r.value|);
    }
  }

  lemma AllFrom(candidates: seq<Group>, earliest: int)
    requires forall g :: g in candidates ==> g.index >= earliest
    ensures TotalSavings(candidates) <= TotalSavings(From(candidates, earliest))
  {
    SubsetOfFilter(candidates, candidates, (group: Group) => group.index >= earliest);
    SubsetTotal(candidates, From(candidates, earliest));
  }

  /** The search from the latest index to the earliest one. */
  method SearchBackwards(candidates: seq<Group>, target: int, indices: seq<int>) returns (r: Option<seq<Group>>)
    requires target > 0 && indices != [] && Ordered(indices, (a: int, b: int) => a <= b)
    requires forall g :: g in candidates ==> g.index in indices
    ensures r.None? ==> TotalSavings(From(candidates, indices[0])) < target
    ensures r.Some? ==> Best(r.value, candidates, target)
  {
    for i := |indices| downto 0
      invariant i < |indices| ==> TotalSavings(From(candidates, indices[i])) < target
    {
      LaterIndices(candidates, indices, i);
      r := TryEarliest(candidates, target, indices[i]);
      if r.Some? {
        return;
      }
    }
    r := None;
  }

  /** `_optimal_subset`: over every sub-collection of the candidates that meets the target, the latest earliest index,
      then the fewest groups, then the largest savings; None exactly when all candidates together fall short.  Among
      equally good answers it is the greedy one. */
  method OptimalSubset(candidates: seq<Group>, target: int) returns (r: Option<seq<Group>>)
    ensures target <= 0 ==> r == Some([])
    ensures target > 0 ==> (r.None? <==> TotalSavings(candidates) < target)
    ensures target > 0 && r.Some? ==> Best(r.value, candidates, target)
  {
    if target <= 0 {
      return Some([]);
    }
    if candidates == [] {
      return None;
    }
    var indices := SortedIndices(candidates);
    assert candidates[0].index in indices;
    r := SearchBackwards(candidates, target, indices);
    if r.Some? {
      SubsetTotal(r.value, candidates);
    } else {
      FirstIndex(candidates, indices);
      AllFrom(candidates, indices[0]);
    }
  }

  lemma FirstIndex(candidates: seq<Group>, indices: seq<int>)
    requires indices != [] && Ordered(indices, (a: int, b: int) => a <= b)
    requires forall g :: g in candidates ==> g.index in indices
    ensures forall g :: g in candidates ==> g.index >= indices[0]
  {
  }

  // ---- routes ----

  /** `_partial_subset`: the latest candidate alone. */
  ghost predicate Latest(r: seq<Group>, candidates: seq<Group>) {
    |r| == 1 && r[0] in candidates && forall g :: g in candidates ==> g.index <= r[0].index
  }

  method PartialSubset(candidates: seq<Group>) returns (r: Option<seq<Group>>)
    ensures r.None? <==> candidates == []
    ensures r.Some? ==> Latest(r.value, candidates)
  {
    if candidates == [] {
      return None;
    }
    var latest := candidates[0];
    for i := 1 to |candidates|
      invariant latest in candidates && forall g :: g in candidates[..i] ==> g.index <= latest.index
    {
      if candidates[i].index > latest.index {
        latest := candidates[i];
      }
    }
    assert candidates[..|candidates|] == candidates;
    r := Some([latest]);
  }

  /** Candidates without TTL-protected groups are among the candidates with them. */
  lemma CoreIsSubset(groups: seq<Group>, route: Route, config: PruningConfig)
    ensures Subset(Candidates(groups, route, config, false), Candidates(groups, route, config, true))
    ensures TotalSavings(Candidates(groups, route, config, false)) <= TotalSavings(Candidates(groups, route, config, true))
  {
    var p := (group: Group) => Eligible(group, route, config, false);
    var q := (group: Group) => Eligible(group, route, config, true);
    forall g
      ensures multiset(Filter(groups, p))[g] <= multiset(Filter(groups, q))[g]
    {
      FilterCounts(groups, p, g);
      FilterCounts(groups, q, g);
    }
    SubsetTotal(Filter(groups, p), Filter(groups, q));
  }

  /** What `select_pruned_groups` returns for a positive target. */
  ghost predicate Selected(r: Option<seq<Group>>, core: seq<Group>, extended: seq<Group>, route: Route, required: int, fallback: int)
    requires required > 0
  {
    var all := if route == Hard then extended else core;
    if TotalSavings(core) >= required then r.Some? && Best(r.value, core, required)
    else if TotalSavings(all) >= required then r.Some? && Best(r.value, all, required)
    else if fallback > 0 then
      if TotalSavings(all) >= fallback then r.Some? && Best(r.value, all, fallback) else r.None?
    else if core == [] then r.None?
    else r.Some? && Latest(r.value, core)
  }

  method SelectPrunedGroups(groups: seq<Group>, route: Route, required: int, config: PruningConfig, fallback: int)
    returns (r: Option<seq<Group>>)
    ensures required <= 0 ==> r == Some([])
    ensures required > 0 ==>
              Selected(r, Candidates(groups, route, config, false), Candidates(groups, route, config, true), route, required, fallback)
  {
    if required <= 0 {
      return Some([]);
    }
    var core := CandidateGroups(groups, route, config, false);
    CoreIsSubset(groups, route, config);
    var full := OptimalSubset(core, required);
    if full.Some? {
      return full;
    }
    var selected: Option<seq<Group>> := None;
    if route == Hard {
      var extended := CandidateGroups(groups, route, config, true);
      var fullExtended := OptimalSubset(extended, required);
      if fullExtended.Some? {
        selected := fullExtended;
      } else if fallback > 0 {
        selected := OptimalSubset(extended, fallback);
      }
    }
    if selected.None? && fallback > 0 {
      selected := OptimalSubset(core, fallback);
    }
    if selected.None? && fallback <= 0 {
      selected := PartialSubset(core);
    }
    r := selected;
  }

  /** Every selected group is eligible; a TTL-protected one appears only on the hard route, and only when the
      unprotected candidates cannot reach the required savings. */
  lemma SelectedAreEligible(r: Option<seq<Group>>, groups: seq<Group>, route: Route, config: PruningConfig,
                            required: int, fallback: int, g: Group)
    requires required > 0 && r.Some? && g in r.value
    requires Selected(r, Candidates(groups, route, config, false), Candidates(groups, route, config, true), route, required, fallback)
    ensures g in groups && Eligible(g, route, config, true)
    ensures g.ttlProtected ==> route == Hard && TotalSavings(Candidates(groups, route, config, false)) < required
  {
    var core, extended := Candidates(groups, route, config, false), Candidates(groups, route, config, true);
    assert g in multiset(r.value);
    assert g in multiset(core) || g in multiset(extended);
    assert g in core || g in extended;
    FilterMembers(groups, (group: Group) => Eligible(group, route, config, false), g);
    FilterMembers(groups, (group: Group) => Eligible(group, route, config, true), g);
  }

  /** With positive savings to find, the answer is None exactly when every candidate of the route together reaches
      neither target. */
  lemma SelectionFailsExactly(r: Option<seq<Group>>, groups: seq<Group>, route: Route, config: PruningConfig,
                              required: int, fallback: int)
    requires required > 0 && fallback > 0
    requires Selected(r, Candidates(groups, route, config, false), Candidates(groups, route, config, true), route, required, fallback)
    ensures r.None? <==> TotalSavings(Candidates(groups, route, config, route == Hard)) < Min(required, fallback)
  {
    CoreIsSubset(groups, route, config);
  }

  // ---- asking for everything ----

  ghost predicate AllPositive(candidates: seq<Group>) {
    forall g :: g in candidates ==> g.savings > 0
  }

  lemma {:induction false} NoSavings(xs: seq<Group>)
    requires TotalSavings(xs) == 0
    ensures forall g :: g in xs ==> g.savings == 0
  {
    if xs != [] {
      NoSavings(xs[1..]);
    }
  }

  /** What saves as much as all candidates holds every candidate with savings. */
  lemma {:induction false} FullSubset(sub: seq<Group>, xs: seq<Group>)
    requires Subset(sub, xs) && TotalSavings(sub) >= TotalSavings(xs)
    ensures forall g :: g in xs && g.savings > 0 ==> g in sub
  {
    if sub == [] {
      NoSavings(xs);
    } else {
      var i := SubsetTail(sub, xs);
      var rest := RemoveAt(xs, i);
      RemovedTotal(xs, i);
      FullSubset(sub[1..], rest);
      assert forall g :: g in xs ==> g == xs[i] || g in rest;
    }
  }

  /** The shortest prefix that reaches a target. */
  lemma {:induction false} ShortestPrefix(xs: seq<Group>, target: int) returns (k: nat)
    requires 0 < target <= TotalSavings(xs)
    ensures 0 < k <= |xs| && TotalSavings(xs[..k]) >= target && TotalSavings(xs[..k - 1]) < target
  {
    var last := xs[|xs| - 1];
    assert xs == xs[..|xs| - 1] + [last];
    if TotalSavings(xs[..|xs| - 1]) < target {
      k := |xs|;
      assert xs[..k] == xs;
    } else {
      k := ShortestPrefix(xs[..|xs| - 1], target);
      assert xs[..|xs| - 1][..k] == xs[..k] && xs[..|xs| - 1][..k - 1] == xs[..k - 1];
    }
  }

  /** The latest index from which on the candidates save as much as all of them. */
  lemma {:induction false} LatestFullIndex(candidates: seq<Group>, low: int, high: int) returns (e: int)
    requires low <= high && TotalSavings(From(candidates, low)) == TotalSavings(candidates)
    requires TotalSavings(From(candidates, high)) < TotalSavings(candidates)
    ensures TotalSavings(From(candidates, e)) == TotalSavings(candidates)
    ensures TotalSavings(From(candidates, e + 1)) < TotalSavings(candidates)
    decreases high - low
  {
    FilterIsSubset(candidates, (group: Group) => group.index >= low + 1);
    SubsetTotal(From(candidates, low + 1), candidates);
    if TotalSavings(From(candidates, low + 1)) < TotalSavings(candidates) {
      e := low;
    } else {
      e := LatestFullIndex(candidates, low + 1, high);
    }
  }

  lemma {:induction false} IndexBounds(candidates: seq<Group>) returns (low: int, high: int)
    ensures low <= high && forall g :: g in candidates ==> low <= g.index < high
  {
    if candidates == [] {
      low, high := 0, 0;
    } else {
      low, high := IndexBounds(candidates[1..]);
      var first := candidates[0].index;
      low, high := Min(low, first), Max(high, first + 1);
      assert forall g :: g in candidates ==> g == candidates[0] || g in candidates[1..];
    }
  }

  lemma {:induction false} FilterNone(xs: seq<Group>, p: Group -> bool)
    requires forall g :: g in xs ==> !p(g)
    ensures Filter(xs, p) == []
  {
    if xs != [] {
      assert xs[0] in xs && forall g :: g in xs[1..] ==> g in xs;
      FilterNone(xs[1..], p);
    }
  }

  /** The answer to the savings of all candidates holds every candidate with savings. */
  lemma FullIsBest(candidates: seq<Group>) returns (r: seq<Group>)
    requires TotalSavings(candidates) > 0
    ensures Best(r, candidates, TotalSavings(candidates))
    ensures forall g :: g in candidates && g.savings > 0 ==> g in r
  {
    var target := TotalSavings(candidates);
    var e := LatestFull(candidates);
    var available := Sort(From(candidates, e), SavesMore);
    SortOrders(From(candidates, e), SavesMore);
    SubsetTotal(From(candidates, e), available);
    var k := ShortestPrefix(available, target);
    GreedyIsOptimal(candidates, target, e, available, k);
    r := available[..k];
    FullSubset(r, candidates);
  }

  lemma LatestFull(candidates: seq<Group>) returns (e: int)
    requires TotalSavings(candidates) > 0
    ensures TotalSavings(From(candidates, e)) == TotalSavings(candidates)
    ensures TotalSavings(From(candidates, e + 1)) < TotalSavings(candidates)
  {
    var low, high := IndexBounds(candidates);
    AllFrom(candidates, low);
    FilterIsSubset(candidates, (group: Group) => group.index >= low);
    SubsetTotal(From(candidates, low), candidates);
    FilterNone(candidates, (group: Group) => group.index >= high);
    e := LatestFullIndex(candidates, low, high);
  }

  /** On the hard route, required savings equal to those of all candidates select every candidate with savings. */
  lemma SelectsAll(groups: seq<Group>, config: PruningConfig) returns (r: seq<Group>)
    requires TotalSavings(Candidates(groups, Hard, config, true)) > 0
    ensures var all := Candidates(groups, Hard, config, true);
            && (forall g :: g in all && g.savings > 0 ==> g in r)
            && (forall g :: g in r ==> g in all)
            && forall fallback :: Selected(Some(r), Candidates(groups, Hard, config, false), all, Hard, TotalSavings(all), fallback)
  {
    var core, all := Candidates(groups, Hard, config, false), Candidates(groups, Hard, config, true);
    CoreIsSubset(groups, Hard, config);
    if TotalSavings(core) >= TotalSavings(all) {
      FullSubset(core, all);
      r := FullIsBest(core);
      InSubset(r, core);
      InSubset(core, all);
    } else {
      r := FullIsBest(all);
      InSubset(r, all);
    }
  }

  lemma InSubset(sub: seq<Group>, xs: seq<Group>)
    requires Subset(sub, xs)
    ensures forall g :: g in sub ==> g in xs
  {
    forall g | g in sub
      ensures g in xs
    {
      assert g in multiset(sub);
      assert g in multiset(xs);
    }
  }
}
