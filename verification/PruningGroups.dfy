/** Validating contributions, grouping them and computing what is protected. */
module PruningGroups {
  import opened Prelude
  import opened PruningTypes
  import opened Sorting

  // ---- validation ----

  predicate IsNatural(raw: RawInt) {
    raw.Value? && raw.i >= 0
  }

  predicate IsValid(raw: Raw) {
    && raw.id.Some? && raw.kind.Some? && raw.provenance.Some? && raw.class_.Some? && raw.stability.Some?
    && raw.contentHash.Some? && raw.cacheScope.Some? && raw.prunePolicy.Some?
    && IsNatural(raw.tokenEstimate) && IsNatural(raw.charCount)
    && (raw.createdAt.Missing? || IsNatural(raw.createdAt))
  }

  function ParseContribution(raw: Raw, index: nat): Option<Contribution> {
    if IsValid(raw) then
      Some(Contribution(raw.id.value, raw.kind.value, raw.provenance.value, raw.class_.value, raw.stability.value,
                        raw.contentHash.value, raw.cacheScope.value, raw.prunePolicy.value,
                        raw.tokenEstimate.i, raw.charCount.i,
                        if raw.createdAt.Missing? then None else Some(raw.createdAt.i),
                        raw.atomicGroupId, index, raw))
    else None
  }

  function ParsedPrefix(raws: seq<Raw>): seq<Contribution>
    requires forall raw :: raw in raws ==> IsValid(raw)
  {
    seq(|raws|, i requires 0 <= i < |raws| => assert raws[i] in raws; ParseContribution(raws[i], i).value)
  }

  /** One invalid contribution invalidates all. */
  function ParseAll(raws: seq<Raw>): Option<seq<Contribution>> {
    if exists raw :: raw in raws && !IsValid(raw) then None
    else Some(ParsedPrefix(raws))
  }

  lemma ParsedAreNumbered(raws: seq<Raw>)
    requires ParseAll(raws).Some?
    ensures var cs := ParseAll(raws).value;
            && Numbered(cs) && Originals(cs) == raws
            && forall c :: c in cs ==> c.original.id == Some(c.id)
  {
    var cs := ParseAll(raws).value;
    assert forall i :: 0 <= i < |raws| ==> raws[i] in raws && cs[i].original == raws[i];
  }

  /** `parse_contributions` stops at the first invalid contribution. */
  method ParseContributions(raws: seq<Raw>) returns (parsed: Option<seq<Contribution>>)
    ensures parsed == ParseAll(raws)
  {
    var list: seq<Contribution> := [];
    for i := 0 to |raws|
      invariant |list| == i
      invariant forall k :: 0 <= k < i ==> IsValid(raws[k]) && ParseContribution(raws[k], k).value == list[k]
    {
      var contribution := ParseContribution(raws[i], i);
      if contribution.None? {
        assert raws[i] in raws;
        return None;
      }
      list := list + [contribution.value];
    }
    assert forall raw :: raw in raws ==> IsValid(raw);
    assert list == ParsedPrefix(raws);
    parsed := Some(list);
  }

  function Originals(cs: seq<Contribution>): seq<Raw> {
    seq(|cs|, i requires 0 <= i < |cs| => cs[i].original)
  }

  ghost predicate Numbered(cs: seq<Contribution>) {
    forall i :: 0 <= i < |cs| ==> cs[i].originalIndex == i
  }

  // ---- one group ----

  function MinOriginal(cs: seq<Contribution>): nat
    requires cs != []
  {
    if |cs| == 1 then cs[0].originalIndex else Min(cs[0].originalIndex, MinOriginal(cs[1..]))
  }

  function OldestCreated(cs: seq<Contribution>): Option<nat> {
    if cs == [] then None
    else
      var rest := OldestCreated(cs[1..]);
      if cs[0].createdAt.None? then rest
      else if rest.None? then cs[0].createdAt
      else Some(Min(cs[0].createdAt.value, rest.value))
  }

  predicate IsDisposable(c: Contribution) {
    c.class_ in RESCUE_BACKED_CLASSES || c.prunePolicy in {SOFT_TRIM_POLICY, HARD_CLEAR_POLICY}
  }

  predicate IsEligibleClass(c: Contribution, config: PruningConfig) {
    c.class_ in config.classes || c.class_ in RESCUE_BACKED_CLASSES
  }

  predicate IsTtlProtected(c: Contribution, config: PruningConfig, now: Option<int>) {
    && now.Some? && c.createdAt.Some?
    && ((c.class_ in config.classes && c.prunePolicy in {SOFT_TRIM_POLICY, HARD_CLEAR_POLICY})
        || (c.stability in STABLE_STABILITIES && c.cacheScope in PREFIX_CACHE_SCOPES))
    && Max(0, (now.value - c.createdAt.value) / 1000) < config.cacheTtlSeconds
  }

  function BuildGroup(cs: seq<Contribution>, config: PruningConfig, now: Option<int>,
                      recentMessage: bool, recentTool: bool): Group
    requires cs != []
  {
    var disposable := Filter(cs, (c: Contribution) => IsEligibleClass(c, config));
    var hasDisposable := Any(disposable, IsDisposable);
    Group(MinOriginal(cs), TotalTokens(cs), cs, hasDisposable,
          hasDisposable && All(disposable, (c: Contribution) => c.prunePolicy == SOFT_TRIM_POLICY),
          hasDisposable && All(disposable, IsDisposable),
          Any(cs, IsProtectedClass),
          Any(cs, (c: Contribution) => IsTtlProtected(c, config, now)),
          recentMessage, recentTool, OldestCreated(cs))
  }

  predicate IsProtectedClass(c: Contribution) {
    c.class_ in PROTECTED_CLASSES
  }

  // ---- the grouping ----

  predicate SameGroup(a: Contribution, b: Contribution) {
    a == b || (a.atomicGroupId.Some? && a.atomicGroupId == b.atomicGroupId)
  }

  ghost predicate Increasing(xs: seq<int>) {
    forall i, j :: 0 <= i < j < |xs| ==> xs[i] < xs[j]
  }

  /** The contributions grouped with the i-th one, in order. */
  function Members(cs: seq<Contribution>, i: nat): (members: seq<Contribution>)
    requires i < |cs|
    ensures members != []
  {
    if cs[i].atomicGroupId.None? then [cs[i]]
    else
      FilterMembers(cs, (c: Contribution) => c.atomicGroupId == cs[i].atomicGroupId, cs[i]);
      WithId(cs, cs[i].atomicGroupId)
  }

  function WithId(cs: seq<Contribution>, id: Option<string>): seq<Contribution> {
    Filter(cs, (c: Contribution) => c.atomicGroupId == id)
  }

  /** The i-th contribution is the first one of its group. */
  predicate Leads(cs: seq<Contribution>, i: nat)
    requires i < |cs|
  {
    cs[i].atomicGroupId.None? || forall j :: 0 <= j < i ==> cs[j].atomicGroupId != cs[i].atomicGroupId
  }

  function LeadersBelow(cs: seq<Contribution>, n: nat): seq<nat>
    requires n <= |cs|
  {
    if n == 0 then [] else LeadersBelow(cs, n - 1) + if Leads(cs, n - 1) then [n - 1] else []
  }

  function Leaders(cs: seq<Contribution>): seq<nat> {
    LeadersBelow(cs, |cs|)
  }

  lemma {:induction false} LeadersAreThose(cs: seq<Contribution>, n: nat)
    requires n <= |cs|
    ensures forall i: nat :: i in LeadersBelow(cs, n) <==> i < n && Leads(cs, i)
    ensures Increasing(LeadersBelow(cs, n))
  {
    if n > 0 {
      LeadersAreThose(cs, n - 1);
      var before := LeadersBelow(cs, n - 1);
      assert forall k :: 0 <= k < |before| ==> before[k] in before;
    }
  }

  lemma {:induction false} MinOriginalIs(cs: seq<Contribution>, c: Contribution)
    requires c in cs && forall x :: x in cs ==> c.originalIndex <= x.originalIndex
    ensures MinOriginal(cs) == c.originalIndex
  {
    if |cs| > 1 {
      assert cs[0] in cs;
      if c in cs[1..] {
        MinOriginalIs(cs[1..], c);
      } else {
        MinOriginalAtLeast(cs[1..], c.originalIndex);
      }
    }
  }

  lemma {:induction false} MinOriginalAtLeast(cs: seq<Contribution>, n: nat)
    requires cs != [] && forall x :: x in cs ==> n <= x.originalIndex
    ensures MinOriginal(cs) >= n
  {
    assert cs[0] in cs;
    if |cs| > 1 {
      MinOriginalAtLeast(cs[1..], n);
    }
  }

  /** A group is non-empty, indexed by its leader, and holds exactly the contributions grouped with it. */
  lemma MembersAre(cs: seq<Contribution>, i: nat)
    requires Numbered(cs) && i < |cs|
    ensures cs[i] in Members(cs, i)
    ensures forall c :: c in Members(cs, i) <==> c in cs && SameGroup(cs[i], c)
    ensures Leads(cs, i) ==> MinOriginal(Members(cs, i)) == i
  {
    forall c
      ensures c in Members(cs, i) <==> c in cs && SameGroup(cs[i], c)
    {
      if cs[i].atomicGroupId.Some? {
        FilterMembers(cs, (x: Contribution) => x.atomicGroupId == cs[i].atomicGroupId, c);
      }
    }
    if Leads(cs, i) {
      forall c | c in Members(cs, i)
        ensures i <= c.originalIndex
      {
        var k :| 0 <= k < |cs| && cs[k] == c;
      }
      MinOriginalIs(Members(cs, i), cs[i]);
    }
  }

  // ---- recent messages and tool groups ----

  function LastN(xs: seq<int>, n: nat): seq<int> {
    if |xs| <= n then xs else xs[|xs| - n..]
  }

  /** In an increasing list the last n elements are those that fewer than n others follow. */
  lemma {:induction false} LastNMembers(xs: seq<int>, n: nat, x: int)
    requires Increasing(xs)
    ensures x in LastN(xs, n) <==> x in xs && |Filter(xs, y => y > x)| < n
  {
    if xs != [] {
      assert xs == [xs[0]] + xs[1..];
      LastNMembers(xs[1..], n, x);
      if x == xs[0] {
        forall y | y in xs[1..]
          ensures y > x
        {
          var k :| 0 <= k < |xs[1..]| && xs[1..][k] == y;
          assert xs[k + 1] == y;
        }
        AllFollow(xs[1..], x);
      }
    }
  }

  lemma {:induction false} AllFollow(xs: seq<int>, x: int)
    requires forall y :: y in xs ==> y > x
    ensures |Filter(xs, y => y > x)| == |xs|
  {
    if xs != [] {
      assert xs[0] in xs;
      assert forall y :: y in xs[1..] ==> y in xs;
      AllFollow(xs[1..], x);
    }
  }

  predicate IsMessage(c: Contribution) {
    c.kind == "message"
  }

  function Positions(cs: seq<Contribution>): seq<int> {
    seq(|cs|, i requires 0 <= i < |cs| => cs[i].originalIndex)
  }

  function RecentMessageIndices(cs: seq<Contribution>, count: nat): seq<int> {
    LastN(Positions(Filter(cs, IsMessage)), count)
  }

  predicate IsTool(c: Contribution) {
    c.kind == "tool_interaction"
  }

  predicate HasTool(cs: seq<Contribution>) {
    Any(cs, IsTool)
  }

  predicate HasOneOf(cs: seq<Contribution>, indices: seq<int>) {
    Any(cs, (c: Contribution) => c.originalIndex in indices)
  }

  function GroupIndices(groups: seq<Group>): seq<int> {
    seq(|groups|, i requires 0 <= i < |groups| => groups[i].index)
  }

  function RecentToolGroupIndices(groups: seq<Group>, count: nat): seq<int> {
    LastN(GroupIndices(Filter(groups, (g: Group) => HasTool(g.contributions))), count)
  }

  // ---- the groups in the order of their leaders ----

  function Draft(cs: seq<Contribution>, i: nat, config: PruningConfig, now: Option<int>): Group
    requires i < |cs|
  {
    BuildGroup(Members(cs, i), config, now, false, false)
  }

  function Drafts(cs: seq<Contribution>, leaders: seq<nat>, config: PruningConfig, now: Option<int>): seq<Group>
    requires forall k :: 0 <= k < |leaders| ==> leaders[k] < |cs|
  {
    seq(|leaders|, k requires 0 <= k < |leaders| => Draft(cs, leaders[k], config, now))
  }

  predicate IsSingle(c: Contribution) {
    c.atomicGroupId.None?
  }

  /** The first loop: singletons apart, atomic groups by their id in order of first appearance. */
  method Collect(cs: seq<Contribution>)
    returns (singles: seq<Contribution>, order: seq<string>, members: map<string, seq<Contribution>>)
    ensures singles == Filter(cs, IsSingle)
    ensures NoDuplicates(order)
    ensures forall id :: id in order <==> WithId(cs, Some(id)) != []
    ensures forall id :: id in order <==> id in members
    ensures forall id :: id in members ==> members[id] == WithId(cs, Some(id))
  {
    singles, order, members := [], [], map[];
    for k := 0 to |cs|
      invariant singles == Filter(cs[..k], IsSingle) && Collected(cs[..k], order, members)
    {
      var c := cs[k];
      assert cs[..k + 1] == cs[..k] + [c];
      AppendOne(cs[..k], c);
      CollectOne(cs[..k], c, order, members);
      if c.atomicGroupId.None? {
        singles := singles + [c];
      } else {
        var id := c.atomicGroupId.value;
        if id in members {
          members := members[id := members[id] + [c]];
        } else {
          order := order + [id];
          members := members[id := [c]];
        }
      }
    }
    assert cs[..|cs|] == cs;
  }

  /** `order` lists the atomic ids of these contributions, and `members` has the contributions of each. */
  ghost predicate Collected(cs: seq<Contribution>, order: seq<string>, members: map<string, seq<Contribution>>) {
    && NoDuplicates(order)
    && (forall id :: id in order <==> WithId(cs, Some(id)) != [])
    && (forall id :: id in order <==> id in members)
    && forall id :: id in members ==> members[id] == WithId(cs, Some(id))
  }

  lemma CollectOne(cs: seq<Contribution>, c: Contribution, order: seq<string>, members: map<string, seq<Contribution>>)
    requires Collected(cs, order, members)
    ensures c.atomicGroupId.None? ==> Collected(cs + [c], order, members)
    ensures c.atomicGroupId.Some? ==>
              var id := c.atomicGroupId.value;
              if id in members then Collected(cs + [c], order, members[id := members[id] + [c]])
              else Collected(cs + [c], order + [id], members[id := [c]])
  {
    AppendOne(cs, c);
    if c.atomicGroupId.Some? {
      CollectMember(cs, c, cs + [c], order, members);
    }
  }

  /** One more member of a group, of which it may be the first. */
  lemma CollectMember(cs: seq<Contribution>, c: Contribution, all: seq<Contribution>, order: seq<string>,
                      members: map<string, seq<Contribution>>)
    requires Collected(cs, order, members) && c.atomicGroupId.Some?
    requires forall id :: WithId(all, id) == WithId(cs, id) + if c.atomicGroupId == id then [c] else []
    ensures var id := c.atomicGroupId.value;
            if id in members then Collected(all, order, members[id := members[id] + [c]])
            else Collected(all, order + [id], members[id := [c]])
  {
    var id := c.atomicGroupId.value;
    if id !in members {
      assert WithId(cs, Some(id)) == [];
    }
  }

  lemma AppendOne(cs: seq<Contribution>, c: Contribution)
    ensures Filter(cs + [c], IsSingle) == Filter(cs, IsSingle) + if IsSingle(c) then [c] else []
    ensures forall id :: WithId(cs + [c], id) == WithId(cs, id) + if c.atomicGroupId == id then [c] else []
  {
    assert [c][1..] == [];
    FilterConcat(cs, [c], IsSingle);
    forall id
      ensures WithId(cs + [c], id) == WithId(cs, id) + if c.atomicGroupId == id then [c] else []
    {
      FilterConcat(cs, [c], (x: Contribution) => x.atomicGroupId == id);
    }
  }

  // ---- sorting the drafts ----

  predicate EarlierGroup(a: Group, b: Group) {
    a.index <= b.index
  }

  ghost predicate StrictlyOrdered(groups: seq<Group>) {
    forall i, j :: 0 <= i < j < |groups| ==> groups[i].index < groups[j].index
  }

  /** A strictly ordered list is determined by its members. */
  lemma {:induction false} StrictOrderIsUnique(xs: seq<Group>, ys: seq<Group>)
    requires StrictlyOrdered(xs) && StrictlyOrdered(ys) && forall g :: g in xs <==> g in ys
    ensures xs == ys
  {
    assert forall k :: 0 <= k < |xs| ==> xs[k] in ys;
    assert forall k :: 0 <= k < |ys| ==> ys[k] in xs;
    if xs != [] && ys != [] {
      assert xs[0] in ys && ys[0] in xs;
      assert xs[0] == ys[0];
      forall g
        ensures g in xs[1..] <==> g in ys[1..]
      {
        assert g in xs <==> g == xs[0] || g in xs[1..];
        assert g in ys <==> g == ys[0] || g in ys[1..];
        TailIsLater(xs, g);
        TailIsLater(ys, g);
      }
      StrictOrderIsUnique(xs[1..], ys[1..]);
    }
  }

  lemma TailIsLater(xs: seq<Group>, g: Group)
    requires StrictlyOrdered(xs) && xs != []
    ensures g in xs[1..] ==> g.index > xs[0].index
  {
  }

  ghost predicate IsDraft(cs: seq<Contribution>, g: Group, config: PruningConfig, now: Option<int>) {
    exists i: nat :: i < |cs| && Leads(cs, i) && g == Draft(cs, i, config, now)
  }

  /** The unsorted list: the drafts of the singletons, then those of the atomic groups. */
  ghost predicate Unsorted(cs: seq<Contribution>, groups: seq<Group>, config: PruningConfig, now: Option<int>) {
    && (forall a, b :: 0 <= a < b < |groups| ==> groups[a] != groups[b])
    && (forall g :: g in groups <==> IsDraft(cs, g, config, now))
  }

  lemma LeadersInRange(cs: seq<Contribution>)
    ensures forall k :: 0 <= k < |Leaders(cs)| ==> Leaders(cs)[k] < |cs| && Leads(cs, Leaders(cs)[k])
  {
    LeadersAreThose(cs, |cs|);
    assert forall k :: 0 <= k < |Leaders(cs)| ==> Leaders(cs)[k] in Leaders(cs);
  }

  lemma DraftIndex(cs: seq<Contribution>, i: nat, config: PruningConfig, now: Option<int>)
    requires Numbered(cs) && i < |cs| && Leads(cs, i)
    ensures Draft(cs, i, config, now).index == i
  {
    MembersAre(cs, i);
  }

  lemma DraftsInOrder(cs: seq<Contribution>, config: PruningConfig, now: Option<int>)
    requires Numbered(cs)
    ensures forall k :: 0 <= k < |Leaders(cs)| ==> Leaders(cs)[k] < |cs|
    ensures var drafts := Drafts(cs, Leaders(cs), config, now);
            && StrictlyOrdered(drafts)
            && forall g :: g in drafts <==> IsDraft(cs, g, config, now)
  {
    LeadersInRange(cs);
    LeadersAreThose(cs, |cs|);
    var leaders := Leaders(cs);
    var drafts := Drafts(cs, leaders, config, now);
    forall k | 0 <= k < |leaders|
      ensures drafts[k] == Draft(cs, leaders[k], config, now) && drafts[k].index == leaders[k]
    {
      DraftIndex(cs, leaders[k], config, now);
    }
    forall i: nat | i < |cs| && Leads(cs, i)
      ensures Draft(cs, i, config, now) in drafts
    {
      assert i in leaders;
      var k :| 0 <= k < |leaders| && leaders[k] == i;
      assert drafts[k] == Draft(cs, i, config, now);
    }
  }

  lemma DifferentIndices(cs: seq<Contribution>, x: Group, y: Group, config: PruningConfig, now: Option<int>)
    requires Numbered(cs) && IsDraft(cs, x, config, now) && IsDraft(cs, y, config, now) && x != y
    ensures x.index != y.index
  {
    var i: nat :| i < |cs| && Leads(cs, i) && x == Draft(cs, i, config, now);
    var j: nat :| j < |cs| && Leads(cs, j) && y == Draft(cs, j, config, now);
    DraftIndex(cs, i, config, now);
    DraftIndex(cs, j, config, now);
  }

  lemma SortedMembersSame(groups: seq<Group>) returns (sorted: seq<Group>)
    ensures sorted == Sort(groups, EarlierGroup) && multiset(sorted) == multiset(groups)
    ensures forall g :: g in sorted <==> g in groups
    ensures forall a, b :: 0 <= a < b < |sorted| ==> EarlierGroup(sorted[a], sorted[b])
  {
    sorted := Sort(groups, EarlierGroup);
    SortOrders(groups, EarlierGroup);
    forall g
      ensures g in sorted <==> g in groups
    {
      assert g in multiset(sorted) <==> g in multiset(groups);
    }
  }

  lemma SortedDrafts(cs: seq<Contribution>, groups: seq<Group>, config: PruningConfig, now: Option<int>)
    requires Numbered(cs) && Unsorted(cs, groups, config, now)
    ensures forall k :: 0 <= k < |Leaders(cs)| ==> Leaders(cs)[k] < |cs|
    ensures Sort(groups, EarlierGroup) == Drafts(cs, Leaders(cs), config, now)
  {
    DraftsInOrder(cs, config, now);
    var sorted := SortedMembersSame(groups);
    StaysDistinct(groups, sorted);
    forall a, b | 0 <= a < b < |sorted|
      ensures sorted[a].index < sorted[b].index
    {
      DifferentIndices(cs, sorted[a], sorted[b], config, now);
      assert EarlierGroup(sorted[a], sorted[b]);
    }
    StrictOrderIsUnique(sorted, Drafts(cs, Leaders(cs), config, now));
  }

  lemma StaysDistinct(groups: seq<Group>, sorted: seq<Group>)
    requires multiset(groups) == multiset(sorted)
    requires forall a, b :: 0 <= a < b < |groups| ==> groups[a] != groups[b]
    ensures forall a, b :: 0 <= a < b < |sorted| ==> sorted[a] != sorted[b]
  {
    forall a, b | 0 <= a < b < |sorted|
      ensures sorted[a] != sorted[b]
    {
      var g := sorted[a];
      if sorted[b] == g {
        assert sorted == sorted[..a] + [g] + sorted[a + 1..b] + [g] + sorted[b + 1..];
        assert multiset(sorted)[g] >= 2;
        AtMostOnce(groups, g);
      }
    }
  }

  lemma {:induction false} AtMostOnce(groups: seq<Group>, g: Group)
    requires forall a, b :: 0 <= a < b < |groups| ==> groups[a] != groups[b]
    ensures multiset(groups)[g] <= 1
  {
    if groups != [] {
      AtMostOnce(groups[1..], g);
      assert groups == [groups[0]] + groups[1..];
      if g == groups[0] {
        assert g !in groups[1..];
      }
    }
  }

  // ---- the unsorted list ----

  lemma {:induction false} FilterKeepsOrder(cs: seq<Contribution>, p: Contribution -> bool)
    requires Increasing(Positions(cs))
    ensures Increasing(Positions(Filter(cs, p)))
  {
    if cs != [] {
      assert Positions(cs)[1..] == Positions(cs[1..]);
      FilterKeepsOrder(cs[1..], p);
      var rest := Filter(cs[1..], p);
      forall k | 0 <= k < |rest|
        ensures cs[0].originalIndex < rest[k].originalIndex
      {
        FilterMembers(cs[1..], p, rest[k]);
        assert rest[k] in rest;
        var j :| 0 <= j < |cs[1..]| && cs[1..][j] == rest[k];
        assert Positions(cs)[0] < Positions(cs)[j + 1];
      }
      assert Increasing(Positions(rest));
      if p(cs[0]) {
        var kept := Positions(Filter(cs, p));
        assert forall k :: 0 <= k < |rest| ==> kept[k + 1] == Positions(rest)[k];
        forall i, j | 0 <= i < j < |kept|
          ensures kept[i] < kept[j]
        {
          assert kept[j] == Positions(rest)[j - 1] == rest[j - 1].originalIndex;
          if i > 0 {
            assert kept[i] == Positions(rest)[i - 1];
          }
        }
      } else {
        assert Filter(cs, p) == rest;
      }
    }
  }

  /** The members of an atomic group carry its id, and one of them leads. */
  lemma FirstWithId(cs: seq<Contribution>, id: string) returns (i: nat)
    requires WithId(cs, Some(id)) != []
    ensures forall c :: c in WithId(cs, Some(id)) ==> c.atomicGroupId == Some(id)
    ensures i < |cs| && cs[i].atomicGroupId == Some(id) && Leads(cs, i)
  {
    var members, p := WithId(cs, Some(id)), (c: Contribution) => c.atomicGroupId == Some(id);
    forall c | c in members
      ensures c in cs && c.atomicGroupId == Some(id)
    {
      FilterMembers(cs, p, c);
    }
    assert members[0] in cs;
    i := 0;
    while cs[i].atomicGroupId != Some(id)
      invariant i < |cs| && forall j :: 0 <= j < i ==> cs[j].atomicGroupId != Some(id)
      invariant exists j :: i <= j < |cs| && cs[j].atomicGroupId == Some(id)
      decreases |cs| - i
    {
      i := i + 1;
    }
  }

  ghost predicate SinglesThenAtomic(cs: seq<Contribution>, groups: seq<Group>, singles: seq<Contribution>, order: seq<string>,
                                    config: PruningConfig, now: Option<int>) {
    && singles == Filter(cs, IsSingle)
    && NoDuplicates(order) && (forall id :: id in order <==> WithId(cs, Some(id)) != [])
    && |groups| == |singles| + |order|
    && (forall k :: 0 <= k < |singles| ==> groups[k] == BuildGroup([singles[k]], config, now, false, false))
    && (forall k :: 0 <= k < |order| ==>
          order[k] in order && groups[|singles| + k] == BuildGroup(WithId(cs, Some(order[k])), config, now, false, false))
  }

  lemma SingleLeads(cs: seq<Contribution>, c: Contribution) returns (i: nat)
    requires c in Filter(cs, IsSingle)
    ensures c.atomicGroupId.None?
    ensures i < |cs| && Leads(cs, i) && Members(cs, i) == [c]
  {
    FilterMembers(cs, IsSingle, c);
    i :| 0 <= i < |cs| && cs[i] == c;
  }

  lemma UnsortedAreDistinct(cs: seq<Contribution>, groups: seq<Group>, singles: seq<Contribution>, order: seq<string>,
                            config: PruningConfig, now: Option<int>, a: nat, b: nat)
    requires Numbered(cs) && SinglesThenAtomic(cs, groups, singles, order, config, now) && a < b < |groups|
    ensures groups[a].contributions != groups[b].contributions
  {
    FirstOfUnsorted(cs, groups, singles, order, config, now, a);
    FirstOfUnsorted(cs, groups, singles, order, config, now, b);
    if b < |singles| {
      SinglesDiffer(cs, singles, a, b);
    }
  }

  /** A single's group holds just it; an atomic group begins with a contribution of its id. */
  lemma FirstOfUnsorted(cs: seq<Contribution>, groups: seq<Group>, singles: seq<Contribution>, order: seq<string>,
                        config: PruningConfig, now: Option<int>, k: nat)
    requires SinglesThenAtomic(cs, groups, singles, order, config, now) && k < |groups|
    ensures var contributions := groups[k].contributions;
            && contributions != []
            && if k < |singles| then contributions[0] == singles[k] && singles[k].atomicGroupId.None?
               else contributions[0].atomicGroupId == Some(order[k - |singles|])
  {
    if k < |singles| {
      var _ := SingleLeads(cs, singles[k]);
    } else {
      var j := k - |singles|;
      assert groups[|singles| + j] == groups[k] && order[j] in order;
      FirstHasId(cs, order[j]);
    }
  }

  lemma FirstHasId(cs: seq<Contribution>, id: string)
    requires WithId(cs, Some(id)) != []
    ensures WithId(cs, Some(id))[0].atomicGroupId == Some(id)
  {
    var _ := FirstWithId(cs, id);
    assert WithId(cs, Some(id))[0] in WithId(cs, Some(id));
  }

  lemma SinglesDiffer(cs: seq<Contribution>, singles: seq<Contribution>, a: nat, b: nat)
    requires Numbered(cs) && singles == Filter(cs, IsSingle) && a < b < |singles|
    ensures singles[a] != singles[b]
  {
    assert forall k :: 0 <= k < |cs| ==> Positions(cs)[k] == k;
    FilterKeepsOrder(cs, IsSingle);
    assert Positions(singles)[a] < Positions(singles)[b];
  }

  lemma UnsortedAreDrafts(cs: seq<Contribution>, groups: seq<Group>, singles: seq<Contribution>, order: seq<string>,
                          config: PruningConfig, now: Option<int>, k: nat) returns (i: nat)
    requires SinglesThenAtomic(cs, groups, singles, order, config, now) && k < |groups|
    ensures i < |cs| && Leads(cs, i) && groups[k] == Draft(cs, i, config, now)
  {
    if k < |singles| {
      i := SingleLeads(cs, singles[k]);
    } else {
      var j := k - |singles|;
      assert groups[|singles| + j] == groups[k] && order[j] in order;
      i := FirstWithId(cs, order[j]);
      assert Members(cs, i) == WithId(cs, Some(order[j]));
    }
  }

  lemma DraftsAreUnsorted(cs: seq<Contribution>, groups: seq<Group>, singles: seq<Contribution>, order: seq<string>,
                          config: PruningConfig, now: Option<int>, i: nat)
    requires SinglesThenAtomic(cs, groups, singles, order, config, now) && i < |cs|
    ensures Draft(cs, i, config, now) in groups
  {
    if cs[i].atomicGroupId.None? {
      FilterMembers(cs, IsSingle, cs[i]);
      var k :| 0 <= k < |singles| && singles[k] == cs[i];
      assert groups[k] == Draft(cs, i, config, now);
    } else {
      var id := cs[i].atomicGroupId.value;
      assert Members(cs, i) == WithId(cs, Some(id));
      assert id in order;
      var k :| 0 <= k < |order| && order[k] == id;
      assert groups[|singles| + k] == Draft(cs, i, config, now);
    }
  }

  predicate EarlierContribution(a: Contribution, b: Contribution) {
    a.originalIndex <= b.originalIndex
  }

  lemma UnsortedIs(cs: seq<Contribution>, groups: seq<Group>, singles: seq<Contribution>, order: seq<string>,
                   config: PruningConfig, now: Option<int>)
    requires Numbered(cs) && SinglesThenAtomic(cs, groups, singles, order, config, now)
    ensures Unsorted(cs, groups, config, now)
  {
    forall a: nat, b: nat | a < b < |groups|
      ensures groups[a] != groups[b]
    {
      UnsortedAreDistinct(cs, groups, singles, order, config, now, a, b);
    }
    forall k | 0 <= k < |groups|
      ensures exists i: nat :: i < |cs| && Leads(cs, i) && groups[k] == Draft(cs, i, config, now)
    {
      var i := UnsortedAreDrafts(cs, groups, singles, order, config, now, k);
    }
    forall i: nat | i < |cs| && Leads(cs, i)
      ensures Draft(cs, i, config, now) in groups
    {
      DraftsAreUnsorted(cs, groups, singles, order, config, now, i);
    }
  }

  /** The drafts of the singletons. */
  method SingleDrafts(singles: seq<Contribution>, config: PruningConfig, now: Option<int>) returns (groups: seq<Group>)
    ensures |groups| == |singles|
    ensures forall k :: 0 <= k < |singles| ==> groups[k] == BuildGroup([singles[k]], config, now, false, false)
  {
    groups := [];
    for k := 0 to |singles|
      invariant |groups| == k
      invariant forall j :: 0 <= j < k ==> groups[j] == BuildGroup([singles[j]], config, now, false, false)
    {
      groups := groups + [BuildGroup([singles[k]], config, now, false, false)];
    }
  }

  /** The drafts of the atomic groups. */
  method AtomicDrafts(cs: seq<Contribution>, order: seq<string>, members: map<string, seq<Contribution>>,
                      config: PruningConfig, now: Option<int>)
    returns (groups: seq<Group>)
    requires Numbered(cs)
    requires forall k :: 0 <= k < |order| ==>
               order[k] in members && members[order[k]] == WithId(cs, Some(order[k])) && members[order[k]] != []
    ensures |groups| == |order|
    ensures forall k :: 0 <= k < |order| ==>
              WithId(cs, Some(order[k])) != []
              && groups[k] == BuildGroup(WithId(cs, Some(order[k])), config, now, false, false)
  {
    groups := [];
    for k := 0 to |order|
      invariant |groups| == k
      invariant forall j :: 0 <= j < k ==>
                  WithId(cs, Some(order[j])) != []
                  && groups[j] == BuildGroup(WithId(cs, Some(order[j])), config, now, false, false)
    {
      SortedMembers(cs, Some(order[k]));
      groups := groups + [BuildGroup(Sort(members[order[k]], EarlierContribution), config, now, false, false)];
    }
  }

  /** The drafts of `build_groups`, sorted by index. */
  method BuildDrafts(cs: seq<Contribution>, config: PruningConfig, now: Option<int>) returns (drafts: seq<Group>)
    requires Numbered(cs)
    ensures forall k :: 0 <= k < |Leaders(cs)| ==> Leaders(cs)[k] < |cs|
    ensures drafts == Drafts(cs, Leaders(cs), config, now)
  {
    var singles, order, members := Collect(cs);
    forall k | 0 <= k < |order|
      ensures order[k] in members && members[order[k]] == WithId(cs, Some(order[k])) && members[order[k]] != []
    {
      assert order[k] in order;
    }
    var first := SingleDrafts(singles, config, now);
    var second := AtomicDrafts(cs, order, members, config, now);
    var groups := first + second;
    UnsortedIs(cs, groups, singles, order, config, now);
    SortedDrafts(cs, groups, config, now);
    drafts := Sort(groups, EarlierGroup);
  }

  /** The members of a group are in order already. */
  lemma SortedMembers(cs: seq<Contribution>, id: Option<string>)
    requires Numbered(cs)
    ensures Sort(WithId(cs, id), EarlierContribution) == WithId(cs, id)
  {
    assert forall k :: 0 <= k < |cs| ==> Positions(cs)[k] == k;
    var p := (c: Contribution) => c.atomicGroupId == id;
    FilterKeepsOrder(cs, p);
    var members := WithId(cs, id);
    forall i, j | 0 <= i < j < |members|
      ensures EarlierContribution(members[i], members[j])
    {
      assert Positions(members)[i] < Positions(members)[j];
    }
    SortFixed(members, EarlierContribution);
  }

  // ---- the final groups ----

  /** `build_groups`: one group per leader, in order, with the two recency flags. */
  function GroupAt(cs: seq<Contribution>, i: nat, config: PruningConfig, now: Option<int>): Group
    requires i < |cs|
  {
    var members := Members(cs, i);
    BuildGroup(members, config, now,
               HasOneOf(members, RecentMessageIndices(cs, config.protectRecentMessages)),
               i in LastN(ToolLeaders(cs), config.protectRecentToolInteractions))
  }

  /** The leaders of the groups that contain a tool interaction. */
  function ToolLeaders(cs: seq<Contribution>): seq<nat> {
    Filter<nat>(Leaders(cs), (i: nat) => i < |cs| && HasTool(Members(cs, i)))
  }

  function GroupsOf(cs: seq<Contribution>, leaders: seq<nat>, config: PruningConfig, now: Option<int>): seq<Group>
    requires forall k :: 0 <= k < |leaders| ==> leaders[k] < |cs|
  {
    seq(|leaders|, k requires 0 <= k < |leaders| => GroupAt(cs, leaders[k], config, now))
  }

  lemma DraftsCons(cs: seq<Contribution>, leaders: seq<nat>, config: PruningConfig, now: Option<int>)
    requires leaders != [] && forall k :: 0 <= k < |leaders| ==> leaders[k] < |cs|
    ensures Drafts(cs, leaders, config, now) == [Draft(cs, leaders[0], config, now)] + Drafts(cs, leaders[1..], config, now)
  {
    var all, first, rest := Drafts(cs, leaders, config, now), Draft(cs, leaders[0], config, now), Drafts(cs, leaders[1..], config, now);
    SameDrafts(leaders, all, first, rest, (i: nat) requires i < |cs| => Draft(cs, i, config, now));
  }

  lemma SameDrafts(leaders: seq<nat>, all: seq<Group>, first: Group, rest: seq<Group>, draft: nat --> Group)
    requires leaders != [] && forall k :: 0 <= k < |leaders| ==> draft.requires(leaders[k])
    requires |all| == |leaders| && forall k :: 0 <= k < |all| ==> all[k] == draft(leaders[k])
    requires |rest| == |leaders| - 1 && forall k :: 0 <= k < |rest| ==> rest[k] == draft(leaders[1..][k])
    requires first == draft(leaders[0])
    ensures all == [first] + rest
  {
    forall k | 0 < k < |all|
      ensures all[k] == rest[k - 1]
    {
      assert leaders[1..][k - 1] == leaders[k];
    }
  }

  lemma FirstDraft(cs: seq<Contribution>, leaders: seq<nat>, config: PruningConfig, now: Option<int>)
    returns (first: Group, rest: seq<Group>)
    requires Numbered(cs) && leaders != []
    requires forall k :: 0 <= k < |leaders| ==> leaders[k] < |cs| && Leads(cs, leaders[k])
    ensures rest == Drafts(cs, leaders[1..], config, now) && Drafts(cs, leaders, config, now) == [first] + rest
    ensures first.index == leaders[0] && first.contributions == Members(cs, leaders[0])
  {
    DraftsCons(cs, leaders, config, now);
    DraftIndex(cs, leaders[0], config, now);
    first, rest := Draft(cs, leaders[0], config, now), Drafts(cs, leaders[1..], config, now);
  }

  lemma IndicesOfFirst(first: Group, rest: seq<Group>, p: Group -> bool)
    ensures GroupIndices(Filter([first] + rest, p)) == (if p(first) then [first.index] else []) + GroupIndices(Filter(rest, p))
  {
    assert ([first] + rest)[1..] == rest;
  }

  lemma {:induction false} ToolDrafts(cs: seq<Contribution>, leaders: seq<nat>, config: PruningConfig, now: Option<int>)
    requires Numbered(cs) && forall k :: 0 <= k < |leaders| ==> leaders[k] < |cs| && Leads(cs, leaders[k])
    ensures GroupIndices(Filter(Drafts(cs, leaders, config, now), (g: Group) => HasTool(g.contributions)))
         == Filter<nat>(leaders, (i: nat) => i < |cs| && HasTool(Members(cs, i)))
  {
    if leaders != [] {
      var first, rest := FirstDraft(cs, leaders, config, now);
      ToolDrafts(cs, leaders[1..], config, now);
      IndicesOfFirst(first, rest, (g: Group) => HasTool(g.contributions));
    }
  }

  /** The group of a draft with its recency flags. */
  function Flagged(draft: Group, config: PruningConfig, now: Option<int>, messages: seq<int>, tools: seq<int>): Group
    requires draft.contributions != []
  {
    BuildGroup(draft.contributions, config, now, HasOneOf(draft.contributions, messages), draft.index in tools)
  }

  lemma FlaggedIsFinal(cs: seq<Contribution>, i: nat, config: PruningConfig, now: Option<int>)
    requires Numbered(cs) && i < |cs| && Leads(cs, i)
    ensures Draft(cs, i, config, now).contributions != []
    ensures Flagged(Draft(cs, i, config, now), config, now, RecentMessageIndices(cs, config.protectRecentMessages),
                    LastN(ToolLeaders(cs), config.protectRecentToolInteractions))
         == GroupAt(cs, i, config, now)
  {
    DraftIndex(cs, i, config, now);
  }

  lemma RecentToolGroupsAre(cs: seq<Contribution>, config: PruningConfig, now: Option<int>, count: nat)
    requires Numbered(cs)
    ensures forall k :: 0 <= k < |Leaders(cs)| ==> Leaders(cs)[k] < |cs|
    ensures RecentToolGroupIndices(Drafts(cs, Leaders(cs), config, now), count) == LastN(ToolLeaders(cs), count)
  {
    LeadersInRange(cs);
    ToolDrafts(cs, Leaders(cs), config, now);
  }

  method FlagGroups(drafts: seq<Group>, config: PruningConfig, now: Option<int>, messages: seq<int>, tools: seq<int>)
    returns (groups: seq<Group>)
    requires forall k :: 0 <= k < |drafts| ==> drafts[k].contributions != []
    ensures |groups| == |drafts|
    ensures forall k :: 0 <= k < |drafts| ==> groups[k] == Flagged(drafts[k], config, now, messages, tools)
  {
    groups := [];
    for k := 0 to |drafts|
      invariant |groups| == k
      invariant forall j :: 0 <= j < k ==> groups[j] == Flagged(drafts[j], config, now, messages, tools)
    {
      groups := groups + [Flagged(drafts[k], config, now, messages, tools)];
    }
  }

  method BuildGroups(cs: seq<Contribution>, config: PruningConfig, now: Option<int>) returns (groups: seq<Group>)
    requires Numbered(cs)
    ensures forall k :: 0 <= k < |Leaders(cs)| ==> Leaders(cs)[k] < |cs|
    ensures groups == GroupsOf(cs, Leaders(cs), config, now)
  {
    var drafts := BuildDrafts(cs, config, now);
    var messages := RecentMessageIndices(cs, config.protectRecentMessages);
    var tools := RecentToolGroupIndices(drafts, config.protectRecentToolInteractions);
    RecentToolGroupsAre(cs, config, now, config.protectRecentToolInteractions);
    LeadersInRange(cs);
    forall k | 0 <= k < |drafts|
      ensures drafts[k].contributions != []
      ensures Flagged(drafts[k], config, now, messages, tools) == GroupAt(cs, Leaders(cs)[k], config, now)
    {
      FlaggedIsFinal(cs, Leaders(cs)[k], config, now);
    }
    groups := FlagGroups(drafts, config, now, messages, tools);
  }
}
