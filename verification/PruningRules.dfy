/** The rules of pruning, said in terms of contributions, literal names and numbers. */
module PruningRules {
  import opened Prelude
  import opened PruningTypes
  import opened PruningGroups
  import opened PruningProtection
  import opened PruningSelection
  import opened PruningRescue
  import opened PruningGuarantees
  import opened Pruning

  // ---- validation ----

  ghost predicate IsCount(raw: RawInt) {
    exists n: nat :: raw == Value(n)
  }

  /** All eight strings are strings and the two sizes counts; an age may be missing. */
  ghost predicate IsWellFormed(raw: Raw) {
    && raw.id != None && raw.kind != None && raw.provenance != None && raw.class_ != None
    && raw.stability != None && raw.contentHash != None && raw.cacheScope != None && raw.prunePolicy != None
    && IsCount(raw.tokenEstimate) && IsCount(raw.charCount) && (raw.createdAt == Missing || IsCount(raw.createdAt))
  }

  /** `c` has the fields of `raw`. */
  ghost predicate Carries(c: Contribution, raw: Raw) {
    && raw == Raw(Some(c.id), Some(c.kind), Some(c.provenance), Some(c.class_), Some(c.stability), Some(c.contentHash),
                  Some(c.cacheScope), Some(c.prunePolicy), Value(c.tokenEstimate), Value(c.charCount),
                  if c.createdAt.Some? then Value(c.createdAt.value) else Missing, c.atomicGroupId, raw.content)
    && c.original == raw
  }

  /** Contributions are parsed all or none: field by field when each is well formed, and not at all otherwise. */
  lemma ParsedExactly(raws: seq<Raw>)
    ensures ParseAll(raws).Some? <==> forall raw :: raw in raws ==> IsWellFormed(raw)
    ensures ParseAll(raws).Some? ==>
              var cs := ParseAll(raws).value;
              |cs| == |raws| && forall i :: 0 <= i < |raws| ==> Carries(cs[i], raws[i]) && cs[i].originalIndex == i
  {
    forall raw
      ensures IsWellFormed(raw) <==> IsValid(raw)
    {
      NaturalIsCount(raw.tokenEstimate);
      NaturalIsCount(raw.charCount);
      NaturalIsCount(raw.createdAt);
    }
    if ParseAll(raws).Some? {
      forall i | 0 <= i < |raws|
        ensures Carries(ParseAll(raws).value[i], raws[i])
      {
        assert raws[i] in raws && IsValid(raws[i]);
      }
    }
  }

  lemma NaturalIsCount(raw: RawInt)
    ensures IsNatural(raw) <==> IsCount(raw)
  {
    if IsNatural(raw) {
      var n: nat := raw.i;
      assert raw == Value(n);
    }
  }

  // ---- what is protected ----

  predicate HasProtectedClass(c: Contribution) {
    || c.class_ == "identity" || c.class_ == "system_instruction" || c.class_ == "project_context"
    || c.class_ == "memory_context" || c.class_ == "skill_context" || c.class_ == "developer_instruction"
    || c.class_ == "user_message" || c.class_ == "tool_schema" || c.class_ == "exact_file_read" || c.class_ == "unknown"
  }

  /** The same contribution, or one of the same atomic group. */
  predicate Grouped(a: Contribution, b: Contribution) {
    a == b || (a.atomicGroupId != None && a.atomicGroupId == b.atomicGroupId)
  }

  /** Fewer than `count` messages stand after position i. */
  ghost predicate FewMessagesAfter(cs: seq<Contribution>, i: nat, count: nat) {
    exists later: set<nat> :: IsLaterMessages(cs, i, later) && |later| < count
  }

  ghost predicate IsLaterMessages(cs: seq<Contribution>, i: nat, later: set<nat>) {
    forall j: nat :: j in later <==> i < j < |cs| && cs[j].kind == "message"
  }

  /** A group that holds a tool interaction starts at l. */
  ghost predicate ToolGroupStarts(cs: seq<Contribution>, l: nat) {
    && l < |cs| && (forall j :: 0 <= j < l ==> !Grouped(cs[j], cs[l]))
    && exists c :: c in cs && Grouped(cs[l], c) && c.kind == "tool_interaction"
  }

  ghost predicate IsLaterToolGroups(cs: seq<Contribution>, l: nat, later: set<int>) {
    forall k: int :: k in later <==> k > l && ToolGroupStarts(cs, k)
  }

  /** Fewer than `count` groups with a tool interaction start after l. */
  ghost predicate FewToolGroupsAfter(cs: seq<Contribution>, l: nat, count: nat) {
    exists later: set<int> :: IsLaterToolGroups(cs, l, later) && |later| < count
  }

  ghost predicate InLateToolGroup(cs: seq<Contribution>, i: nat, count: nat)
    requires i < |cs|
  {
    exists l: nat :: l < |cs| && Grouped(cs[l], cs[i]) && ToolGroupStarts(cs, l) && FewToolGroupsAfter(cs, l, count)
  }

  lemma {:induction false} CountLater(xs: seq<Contribution>, base: nat, later: set<nat>)
    requires forall j: nat :: j in later <==> base <= j < base + |xs| && xs[j - base].kind == "message"
    ensures |Filter(xs, IsMessage)| == |later|
  {
    if xs == [] {
      assert later == {};
    } else {
      var rest := later - {base};
      forall j: nat
        ensures j in rest <==> base + 1 <= j < base + 1 + |xs[1..]| && xs[1..][j - (base + 1)].kind == "message"
      {
        assert base + 1 <= j < base + |xs| ==> xs[1..][j - (base + 1)] == xs[j - base];
      }
      CountLater(xs[1..], base + 1, rest);
      assert later == if xs[0].kind == "message" then rest + {base} else rest;
    }
  }

  lemma RecentMessageIff(cs: seq<Contribution>, i: nat, count: nat)
    requires i < |cs|
    ensures IsRecentMessage(cs, i, count) <==> cs[i].kind == "message" && FewMessagesAfter(cs, i, count)
  {
    var later := set j: nat | i < j < |cs| && cs[j].kind == "message";
    forall j: nat
      ensures j in later <==> i + 1 <= j < i + 1 + |cs[i + 1..]| && cs[i + 1..][j - (i + 1)].kind == "message"
    {
      assert i + 1 <= j < |cs| ==> cs[i + 1..][j - (i + 1)] == cs[j];
    }
    CountLater(cs[i + 1..], i + 1, later);
    assert IsLaterMessages(cs, i, later);
    if FewMessagesAfter(cs, i, count) {
      var other: set<nat> :| IsLaterMessages(cs, i, other) && |other| < count;
      assert other == later;
    }
  }

  lemma ToolLeaderIff(cs: seq<Contribution>, l: nat)
    requires Numbered(cs)
    ensures l in ToolLeaders(cs) <==> ToolGroupStarts(cs, l)
  {
    ToolLeadersIncrease(cs);
    if l < |cs| {
      MembersAre(cs, l);
      AnyMember(Members(cs, l), IsTool);
      LeadsIff(cs, l);
    }
  }

  lemma LeadsIff(cs: seq<Contribution>, l: nat)
    requires Numbered(cs) && l < |cs|
    ensures Leads(cs, l) <==> forall j :: 0 <= j < l ==> !Grouped(cs[j], cs[l])
  {
    forall j | 0 <= j < l
      ensures Grouped(cs[j], cs[l]) <==> cs[l].atomicGroupId.Some? && cs[j].atomicGroupId == cs[l].atomicGroupId
    {
      assert cs[j].originalIndex != cs[l].originalIndex;
    }
  }

  lemma FewToolGroupsIff(cs: seq<Contribution>, l: nat, count: nat)
    requires Numbered(cs)
    ensures FewToolGroupsAfter(cs, l, count) <==> |Filter<int>(ToolLeaders(cs), y => y > l)| < count
  {
    var leaders: seq<int> := ToolLeaders(cs);
    var later := set k: int | 0 <= k < |cs| && k > l && ToolGroupStarts(cs, k);
    ToolLeadersIncrease(cs);
    forall k: int
      ensures k in later <==> k in leaders && k > l
    {
      if k > l {
        ToolLeaderIff(cs, k);
      }
    }
    FilterCardinality(leaders, (y: int) => y > l, later);
    assert IsLaterToolGroups(cs, l, later);
    if FewToolGroupsAfter(cs, l, count) {
      var other: set<int> :| IsLaterToolGroups(cs, l, other) && |other| < count;
      assert other == later;
    }
  }

  lemma {:induction false} FirstOfGroup(cs: seq<Contribution>, i: nat, n: nat) returns (l: nat)
    requires i < |cs| && n <= i && forall j :: 0 <= j < n ==> !Grouped(cs[j], cs[i])
    ensures l <= i && Grouped(cs[l], cs[i]) && forall j :: 0 <= j < l ==> !Grouped(cs[j], cs[i])
    decreases i - n
  {
    if Grouped(cs[n], cs[i]) {
      l := n;
    } else {
      l := FirstOfGroup(cs, i, n + 1);
    }
  }

  lemma OneStart(cs: seq<Contribution>, i: nat, l: nat, m: nat)
    requires i < |cs| && l <= i && m < |cs| && Grouped(cs[l], cs[i]) && Grouped(cs[m], cs[i]) && ToolGroupStarts(cs, m)
    requires forall j :: 0 <= j < l ==> !Grouped(cs[j], cs[i])
    ensures l == m
  {
    if l < m {
      assert Grouped(cs[l], cs[m]);
    }
  }

  lemma LateToolGroupIff(cs: seq<Contribution>, i: nat, count: nat)
    requires Numbered(cs) && i < |cs|
    ensures InRecentToolGroup(cs, i, count) <==> InLateToolGroup(cs, i, count)
  {
    var l := FirstOfGroup(cs, i, 0);
    LeaderIs(cs, i, l);
    FewToolGroupsIff(cs, l, count);
    ToolStartIff(cs, l);
    if InLateToolGroup(cs, i, count) {
      var m: nat :| m < |cs| && Grouped(cs[m], cs[i]) && ToolGroupStarts(cs, m) && FewToolGroupsAfter(cs, m, count);
      OneStart(cs, i, l, m);
    }
  }

  lemma ToolStartIff(cs: seq<Contribution>, l: nat)
    requires Numbered(cs) && l < |cs| && Leads(cs, l)
    ensures ToolGroupStarts(cs, l) <==> HasTool(Members(cs, l))
  {
    LeadsIff(cs, l);
    MembersAre(cs, l);
    AnyMember(Members(cs, l), IsTool);
  }

  lemma LeaderIs(cs: seq<Contribution>, i: nat, l: nat)
    requires Numbered(cs) && i < |cs| && l <= i && Grouped(cs[l], cs[i])
    requires forall j :: 0 <= j < l ==> !Grouped(cs[j], cs[i])
    ensures Leader(cs, i) == l && Leads(cs, l) && Members(cs, l) == Members(cs, i)
  {
    forall j | 0 <= j < l
      ensures !Grouped(cs[j], cs[l])
    {
      assert cs[j].originalIndex != cs[l].originalIndex;
    }
    LeadsIff(cs, l);
    SameMembers(cs, l, i);
    MembersAre(cs, l);
  }

  /** What is shielded, in plain words: something grouped with it has one of ten classes or is one of the last messages, or
      its group holds a tool interaction and few such groups start later. */
  lemma ShieldedExactly(cs: seq<Contribution>, config: PruningConfig, i: nat)
    requires Numbered(cs) && i < |cs|
    ensures Shielded(cs, config, i)
       <==> || InLateToolGroup(cs, i, config.protectRecentToolInteractions)
            || exists j :: 0 <= j < |cs| && Grouped(cs[i], cs[j])
                           && (HasProtectedClass(cs[j])
                               || (cs[j].kind == "message" && FewMessagesAfter(cs, j, config.protectRecentMessages)))
  {
    LateToolGroupIff(cs, i, config.protectRecentToolInteractions);
    forall j | 0 <= j < |cs|
      ensures IsRecentMessage(cs, j, config.protectRecentMessages)
         <==> cs[j].kind == "message" && FewMessagesAfter(cs, j, config.protectRecentMessages)
      ensures IsProtectedClass(cs[j]) <==> HasProtectedClass(cs[j])
    {
      RecentMessageIff(cs, j, config.protectRecentMessages);
    }
  }

  // ---- candidates ----

  predicate MayBePruned(c: Contribution, config: PruningConfig) {
    c.class_ in config.classes || c.class_ == "diagnostic"
  }

  predicate MayBeCleared(c: Contribution) {
    c.class_ == "diagnostic" || c.prunePolicy == "soft_trim" || c.prunePolicy == "hard_clear_allowed"
  }

  /** Younger than the cache TTL, and either prunable by its policy or part of a stable prefix. */
  predicate IsFresh(c: Contribution, config: PruningConfig, now: Option<int>) {
    && now.Some? && c.createdAt.Some?
    && (|| (c.class_ in config.classes && (c.prunePolicy == "soft_trim" || c.prunePolicy == "hard_clear_allowed"))
        || ((c.stability == "stable_prefix" || c.stability == "session_stable")
            && (c.cacheScope == "prefix" || c.cacheScope == "body")))
    && 0 < config.cacheTtlSeconds && now.value - c.createdAt.value < 1000 * config.cacheTtlSeconds
  }

  lemma FreshIff(c: Contribution, config: PruningConfig, now: Option<int>)
    ensures IsTtlProtected(c, config, now) <==> IsFresh(c, config, now)
  {
    if now.Some? && c.createdAt.Some? {
      var age := now.value - c.createdAt.value;
      assert age / 1000 < config.cacheTtlSeconds <==> age < 1000 * config.cacheTtlSeconds;
    }
  }

  /** Whether the group that starts at l may be pruned on a route, by its members alone. */
  lemma EligibleExactly(cs: seq<Contribution>, config: PruningConfig, now: Option<int>, l: nat, route: Route, ttl: bool)
    requires Numbered(cs) && l < |cs| && Leads(cs, l)
    ensures Eligible(GroupAt(cs, l, config, now), route, config, ttl)
       <==> && !Shielded(cs, config, l)
            && (exists c :: c in cs && Grouped(cs[l], c) && MayBePruned(c, config) && MayBeCleared(c))
            && (forall c :: c in cs && Grouped(cs[l], c) && MayBePruned(c, config) ==>
                  if route == Soft then c.prunePolicy == "soft_trim" else MayBeCleared(c))
            && (ttl || forall c :: c in cs && Grouped(cs[l], c) ==> !IsFresh(c, config, now))
            && TotalTokens(Members(cs, l)) >= config.minSavedTokens
  {
    var g := GroupAt(cs, l, config, now);
    MembersAre(cs, l);
    FlagsMeanShielded(cs, l, l, config, now);
    DisposableFlags(cs, config, now, l);
    TtlFlag(cs, config, now, l);
  }

  /** The members that may be pruned at all, and the flags that they give. */
  lemma DisposableMembers(cs: seq<Contribution>, config: PruningConfig, now: Option<int>, l: nat)
    returns (disposable: seq<Contribution>)
    requires Numbered(cs) && l < |cs|
    ensures forall c :: c in disposable <==> c in cs && Grouped(cs[l], c) && MayBePruned(c, config)
    ensures var g := GroupAt(cs, l, config, now);
            && g.hasDisposable == Any(disposable, IsDisposable)
            && g.softAllowed == (g.hasDisposable && All(disposable, (c: Contribution) => c.prunePolicy == SOFT_TRIM_POLICY))
            && g.hardAllowed == (g.hasDisposable && All(disposable, IsDisposable))
  {
    var members, p := Members(cs, l), (c: Contribution) => IsEligibleClass(c, config);
    disposable := Filter(members, p);
    MembersAre(cs, l);
    forall c
      ensures c in disposable <==> c in cs && Grouped(cs[l], c) && MayBePruned(c, config)
    {
      FilterMembers(members, p, c);
    }
  }

  lemma DisposableFlags(cs: seq<Contribution>, config: PruningConfig, now: Option<int>, l: nat)
    requires Numbered(cs) && l < |cs|
    ensures var g := GroupAt(cs, l, config, now);
            && (g.hasDisposable <==> exists c :: c in cs && Grouped(cs[l], c) && MayBePruned(c, config) && MayBeCleared(c))
            && (g.softAllowed <==> g.hasDisposable && forall c :: c in cs && Grouped(cs[l], c) && MayBePruned(c, config) ==>
                  c.prunePolicy == "soft_trim")
            && (g.hardAllowed <==> g.hasDisposable && forall c :: c in cs && Grouped(cs[l], c) && MayBePruned(c, config) ==>
                  MayBeCleared(c))
  {
    var disposable := DisposableMembers(cs, config, now, l);
    AnyMember(disposable, IsDisposable);
    AllMembers(disposable, (c: Contribution) => c.prunePolicy == SOFT_TRIM_POLICY);
    AllMembers(disposable, IsDisposable);
  }

  lemma TtlFlag(cs: seq<Contribution>, config: PruningConfig, now: Option<int>, l: nat)
    requires Numbered(cs) && l < |cs|
    ensures GroupAt(cs, l, config, now).ttlProtected <==> exists c :: c in cs && Grouped(cs[l], c) && IsFresh(c, config, now)
  {
    var members := Members(cs, l);
    MembersAre(cs, l);
    AnyMember(members, (c: Contribution) => IsTtlProtected(c, config, now));
    forall c
      ensures IsTtlProtected(c, config, now) <==> IsFresh(c, config, now)
    {
      FreshIff(c, config, now);
    }
  }

  lemma GroupsAre(cs: seq<Contribution>, config: PruningConfig, now: Option<int>, g: Group)
    ensures g in GroupsFor(cs, config, now) <==> exists l: nat :: l < |cs| && Leads(cs, l) && g == GroupAt(cs, l, config, now)
  {
    var groups, leaders := GroupsFor(cs, config, now), Leaders(cs);
    LeadersInRange(cs);
    LeadersAreThose(cs, |cs|);
    if l: nat :| l < |cs| && Leads(cs, l) && g == GroupAt(cs, l, config, now) {
      assert l in leaders;
      var k :| 0 <= k < |leaders| && leaders[k] == l;
      assert groups[k] == g;
    }
    if g in groups {
      var k :| 0 <= k < |groups| && groups[k] == g;
      assert g == GroupAt(cs, leaders[k], config, now);
    }
  }

  /** The candidates of a route are the eligible groups, one for each leader. */
  lemma CandidatesExactly(cs: seq<Contribution>, config: PruningConfig, now: Option<int>, route: Route, ttl: bool, g: Group)
    ensures g in Candidates(GroupsFor(cs, config, now), route, config, ttl)
       <==> Eligible(g, route, config, ttl) && exists l: nat :: l < |cs| && Leads(cs, l) && g == GroupAt(cs, l, config, now)
  {
    FilterMembers(GroupsFor(cs, config, now), (group: Group) => Eligible(group, route, config, ttl), g);
    GroupsAre(cs, config, now, g);
  }

  /** The oldest known creation time of a group, by which ties are broken. */
  lemma {:induction false} OldestIs(cs: seq<Contribution>)
    ensures OldestCreated(cs).None? <==> forall c :: c in cs ==> c.createdAt.None?
    ensures OldestCreated(cs).Some? ==>
              && (exists c :: c in cs && c.createdAt == OldestCreated(cs))
              && forall c :: c in cs && c.createdAt.Some? ==> OldestCreated(cs).value <= c.createdAt.value
  {
    if cs != [] {
      OldestIs(cs[1..]);
      assert cs[0] in cs && forall c :: c in cs <==> c == cs[0] || c in cs[1..];
    }
  }

  // ---- preparation ----

  /** The first of these that is positive, else the last. */
  function FirstPositive(first: Option<int>, second: Option<int>, default: int): int {
    if first.Some? && first.value > 0 then first.value
    else if second.Some? && second.value > 0 then second.value
    else default
  }

  /** A ratio of the threshold in percent, rounded down. */
  ghost predicate IsPercent(n: int, ratio: nat, threshold: int) {
    100 * n <= threshold * ratio < 100 * (n + 1)
  }

  ghost predicate IsFromContext(n: int, fromContext: Option<int>, ratio: nat, threshold: int) {
    if fromContext.Some? && fromContext.value > 0 then n == fromContext.value else IsPercent(n, ratio, threshold)
  }

  lemma PercentIs(ratio: nat, threshold: int)
    ensures IsPercent(threshold * ratio / 100, ratio, threshold)
  {
  }

  lemma PercentIsUnique(n: int, m: int, ratio: nat, threshold: int)
    requires IsPercent(n, ratio, threshold) && IsPercent(m, ratio, threshold)
    ensures n == m
  {
  }

  /** The route is soft exactly below the threshold. */
  lemma RouteIsByPressure(raws: seq<Raw>, currentPressure: Option<int>, thresholdTokens: Option<int>, context: Context,
                          config: Option<PruningConfig>, p: Prepared)
    requires PreparePrune(raws, currentPressure, thresholdTokens, context, config) == Some(p)
    ensures p.route == Soft <==> p.pressure < p.threshold
  {
  }

  /** The token estimates of everything but tool schemas, added up. */
  lemma MessageTokensAre(c: Contribution, rest: seq<Contribution>)
    ensures MessageTokens([]) == 0
    ensures MessageTokens([c] + rest) == (if c.kind == "tool_schema" then 0 else c.tokenEstimate) + MessageTokens(rest)
  {
    var p := (x: Contribution) => x.kind != "tool_schema";
    assert ([c] + rest)[1..] == rest;
    assert Filter([c] + rest, p) == (if p(c) then [c] else []) + Filter(rest, p);
    assert p(c) ==> ([c] + Filter(rest, p))[1..] == Filter(rest, p);
    assert !p(c) ==> [] + Filter(rest, p) == Filter(rest, p);
  }

  ghost predicate IsTarget(p: Prepared, context: Context, target: int) {
    IsFromContext(target, context.targetTokens,
                  if p.pressure >= p.threshold then p.config.hardTargetRatio else p.config.softTargetRatio, p.threshold)
  }

  /** The numbers of a prepared call: the threshold is the first positive one offered, the pressure is the given one or the
      sum of what the host holds, the route goes by pressure and threshold, and the target by route unless given. */
  lemma PreparedNumbers(raws: seq<Raw>, currentPressure: Option<int>, thresholdTokens: Option<int>, context: Context,
                        config: Option<PruningConfig>, p: Prepared)
    requires PreparePrune(raws, currentPressure, thresholdTokens, context, config) == Some(p)
    ensures config == Some(p.config) && p.config.enabled && ParseAll(raws) == Some(p.cs)
    ensures p.threshold == FirstPositive(thresholdTokens, context.thresholdTokens, p.config.thresholdTokens) > 0
    ensures currentPressure.Some? ==> p.pressure == currentPressure.value >= 0
    ensures currentPressure.None? ==>
              p.pressure == MessageTokens(p.cs) + FirstValue(context.toolSchemaTokens) > 0
    ensures exists trigger :: IsFromContext(trigger, context.triggerTokens, p.config.triggerRatio, p.threshold) && p.pressure >= trigger
    ensures exists target :: IsTarget(p, context, target) && p.target == if target > 0 then target else p.threshold
  {
    var ratio := if p.pressure >= p.threshold then p.config.hardTargetRatio else p.config.softTargetRatio;
    PercentIs(p.config.triggerRatio, p.threshold);
    PercentIs(ratio, p.threshold);
    var trigger := ResolveTrigger(context, p.config, p.threshold);
    assert IsFromContext(trigger, context.triggerTokens, p.config.triggerRatio, p.threshold);
    var target := ResolveTarget(context, p.config, p.threshold, p.pressure);
    assert IsTarget(p, context, target);
  }

  function FirstValue(value: Option<int>): int {
    if value.Some? then value.value else 0
  }

  /** A call is prepared when pruning is enabled, the contributions parse, the threshold is positive and the pressure known
      and at its trigger, and only then. */
  lemma PreparedIff(raws: seq<Raw>, currentPressure: Option<int>, thresholdTokens: Option<int>, context: Context,
                    config: PruningConfig, pressure: int, trigger: int)
    requires var threshold := FirstPositive(thresholdTokens, context.thresholdTokens, config.thresholdTokens);
             IsFromContext(trigger, context.triggerTokens, config.triggerRatio, threshold)
    requires ParseAll(raws).Some? ==>
               pressure == if currentPressure.Some? then currentPressure.value
                           else MessageTokens(ParseAll(raws).value) + FirstValue(context.toolSchemaTokens)
    ensures PreparePrune(raws, currentPressure, thresholdTokens, context, Some(config)).Some?
       <==> && config.enabled && ParseAll(raws).Some?
            && FirstPositive(thresholdTokens, context.thresholdTokens, config.thresholdTokens) > 0
            && pressure >= (if currentPressure.Some? then 0 else 1) && pressure >= trigger
    ensures PreparePrune(raws, currentPressure, thresholdTokens, context, None).None?
  {
    var threshold := FirstPositive(thresholdTokens, context.thresholdTokens, config.thresholdTokens);
    PercentIs(config.triggerRatio, threshold);
    if !IsPositive(context.triggerTokens) {
      PercentIsUnique(trigger, threshold * config.triggerRatio / 100, config.triggerRatio, threshold);
    }
  }

  /** The clock of a call: what the host says, else a second after the latest contribution. */
  lemma NowIs(cs: seq<Contribution>, context: Context)
    ensures context.nowEpochMs.Some? ==> ResolveNow(cs, context) == context.nowEpochMs
    ensures context.nowEpochMs.None? && (forall c :: c in cs ==> c.createdAt.None?) ==> ResolveNow(cs, context) == None
    ensures context.nowEpochMs.None? && (exists c :: c in cs && c.createdAt.Some?) ==>
              && ResolveNow(cs, context).Some?
              && (exists c :: c in cs && c.createdAt == Some(ResolveNow(cs, context).value - 1000))
              && forall c :: c in cs && c.createdAt.Some? ==> c.createdAt.value <= ResolveNow(cs, context).value - 1000
  {
    LatestIs(cs);
  }

  lemma {:induction false} LatestIs(cs: seq<Contribution>)
    ensures MaxCreated(cs).None? <==> forall c :: c in cs ==> c.createdAt.None?
    ensures MaxCreated(cs).Some? ==>
              && (exists c :: c in cs && c.createdAt == MaxCreated(cs))
              && forall c :: c in cs && c.createdAt.Some? ==> c.createdAt.value <= MaxCreated(cs).value
  {
    if cs != [] {
      LatestIs(cs[1..]);
      assert cs[0] in cs && forall c :: c in cs <==> c == cs[0] || c in cs[1..];
    }
  }
}
