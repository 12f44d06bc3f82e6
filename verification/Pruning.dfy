/** Structured pruning from the host's contributions to the effective ones. */
module Pruning {
  import opened Prelude
  import opened PruningTypes
  import opened PruningGroups
  import opened PruningProtection
  import opened PruningSelection
  import opened PruningRescue
  import opened PruningGuarantees

  // ---- selections are safe ----

  /** The groups that `build_groups` makes. */
  function GroupsFor(cs: seq<Contribution>, config: PruningConfig, now: Option<int>): seq<Group> {
    LeadersInRange(cs);
    GroupsOf(cs, Leaders(cs), config, now)
  }

  lemma EligibleIsSafe(cs: seq<Contribution>, config: PruningConfig, now: Option<int>, route: Route, ttl: bool, g: Group)
    requires Numbered(cs) && g in GroupsFor(cs, config, now) && Eligible(g, route, config, ttl)
    ensures IsSafeGroup(cs, config, g)
  {
    LeadersInRange(cs);
    var k :| 0 <= k < |Leaders(cs)| && GroupsFor(cs, config, now)[k] == g;
    var l := Leaders(cs)[k];
    assert g == GroupAt(cs, l, config, now);
    MembersAre(cs, l);
    FlagsMeanShielded(cs, l, l, config, now);
  }

  /** A group that the soft route may prune may be pruned on the hard route, too. */
  lemma SoftIsHard(cs: seq<Contribution>, config: PruningConfig, now: Option<int>, route: Route, ttl: bool, g: Group)
    requires g in GroupsFor(cs, config, now) && Eligible(g, route, config, ttl)
    ensures Eligible(g, Hard, config, true)
  {
    LeadersInRange(cs);
    var k :| 0 <= k < |Leaders(cs)| && GroupsFor(cs, config, now)[k] == g;
    var disposable := Filter(g.contributions, (c: Contribution) => IsEligibleClass(c, config));
    if route == Soft {
      SoftDisposable(disposable);
    }
  }

  lemma {:induction false} SoftDisposable(cs: seq<Contribution>)
    requires All(cs, (c: Contribution) => c.prunePolicy == SOFT_TRIM_POLICY)
    ensures All(cs, IsDisposable)
  {
    if cs != [] {
      SoftDisposable(cs[1..]);
    }
  }

  /** Everything that any call on these contributions may prune. */
  function AllCandidates(cs: seq<Contribution>, config: PruningConfig, now: Option<int>): seq<Group> {
    Candidates(GroupsFor(cs, config, now), Hard, config, true)
  }

  lemma CandidatesAreSafe(cs: seq<Contribution>, config: PruningConfig, now: Option<int>)
    requires Numbered(cs)
    ensures SafeSelection(cs, config, AllCandidates(cs, config, now))
  {
    var groups := GroupsFor(cs, config, now);
    forall g | g in AllCandidates(cs, config, now)
      ensures IsSafeGroup(cs, config, g)
    {
      FilterMembers(groups, (group: Group) => Eligible(group, Hard, config, true), g);
      EligibleIsSafe(cs, config, now, Hard, true, g);
    }
  }

  lemma CandidatesAreAmongAll(cs: seq<Contribution>, config: PruningConfig, now: Option<int>, route: Route, ttl: bool, g: Group)
    requires g in Candidates(GroupsFor(cs, config, now), route, config, ttl)
    ensures g in AllCandidates(cs, config, now)
  {
    var groups := GroupsFor(cs, config, now);
    FilterMembers(groups, (group: Group) => Eligible(group, route, config, ttl), g);
    FilterMembers(groups, (group: Group) => Eligible(group, Hard, config, true), g);
    SoftIsHard(cs, config, now, route, ttl, g);
  }

  // ---- apply, and retry with every candidate ----

  /** `failed` is the case in which the source reports statistics and then fails open. */
  datatype Application = Application(prunedGroups: seq<Group>, attemptedCount: nat, applied: Applied, failed: bool)

  function AttemptedCount(groups: seq<Group>): nat {
    if groups == [] then 0 else |groups[0].contributions| + AttemptedCount(groups[1..])
  }

  function IndexSet(groups: seq<Group>): set<int> {
    set g | g in groups :: g.index
  }

  /** `apply_threshold_pruning`. */
  function ApplyThreshold(p: Prepared, groups: seq<Group>, selected: seq<Group>, thresholdSavings: int, env: RescueEnv)
    : Option<Application>
  {
    match ApplyGroups(p.cs, selected, env)
    case None => None
    case Some(applied) =>
      var retry := Candidates(groups, p.route, p.config, p.route == Hard);
      if thresholdSavings <= 0 || applied.savedTokens >= thresholdSavings || IndexSet(retry) == IndexSet(selected) then
        Some(Application(selected, AttemptedCount(selected), applied, false))
      else match ApplyGroups(p.cs, retry, env)
        case None => Some(Application(selected, AttemptedCount(retry), applied, true))
        case Some(again) => Some(Application(retry, AttemptedCount(retry), again, false))
  }

  // ---- pressure, threshold, trigger and target ----

  /** The integers of the call context, None when absent or not an integer, and the rescue side. */
  datatype Context = Context(thresholdTokens: Option<int>, triggerTokens: Option<int>, targetTokens: Option<int>,
                             toolSchemaTokens: Option<int>, nowEpochMs: Option<int>, rescue: RescueEnv)

  predicate IsPositive(value: Option<int>) {
    value.Some? && value.value > 0
  }

  function ResolveThreshold(thresholdTokens: Option<int>, context: Context, config: PruningConfig): int {
    if IsPositive(thresholdTokens) then thresholdTokens.value
    else if IsPositive(context.thresholdTokens) then context.thresholdTokens.value
    else config.thresholdTokens
  }

  function MessageTokens(cs: seq<Contribution>): nat {
    TotalTokens(Filter(cs, (c: Contribution) => c.kind != "tool_schema"))
  }

  function ResolvePressure(cs: seq<Contribution>, currentPressure: Option<int>, context: Context): Option<int> {
    if currentPressure.Some? then if currentPressure.value >= 0 then currentPressure else None
    else
      var pressure := MessageTokens(cs) + if context.toolSchemaTokens.Some? then context.toolSchemaTokens.value else 0;
      if pressure > 0 then Some(pressure) else None
  }

  function ResolveTrigger(context: Context, config: PruningConfig, threshold: int): int {
    if IsPositive(context.triggerTokens) then context.triggerTokens.value else threshold * config.triggerRatio / 100
  }

  function RouteFor(pressure: int, threshold: int): Route {
    if pressure >= threshold then Hard else Soft
  }

  function ResolveTarget(context: Context, config: PruningConfig, threshold: int, pressure: int): int {
    if IsPositive(context.targetTokens) then context.targetTokens.value
    else threshold * (if RouteFor(pressure, threshold) == Hard then config.hardTargetRatio else config.softTargetRatio) / 100
  }

  datatype Prepared = Prepared(cs: seq<Contribution>, config: PruningConfig, route: Route, target: int, threshold: int, pressure: int)

  /** `_prepare_prune`; `config` is None when the configuration did not parse. */
  function PreparePrune(raws: seq<Raw>, currentPressure: Option<int>, thresholdTokens: Option<int>, context: Context,
                        config: Option<PruningConfig>): Option<Prepared>
  {
    if config.None? || !config.value.enabled then None
    else
      var threshold := ResolveThreshold(thresholdTokens, context, config.value);
      if threshold <= 0 || ParseAll(raws).None? then None
      else
        var cs := ParseAll(raws).value;
        var pressure := ResolvePressure(cs, currentPressure, context);
        if pressure.None? || pressure.value < 0 then None
        else
          var resolvedTrigger := ResolveTrigger(context, config.value, threshold);
          var trigger := if resolvedTrigger <= 0 then threshold * config.value.triggerRatio / 100 else resolvedTrigger;
          var resolvedTarget := ResolveTarget(context, config.value, threshold, pressure.value);
          var target := if resolvedTarget <= 0 then threshold else resolvedTarget;
          if pressure.value < trigger then None
          else Some(Prepared(cs, config.value, RouteFor(pressure.value, threshold), target, threshold, pressure.value))
  }

  function MaxCreated(cs: seq<Contribution>): Option<nat> {
    if cs == [] then None
    else
      var rest := MaxCreated(cs[1..]);
      if cs[0].createdAt.None? then rest
      else if rest.None? then cs[0].createdAt
      else Some(Max(cs[0].createdAt.value, rest.value))
  }

  function ResolveNow(cs: seq<Contribution>, context: Context): Option<int> {
    if context.nowEpochMs.Some? then context.nowEpochMs
    else if MaxCreated(cs).None? then None
    else Some(MaxCreated(cs).value + 1000)
  }

  // ---- the whole call ----

  function ThresholdSavings(p: Prepared): nat {
    Max(0, p.pressure - p.threshold)
  }

  function MinimumSavings(p: Prepared): nat {
    if p.pressure > p.target then p.pressure - p.target else ThresholdSavings(p)
  }

  function Groups(p: Prepared, context: Context): seq<Group> {
    GroupsFor(p.cs, p.config, ResolveNow(p.cs, context))
  }

  /** One of the answers that the selection may give. */
  ghost predicate IsSelection(p: Prepared, groups: seq<Group>, selected: Option<seq<Group>>) {
    if MinimumSavings(p) == 0 then selected == Some([])
    else Selected(selected, Candidates(groups, p.route, p.config, false), Candidates(groups, p.route, p.config, true),
                  p.route, MinimumSavings(p), ThresholdSavings(p))
  }

  /** Accept an application, or fail open. */
  function Accept(p: Prepared, application: Option<Application>): Option<Application> {
    if application.None? || application.value.failed || application.value.applied.savedTokens < ThresholdSavings(p)
    then None else application
  }

  /** What the call makes of a selection. */
  function Decide(p: Prepared, context: Context, selected: Option<seq<Group>>): Option<Application> {
    if selected.None? then None
    else Accept(p, ApplyThreshold(p, Groups(p, context), selected.value, ThresholdSavings(p), context.rescue))
  }

  /** The outcome follows from one of the answers that the selection may give. */
  ghost predicate IsOutcome(p: Prepared, context: Context, outcome: Option<Application>) {
    exists selected :: IsSelection(p, Groups(p, context), selected) && outcome == Decide(p, context, selected)
  }

  /** The groups of the call, and which of them are selected. */
  method SelectFor(p: Prepared, context: Context) returns (groups: seq<Group>, selected: Option<seq<Group>>)
    requires Numbered(p.cs)
    ensures groups == Groups(p, context) && IsSelection(p, groups, selected)
  {
    var requiredSavings := Max(0, p.pressure - p.target);
    var thresholdSavings := Max(0, p.pressure - p.threshold);
    var minimumSavings := if requiredSavings > 0 then requiredSavings else thresholdSavings;
    groups := BuildGroups(p.cs, p.config, ResolveNow(p.cs, context));
    selected := SelectPrunedGroups(groups, p.route, minimumSavings, p.config, thresholdSavings);
  }

  lemma Decided(p: Prepared, context: Context, selected: Option<seq<Group>>)
    requires IsSelection(p, Groups(p, context), selected)
    ensures IsOutcome(p, context, Decide(p, context, selected))
  {
  }

  /** The decision once the call is prepared. */
  method PrunePrepared(p: Prepared, context: Context) returns (accounting: Option<Application>)
    requires Numbered(p.cs)
    ensures IsOutcome(p, context, accounting)
  {
    var groups, selected := SelectFor(p, context);
    Decided(p, context, selected);
    accounting := None;
    if selected.Some? {
      accounting := Accept(p, ApplyThreshold(p, groups, selected.value, ThresholdSavings(p), context.rescue));
    }
  }

  lemma PreparedAreParsed(raws: seq<Raw>, currentPressure: Option<int>, thresholdTokens: Option<int>, context: Context,
                          config: Option<PruningConfig>)
    ensures var prepared := PreparePrune(raws, currentPressure, thresholdTokens, context, config);
            prepared.Some? ==> ParseAll(raws) == Some(prepared.value.cs) && Numbered(prepared.value.cs)
  {
    if ParseAll(raws).Some? {
      ParsedAreNumbered(raws);
    }
  }

  /** `_prune_structured_context`: the effective contributions and the accounting, None when it fails open. */
  method PruneStructuredContext(raws: seq<Raw>, currentPressure: Option<int>, thresholdTokens: Option<int>, context: Context,
                                config: Option<PruningConfig>)
    returns (effective: Option<seq<Raw>>, accounting: Option<Application>)
    ensures var prepared := PreparePrune(raws, currentPressure, thresholdTokens, context, config);
            if prepared.None? then effective.None? && accounting.None?
            else
              && ParseAll(raws) == Some(prepared.value.cs)
              && IsOutcome(prepared.value, context, accounting)
              && effective == if accounting.None? then None else Some(Originals(accounting.value.applied.retained))
  {
    effective, accounting := None, None;
    var prepared := PreparePrune(raws, currentPressure, thresholdTokens, context, config);
    if prepared.None? {
      return;
    }
    PreparedAreParsed(raws, currentPressure, thresholdTokens, context, config);
    accounting := PrunePrepared(prepared.value, context);
    if accounting.Some? {
      effective := Some(Originals(accounting.value.applied.retained));
    }
  }

  // ---- what an accepted result guarantees ----

  /** The accepted result of a call on these contributions. */
  ghost predicate IsAccepted(p: Prepared, context: Context, a: Application) {
    Numbered(p.cs) && IsOutcome(p, context, Some(a))
  }

  /** Whichever path led to it (core, TTL-extended, fallback, partial or retry), an accepted result prunes candidates
      only, so no shielded contribution, and covers the excess. */
  lemma AcceptedIsSafe(p: Prepared, context: Context, a: Application)
    requires IsAccepted(p, context, a)
    ensures forall g :: g in a.prunedGroups ==> g in AllCandidates(p.cs, p.config, ResolveNow(p.cs, context))
    ensures SafeSelection(p.cs, p.config, a.prunedGroups)
    ensures ApplyGroups(p.cs, a.prunedGroups, context.rescue) == Some(a.applied)
    ensures a.applied.savedTokens >= ThresholdSavings(p)
  {
    var selected :| IsSelection(p, Groups(p, context), selected) && Some(a) == Decide(p, context, selected);
    SelectedAreCandidates(p, context, selected);
    DecidedGroups(p, context, selected, a);
    RetryIsCandidates(p, context);
    CandidatesAreSafe(p.cs, p.config, ResolveNow(p.cs, context));
  }

  lemma SelectedAreCandidates(p: Prepared, context: Context, selected: Option<seq<Group>>)
    requires IsSelection(p, Groups(p, context), selected) && selected.Some?
    ensures forall g :: g in selected.value ==> g in AllCandidates(p.cs, p.config, ResolveNow(p.cs, context))
  {
    if MinimumSavings(p) > 0 {
      var groups := Groups(p, context);
      forall g | g in selected.value
        ensures g in AllCandidates(p.cs, p.config, ResolveNow(p.cs, context))
      {
        SelectedAreEligible(selected, groups, p.route, p.config, MinimumSavings(p), ThresholdSavings(p), g);
        FilterMembers(groups, (group: Group) => Eligible(group, p.route, p.config, true), g);
        CandidatesAreAmongAll(p.cs, p.config, ResolveNow(p.cs, context), p.route, true, g);
      }
    }
  }

  lemma RetryIsCandidates(p: Prepared, context: Context)
    ensures forall g :: g in Candidates(Groups(p, context), p.route, p.config, p.route == Hard) ==>
              g in AllCandidates(p.cs, p.config, ResolveNow(p.cs, context))
  {
    forall g | g in Candidates(Groups(p, context), p.route, p.config, p.route == Hard)
      ensures g in AllCandidates(p.cs, p.config, ResolveNow(p.cs, context))
    {
      CandidatesAreAmongAll(p.cs, p.config, ResolveNow(p.cs, context), p.route, p.route == Hard, g);
    }
  }

  /** An accepted result applies the selection or every candidate of the route, and covers the excess. */
  lemma DecidedGroups(p: Prepared, context: Context, selected: Option<seq<Group>>, a: Application)
    requires Some(a) == Decide(p, context, selected)
    ensures a.prunedGroups == selected.value
         || a.prunedGroups == Candidates(Groups(p, context), p.route, p.config, p.route == Hard)
    ensures ApplyGroups(p.cs, a.prunedGroups, context.rescue) == Some(a.applied)
    ensures a.applied.savedTokens >= ThresholdSavings(p)
  {
  }

  lemma {:induction false} OriginalsOfFilter(cs: seq<Contribution>, p: string -> bool)
    requires forall c :: c in cs ==> c.original.id == Some(c.id)
    ensures Filter(Originals(cs), (raw: Raw) => raw.id.Some? && p(raw.id.value))
         == Originals(Filter(cs, (c: Contribution) => p(c.id)))
  {
    if cs != [] {
      assert cs[0] in cs && forall c :: c in cs[1..] ==> c in cs;
      assert Originals(cs)[1..] == Originals(cs[1..]);
      OriginalsOfFilter(cs[1..], p);
    }
  }

  lemma {:induction false} RetainedKeepRawIds(cs: seq<Contribution>, pruned: ById, replacements: ById)
    requires forall c :: c in cs ==> c.original.id == Some(c.id)
    requires forall id :: id in replacements ==> replacements[id].original.id == Some(replacements[id].id)
    ensures forall c :: c in Retained(cs, pruned, replacements) ==> c.original.id == Some(c.id)
  {
    if cs != [] {
      assert cs[0] in cs && forall c :: c in cs[1..] ==> c in cs;
      RetainedKeepRawIds(cs[1..], pruned, replacements);
    }
  }

  lemma ReplacementsKeepRawIds(p: Prepared, context: Context, groups: seq<Group>)
    requires Numbered(p.cs) && SafeSelection(p.cs, p.config, groups)
    requires forall c :: c in p.cs ==> c.original.id == Some(c.id)
    ensures var r := Replacements(PrunedById(groups), context.rescue);
            r.Some? ==> forall id :: id in r.value ==> r.value[id].original.id == Some(r.value[id].id)
  {
    var pruned := PrunedById(groups);
    forall id | id in pruned
      ensures pruned[id].original.id == Some(pruned[id].id)
    {
      PrunedByIdIs(groups, id);
      var g :| g in groups && pruned[id] in g.contributions;
      MemberOfSafeGroup(p.cs, p.config, g, pruned[id]);
    }
  }

  /** End to end: of the host's own contributions, those whose ids were not selected come out verbatim and in order. */
  lemma UnprunedSurvive(raws: seq<Raw>, p: Prepared, context: Context, a: Application, kept: string -> bool)
    requires ParseAll(raws) == Some(p.cs) && IsAccepted(p, context, a)
    requires forall c :: c in p.cs && kept(c.id) ==> c.id !in PrunedById(a.prunedGroups)
    ensures Filter(Originals(a.applied.retained), (raw: Raw) => raw.id.Some? && kept(raw.id.value))
         == Filter(raws, (raw: Raw) => raw.id.Some? && kept(raw.id.value))
  {
    AcceptedIsSafe(p, context, a);
    ParsedAreNumbered(raws);
    UnprunedVerbatim(p.cs, a.prunedGroups, context.rescue, kept);
    ReplacementsKeepRawIds(p, context, a.prunedGroups);
    var pruned := PrunedById(a.prunedGroups);
    RetainedKeepRawIds(p.cs, pruned, Replacements(pruned, context.rescue).value);
    OriginalsOfFilter(p.cs, kept);
    OriginalsOfFilter(a.applied.retained, kept);
  }

  /** End to end: of the host's own contributions, those that are shielded come out verbatim, in order, none missing and
      none added, when none of them shares its id with a candidate. */
  lemma ShieldedSurvive(raws: seq<Raw>, p: Prepared, context: Context, a: Application, shielded: string -> bool)
    requires ParseAll(raws) == Some(p.cs) && IsAccepted(p, context, a)
    requires IdsApart(p.cs, p.config, AllCandidates(p.cs, p.config, ResolveNow(p.cs, context)))
    requires forall id :: shielded(id) ==> IsShieldedId(p.cs, p.config, id)
    ensures Filter(Originals(a.applied.retained), (raw: Raw) => raw.id.Some? && shielded(raw.id.value))
         == Filter(raws, (raw: Raw) => raw.id.Some? && shielded(raw.id.value))
  {
    AcceptedIsSafe(p, context, a);
    forall c | c in p.cs && shielded(c.id)
      ensures c.id !in PrunedById(a.prunedGroups)
    {
      ShieldedNotPruned(p.cs, p.config, a.prunedGroups, c.id);
    }
    UnprunedSurvive(raws, p, context, a, shielded);
  }

  /** In particular when all ids are unique. */
  lemma ShieldedSurviveWithUniqueIds(raws: seq<Raw>, p: Prepared, context: Context, a: Application, shielded: string -> bool)
    requires ParseAll(raws) == Some(p.cs) && IsAccepted(p, context, a) && UniqueIds(p.cs)
    requires forall id :: shielded(id) ==> IsShieldedId(p.cs, p.config, id)
    ensures Filter(Originals(a.applied.retained), (raw: Raw) => raw.id.Some? && shielded(raw.id.value))
         == Filter(raws, (raw: Raw) => raw.id.Some? && shielded(raw.id.value))
  {
    CandidatesAreSafe(p.cs, p.config, ResolveNow(p.cs, context));
    UniqueIdsApart(p.cs, p.config, AllCandidates(p.cs, p.config, ResolveNow(p.cs, context)));
    ShieldedSurvive(raws, p, context, a, shielded);
  }

  /** End to end: no member of an atomic group outlives another. */
  lemma GroupsSurviveWhole(p: Prepared, context: Context, a: Application, i: nat, j: nat)
    requires IsAccepted(p, context, a) && UniqueIds(p.cs)
    requires i < |p.cs| && j < |p.cs| && SameGroup(p.cs[i], p.cs[j])
    ensures HasId(a.applied.retained, p.cs[i].id) <==> HasId(a.applied.retained, p.cs[j].id)
  {
    AcceptedIsSafe(p, context, a);
    GroupsStayWhole(p.cs, p.config, a.prunedGroups, context.rescue, i, j);
  }

  /** The pressure that is really left. */
  function PressureLeft(p: Prepared, a: Application): int {
    p.pressure - (TotalTokens(p.cs) - TotalTokens(a.applied.retained))
  }

  /** End to end: the pressure left is what the saved tokens leave plus the growth of replacements, so without growth it is
      within the threshold. */
  lemma PressureAfterPruning(p: Prepared, context: Context, a: Application)
    requires IsAccepted(p, context, a)
    ensures Replacements(PrunedById(a.prunedGroups), context.rescue).Some?
    ensures var growth := Growth(p.cs, PrunedById(a.prunedGroups), Replacements(PrunedById(a.prunedGroups), context.rescue).value);
            && PressureLeft(p, a) == p.pressure - a.applied.savedTokens + growth
            && (growth == 0 ==> PressureLeft(p, a) <= p.threshold)
  {
    AcceptedIsSafe(p, context, a);
    TokensBalance(p.cs, PrunedById(a.prunedGroups), Replacements(PrunedById(a.prunedGroups), context.rescue).value);
  }
}
