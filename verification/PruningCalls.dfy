/** Over all calls that a host can make on given contributions: when they stay within their threshold, and when they keep
    what is shielded. */
module PruningCalls {
  import opened Prelude
  import opened PruningTypes
  import opened PruningGroups
  import opened PruningProtection
  import opened PruningSelection
  import opened PruningRescue
  import opened PruningGuarantees
  import opened Pruning

  /** Calls of one host share the rescue side and the clock; pressure, threshold, trigger and target vary. */
  ghost predicate SameHost(context: Context, host: Context) {
    context.rescue == host.rescue && context.nowEpochMs == host.nowEpochMs
  }

  /** A call of the host on these contributions is prepared as `p` and accepted with the result `a`. */
  ghost predicate IsCall(raws: seq<Raw>, config: PruningConfig, host: Context, currentPressure: Option<int>,
                         thresholdTokens: Option<int>, context: Context, p: Prepared, a: Application) {
    && SameHost(context, host)
    && PreparePrune(raws, currentPressure, thresholdTokens, context, Some(config)) == Some(p)
    && IsAccepted(p, context, a)
  }

  /** The groups that some call may prune. */
  function HostCandidates(cs: seq<Contribution>, config: PruningConfig, host: Context): seq<Group> {
    AllCandidates(cs, config, ResolveNow(cs, host))
  }

  ghost predicate RescueWorks(env: RescueEnv) {
    env.sessionId != "" && env.fetchAvailable && forall content :: env.put(content).Some?
  }

  /** Every candidate has something to save, as it has whenever a positive minimum is configured. */
  lemma PositiveMinimum(cs: seq<Contribution>, config: PruningConfig, host: Context)
    requires config.minSavedTokens > 0
    ensures AllPositive(HostCandidates(cs, config, host))
  {
    var groups := GroupsFor(cs, config, ResolveNow(cs, host));
    forall g | g in HostCandidates(cs, config, host)
      ensures g.savings > 0
    {
      FilterMembers(groups, (group: Group) => Eligible(group, Hard, config, true), g);
    }
  }

  // ---- the call that prunes every candidate ----

  lemma ReplacementsWork(groups: seq<Group>, env: RescueEnv)
    requires RescueWorks(env)
    ensures Replacements(PrunedById(groups), env).Some?
  {
  }

  /** What `_prepare_prune` makes of explicit numbers. */
  lemma PreparesExplicit(raws: seq<Raw>, config: PruningConfig, host: Context, pressure: int, threshold: int, target: int)
    returns (context: Context)
    requires config.enabled && ParseAll(raws).Some? && pressure >= threshold > 0 && target > 0
    ensures SameHost(context, host)
    ensures PreparePrune(raws, Some(pressure), Some(threshold), context, Some(config))
         == Some(Prepared(ParseAll(raws).value, config, Hard, target, threshold, pressure))
  {
    context := host.(triggerTokens := Some(1), targetTokens := Some(target));
  }

  /** The candidates with savings. */
  function Saving(groups: seq<Group>): seq<Group> {
    Filter(groups, HasSavings)
  }

  predicate HasSavings(group: Group) {
    group.savings > 0
  }

  lemma {:induction false} SomeSavings(groups: seq<Group>, g: Group)
    requires g in groups && g.savings > 0
    ensures TotalSavings(groups) > 0
  {
    if g != groups[0] {
      SomeSavings(groups[1..], g);
    }
  }

  /** The applied groups are candidates and hold every candidate with savings. */
  ghost predicate PrunesAllSavings(groups: seq<Group>, all: seq<Group>) {
    (forall g :: g in groups ==> g in all) && forall g :: g in Saving(all) ==> g in groups
  }

  lemma SelectsAllSavings(groups: seq<Group>, all: seq<Group>)
    requires forall g :: g in groups ==> g in all
    requires forall g :: g in all && g.savings > 0 ==> g in groups
    ensures PrunesAllSavings(groups, all)
  {
    forall g | g in Saving(all)
      ensures g in groups
    {
      FilterMembers(all, HasSavings, g);
    }
  }

  /** Asking for the savings of all candidates, with as much pressure above the threshold as pruning them is credited with,
      is accepted and prunes every candidate with savings. */
  lemma CallForAll(raws: seq<Raw>, config: PruningConfig, host: Context)
    returns (pressure: int, threshold: int, context: Context, p: Prepared, a: Application)
    requires config.enabled && ParseAll(raws).Some? && RescueWorks(host.rescue)
    requires TotalSavings(HostCandidates(ParseAll(raws).value, config, host)) > 0
    ensures IsCall(raws, config, host, Some(pressure), Some(threshold), context, p, a)
    ensures p.cs == ParseAll(raws).value && p.config == config
    ensures PrunesAllSavings(a.prunedGroups, HostCandidates(p.cs, config, host))
    ensures p.pressure - p.threshold == a.applied.savedTokens
  {
    var cs, env := ParseAll(raws).value, host.rescue;
    var groups, all := GroupsFor(cs, config, ResolveNow(cs, host)), HostCandidates(cs, config, host);
    ParsedAreNumbered(raws);
    var selected := SelectsAll(groups, config);
    SelectsAllSavings(selected, all);
    ReplacementsWork(selected, env);
    var applied := ApplyGroups(cs, selected, env).value;
    threshold := TotalSavings(all) + 1;
    pressure := threshold + applied.savedTokens;
    context := PreparesExplicit(raws, config, host, pressure, threshold, applied.savedTokens + 1);
    p := Prepared(cs, config, Hard, applied.savedTokens + 1, threshold, pressure);
    a := Application(selected, AttemptedCount(selected), applied, false);
    AcceptsSelection(p, context, selected, a);
  }

  /** A selection that is credited with the excess is applied and accepted. */
  lemma AcceptsSelection(p: Prepared, context: Context, selected: seq<Group>, a: Application)
    requires Numbered(p.cs) && IsSelection(p, Groups(p, context), Some(selected))
    requires ApplyGroups(p.cs, selected, context.rescue) == Some(a.applied) && a.applied.savedTokens >= ThresholdSavings(p)
    requires a == Application(selected, AttemptedCount(selected), a.applied, false)
    ensures IsAccepted(p, context, a)
  {
    assert Some(a) == Decide(p, context, Some(selected));
  }

  // ---- the threshold ----

  /** Every accepted call leaves a pressure within its threshold. */
  ghost predicate StaysWithin(raws: seq<Raw>, config: PruningConfig, host: Context) {
    forall currentPressure, thresholdTokens, context, p, a ::
      IsCall(raws, config, host, currentPressure, thresholdTokens, context, p, a) ==> PressureLeft(p, a) <= p.threshold
  }

  lemma CallFacts(raws: seq<Raw>, config: PruningConfig, host: Context, currentPressure: Option<int>,
                  thresholdTokens: Option<int>, context: Context, p: Prepared, a: Application)
    requires IsCall(raws, config, host, currentPressure, thresholdTokens, context, p, a)
    ensures ParseAll(raws) == Some(p.cs) && p.config == config && Numbered(p.cs)
    ensures forall g :: g in a.prunedGroups ==> g in HostCandidates(p.cs, config, host)
    ensures Replacements(PrunedById(a.prunedGroups), host.rescue).Some?
  {
    PreparedAreParsed(raws, currentPressure, thresholdTokens, context, Some(config));
    AcceptedIsSafe(p, context, a);
    PressureAfterPruning(p, context, a);
  }

  /** Calls stay within their threshold when no rescue of a candidate's member could enlarge a contribution. */
  lemma NoGrowthStaysWithin(raws: seq<Raw>, config: PruningConfig, host: Context)
    requires ParseAll(raws).Some?
    requires !CanGrow(ParseAll(raws).value, HostCandidates(ParseAll(raws).value, config, host), host.rescue)
    ensures StaysWithin(raws, config, host)
  {
    forall currentPressure, thresholdTokens, context, p, a
      | IsCall(raws, config, host, currentPressure, thresholdTokens, context, p, a)
      ensures PressureLeft(p, a) <= p.threshold
    {
      CallFacts(raws, config, host, currentPressure, thresholdTokens, context, p, a);
      AppliedWithoutGrowth(p.cs, a.prunedGroups, host.rescue);
      PressureAfterPruning(p, context, a);
    }
  }

  /** When a candidate with savings holds a member that would grow, the call that prunes them all is accepted and leaves
      more than its threshold. */
  lemma GrowthExceedsThreshold(raws: seq<Raw>, config: PruningConfig, host: Context)
    returns (pressure: int, threshold: int, context: Context, p: Prepared, a: Application)
    requires config.enabled && ParseAll(raws).Some? && RescueWorks(host.rescue) && UniqueIds(ParseAll(raws).value)
    requires var cs := ParseAll(raws).value; CanGrow(cs, Saving(HostCandidates(cs, config, host)), host.rescue)
    ensures IsCall(raws, config, host, Some(pressure), Some(threshold), context, p, a)
    ensures PressureLeft(p, a) > p.threshold && p.pressure - p.threshold == a.applied.savedTokens
    ensures PrunesAllSavings(a.prunedGroups, HostCandidates(p.cs, config, host))
  {
    var cs := ParseAll(raws).value;
    var all := HostCandidates(cs, config, host);
    var g, m, c :| g in Saving(all) && m in g.contributions && c in cs && Grows(m, c, host.rescue);
    FilterMembers(all, HasSavings, g);
    SomeSavings(all, g);
    pressure, threshold, context, p, a := CallForAll(raws, config, host);
    CallFacts(raws, config, host, Some(pressure), Some(threshold), context, p, a);
    AcceptedIsSafe(p, context, a);
    assert g in a.prunedGroups;
    AppliedWithGrowth(p.cs, config, a.prunedGroups, host.rescue);
    PressureAfterPruning(p, context, a);
  }

  lemma SavingIsAll(groups: seq<Group>)
    requires AllPositive(groups)
    ensures forall g :: g in Saving(groups) <==> g in groups
  {
    forall g
      ensures g in Saving(groups) <==> g in groups
    {
      FilterMembers(groups, HasSavings, g);
    }
  }

  /** With unique ids and a rescue store that works: all calls on these contributions stay within their thresholds when no
      member of a candidate group would grow by being rescued, and only when no member of a candidate group with savings
      would, which is the same whenever every candidate has savings. */
  lemma StaysWithinIff(raws: seq<Raw>, config: PruningConfig, host: Context)
    requires config.enabled && ParseAll(raws).Some? && RescueWorks(host.rescue) && UniqueIds(ParseAll(raws).value)
    ensures var cs, env := ParseAll(raws).value, host.rescue;
            var all := HostCandidates(cs, config, host);
            && (!CanGrow(cs, all, env) ==> StaysWithin(raws, config, host))
            && (StaysWithin(raws, config, host) ==> !CanGrow(cs, Saving(all), env))
            && (AllPositive(all) ==> (StaysWithin(raws, config, host) <==> !CanGrow(cs, all, env)))
  {
    var cs, env := ParseAll(raws).value, host.rescue;
    var all := HostCandidates(cs, config, host);
    if CanGrow(cs, Saving(all), env) {
      var pressure, threshold, context, p, a := GrowthExceedsThreshold(raws, config, host);
    }
    if !CanGrow(cs, all, env) {
      NoGrowthStaysWithin(raws, config, host);
    }
    if AllPositive(all) {
      SavingIsAll(all);
    }
  }

  // ---- a call that exceeds its threshold ----

  const LOG := Raw(Some("log"), Some("tool_output"), Some("host"), Some("terminal_tool_output"), Some("volatile"), Some("1"),
                   Some("none"), Some(SOFT_TRIM_POLICY), Value(10), Value(40), Missing, None, "log")
  const NOTE := Raw(Some("note"), Some("tool_output"), Some("host"), Some("diagnostic"), Some("volatile"), Some("2"),
                    Some("none"), Some(SOFT_TRIM_POLICY), Value(1), Value(4), Missing, None, "note")
  const PLAIN_CONFIG := PruningConfig(true, 1, 100, 100, 100, 1, 0, 0, 0, {"terminal_tool_output"})

  function ExampleHost(): Context {
    Context(None, None, None, None, None,
            RescueEnv("session", true, content => Some("000000000000"), (content, handle) => ""))
  }

  function LogAt(i: nat): Contribution {
    ParseContribution(LOG, i).value
  }

  function NoteAt(i: nat): Contribution {
    ParseContribution(NOTE, i).value
  }

  lemma ExampleParses()
    ensures ParseAll([LOG, NOTE]) == Some([LogAt(0), NoteAt(1)]) && UniqueIds([LogAt(0), NoteAt(1)])
  {
    var raws := [LOG, NOTE];
    assert forall raw :: raw in raws ==> IsValid(raw);
    assert ParsedPrefix(raws) == [LogAt(0), NoteAt(1)];
  }

  /** A contribution without an atomic group, a protected class or a known age is a candidate of its own, when nothing recent
      is protected. */
  lemma SingletonIsCandidate(cs: seq<Contribution>, config: PruningConfig, i: nat) returns (g: Group)
    requires Numbered(cs) && i < |cs| && cs[i].atomicGroupId.None? && cs[i].createdAt.None?
    requires !IsProtectedClass(cs[i]) && IsDisposable(cs[i]) && IsEligibleClass(cs[i], config)
    requires cs[i].tokenEstimate >= config.minSavedTokens
    requires config.protectRecentMessages == 0 && config.protectRecentToolInteractions == 0
    ensures g in AllCandidates(cs, config, None) && cs[i] in g.contributions
  {
    var groups := GroupsFor(cs, config, None);
    LeadersAreThose(cs, |cs|);
    assert i in Leaders(cs);
    var k :| 0 <= k < |Leaders(cs)| && Leaders(cs)[k] == i;
    g := GroupAt(cs, i, config, None);
    assert groups[k] == g;
    SingletonFlags(cs, config, i);
    FilterMembers(groups, (group: Group) => Eligible(group, Hard, config, true), g);
  }

  lemma SingletonFlags(cs: seq<Contribution>, config: PruningConfig, i: nat)
    requires i < |cs| && cs[i].atomicGroupId.None? && cs[i].createdAt.None?
    requires !IsProtectedClass(cs[i]) && IsDisposable(cs[i]) && IsEligibleClass(cs[i], config)
    requires cs[i].tokenEstimate >= config.minSavedTokens
    requires config.protectRecentMessages == 0 && config.protectRecentToolInteractions == 0
    ensures GroupAt(cs, i, config, None).contributions == [cs[i]] && Eligible(GroupAt(cs, i, config, None), Hard, config, true)
  {
    var one, recent := [cs[i]], RecentMessageIndices(cs, 0);
    assert one[1..] == [] && Members(cs, i) == one;
    assert TotalTokens(one[1..]) == 0;
    FilterAllOf(one, (c: Contribution) => IsEligibleClass(c, config));
    AnyOne(cs[i], IsDisposable);
    AnyOne(cs[i], IsProtectedClass);
    AllOne(cs[i], IsDisposable);
    assert recent == [];
    AnyOne(cs[i], (c: Contribution) => c.originalIndex in recent);
    assert LastN(ToolLeaders(cs), 0) == [];
  }

  lemma FilterAllOf(one: seq<Contribution>, p: Contribution -> bool)
    requires |one| == 1 && p(one[0])
    ensures Filter(one, p) == one
  {
    assert one[1..] == [];
    assert Filter(one[1..], p) == [];
  }

  lemma AnyOne(c: Contribution, p: Contribution -> bool)
    ensures Any([c], p) == p(c)
  {
    AnyMember([c], p);
  }

  lemma AllOne(c: Contribution, p: Contribution -> bool)
    ensures All([c], p) == p(c)
  {
    AllMembers([c], p);
  }

  /** A short diagnostic is replaced by a longer excerpt at no charge: the call is accepted, and the pressure it leaves is
      above the threshold. */
  lemma GrowthCanHideShortfall()
    returns (pressure: int, threshold: int, context: Context, p: Prepared, a: Application)
    ensures IsCall([LOG, NOTE], PLAIN_CONFIG, ExampleHost(), Some(pressure), Some(threshold), context, p, a)
    ensures PressureLeft(p, a) > p.threshold && p.pressure > p.threshold
    ensures !StaysWithin([LOG, NOTE], PLAIN_CONFIG, ExampleHost())
  {
    var raws, host := [LOG, NOTE], ExampleHost();
    ExampleParses();
    var cs := ParseAll(raws).value;
    ExampleCanGrow(cs, host);
    pressure, threshold, context, p, a := GrowthExceedsThreshold(raws, PLAIN_CONFIG, host);
    CreditIsSaved(raws, PLAIN_CONFIG, host, Some(pressure), Some(threshold), context, p, a);
    ExampleCredit(cs, a.prunedGroups, host);
  }

  lemma ExampleCanGrow(cs: seq<Contribution>, host: Context)
    requires cs == [LogAt(0), NoteAt(1)] && host == ExampleHost()
    ensures CanGrow(cs, Saving(HostCandidates(cs, PLAIN_CONFIG, host)), host.rescue)
  {
    ExampleHasNoTime(cs, host);
    var g := SingletonIsCandidate(cs, PLAIN_CONFIG, 1);
    PositiveMinimum(cs, PLAIN_CONFIG, host);
    SavingIsAll(HostCandidates(cs, PLAIN_CONFIG, host));
    ExampleGrows();
    assert cs[1] in cs && Grows(cs[1], cs[1], host.rescue);
  }

  lemma ExampleHasNoTime(cs: seq<Contribution>, host: Context)
    requires cs == [LogAt(0), NoteAt(1)] && host == ExampleHost()
    ensures ResolveNow(cs, host) == None
  {
    NoAges(cs);
  }

  lemma {:induction false} NoAges(cs: seq<Contribution>)
    requires forall c :: c in cs ==> c.createdAt.None?
    ensures MaxCreated(cs).None?
  {
    if cs != [] {
      assert cs[0] in cs && forall c :: c in cs[1..] ==> c in cs;
      NoAges(cs[1..]);
    }
  }

  lemma CreditIsSaved(raws: seq<Raw>, config: PruningConfig, host: Context, currentPressure: Option<int>,
                      thresholdTokens: Option<int>, context: Context, p: Prepared, a: Application)
    requires IsCall(raws, config, host, currentPressure, thresholdTokens, context, p, a)
    ensures SafeSelection(p.cs, config, a.prunedGroups) && Replacements(PrunedById(a.prunedGroups), host.rescue).Some?
    ensures var pruned := PrunedById(a.prunedGroups);
            a.applied.savedTokens == Saved(p.cs, pruned, Replacements(pruned, host.rescue).value)
  {
    CallFacts(raws, config, host, currentPressure, thresholdTokens, context, p, a);
    AcceptedIsSafe(p, context, a);
  }

  /** Pruning every candidate is credited with the log. */
  lemma ExampleCredit(cs: seq<Contribution>, groups: seq<Group>, host: Context)
    requires cs == [LogAt(0), NoteAt(1)] && UniqueIds(cs) && host == ExampleHost() && SafeSelection(cs, PLAIN_CONFIG, groups)
    requires PrunesAllSavings(groups, HostCandidates(cs, PLAIN_CONFIG, host))
    requires Replacements(PrunedById(groups), host.rescue).Some?
    ensures Saved(cs, PrunedById(groups), Replacements(PrunedById(groups), host.rescue).value) >= 10
  {
    ExampleHasNoTime(cs, host);
    var g := SingletonIsCandidate(cs, PLAIN_CONFIG, 0);
    PositiveMinimum(cs, PLAIN_CONFIG, host);
    SavingIsAll(HostCandidates(cs, PLAIN_CONFIG, host));
    PrunedMeansSelected(cs, PLAIN_CONFIG, groups, 0);
    LogIsCredited(cs, PrunedById(groups), host.rescue);
  }

  lemma ExampleGrows()
    ensures Grows(NoteAt(1), NoteAt(1), ExampleHost().rescue)
  {
    assert |RESCUED_PREFIX + ""| == 40;
  }

  lemma LogIsCredited(cs: seq<Contribution>, pruned: ById, env: RescueEnv)
    requires cs != [] && cs[0] == LogAt(0) && "log" in pruned && pruned["log"] == LogAt(0)
    requires Replacements(pruned, env).Some?
    ensures Saved(cs, pruned, Replacements(pruned, env).value) >= 10
  {
    assert "log" !in RescueIds(pruned);
  }

  // ---- protection ----

  /** Every accepted call keeps every shielded contribution. */
  ghost predicate AlwaysKept(raws: seq<Raw>, config: PruningConfig, host: Context) {
    forall currentPressure, thresholdTokens, context, p, a ::
      IsCall(raws, config, host, currentPressure, thresholdTokens, context, p, a) ==> KeepsShielded(p, host.rescue, a)
  }

  ghost predicate KeepsShielded(p: Prepared, env: RescueEnv, a: Application) {
    var pruned := PrunedById(a.prunedGroups);
    Replacements(pruned, env).Some?
    && forall i :: 0 <= i < |p.cs| && Shielded(p.cs, p.config, i) ==> FateOf(p.cs[i], pruned, Replacements(pruned, env).value).Keep?
  }

  lemma OwnIdsAreKept(raws: seq<Raw>, config: PruningConfig, host: Context)
    requires ParseAll(raws).Some?
    requires IdsApart(ParseAll(raws).value, config, HostCandidates(ParseAll(raws).value, config, host))
    ensures AlwaysKept(raws, config, host)
  {
    forall currentPressure, thresholdTokens, context, p, a
      | IsCall(raws, config, host, currentPressure, thresholdTokens, context, p, a)
      ensures KeepsShielded(p, host.rescue, a)
    {
      CallFacts(raws, config, host, currentPressure, thresholdTokens, context, p, a);
      forall i | 0 <= i < |p.cs| && Shielded(p.cs, p.config, i)
        ensures p.cs[i].id !in PrunedById(a.prunedGroups)
      {
        ShieldedNotPruned(p.cs, config, a.prunedGroups, p.cs[i].id);
      }
    }
  }

  /** A shielded contribution that shares its id with a member of a candidate group with savings is lost in the call that
      prunes them all. */
  lemma SharedIdIsLost(raws: seq<Raw>, config: PruningConfig, host: Context)
    returns (pressure: int, threshold: int, context: Context, p: Prepared, a: Application)
    requires config.enabled && ParseAll(raws).Some? && RescueWorks(host.rescue)
    requires var cs := ParseAll(raws).value; !IdsApart(cs, config, Saving(HostCandidates(cs, config, host)))
    ensures IsCall(raws, config, host, Some(pressure), Some(threshold), context, p, a)
    ensures !KeepsShielded(p, host.rescue, a)
  {
    var cs := ParseAll(raws).value;
    var all := HostCandidates(cs, config, host);
    var i, g, c :| 0 <= i < |cs| && Shielded(cs, config, i) && g in Saving(all) && c in g.contributions && c.id == cs[i].id;
    FilterMembers(all, HasSavings, g);
    SomeSavings(all, g);
    pressure, threshold, context, p, a := CallForAll(raws, config, host);
    CallFacts(raws, config, host, Some(pressure), Some(threshold), context, p, a);
    AcceptedIsSafe(p, context, a);
    SharedIdNotKept(p.cs, config, a.prunedGroups, host.rescue, i, g, c);
  }

  /** With a rescue store that works: all calls keep everything shielded when no shielded contribution shares its id with a
      member of a candidate group, and only when none shares it with a member of a candidate group with savings. */
  lemma ProtectionNeedsOwnIds(raws: seq<Raw>, config: PruningConfig, host: Context)
    requires config.enabled && ParseAll(raws).Some? && RescueWorks(host.rescue)
    ensures var cs := ParseAll(raws).value;
            var all := HostCandidates(cs, config, host);
            && (IdsApart(cs, config, all) ==> AlwaysKept(raws, config, host))
            && (AlwaysKept(raws, config, host) ==> IdsApart(cs, config, Saving(all)))
            && (AllPositive(all) ==> (AlwaysKept(raws, config, host) <==> IdsApart(cs, config, all)))
  {
    var cs := ParseAll(raws).value;
    var all := HostCandidates(cs, config, host);
    if IdsApart(cs, config, all) {
      OwnIdsAreKept(raws, config, host);
    }
    if !IdsApart(cs, config, Saving(all)) {
      var pressure, threshold, context, p, a := SharedIdIsLost(raws, config, host);
    }
    if AllPositive(all) {
      SavingIsAll(all);
    }
  }
}
