/** What becomes of each contribution in a call, and when the call fails open. */
module PruningOutcomes {
  import opened Prelude
  import opened PruningTypes
  import opened Sorting
  import opened PruningGroups
  import opened PruningProtection
  import opened PruningSelection
  import opened PruningRescue
  import opened PruningGuarantees
  import opened Pruning
  import opened PruningRules

  // ---- the soft route ----

  lemma SoftSelection(p: Prepared, context: Context, selected: Option<seq<Group>>)
    requires IsSelection(p, Groups(p, context), selected) && selected.Some? && p.route == Soft
    ensures forall g :: g in selected.value ==> g in Candidates(Groups(p, context), Soft, p.config, false)
  {
    SelectionMeets(p, context, selected);
    if |selected.value| != 1 || selected.value[0] !in Candidates(Groups(p, context), Soft, p.config, false) {
      InSubset(selected.value, Candidates(Groups(p, context), Soft, p.config, false));
    }
  }

  /** Below the threshold, all that an accepted call prunes are candidates of the soft route outside the cache TTL. */
  lemma SoftGroups(p: Prepared, context: Context, a: Application)
    requires IsAccepted(p, context, a) && p.route == Soft
    ensures forall g :: g in a.prunedGroups ==> g in Candidates(Groups(p, context), Soft, p.config, false)
  {
    var selected :| IsSelection(p, Groups(p, context), selected) && Some(a) == Decide(p, context, selected);
    DecidedGroups(p, context, selected, a);
    SoftSelection(p, context, selected);
  }

  /** Grouped with something that the policy does not let the soft route touch, or that the cache TTL protects. */
  ghost predicate KeptBelowThreshold(cs: seq<Contribution>, config: PruningConfig, now: Option<int>, i: nat)
    requires i < |cs|
  {
    exists c :: c in cs && Grouped(cs[i], c)
                && ((MayBePruned(c, config) && c.prunePolicy != "soft_trim") || IsFresh(c, config, now))
  }

  lemma NotSoftCandidate(cs: seq<Contribution>, config: PruningConfig, now: Option<int>, i: nat, g: Group)
    requires Numbered(cs) && i < |cs| && KeptBelowThreshold(cs, config, now, i)
    requires g in Candidates(GroupsFor(cs, config, now), Soft, config, false)
    ensures cs[i] !in g.contributions
  {
    CandidatesExactly(cs, config, now, Soft, false, g);
    var l: nat :| l < |cs| && Leads(cs, l) && g == GroupAt(cs, l, config, now);
    EligibleExactly(cs, config, now, l, Soft, false);
    MembersAre(cs, l);
    var c :| c in cs && Grouped(cs[i], c) && ((MayBePruned(c, config) && c.prunePolicy != "soft_trim") || IsFresh(c, config, now));
    GroupedTogether(cs[l], cs[i], c);
  }

  lemma GroupedTogether(a: Contribution, b: Contribution, c: Contribution)
    ensures Grouped(a, b) && Grouped(b, c) ==> Grouped(a, c)
  {
  }

  lemma KeptIdsNotPruned(cs: seq<Contribution>, config: PruningConfig, now: Option<int>, groups: seq<Group>, kept: string -> bool)
    requires Numbered(cs) && SafeSelection(cs, config, groups)
    requires forall g :: g in groups ==> g in Candidates(GroupsFor(cs, config, now), Soft, config, false)
    requires forall i: nat :: i < |cs| && kept(cs[i].id) ==> KeptBelowThreshold(cs, config, now, i)
    ensures forall id :: kept(id) ==> id !in PrunedById(groups)
  {
    forall id | id in PrunedById(groups)
      ensures !kept(id)
    {
      PrunedByIdIs(groups, id);
      var g :| g in groups && PrunedById(groups)[id] in g.contributions;
      MemberNotKept(cs, config, now, g, PrunedById(groups)[id], kept);
    }
  }

  lemma MemberNotKept(cs: seq<Contribution>, config: PruningConfig, now: Option<int>, g: Group, m: Contribution, kept: string -> bool)
    requires Numbered(cs) && IsSafeGroup(cs, config, g) && m in g.contributions
    requires g in Candidates(GroupsFor(cs, config, now), Soft, config, false)
    requires forall i: nat :: i < |cs| && kept(cs[i].id) ==> KeptBelowThreshold(cs, config, now, i)
    ensures !kept(m.id)
  {
    MemberOfSafeGroup(cs, config, g, m);
    var i: nat :| i < |cs| && cs[i] == m;
    if kept(m.id) {
      NotSoftCandidate(cs, config, now, i, g);
    }
  }

  /** End to end, below the threshold: contributions of an eligible class whose policy is not to be trimmed softly, those that
      the cache TTL protects, and everything grouped with either come out verbatim and in order; an id that something else
      shares is left out of this. */
  lemma SoftRouteIsGentle(raws: seq<Raw>, currentPressure: Option<int>, thresholdTokens: Option<int>, context: Context,
                          config: Option<PruningConfig>, p: Prepared, a: Application, kept: string -> bool)
    requires PreparePrune(raws, currentPressure, thresholdTokens, context, config) == Some(p)
    requires p.pressure < p.threshold && IsAccepted(p, context, a)
    requires forall i: nat :: i < |p.cs| && kept(p.cs[i].id) ==>
               KeptBelowThreshold(p.cs, p.config, ResolveNow(p.cs, context), i)
    ensures Filter(Originals(a.applied.retained), (raw: Raw) => raw.id.Some? && kept(raw.id.value))
         == Filter(raws, (raw: Raw) => raw.id.Some? && kept(raw.id.value))
  {
    RouteIsByPressure(raws, currentPressure, thresholdTokens, context, config, p);
    AcceptedIsSafe(p, context, a);
    SoftGroups(p, context, a);
    KeptIdsNotPruned(p.cs, p.config, ResolveNow(p.cs, context), a.prunedGroups, kept);
    UnprunedSurvive(raws, p, context, a, kept);
  }

  // ---- rescuing ----

  /** What is put is the content itself; the excerpt that replaces it starts with the fixed text, is made with the handle that the
      store gave, and is charged a quarter of its length but at least one token.  An excerpt is left as it is. */
  lemma RescueExactly(c: Contribution, env: RescueEnv)
    ensures var content, r := c.original.content, RescueContribution(c, env);
            if "[tokenjuice-hermes: tool result rescued." <= content then r == Some(c)
            else if env.put(content) == None then r == None
            else
              var excerpt := "[tokenjuice-hermes: tool result rescued." + env.excerptRest(content, env.put(content).value);
              && r.Some? && r.value.original.content == excerpt && r.value.charCount == |excerpt|
              && 4 * r.value.tokenEstimate <= |excerpt| < 4 * (r.value.tokenEstimate + 1)
              && r.value == c.(tokenEstimate := r.value.tokenEstimate, charCount := |excerpt|,
                               original := c.original.(content := excerpt))
  {
    assert |"[tokenjuice-hermes: tool result rescued."| == 40;
  }

  // ---- fates ----

  ghost predicate IsSelected(groups: seq<Group>, c: Contribution) {
    exists g :: g in groups && c in g.contributions
  }

  lemma PrunedIds(cs: seq<Contribution>, config: PruningConfig, groups: seq<Group>, id: string)
    requires Numbered(cs) && UniqueIds(cs) && SafeSelection(cs, config, groups) && id in PrunedById(groups)
    ensures PrunedById(groups)[id].id == id && PrunedById(groups)[id] in cs && IsSelected(groups, PrunedById(groups)[id])
  {
    PrunedByIdIs(groups, id);
    var g :| g in groups && PrunedById(groups)[id] in g.contributions;
    MemberOfSafeGroup(cs, config, g, PrunedById(groups)[id]);
  }

  /** Rescued are exactly the diagnostics, each by its own excerpt; the rescue fails as a whole when one of them fails. */
  lemma ReplacementsAre(pruned: ById, env: RescueEnv)
    ensures var r := Replacements(pruned, env);
            && (r.None? <==> exists id :: id in pruned && CannotRescue(pruned[id], env))
            && (r.Some? ==> forall id :: id in pruned ==>
                  && (id in r.value <==> pruned[id].class_ == "diagnostic")
                  && (id in r.value ==> RescueContribution(pruned[id], env) == Some(r.value[id])
                                        && r.value[id].atomicGroupId == pruned[id].atomicGroupId))
            && (r.Some? ==> forall id :: id in r.value ==> id in pruned)
  {
    var ids := RescueIds(pruned);
    assert forall id :: id in ids <==> id in pruned && pruned[id].class_ == "diagnostic";
    if id :| id in pruned && CannotRescue(pruned[id], env) {
      assert id in ids;
    }
    if ids != {} && (env.sessionId == "" || !env.fetchAvailable) {
      var id :| id in ids;
      assert CannotRescue(pruned[id], env);
    }
  }

  /** A diagnostic, and no session, no fetch tool or no handle for it. */
  ghost predicate CannotRescue(c: Contribution, env: RescueEnv) {
    c.class_ == "diagnostic" && (env.sessionId == "" || !env.fetchAvailable || RescueContribution(c, env) == None)
  }

  lemma RescuedGroupHasDiagnostic(cs: seq<Contribution>, config: PruningConfig, groups: seq<Group>, replacements: ById, i: nat)
    returns (c: Contribution)
    requires Numbered(cs) && UniqueIds(cs) && SafeSelection(cs, config, groups) && i < |cs| && cs[i].atomicGroupId.Some?
    requires forall id :: id in replacements ==>
               id in PrunedById(groups) && PrunedById(groups)[id].class_ == "diagnostic"
               && replacements[id].atomicGroupId == PrunedById(groups)[id].atomicGroupId
    requires cs[i].atomicGroupId.value in RescuedGroupIds(replacements)
    ensures c in cs && Grouped(cs[i], c) && c.class_ == "diagnostic"
  {
    var id :| id in replacements && replacements[id].atomicGroupId == cs[i].atomicGroupId;
    PrunedIds(cs, config, groups, id);
    c := PrunedById(groups)[id];
  }

  lemma DiagnosticIsSelected(cs: seq<Contribution>, config: PruningConfig, groups: seq<Group>, i: nat, c: Contribution)
    requires Numbered(cs) && UniqueIds(cs) && SafeSelection(cs, config, groups) && i < |cs| && IsSelected(groups, cs[i])
    requires c in cs && Grouped(cs[i], c)
    ensures c.id in PrunedById(groups) && PrunedById(groups)[c.id] == c
  {
    var j: nat :| j < |cs| && cs[j] == c;
    PrunedMeansSelected(cs, config, groups, i);
    SelectedTogether(cs, config, groups, i, j);
  }

  /** With unique ids: what is not selected stays; a selected diagnostic is replaced by its own excerpt; anything else that
      is selected stays when its group holds a diagnostic, and is dropped when it does not. */
  lemma FateExactly(cs: seq<Contribution>, config: PruningConfig, groups: seq<Group>, env: RescueEnv, i: nat)
    requires Numbered(cs) && UniqueIds(cs) && SafeSelection(cs, config, groups) && Replacements(PrunedById(groups), env).Some?
    requires i < |cs|
    ensures var fate := FateOf(cs[i], PrunedById(groups), Replacements(PrunedById(groups), env).value);
            if !IsSelected(groups, cs[i]) then fate == Keep
            else if cs[i].class_ == "diagnostic" then
              RescueContribution(cs[i], env).Some? && fate == Replace(RescueContribution(cs[i], env).value)
            else if exists c :: c in cs && Grouped(cs[i], c) && c.class_ == "diagnostic" then fate == Keep
            else fate == Drop
  {
    var pruned := PrunedById(groups);
    var replacements := Replacements(pruned, env).value;
    PrunedMeansSelected(cs, config, groups, i);
    ReplacementsAre(pruned, env);
    if c :| c in cs && Grouped(cs[i], c) && c.class_ == "diagnostic" && IsSelected(groups, cs[i]) {
      DiagnosticIsSelected(cs, config, groups, i, c);
      assert cs[i].atomicGroupId.Some? ==> replacements[c.id].atomicGroupId == cs[i].atomicGroupId;
    }
    if IsSelected(groups, cs[i]) && cs[i].atomicGroupId.Some? && cs[i].atomicGroupId.value in RescuedGroupIds(replacements) {
      var c := RescuedGroupHasDiagnostic(cs, config, groups, replacements, i);
    }
  }

  /** An application fails exactly when some selected diagnostic cannot be rescued: there is no session, no fetch tool, or
      the store gives no handle. */
  lemma ApplicationFailsIff(cs: seq<Contribution>, config: PruningConfig, groups: seq<Group>, env: RescueEnv)
    requires Numbered(cs) && UniqueIds(cs) && SafeSelection(cs, config, groups)
    ensures ApplyGroups(cs, groups, env).None? <==> exists c :: c in cs && IsSelected(groups, c) && CannotRescue(c, env)
  {
    var pruned := PrunedById(groups);
    ReplacementsAre(pruned, env);
    if id :| id in pruned && CannotRescue(pruned[id], env) {
      PrunedIds(cs, config, groups, id);
    }
    if c :| c in cs && IsSelected(groups, c) && CannotRescue(c, env) {
      var i: nat :| i < |cs| && cs[i] == c;
      PrunedMeansSelected(cs, config, groups, i);
    }
  }

  /** The counters: what was pruned is gone or replaced, and what was rescued is still there. */
  lemma {:induction false} CountsBalance(cs: seq<Contribution>, pruned: ById, replacements: ById)
    ensures |Retained(cs, pruned, replacements)|
         == |cs| - PrunedCount(cs, pruned, replacements) + RescuedCount(cs, pruned, replacements)
    ensures RescuedCount(cs, pruned, replacements) <= PrunedCount(cs, pruned, replacements)
    ensures RescuedCount(cs, pruned, replacements) == 0 <==> forall c :: c in cs ==> !FateOf(c, pruned, replacements).Replace?
  {
    if cs != [] {
      CountsBalance(cs[1..], pruned, replacements);
      assert forall c :: c in cs <==> c == cs[0] || c in cs[1..];
    }
  }

  // ---- the decision ----

  /** The contributions of these groups, one group after the other. */
  function AllMembers(groups: seq<Group>): seq<Contribution> {
    if groups == [] then [] else groups[0].contributions + AllMembers(groups[1..])
  }

  lemma {:induction false} AttemptedAreMembers(groups: seq<Group>)
    ensures AttemptedCount(groups) == |AllMembers(groups)|
  {
    if groups != [] {
      AttemptedAreMembers(groups[1..]);
    }
  }

  ghost predicate SomeStartsAt(groups: seq<Group>, i: int) {
    exists g :: g in groups && g.index == i
  }

  /** Some group of one list starts where none of the other does. */
  ghost predicate StartElsewhere(xs: seq<Group>, ys: seq<Group>) {
    exists i :: SomeStartsAt(xs, i) != SomeStartsAt(ys, i)
  }

  lemma StartsAre(groups: seq<Group>, i: int)
    ensures i in IndexSet(groups) <==> SomeStartsAt(groups, i)
  {
  }

  lemma SameStarts(xs: seq<Group>, ys: seq<Group>)
    ensures IndexSet(xs) == IndexSet(ys) <==> !StartElsewhere(xs, ys)
  {
    forall i
      ensures i in IndexSet(xs) <==> SomeStartsAt(xs, i)
      ensures i in IndexSet(ys) <==> SomeStartsAt(ys, i)
    {
      StartsAre(xs, i);
      StartsAre(ys, i);
    }
  }

  /** The call succeeds when applying the selection covers the excess over the threshold, or when applying every candidate of
      the route does and that is a different set of groups; the first of the two that covers it is the result, and in all
      other cases the call fails open. */
  lemma DecisionExactly(p: Prepared, context: Context, selected: seq<Group>)
    ensures var excess := if p.pressure > p.threshold then p.pressure - p.threshold else 0;
            var all := Candidates(Groups(p, context), p.route, p.config, p.route == Hard);
            var first, again := ApplyGroups(p.cs, selected, context.rescue), ApplyGroups(p.cs, all, context.rescue);
            var outcome := Decide(p, context, Some(selected));
            if first.None? then outcome == None
            else if first.value.savedTokens >= excess then
              outcome.Some? && outcome.value.prunedGroups == selected && outcome.value.applied == first.value
              && outcome.value.attemptedCount == |AllMembers(selected)|
            else if StartElsewhere(all, selected) && again.Some? && again.value.savedTokens >= excess then
              outcome.Some? && outcome.value.prunedGroups == all && outcome.value.applied == again.value
              && outcome.value.attemptedCount == |AllMembers(all)|
            else outcome == None
    ensures Decide(p, context, None) == None
  {
    var all := Candidates(Groups(p, context), p.route, p.config, p.route == Hard);
    SameStarts(all, selected);
    AttemptedAreMembers(selected);
    AttemptedAreMembers(all);
  }

  // ---- the selection ----

  /** What a call asks for: the distance to the target, or to the threshold when the target is already met; nothing is
      selected when that is nothing.  The answer saves that much whenever the route's candidates can; otherwise, above the
      threshold, it brings the pressure there or there is none, and below it one last group is tried. */
  lemma SelectionMeets(p: Prepared, context: Context, selected: Option<seq<Group>>)
    requires IsSelection(p, Groups(p, context), selected)
    ensures var groups := Groups(p, context);
            var core, all := Candidates(groups, p.route, p.config, false), Candidates(groups, p.route, p.config, p.route == Hard);
            var excess := if p.pressure > p.threshold then p.pressure - p.threshold else 0;
            var asked := if p.pressure > p.target then p.pressure - p.target else excess;
            if asked == 0 then selected == Some([])
            else if TotalSavings(all) >= asked then
              selected.Some? && TotalSavings(selected.value) >= asked
              && Subset(selected.value, if TotalSavings(core) >= asked then core else all)
            else if excess > 0 then
              && (selected.Some? <==> TotalSavings(all) >= excess)
              && (selected.Some? ==> TotalSavings(selected.value) >= excess && Subset(selected.value, all))
            else
              && (selected.Some? <==> core != [])
              && (selected.Some? ==> |selected.value| == 1 && selected.value[0] in core
                                     && forall g :: g in core ==> g.index <= selected.value[0].index)
  {
    CoreIsSubset(Groups(p, context), p.route, p.config);
  }

  /** What the best answer is, against any other choice that meets the target: that one begins no later; if it begins no
      earlier it has at least as many groups; and if it has as many it saves no more. */
  lemma BestMeans(r: seq<Group>, candidates: seq<Group>, target: int, other: seq<Group>)
    requires target > 0 && Best(r, candidates, target)
    requires multiset(other) <= multiset(candidates) && TotalSavings(other) >= target
    ensures TotalSavings(r) >= target && multiset(r) <= multiset(candidates)
    ensures exists h :: h in other && forall g :: g in r ==> h.index <= g.index
    ensures (forall h :: h in other ==> exists g :: g in r && g.index <= h.index) ==>
              |r| <= |other| && (|r| == |other| ==> TotalSavings(other) <= TotalSavings(r))
  {
    assert Subset(other, candidates);
    MinIndexBounds(r);
    MinIndexBounds(other);
    var h :| h in other && h.index == MinIndex(other);
    assert MinIndex(other) <= MinIndex(r);
  }

  function CreatedAt(g: Group): nat {
    match g.oldestCreatedAt
    case None => 0
    case Some(at) => at
  }

  /** Between the groups of the best answer and the candidates passed over from its earliest group on: none of these saves
      more, and none that saves as much is older; an unknown age counts as the oldest. */
  lemma TiesGoToOldest(r: seq<Group>, candidates: seq<Group>, target: int, g: Group, h: Group)
    requires target > 0 && Best(r, candidates, target) && g in r && h in candidates && h !in r
    requires exists e :: e in r && e.index <= h.index
    ensures h.savings <= g.savings && (h.savings == g.savings ==> CreatedAt(g) <= CreatedAt(h))
  {
    var sorted := SortedFromEarliest(r, candidates);
    MinIndexBounds(r);
    FilterMembers(candidates, (group: Group) => group.index >= MinIndex(r), h);
    var i :| 0 <= i < |r| && r[i] == g;
    var j :| 0 <= j < |sorted| && sorted[j] == h;
    BeyondPrefix(r, sorted, j);
    assert SavesMore(sorted[i], sorted[j]);
  }

  lemma BeyondPrefix(r: seq<Group>, sorted: seq<Group>, j: nat)
    requires r <= sorted && j < |sorted| && sorted[j] !in r
    ensures j >= |r|
  {
  }

  lemma SortedFromEarliest(r: seq<Group>, candidates: seq<Group>) returns (sorted: seq<Group>)
    requires r != [] && Greedy(r, candidates)
    ensures r <= sorted && forall h :: h in From(candidates, MinIndex(r)) ==> h in sorted
    ensures forall i, j :: 0 <= i < j < |sorted| ==> SavesMore(sorted[i], sorted[j])
  {
    var available := From(candidates, MinIndex(r));
    sorted := Sort(available, SavesMore);
    SortOrders(available, SavesMore);
    forall h | h in available
      ensures h in sorted
    {
      assert h in multiset(available) && h in multiset(sorted);
    }
  }
}
