/** What applying a selection keeps: shielded contributions, whole groups and the token balance. */
module PruningGuarantees {
  import opened Prelude
  import opened PruningTypes
  import opened PruningGroups
  import opened PruningProtection
  import opened PruningRescue

  ghost predicate UniqueIds(cs: seq<Contribution>) {
    forall i, j :: 0 <= i < j < |cs| ==> cs[i].id != cs[j].id
  }

  ghost predicate HasId(cs: seq<Contribution>, id: string) {
    exists c :: c in cs && c.id == id
  }

  /** Every selected group holds exactly the contributions grouped with its leader, and those are not shielded. */
  ghost predicate SafeSelection(cs: seq<Contribution>, config: PruningConfig, groups: seq<Group>) {
    forall g :: g in groups ==> IsSafeGroup(cs, config, g)
  }

  ghost predicate IsSafeGroup(cs: seq<Contribution>, config: PruningConfig, g: Group) {
    exists l: nat :: l < |cs| && Leads(cs, l) && g.contributions == Members(cs, l) && !Shielded(cs, config, l)
  }

  /** The contributions that must survive: those shielded, by id. */
  ghost predicate IsShieldedId(cs: seq<Contribution>, config: PruningConfig, id: string) {
    exists i :: 0 <= i < |cs| && cs[i].id == id && Shielded(cs, config, i)
  }

  // ---- the dictionary of selected contributions ----

  lemma {:induction false} AddMembersIs(byId: ById, cs: seq<Contribution>, id: string)
    ensures var r := AddMembers(byId, cs);
            && (id in r <==> id in byId || HasId(cs, id))
            && (id in r ==> (r[id].id == id && r[id] in cs) || (id in byId && r[id] == byId[id]))
    decreases |cs|
  {
    if cs != [] {
      AddMembersIs(byId[cs[0].id := cs[0]], cs[1..], id);
      assert HasId(cs, id) <==> cs[0].id == id || HasId(cs[1..], id) by {
        assert forall c :: c in cs <==> c == cs[0] || c in cs[1..];
      }
    }
  }

  lemma {:induction false} PrunedByIdIs(groups: seq<Group>, id: string)
    ensures id in PrunedById(groups) <==> exists g :: g in groups && HasId(g.contributions, id)
    ensures id in PrunedById(groups) ==>
              PrunedById(groups)[id].id == id && exists g :: g in groups && PrunedById(groups)[id] in g.contributions
  {
    if groups != [] {
      var last, rest := groups[|groups| - 1], groups[..|groups| - 1];
      PrunedByIdIs(rest, id);
      AddMembersIs(PrunedById(rest), last.contributions, id);
      assert forall g :: g in groups <==> g in rest || g == last;
    }
  }

  /** With unique ids, a contribution is in the dictionary exactly when its own group was selected. */
  lemma PrunedMeansSelected(cs: seq<Contribution>, config: PruningConfig, groups: seq<Group>, i: nat)
    requires Numbered(cs) && UniqueIds(cs) && SafeSelection(cs, config, groups) && i < |cs|
    ensures cs[i].id in PrunedById(groups) <==> exists g :: g in groups && cs[i] in g.contributions
    ensures cs[i].id in PrunedById(groups) ==> PrunedById(groups)[cs[i].id] == cs[i]
  {
    var id, pruned := cs[i].id, PrunedById(groups);
    PrunedByIdIs(groups, id);
    if id in pruned {
      var g :| g in groups && pruned[id] in g.contributions;
      OnlyItself(cs, config, g, pruned[id], i);
    }
    if g :| g in groups && cs[i] in g.contributions {
      assert HasId(g.contributions, id);
    }
  }

  lemma OnlyItself(cs: seq<Contribution>, config: PruningConfig, g: Group, c: Contribution, i: nat)
    requires Numbered(cs) && UniqueIds(cs) && IsSafeGroup(cs, config, g) && c in g.contributions
    requires i < |cs| && c.id == cs[i].id
    ensures c == cs[i]
  {
    MemberOfSafeGroup(cs, config, g, c);
    UniqueIndex(cs, c, i);
  }

  lemma MemberOfSafeGroup(cs: seq<Contribution>, config: PruningConfig, g: Group, c: Contribution)
    requires Numbered(cs) && IsSafeGroup(cs, config, g) && c in g.contributions
    ensures c in cs
    ensures forall x :: x in cs && SameGroup(c, x) ==> x in g.contributions
    ensures forall i: nat :: i < |cs| && cs[i] == c ==> !Shielded(cs, config, i)
  {
    var l: nat :| l < |cs| && Leads(cs, l) && g.contributions == Members(cs, l) && !Shielded(cs, config, l);
    MembersAre(cs, l);
    forall i: nat | i < |cs| && cs[i] == c
      ensures !Shielded(cs, config, i)
    {
      ShieldedTogether(cs, config, l, i);
    }
  }

  lemma ShieldedTogether(cs: seq<Contribution>, config: PruningConfig, l: nat, i: nat)
    requires Numbered(cs) && l < |cs| && Leads(cs, l) && i < |cs| && cs[i] in Members(cs, l)
    ensures Shielded(cs, config, i) <==> Shielded(cs, config, l)
  {
    MembersAre(cs, l);
    FlagsMeanShielded(cs, l, l, config, None);
    FlagsMeanShielded(cs, l, i, config, None);
  }

  // ---- shielded contributions stay ----

  /** The contributions whose ids satisfy `p` come out untouched when their fate is to be kept. */
  lemma {:induction false} KeptVerbatim(cs: seq<Contribution>, pruned: ById, replacements: ById, p: string -> bool)
    requires forall c :: c in cs && p(c.id) ==> FateOf(c, pruned, replacements).Keep?
    requires forall id :: id in replacements ==> replacements[id].id == id
    ensures Filter(Retained(cs, pruned, replacements), (c: Contribution) => p(c.id)) == Filter(cs, (c: Contribution) => p(c.id))
  {
    if cs != [] {
      var hasP := (c: Contribution) => p(c.id);
      var remains := Remains(cs[0], FateOf(cs[0], pruned, replacements));
      assert cs[0] in cs && forall c :: c in cs[1..] ==> c in cs;
      KeptVerbatim(cs[1..], pruned, replacements, p);
      FilterConcat(remains, Retained(cs[1..], pruned, replacements), hasP);
      assert remains != [] ==> remains[1..] == [];
      assert Filter(remains, hasP) == if p(cs[0].id) then [cs[0]] else [];
    }
  }

  lemma ReplacementsKeepIds(pruned: ById, env: RescueEnv)
    requires forall id :: id in pruned ==> pruned[id].id == id
    ensures var r := Replacements(pruned, env);
            r.Some? ==> (forall id :: id in r.value <==> id in RescueIds(pruned))
                        && forall id :: id in r.value ==>
                             r.value[id].id == id && r.value[id].atomicGroupId == pruned[id].atomicGroupId
  {
  }

  /** No shielded contribution shares its id with a member of one of the groups. */
  ghost predicate IdsApart(cs: seq<Contribution>, config: PruningConfig, groups: seq<Group>) {
    forall i, g, c :: 0 <= i < |cs| && Shielded(cs, config, i) && g in groups && c in g.contributions ==> c.id != cs[i].id
  }

  lemma UniqueIdsApart(cs: seq<Contribution>, config: PruningConfig, groups: seq<Group>)
    requires Numbered(cs) && UniqueIds(cs) && SafeSelection(cs, config, groups)
    ensures IdsApart(cs, config, groups)
  {
    forall i, g, c | 0 <= i < |cs| && Shielded(cs, config, i) && g in groups && c in g.contributions
      ensures c.id != cs[i].id
    {
      MemberOfSafeGroup(cs, config, g, c);
      var j: nat :| j < |cs| && cs[j] == c;
    }
  }

  /** A shielded id is never in the dictionary of selected contributions. */
  lemma ShieldedNotPruned(cs: seq<Contribution>, config: PruningConfig, groups: seq<Group>, id: string)
    requires IdsApart(cs, config, groups) && IsShieldedId(cs, config, id)
    ensures id !in PrunedById(groups)
  {
    PrunedByIdIs(groups, id);
  }

  /** Contributions whose ids are not in the dictionary appear in the result verbatim, in order and as often as before. */
  lemma UnprunedVerbatim(cs: seq<Contribution>, groups: seq<Group>, env: RescueEnv, p: string -> bool)
    requires ApplyGroups(cs, groups, env).Some? && forall c :: c in cs && p(c.id) ==> c.id !in PrunedById(groups)
    ensures Filter(ApplyGroups(cs, groups, env).value.retained, (c: Contribution) => p(c.id))
         == Filter(cs, (c: Contribution) => p(c.id))
  {
    var pruned := PrunedById(groups);
    forall id | id in pruned
      ensures pruned[id].id == id
    {
      PrunedByIdIs(groups, id);
    }
    ReplacementsKeepIds(pruned, env);
    KeptVerbatim(cs, pruned, Replacements(pruned, env).value, p);
  }

  /** Whatever is shielded appears in the result verbatim, in its original order and as often as before. */
  lemma ShieldedVerbatim(cs: seq<Contribution>, config: PruningConfig, groups: seq<Group>, env: RescueEnv, p: string -> bool)
    requires IdsApart(cs, config, groups) && ApplyGroups(cs, groups, env).Some?
    requires forall id :: p(id) ==> IsShieldedId(cs, config, id)
    ensures Filter(ApplyGroups(cs, groups, env).value.retained, (c: Contribution) => p(c.id))
         == Filter(cs, (c: Contribution) => p(c.id))
  {
    forall c | c in cs && p(c.id)
      ensures c.id !in PrunedById(groups)
    {
      ShieldedNotPruned(cs, config, groups, c.id);
    }
    UnprunedVerbatim(cs, groups, env, p);
  }

  /** A shielded contribution that shares its id with a member of an applied group is not kept. */
  lemma SharedIdNotKept(cs: seq<Contribution>, config: PruningConfig, groups: seq<Group>, env: RescueEnv,
                        i: nat, g: Group, c: Contribution)
    requires Numbered(cs) && SafeSelection(cs, config, groups) && Replacements(PrunedById(groups), env).Some?
    requires i < |cs| && Shielded(cs, config, i) && g in groups && c in g.contributions && c.id == cs[i].id
    ensures !FateOf(cs[i], PrunedById(groups), Replacements(PrunedById(groups), env).value).Keep?
  {
    var pruned := PrunedById(groups);
    PrunedByIdIs(groups, c.id);
    assert HasId(g.contributions, c.id);
    forall id | id in pruned
      ensures pruned[id].id == id && !SameGroup(pruned[id], cs[i])
    {
      PrunedByIdIs(groups, id);
      var g' :| g' in groups && pruned[id] in g'.contributions;
      assert IsSafeGroup(cs, config, g');
      OthersGroup(cs, config, g', pruned[id], i);
    }
    NeverKept(cs[i], pruned, env);
  }

  /** What is in the dictionary under its id, but grouped with nothing there, is replaced or dropped. */
  lemma NeverKept(c: Contribution, pruned: ById, env: RescueEnv)
    requires c.id in pruned && Replacements(pruned, env).Some?
    requires forall id :: id in pruned ==> pruned[id].id == id && !SameGroup(pruned[id], c)
    ensures !FateOf(c, pruned, Replacements(pruned, env).value).Keep?
  {
    ReplacementsKeepIds(pruned, env);
  }

  /** No member of a safe group is grouped with a shielded contribution. */
  lemma OthersGroup(cs: seq<Contribution>, config: PruningConfig, g: Group, c: Contribution, i: nat)
    requires Numbered(cs) && IsSafeGroup(cs, config, g) && c in g.contributions && i < |cs| && Shielded(cs, config, i)
    ensures !SameGroup(c, cs[i])
  {
    MemberOfSafeGroup(cs, config, g, c);
    if SameGroup(c, cs[i]) {
      MemberOfSafeGroup(cs, config, g, cs[i]);
    }
  }

  // ---- groups stay whole ----

  lemma {:induction false} RetainedIds(cs: seq<Contribution>, pruned: ById, replacements: ById, id: string)
    requires forall id :: id in replacements ==> replacements[id].id == id
    ensures HasId(Retained(cs, pruned, replacements), id)
       <==> exists c :: c in cs && c.id == id && !FateOf(c, pruned, replacements).Drop?
  {
    if cs != [] {
      RetainedIds(cs[1..], pruned, replacements, id);
      var remains, rest := Remains(cs[0], FateOf(cs[0], pruned, replacements)), Retained(cs[1..], pruned, replacements);
      assert forall c :: c in remains + rest <==> c in remains || c in rest;
      assert forall c :: c in cs <==> c == cs[0] || c in cs[1..];
      if FateOf(cs[0], pruned, replacements).Drop? {
        assert remains == [];
      } else {
        assert remains[0] in remains && remains[0].id == cs[0].id;
      }
    }
  }

  /** The members of one group share the fate of being dropped or not. */
  lemma GroupSharesFate(cs: seq<Contribution>, config: PruningConfig, groups: seq<Group>, env: RescueEnv,
                        i: nat, j: nat)
    requires Numbered(cs) && UniqueIds(cs) && SafeSelection(cs, config, groups)
    requires i < |cs| && j < |cs| && SameGroup(cs[i], cs[j]) && Replacements(PrunedById(groups), env).Some?
    ensures var pruned := PrunedById(groups);
            var replacements := Replacements(pruned, env).value;
            FateOf(cs[i], pruned, replacements).Drop? ==> FateOf(cs[j], pruned, replacements).Drop?
  {
    var pruned := PrunedById(groups);
    var replacements := Replacements(pruned, env).value;
    forall id | id in pruned
      ensures pruned[id].id == id
    {
      PrunedByIdIs(groups, id);
    }
    ReplacementsKeepIds(pruned, env);
    if FateOf(cs[i], pruned, replacements).Drop? {
      SelectedTogether(cs, config, groups, i, j);
      DroppedTogether(cs[i], cs[j], pruned, replacements);
    }
  }

  lemma SelectedTogether(cs: seq<Contribution>, config: PruningConfig, groups: seq<Group>, i: nat, j: nat)
    requires Numbered(cs) && UniqueIds(cs) && SafeSelection(cs, config, groups)
    requires i < |cs| && j < |cs| && SameGroup(cs[i], cs[j]) && cs[i].id in PrunedById(groups)
    ensures cs[j].id in PrunedById(groups) && PrunedById(groups)[cs[j].id] == cs[j]
  {
    PrunedMeansSelected(cs, config, groups, i);
    PrunedMeansSelected(cs, config, groups, j);
    var g :| g in groups && cs[i] in g.contributions;
    MemberOfSafeGroup(cs, config, g, cs[i]);
    assert cs[j] in g.contributions;
  }

  lemma DroppedTogether(a: Contribution, b: Contribution, pruned: ById, replacements: ById)
    requires SameGroup(a, b) && FateOf(a, pruned, replacements).Drop? && b.id in pruned && pruned[b.id] == b
    requires forall id :: id in replacements ==> id in pruned && replacements[id].atomicGroupId == pruned[id].atomicGroupId
    ensures FateOf(b, pruned, replacements).Drop?
  {
  }

  lemma UniqueIndex(cs: seq<Contribution>, c: Contribution, i: nat)
    requires UniqueIds(cs) && c in cs && i < |cs| && cs[i].id == c.id
    ensures c == cs[i]
  {
    var k :| 0 <= k < |cs| && cs[k] == c;
  }

  /** A group is kept as a whole, possibly with excerpts in place of some members, or dropped as a whole. */
  lemma GroupsStayWhole(cs: seq<Contribution>, config: PruningConfig, groups: seq<Group>, env: RescueEnv,
                        i: nat, j: nat)
    requires Numbered(cs) && UniqueIds(cs) && SafeSelection(cs, config, groups)
    requires ApplyGroups(cs, groups, env).Some? && i < |cs| && j < |cs| && SameGroup(cs[i], cs[j])
    ensures var retained := ApplyGroups(cs, groups, env).value.retained;
            HasId(retained, cs[i].id) <==> HasId(retained, cs[j].id)
  {
    var pruned := PrunedById(groups);
    var replacements := Replacements(pruned, env).value;
    forall id | id in pruned
      ensures pruned[id].id == id
    {
      PrunedByIdIs(groups, id);
    }
    ReplacementsKeepIds(pruned, env);
    RetainedIds(cs, pruned, replacements, cs[i].id);
    RetainedIds(cs, pruned, replacements, cs[j].id);
    GroupSharesFate(cs, config, groups, env, i, j);
    GroupSharesFate(cs, config, groups, env, j, i);
    forall c | c in cs
      ensures (c.id == cs[i].id ==> c == cs[i]) && (c.id == cs[j].id ==> c == cs[j])
    {
      if c.id == cs[i].id { UniqueIndex(cs, c, i); }
      if c.id == cs[j].id { UniqueIndex(cs, c, j); }
    }
    assert cs[i] in cs && cs[j] in cs;
  }

  // ---- the token balance ----

  /** Tokens that larger replacements add. */
  function Growth(cs: seq<Contribution>, pruned: ById, replacements: ById): nat {
    if cs == [] then 0
    else
      var fate := FateOf(cs[0], pruned, replacements);
      (if fate.Replace? then Max(0, fate.substitute.tokenEstimate - cs[0].tokenEstimate) else 0)
      + Growth(cs[1..], pruned, replacements)
  }

  lemma {:induction false} TotalConcat(a: seq<Contribution>, b: seq<Contribution>)
    ensures TotalTokens(a + b) == TotalTokens(a) + TotalTokens(b)
  {
    if a == [] {
      assert a + b == b;
    } else {
      assert (a + b)[1..] == a[1..] + b;
      TotalConcat(a[1..], b);
    }
  }

  /** Saved tokens are the real reduction plus the growth that was not charged. */
  lemma {:induction false} TokensBalance(cs: seq<Contribution>, pruned: ById, replacements: ById)
    ensures Saved(cs, pruned, replacements)
         == TotalTokens(cs) - TotalTokens(Retained(cs, pruned, replacements)) + Growth(cs, pruned, replacements)
  {
    if cs != [] {
      TokensBalance(cs[1..], pruned, replacements);
      var remains := Remains(cs[0], FateOf(cs[0], pruned, replacements));
      TotalConcat(remains, Retained(cs[1..], pruned, replacements));
      assert remains != [] ==> remains[1..] == [];
    }
  }

  /** The real reduction reaches a target exactly when the saved tokens exceed it by at least the growth. */
  lemma RealReduction(cs: seq<Contribution>, groups: seq<Group>, env: RescueEnv, target: int)
    requires ApplyGroups(cs, groups, env).Some?
    ensures var a := ApplyGroups(cs, groups, env).value;
            var growth := Growth(cs, PrunedById(groups), Replacements(PrunedById(groups), env).value);
            TotalTokens(cs) - TotalTokens(a.retained) >= target <==> a.savedTokens >= target + growth
  {
    TokensBalance(cs, PrunedById(groups), Replacements(PrunedById(groups), env).value);
  }

  // ---- growth ----

  /** What rescuing `m` would make of the contribution `c` with the same id is larger than `c`. */
  predicate Grows(m: Contribution, c: Contribution, env: RescueEnv) {
    && m.class_ in RESCUE_BACKED_CLASSES && c.id == m.id
    && RescueContribution(m, env).Some? && RescueContribution(m, env).value.tokenEstimate > c.tokenEstimate
  }

  /** Rescuing some member of these groups would enlarge a contribution. */
  ghost predicate CanGrow(cs: seq<Contribution>, groups: seq<Group>, env: RescueEnv) {
    && env.sessionId != "" && env.fetchAvailable
    && exists g, m, c :: g in groups && m in g.contributions && c in cs && Grows(m, c, env)
  }

  /** No growth of a list in which nothing that is replaced grows. */
  lemma {:induction false} NoGrowth(cs: seq<Contribution>, pruned: ById, replacements: ById)
    requires forall c :: c in cs && c.id in pruned && c.id in replacements ==>
               replacements[c.id].tokenEstimate <= c.tokenEstimate
    ensures Growth(cs, pruned, replacements) == 0
  {
    if cs != [] {
      assert cs[0] in cs && forall c :: c in cs[1..] ==> c in cs;
      NoGrowth(cs[1..], pruned, replacements);
    }
  }

  lemma {:induction false} SomeGrowth(cs: seq<Contribution>, pruned: ById, replacements: ById, c: Contribution)
    requires c in cs && c.id in pruned && c.id in replacements && replacements[c.id].tokenEstimate > c.tokenEstimate
    ensures Growth(cs, pruned, replacements) > 0
  {
    if cs[0] != c {
      assert forall x :: x in cs ==> x == cs[0] || x in cs[1..];
      SomeGrowth(cs[1..], pruned, replacements, c);
    }
  }

  /** Applying groups that cannot grow adds no tokens anywhere. */
  lemma AppliedWithoutGrowth(cs: seq<Contribution>, groups: seq<Group>, env: RescueEnv)
    requires !CanGrow(cs, groups, env) && Replacements(PrunedById(groups), env).Some?
    ensures Growth(cs, PrunedById(groups), Replacements(PrunedById(groups), env).value) == 0
  {
    var pruned := PrunedById(groups);
    var replacements := Replacements(pruned, env).value;
    forall c | c in cs && c.id in pruned && c.id in replacements
      ensures replacements[c.id].tokenEstimate <= c.tokenEstimate
    {
      PrunedByIdIs(groups, c.id);
      var m := pruned[c.id];
      var g :| g in groups && m in g.contributions;
      assert c.id in RescueIds(pruned);
      assert !Grows(m, c, env);
    }
    NoGrowth(cs, pruned, replacements);
  }

  /** Applying a group with a growing member adds tokens, when ids are unique. */
  lemma AppliedWithGrowth(cs: seq<Contribution>, config: PruningConfig, groups: seq<Group>, env: RescueEnv)
    requires Numbered(cs) && UniqueIds(cs) && SafeSelection(cs, config, groups)
    requires CanGrow(cs, groups, env) && Replacements(PrunedById(groups), env).Some?
    ensures Growth(cs, PrunedById(groups), Replacements(PrunedById(groups), env).value) > 0
  {
    var pruned := PrunedById(groups);
    var g, m, c :| g in groups && m in g.contributions && c in cs && Grows(m, c, env);
    GrowingMember(cs, config, groups, g, m, c);
    assert m.id in RescueIds(pruned);
    SomeGrowth(cs, pruned, Replacements(pruned, env).value, c);
  }

  lemma GrowingMember(cs: seq<Contribution>, config: PruningConfig, groups: seq<Group>, g: Group, m: Contribution, c: Contribution)
    requires Numbered(cs) && UniqueIds(cs) && SafeSelection(cs, config, groups)
    requires g in groups && m in g.contributions && c in cs && c.id == m.id
    ensures c == m && m.id in PrunedById(groups) && PrunedById(groups)[m.id] == m
  {
    MemberOfSafeGroup(cs, config, g, m);
    var i: nat :| i < |cs| && cs[i] == m;
    UniqueIndex(cs, c, i);
    PrunedMeansSelected(cs, config, groups, i);
  }
}
