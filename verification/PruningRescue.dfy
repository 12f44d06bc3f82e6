/** Applying a selection: dropping contributions, or replacing rescue-backed ones by fetchable excerpts. */
module PruningRescue {
  import opened Prelude
  import opened PruningTypes

  const RESCUED_PREFIX := "[tokenjuice-hermes: tool result rescued."

  /** The rescue side of one call: `put` stores a content and gives a handle, or None when the store fails or gives no
      handle; `excerptRest` is what follows the fixed prefix in the excerpt of a content. */
  datatype RescueEnv = RescueEnv(sessionId: string, fetchAvailable: bool, put: string -> Option<string>,
                                 excerptRest: (string, string) -> string)

  function EstimatedTokens(content: string): nat {
    Max(1, |content| / 4)
  }

  /** A content that already is an excerpt stays as it is. */
  function RescueContribution(c: Contribution, env: RescueEnv): Option<Contribution> {
    var content := c.original.content;
    if RESCUED_PREFIX <= content then Some(c)
    else match env.put(content)
      case None => None
      case Some(handle) =>
        var text := RESCUED_PREFIX + env.excerptRest(content, handle);
        Some(c.(tokenEstimate := EstimatedTokens(text), charCount := |text|, original := c.original.(content := text)))
  }

  /** Rescuing is idempotent: an excerpt is never rescued again. */
  lemma RescueTwice(c: Contribution, env: RescueEnv)
    requires RescueContribution(c, env).Some?
    ensures RescueContribution(RescueContribution(c, env).value, env) == RescueContribution(c, env)
  {
    var r := RescueContribution(c, env).value;
    assert RESCUED_PREFIX <= r.original.content;
  }

  type ById = map<string, Contribution>

  function AddMembers(byId: ById, cs: seq<Contribution>): ById
    decreases |cs|
  {
    if cs == [] then byId else AddMembers(byId[cs[0].id := cs[0]], cs[1..])
  }

  /** The dictionary of everything selected, keyed by id; of equal ids the last one stays. */
  function PrunedById(groups: seq<Group>): ById {
    if groups == [] then map[]
    else AddMembers(PrunedById(groups[..|groups| - 1]), groups[|groups| - 1].contributions)
  }

  function RescueIds(pruned: ById): set<string> {
    set id | id in pruned && pruned[id].class_ in RESCUE_BACKED_CLASSES
  }

  /** `_rescue_replacements`: None when a rescue is needed and any part of it is impossible. */
  function Replacements(pruned: ById, env: RescueEnv): Option<ById> {
    var ids := RescueIds(pruned);
    if ids == {} then Some(map[])
    else if env.sessionId == "" || !env.fetchAvailable then None
    else if exists id :: id in ids && RescueContribution(pruned[id], env).None? then None
    else Some(map id | id in ids :: RescueContribution(pruned[id], env).value)
  }

  // ---- what becomes of each contribution ----

  datatype Fate = Keep | Drop | Replace(substitute: Contribution)

  function RescuedGroupIds(replacements: ById): set<string> {
    set id | id in replacements && replacements[id].atomicGroupId.Some? :: replacements[id].atomicGroupId.value
  }

  function FateOf(c: Contribution, pruned: ById, replacements: ById): Fate {
    if c.id !in pruned then Keep
    else if c.id in replacements then Replace(replacements[c.id])
    else if c.atomicGroupId.Some? && c.atomicGroupId.value in RescuedGroupIds(replacements) then Keep
    else Drop
  }

  function Remains(c: Contribution, fate: Fate): seq<Contribution> {
    match fate
    case Keep => [c]
    case Drop => []
    case Replace(substitute) => [substitute]
  }

  function Retained(cs: seq<Contribution>, pruned: ById, replacements: ById): seq<Contribution> {
    if cs == [] then []
    else Remains(cs[0], FateOf(cs[0], pruned, replacements)) + Retained(cs[1..], pruned, replacements)
  }

  /** Tokens a fate is credited with: growth is not charged. */
  function Credit(c: Contribution, fate: Fate): nat {
    match fate
    case Keep => 0
    case Drop => c.tokenEstimate
    case Replace(substitute) => Max(0, c.tokenEstimate - substitute.tokenEstimate)
  }

  function Saved(cs: seq<Contribution>, pruned: ById, replacements: ById): nat {
    if cs == [] then 0
    else Credit(cs[0], FateOf(cs[0], pruned, replacements)) + Saved(cs[1..], pruned, replacements)
  }

  function PrunedCount(cs: seq<Contribution>, pruned: ById, replacements: ById): nat {
    |Filter(cs, (c: Contribution) => !FateOf(c, pruned, replacements).Keep?)|
  }

  function RescuedCount(cs: seq<Contribution>, pruned: ById, replacements: ById): nat {
    |Filter(cs, (c: Contribution) => FateOf(c, pruned, replacements).Replace?)|
  }

  datatype Applied = Applied(retained: seq<Contribution>, savedTokens: nat, prunedCount: nat, rescuedCount: nat)

  function ApplyWith(cs: seq<Contribution>, pruned: ById, replacements: ById): Applied {
    Applied(Retained(cs, pruned, replacements), Saved(cs, pruned, replacements),
            PrunedCount(cs, pruned, replacements), RescuedCount(cs, pruned, replacements))
  }

  function ApplyGroups(cs: seq<Contribution>, groups: seq<Group>, env: RescueEnv): Option<Applied> {
    var pruned := PrunedById(groups);
    match Replacements(pruned, env)
    case None => None
    case Some(replacements) => Some(ApplyWith(cs, pruned, replacements))
  }

  /** `apply_pruned_groups`. */
  method ApplyPrunedGroups(cs: seq<Contribution>, groups: seq<Group>, env: RescueEnv) returns (applied: Option<Applied>)
    ensures applied == ApplyGroups(cs, groups, env)
  {
    var pruned := PrunedById(groups);
    var maybe := Replacements(pruned, env);
    if maybe.None? {
      return None;
    }
    var result := ApplyReplacements(cs, pruned, maybe.value);
    applied := Some(result);
  }

  /** One more contribution adds what its fate says. */
  lemma ApplyOneMore(cs: seq<Contribution>, c: Contribution, pruned: ById, replacements: ById)
    ensures var before, fate := ApplyWith(cs, pruned, replacements), FateOf(c, pruned, replacements);
            ApplyWith(cs + [c], pruned, replacements)
            == Applied(before.retained + Remains(c, fate), before.savedTokens + Credit(c, fate),
                       before.prunedCount + (if fate.Keep? then 0 else 1), before.rescuedCount + if fate.Replace? then 1 else 0)
  {
    RetainedConcat(cs, [c], pruned, replacements);
    FilterConcat(cs, [c], (x: Contribution) => !FateOf(x, pruned, replacements).Keep?);
    FilterConcat(cs, [c], (x: Contribution) => FateOf(x, pruned, replacements).Replace?);
    assert [c][1..] == [];
  }

  lemma {:induction false} RetainedConcat(a: seq<Contribution>, b: seq<Contribution>, pruned: ById, replacements: ById)
    ensures Retained(a + b, pruned, replacements) == Retained(a, pruned, replacements) + Retained(b, pruned, replacements)
    ensures Saved(a + b, pruned, replacements) == Saved(a, pruned, replacements) + Saved(b, pruned, replacements)
  {
    if a == [] {
      assert a + b == b;
    } else {
      assert (a + b)[1..] == a[1..] + b;
      RetainedConcat(a[1..], b, pruned, replacements);
    }
  }

  /** Its loop. */
  method ApplyReplacements(cs: seq<Contribution>, pruned: ById, replacements: ById) returns (applied: Applied)
    ensures applied == ApplyWith(cs, pruned, replacements)
  {
    var rescuedGroups := RescuedGroupIds(replacements);
    var retained: seq<Contribution>, saved: nat, prunedCount: nat, rescuedCount: nat := [], 0, 0, 0;
    for i := 0 to |cs|
      invariant Applied(retained, saved, prunedCount, rescuedCount) == ApplyWith(cs[..i], pruned, replacements)
    {
      var c := cs[i];
      assert cs[..i + 1] == cs[..i] + [c];
      ApplyOneMore(cs[..i], c, pruned, replacements);
      if c.id !in pruned {
        retained := retained + [c];
        continue;
      }
      if c.id !in replacements {
        if c.atomicGroupId.Some? && c.atomicGroupId.value in rescuedGroups {
          retained := retained + [c];
          continue;
        }
        saved := saved + c.tokenEstimate;
        prunedCount := prunedCount + 1;
        continue;
      }
      var replacement := replacements[c.id];
      retained := retained + [replacement];
      saved := saved + Max(0, c.tokenEstimate - replacement.tokenEstimate);
      prunedCount := prunedCount + 1;
      rescuedCount := rescuedCount + 1;
    }
    assert cs[..|cs|] == cs;
    applied := Applied(retained, saved, prunedCount, rescuedCount);
  }
}
