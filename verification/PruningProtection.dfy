/** What pruning must never touch, said without groups or flags, and what the flags of a group mean. */
module PruningProtection {
  import opened Prelude
  import opened PruningTypes
  import opened PruningGroups

  /** The i-th contribution is a message that fewer than `count` messages follow. */
  predicate IsRecentMessage(cs: seq<Contribution>, i: nat, count: nat)
    requires i < |cs|
  {
    IsMessage(cs[i]) && |Filter(cs[i + 1..], IsMessage)| < count
  }

  /** Where the group of the i-th contribution starts. */
  function Leader(cs: seq<Contribution>, i: nat): nat
    requires i < |cs|
  {
    MinOriginal(Members(cs, i))
  }

  /** The i-th contribution belongs to a tool group that fewer than `count` tool groups start after. */
  predicate InRecentToolGroup(cs: seq<Contribution>, i: nat, count: nat)
    requires i < |cs|
  {
    HasTool(Members(cs, i)) && |Filter<int>(ToolLeaders(cs), y => y > Leader(cs, i))| < count
  }

  /** A protected class, one of the last messages or one of the last tool groups, or grouped with such a thing. */
  ghost predicate Shielded(cs: seq<Contribution>, config: PruningConfig, i: nat)
    requires i < |cs|
  {
    || InRecentToolGroup(cs, i, config.protectRecentToolInteractions)
    || exists j :: 0 <= j < |cs| && SameGroup(cs[i], cs[j])
                   && (IsProtectedClass(cs[j]) || IsRecentMessage(cs, j, config.protectRecentMessages))
  }

  // ---- recent messages ----

  lemma {:induction false} FilterPositions(cs: seq<Contribution>, j: int)
    ensures (forall c :: c in cs ==> c.originalIndex <= j) ==> Filter(Positions(cs), y => y > j) == []
    ensures (forall c :: c in cs ==> c.originalIndex > j) ==> Filter(Positions(cs), y => y > j) == Positions(cs)
  {
    if cs != [] {
      assert Positions(cs)[1..] == Positions(cs[1..]);
      assert cs[0] in cs && forall c :: c in cs[1..] ==> c in cs;
      FilterPositions(cs[1..], j);
    }
  }

  lemma LaterMessages(cs: seq<Contribution>, j: nat)
    requires Numbered(cs) && j < |cs|
    ensures |Filter(Positions(Filter(cs, IsMessage)), y => y > j)| == |Filter(cs[j + 1..], IsMessage)|
  {
    var head, tail := Filter(cs[..j + 1], IsMessage), Filter(cs[j + 1..], IsMessage);
    assert cs == cs[..j + 1] + cs[j + 1..];
    FilterConcat(cs[..j + 1], cs[j + 1..], IsMessage);
    assert Positions(head + tail) == Positions(head) + Positions(tail);
    FilterConcat(Positions(head), Positions(tail), y => y > j);
    forall c | c in head
      ensures c.originalIndex <= j
    {
      FilterMembers(cs[..j + 1], IsMessage, c);
    }
    forall c | c in tail
      ensures c.originalIndex > j
    {
      FilterMembers(cs[j + 1..], IsMessage, c);
    }
    FilterPositions(head, j);
    FilterPositions(tail, j);
  }

  lemma RecentMessagesAre(cs: seq<Contribution>, j: nat, count: nat)
    requires Numbered(cs) && j < |cs|
    ensures j in RecentMessageIndices(cs, count) <==> IsRecentMessage(cs, j, count)
  {
    var messages := Filter(cs, IsMessage);
    assert forall k :: 0 <= k < |cs| ==> Positions(cs)[k] == k;
    FilterKeepsOrder(cs, IsMessage);
    LastNMembers(Positions(messages), count, j);
    LaterMessages(cs, j);
    FilterMembers(cs, IsMessage, cs[j]);
    if j in Positions(messages) {
      var k :| 0 <= k < |messages| && messages[k].originalIndex == j;
      FilterMembers(cs, IsMessage, messages[k]);
    } else {
      assert forall k :: 0 <= k < |messages| ==> Positions(messages)[k] == messages[k].originalIndex;
    }
  }

  // ---- groups ----

  lemma SameMembers(cs: seq<Contribution>, i: nat, j: nat)
    requires Numbered(cs) && i < |cs| && j < |cs| && SameGroup(cs[i], cs[j])
    ensures Members(cs, i) == Members(cs, j)
  {
  }

  lemma ToolLeadersIncrease(cs: seq<Contribution>)
    ensures Increasing(ToolLeaders(cs))
    ensures forall i: nat :: i in ToolLeaders(cs) <==> i < |cs| && Leads(cs, i) && HasTool(Members(cs, i))
  {
    LeadersAreThose(cs, |cs|);
    var p := (i: nat) => i < |cs| && HasTool(Members(cs, i));
    FilterIncreasing(Leaders(cs), p);
    forall i: nat
      ensures i in ToolLeaders(cs) <==> i < |cs| && Leads(cs, i) && HasTool(Members(cs, i))
    {
      FilterMembers(Leaders(cs), p, i);
    }
  }

  lemma {:induction false} FilterIncreasing(xs: seq<nat>, p: nat -> bool)
    requires Increasing(xs)
    ensures Increasing(Filter(xs, p))
  {
    if xs != [] {
      FilterIncreasing(xs[1..], p);
      var rest := Filter(xs[1..], p);
      forall k | 0 <= k < |rest|
        ensures xs[0] < rest[k]
      {
        FilterMembers(xs[1..], p, rest[k]);
        assert rest[k] in rest;
      }
    }
  }

  /** The three flags of a group say together whether its members are shielded. */
  lemma FlagsMeanShielded(cs: seq<Contribution>, l: nat, i: nat, config: PruningConfig, now: Option<int>)
    requires Numbered(cs) && l < |cs| && Leads(cs, l) && i < |cs| && cs[i] in Members(cs, l)
    ensures var g := GroupAt(cs, l, config, now);
            Shielded(cs, config, i) <==> g.classProtected || g.recentMessageProtected || g.recentToolProtected
  {
    MembersAre(cs, l);
    SameMembers(cs, l, i);
    ToolFlag(cs, l, i, config.protectRecentToolInteractions);
    ClassAndMessageFlags(cs, l, i, config);
  }

  lemma ToolFlag(cs: seq<Contribution>, l: nat, i: nat, count: nat)
    requires Numbered(cs) && l < |cs| && Leads(cs, l) && i < |cs| && Members(cs, l) == Members(cs, i)
    ensures l in LastN(ToolLeaders(cs), count) <==> InRecentToolGroup(cs, i, count)
  {
    MembersAre(cs, l);
    ToolLeadersIncrease(cs);
    LastNMembers(ToolLeaders(cs), count, l);
  }

  lemma ClassAndMessageFlags(cs: seq<Contribution>, l: nat, i: nat, config: PruningConfig)
    requires Numbered(cs) && l < |cs| && i < |cs| && Members(cs, l) == Members(cs, i)
    ensures (exists j :: 0 <= j < |cs| && SameGroup(cs[i], cs[j])
                         && (IsProtectedClass(cs[j]) || IsRecentMessage(cs, j, config.protectRecentMessages)))
       <==> Any(Members(cs, l), IsProtectedClass)
            || HasOneOf(Members(cs, l), RecentMessageIndices(cs, config.protectRecentMessages))
  {
    var members, recent := Members(cs, i), RecentMessageIndices(cs, config.protectRecentMessages);
    var isRecent := (c: Contribution) => c.originalIndex in recent;
    MembersAre(cs, i);
    AnyMember(members, IsProtectedClass);
    AnyMember(members, isRecent);
    forall j: nat | j < |cs|
      ensures j in recent <==> IsRecentMessage(cs, j, config.protectRecentMessages)
    {
      RecentMessagesAre(cs, j, config.protectRecentMessages);
    }
    if c :| c in members && (IsProtectedClass(c) || isRecent(c)) {
      var j :| 0 <= j < |cs| && cs[j] == c;
      assert SameGroup(cs[i], cs[j]);
    }
    if j :| 0 <= j < |cs| && SameGroup(cs[i], cs[j])
            && (IsProtectedClass(cs[j]) || IsRecentMessage(cs, j, config.protectRecentMessages)) {
      assert cs[j] in members;
    }
  }
}
