/** Contributions, groups and configuration of structured pruning. */
module PruningTypes {
  import opened Prelude

  const SOFT_TRIM_POLICY := "soft_trim"
  const HARD_CLEAR_POLICY := "hard_clear_allowed"

  const PROTECTED_CLASSES: set<string> := {
    "identity", "system_instruction", "project_context", "memory_context", "skill_context",
    "developer_instruction", "user_message", "tool_schema", "exact_file_read", "unknown"
  }
  const RESCUE_BACKED_CLASSES: set<string> := {"diagnostic"}
  const STABLE_STABILITIES: set<string> := {"stable_prefix", "session_stable"}
  const PREFIX_CACHE_SCOPES: set<string> := {"prefix", "body"}

  /** An integer field as the host sends it. */
  datatype RawInt = Missing | NotAnInt | Value(i: int)

  /** A contribution as the host sends it; None stands for a value that is not a string. */
  datatype Raw = Raw(
    id: Option<string>, kind: Option<string>, provenance: Option<string>, class_: Option<string>,
    stability: Option<string>, contentHash: Option<string>, cacheScope: Option<string>, prunePolicy: Option<string>,
    tokenEstimate: RawInt, charCount: RawInt, createdAt: RawInt, atomicGroupId: Option<string>, content: string)

  /** A validated contribution with its position in the host's list. */
  datatype Contribution = Contribution(
    id: string, kind: string, provenance: string, class_: string, stability: string, contentHash: string,
    cacheScope: string, prunePolicy: string, tokenEstimate: nat, charCount: nat, createdAt: Option<nat>,
    atomicGroupId: Option<string>, originalIndex: nat, original: Raw)

  datatype Group = Group(
    index: int, savings: nat, contributions: seq<Contribution>,
    hasDisposable: bool, softAllowed: bool, hardAllowed: bool,
    classProtected: bool, ttlProtected: bool, recentMessageProtected: bool, recentToolProtected: bool,
    oldestCreatedAt: Option<nat>)

  datatype Route = Soft | Hard

  datatype PruningConfig = PruningConfig(
    enabled: bool, thresholdTokens: nat, triggerRatio: nat, softTargetRatio: nat, hardTargetRatio: nat,
    minSavedTokens: nat, cacheTtlSeconds: nat, protectRecentMessages: nat, protectRecentToolInteractions: nat,
    classes: set<string>)

  function TotalTokens(cs: seq<Contribution>): nat {
    if cs == [] then 0 else cs[0].tokenEstimate + TotalTokens(cs[1..])
  }

  function TotalSavings(groups: seq<Group>): nat {
    if groups == [] then 0 else groups[0].savings + TotalSavings(groups[1..])
  }
}
