# tokenjuice-hermes: a model and its proofs

This project models five parts of `tokenjuice_hermes` in Dafny and proves what they guarantee.  `dafny verify dfyconfig.toml`
checks all of it.

1. **The rescue ownership store** (`Rescue*.dfy`).  Rows in SQLite and files in a blob directory are two stores that no
   transaction covers together.  `RescueState` gives each write transaction as a plan: the rows that COMMIT publishes and the
   files left behind, whether or not the rows are rolled back.  `RescueStore` is the store object, statement by statement,
   with retries after "database is locked"; each method is proved to have the effect of its plan.  `RescueProtocol` is a
   state machine of single steps (one writer, its file operations one at a time, two-step fetches in between, rollback or
   crash anywhere before COMMIT, files changed from outside between transactions) with an inductive invariant over every run.
   `RescueSweep`, `RescueReconcile`, `RescueMigration` and `RescueBlobStore` add the theorems about each operation,
   `RescueReachable` those about reachable states, and `RescueReplies` what every full fetch replies.
2. **Structured pruning** (`Pruning*.dfy`).  Grouping, protection, the selection algorithm with its lexicographic optimum,
   replacement by rescue excerpts, and the whole decision.  What is protected is stated without groups or flags
   (`PruningProtection.Shielded`) and shown to come through every route verbatim.  `PruningCalls` quantifies over all calls
   that a host can make on given contributions.  `PruningRules` and `PruningOutcomes` say in plain words what the flags, the
   numbers, the routes, the fates and the decision come to.
3. **The JSON parser** (`Json*.dfy`).  The parser with its loops, the grammar of RFC 8259 (sections 2 to 7) as documents in
   which every choice of white space, escape and number form is explicit, and a printer.  Every document is read as its
   meaning, printing and parsing undo each other, and nothing else is accepted: the parser gives a value exactly to the texts
   of these documents (`JsonAccepts`).
4. **Passref expansion** (`Passref*.dfy`).  The rewriting of handles in argument trees under a mutable budget, its exact
   arithmetic, its gate (`PassrefRules` says what every request gets), non-interference between sessions, and the
   composition with the store protocol.
5. **The memo and the configuration reader** (`Memo*.dfy`, `Yaml*.dfy`).  A least-recently-used memo over nested
   mutable results that agrees with direct computation exactly when computing respects the fingerprint, and the indentation
   parser that rebuilds every tree of mappings, with its scalars, comments and line ends (`YamlRules`).

Code that changes things step by step is a class or a method with its loops, proved against a specification function; the
theorems are about those functions.

## What the code does not promise

The model keeps the code as it is.  Where a natural claim fails, a lemma gives an input for which it fails or the exact
condition under which it holds.

- The size cap of a sweep can be missed, because `blobs` rows outlive their files and the running total subtracts them
  (`RescueReachable.SweepCanMissCap`, a run that leads there for every cap).  It is met exactly when what was subtracted for
  absent files is at most the room below the cap plus the later files that age removes (`RescueSweep.SweepMeetsCapIff`).
- A sweep that is rolled back at COMMIT has already removed files; its retry finds the store small enough and can leave live
  rows without a file.  `RescueSweep.SweepRetryExact` says when, in terms of what the retry evicts;
  `RescueSweep.SweepRetryOfFullStore` is the form that can be checked beforehand, for a store with all its files: the retry
  repeats the clean run exactly when no live row is in the evicted prefix.  A put, in contrast, always ends as one clean run
  (`RescueStore.OwnershipStore.PutBlob`).
- The counters of a reconcile are not reset between attempts (`RescueReconcile.ReportIsExact`).
- Storing the same content again does not renew its age (`RescueSweep.PutRenewsOnlyNewRows`).
- A file that reconcile moves out overwrites an earlier orphan of the same name (`RescueReconcile.ReconcileLosesNoFile`).
- A legacy index that is the empty object `{}` is treated like a malformed one, so the migration marker is never written
  beside it (`RescueMigration.EmptyObjectBlocksMarker`); `RescueMigration.ReadableIff` says exactly which files block it.
- Protection by id needs ids that no candidate shares: with a rescue store that works, all calls keep what is shielded exactly
  when no shielded contribution shares its id with a member of a candidate group (`PruningCalls.ProtectionNeedsOwnIds`).
- Saved tokens do not charge the growth of excerpts, so an accepted result can be above the threshold
  (`PruningCalls.GrowthCanHideShortfall`, a whole call).  With unique ids and a rescue store that works, all calls stay within
  their thresholds exactly when no member of a candidate group would grow by being rescued (`PruningCalls.StaysWithinIff`).
  Both equivalences are for candidates that have something to save, as they all have under a positive minimum
  (`PruningCalls.PositiveMinimum`).
- The memo fingerprint leaves out fields such as `cache_scope` and `content` (`MemoGuarantees.UnfingerprintedFieldMakesStale`).
- An integer of more than 4300 digits makes Python's `int` raise, so a whole document is refused
  (`JsonGrammar.ValueReads`); a pair of surrogate escapes, the form that section 7 of RFC 8259 gives to characters above
  U+FFFF, is read as two characters (`JsonPrinter.EscapedIsOneUnit`); and the document `null` cannot be told from a failure
  (`Json.ParseText`).
- The parser accepts more than RFC 8259: leading zeros, a fraction without digits, raw control characters in strings, lone
  surrogates, and any character that is not white space in place of the quote that opens a key (the first key must not open
  with a closing brace).  These are part of the documents of `JsonGrammar`, and `JsonAccepts.ParsesIff` shows that there is
  nothing beyond them.
- Replacing handles by a text that is not in brackets can form a new handle (`PassrefGuarantees.PlainMarkerCanFormHandle`),
  and a denied tool whose name holds a handle gets that handle back (`PassrefGate.DeniedHandlesAreGone`).
- The counter of the expansion budget can exceed the limit by one truncation marker (`PassrefGuarantees.CounterCanExceedLimit`):
  it does exactly when the handles' full costs exceed the limit and no prefix of them spends it exactly
  (`PassrefGuarantees.CounterExceedsLimitIff`), and never when the referenced blobs fit (`PassrefGuarantees.FittingBlobsStayWithin`).

## Model

| member | source | states |
|---|---|---|
| `RescueStore.PutReplan` | tokenjuice_hermes/rescue_sqlite.py:57-106 | repeating a put on the files that a rolled back attempt left has the same outcome, rows and files |
| `RescueStore.OwnershipStore.PutOperation` | tokenjuice_hermes/rescue_sqlite.py:62-103 | the statements of the operation, with every early return, leave exactly the rows, files and outcome of the put plan |
| `RescueStore.OwnershipStore.PutBlob` | tokenjuice_hermes/rescue_sqlite.py:57-106 | after any number of locked attempts the call ends with the rows, files and report of one clean run; giving up keeps the rows and leaves at most its file write |
| `RescueStore.OwnershipStore.PresentTotal` | tokenjuice_hermes/rescue_sqlite_maintenance.py:55-59 | the running total starts from the recorded sizes of the rows whose file exists |
| `RescueStore.OwnershipStore.EvictOldest` | tokenjuice_hermes/rescue_sqlite_maintenance.py:60-70 | the size loop tombstones the live rows of exactly the prefix that the cap requires |
| `RescueStore.OwnershipStore.UnlinkDead` | tokenjuice_hermes/rescue_sqlite_maintenance.py:71-81 | exactly the files of registered handles without a live owner go, and no other file changes |
| `RescueStore.OwnershipStore.SweepOperation` | tokenjuice_hermes/rescue_sqlite_maintenance.py:40-81 | one run of the operation has the effect of the sweep plan |
| `RescueStore.OwnershipStore.Sweep` | tokenjuice_hermes/rescue_sqlite_maintenance.py:37-83 | under retries the rows are those of a sweep over the files that the rolled back attempts left |
| `RescueStore.ReconcileReplan` | tokenjuice_hermes/rescue_sqlite_maintenance.py:106-144 | a repeated attempt finds the same damage, no orphan, and ends in the same state |
| `RescueStore.OwnershipStore.CheckHandle` | tokenjuice_hermes/rescue_sqlite_maintenance.py:112-140 | one round tombstones the live owners of a damaged handle with the right reason and counts it once |
| `RescueStore.OwnershipStore.TombstoneDamaged` | tokenjuice_hermes/rescue_sqlite_maintenance.py:108-140 | exactly the live rows with a missing or wrong file become tombstones, and the counters grow by the numbers of such handles |
| `RescueStore.OwnershipStore.QuarantineListed` | tokenjuice_hermes/rescue_sqlite_maintenance.py:141-144 | exactly the listed files without a row move to the orphans with their bytes, and the count is theirs |
| `RescueStore.OwnershipStore.QuarantineOrphans` | tokenjuice_hermes/rescue_sqlite_maintenance.py:141-144 | over a whole directory: every file without a row moves out |
| `RescueStore.OwnershipStore.ReconcileOperation` | tokenjuice_hermes/rescue_sqlite_maintenance.py:106-144 | one run of the operation has the effect of the reconcile plan and adds its exact counts to the counters it finds |
| `RescueStore.ReconcileRuns` | tokenjuice_hermes/rescue_sqlite_maintenance.py:101-147 | any number of rolled back runs leaves a disk from which one more run ends in the state of a single clean run |
| `RescueStore.OwnershipStore.LockedReconciles` | tokenjuice_hermes/rescue_sqlite.py:229-250 | the attempts that meet a lock run the operation once for each lock at COMMIT and keep their files and counters |
| `RescueStore.OwnershipStore.CommittedReconcile` | tokenjuice_hermes/rescue_sqlite_maintenance.py:101-147 | the attempt that commits ends in the state of a single clean run with the counters of all attempts |
| `RescueStore.OwnershipStore.Reconcile` | tokenjuice_hermes/rescue_sqlite_maintenance.py:101-147 | under retries the rows and files are those of one clean run, and the report is the one that counters without reset give |
| `RescueBlobStore.BlobStore.Put` | tokenjuice_hermes/rescue_store.py:63-75 | no handle and no change without a session; otherwise, under any locks, the put plan with the 12-digit handle or a collision error exactly when the registered blob differs; giving up raises, keeps the rows and leaves at most the file |
| `RescueBlobStore.PutThenFetch` | tokenjuice_hermes/rescue_store.py:63-129 | what a session puts without a collision it can fetch at once: the content exactly when refusing is off or it is no longer than the cap, a refusal with its length otherwise; and what the rows then hold |
| `RescueBlobStore.PutExactly` | tokenjuice_hermes/rescue_sqlite.py:62-106 | a put in terms of the rows before it: refused without a change exactly on a different registration, the file written in every other case, and the three rows that follow |
| `RescueReplies.OwnedTextIsReturned` | tokenjuice_hermes/rescue_store.py:145-231 | a session that owns a handle live, over a file with the registered length and hash, gets its text exactly when refusing is off or the text is no longer than the cap, and a refusal with the length otherwise |
| `RescueReplies.OwnedBytesAreDescribed` | tokenjuice_hermes/rescue_store.py:216-231 | bytes that are no text are only described, and the description is itself subject to the cap |
| `RescueReplies.OtherFetchesAreRefused` | tokenjuice_hermes/rescue_store.py:145-158 | every other fetch is refused for the first reason that applies: no handle, no session, swept with tool and size, not available |
| `RescueReplies.ValidHandleIff` | tokenjuice_hermes/rescue_handles.py:13-27 | a handle is twelve lower-case hexadecimal digits, with or without a final newline, and nothing else |
| `RescueBlobStore.NotOwnedNotFetched` | tokenjuice_hermes/rescue_store.py:145-158 | a fetch returns content only for a live row of this session whose file matches its registration |
| `RescueProtocol.StepOk` | tokenjuice_hermes/rescue_sqlite.py:57-121 | every step of every transaction, rollback, crash, fetch and outside change keeps the invariant, and blob rows only grow |
| `RescueProtocol.RunOk` | tokenjuice_hermes/rescue_sqlite.py:229-250 | the invariant holds in every reachable state |
| `RescueProtocol.FetchReturnsOwnPut` | tokenjuice_hermes/rescue_store.py:103-158 | over every run, a two-step fetch returns exactly the one content that its own session put under that handle |
| `RescueProtocol.FullFetchIsOwnPut` | tokenjuice_hermes/rescue_store.py:204-231 | in every reachable state a full fetch that returns content returns what the session put |
| `RescueProtocol.RegistrationIsPermanent` | tokenjuice_hermes/rescue_sqlite.py:62-106 | registered hashes and sizes never change and every live row has a blob row, in every reachable state |
| `RescueProtocol.RunFilesOk` | tokenjuice_hermes/rescue_sqlite.py:229-250 | without outside changes the file invariant holds over every run, also in the middle of a transaction |
| `RescueProtocol.FilesMatchRegistration` | tokenjuice_hermes/rescue_sqlite.py:265-271 | without outside changes the file at a registered handle is absent or matches its row at every moment |
| `RescueProtocol.PutsDoNotInterfere` | tokenjuice_hermes/rescue_sqlite.py:62-106 | a put by another session never takes content away from this one and can only restore the bytes that this one put; a colliding put changes nothing |
| `RescueReachable.ForeignRunsDoNotInterfere` | tokenjuice_hermes/rescue_sqlite.py:57-106 | at every moment of whatever puts and tombstones other sessions begin, write, commit or roll back, this session owns what it owned, fetches what it could with the same reply, and what it can fetch besides it put itself |
| `RescueProtocol.PutRun` | tokenjuice_hermes/rescue_sqlite.py:57-106 | the steps of an undisturbed put end in the state of the put plan |
| `RescueProtocol.SweepRun` | tokenjuice_hermes/rescue_sqlite_maintenance.py:37-83 | the steps of an undisturbed sweep end in the state of its plan, in whatever order it unlinks |
| `RescueProtocol.ReconcileRun` | tokenjuice_hermes/rescue_sqlite_maintenance.py:101-147 | the steps of an undisturbed reconcile end in the state of its plan, in whatever order it moves files |
| `RescueProtocol.FetchRun` | tokenjuice_hermes/rescue_store.py:103-158 | the steps of an undisturbed fetch serve the bytes of the file exactly when the session owns the handle live and the file matches, and change nothing else |
| `RescueProtocol.AbortedPutRun` | tokenjuice_hermes/rescue_sqlite.py:229-250 | a put that is rolled back after its write leaves the rows and the file |
| `RescueProtocol.TombstoneRun` | tokenjuice_hermes/rescue_sqlite_migration.py:82-109 | a tombstone transaction changes one ownership row and adds at most one session |
| `RescueSweep.EvictedPrefixIsShortest` | tokenjuice_hermes/rescue_sqlite_maintenance.py:55-70 | the visited prefix is the shortest that brings the running total to the cap |
| `RescueSweep.SweepAccounting` | tokenjuice_hermes/rescue_sqlite_maintenance.py:55-81 | bytes left are the bytes before, less the present part of the prefix, less later files without a live owner |
| `RescueSweep.SweepSizeBound` | tokenjuice_hermes/rescue_sqlite_maintenance.py:55-81 | bytes left are at most the cap plus the recorded sizes of absent files in the prefix, so at most the cap when every file is present |
| `RescueSweep.SweepMeetsCapIff` | docs/configuration.md:36 | the bytes left are within the cap exactly when the sizes subtracted for absent files are at most the room below the cap plus the later files that lose their last live owner to age; all three are known before the sweep |
| `RescueReachable.SweepCanMissCap` | tokenjuice_hermes/rescue_sqlite_maintenance.py:55-81 | for every cap and TTL, a run of the protocol (put, sweep after the TTL, put) into a state whose sweep leaves more than the cap |
| `RescueReachable.CapCanBeMissed` | tokenjuice_hermes/rescue_sqlite_maintenance.py:55-70 | contents that lead there exist for every cap |
| `RescueReachable.ReachableSweep` | tokenjuice_hermes/rescue_sqlite_maintenance.py:37-83 | in every state reached without outside changes: the bound on what a sweep leaves, and exactly when it meets the cap |
| `RescueSweep.SweepRows` | tokenjuice_hermes/rescue_sqlite_maintenance.py:40-70 | surviving live rows are unchanged and within their TTL, other live rows that stay are fresh tombstones with their reason, tombstones go exactly at their TTL |
| `RescueSweep.RowFates` | tokenjuice_hermes/rescue_sqlite_maintenance.py:40-70 | what becomes of each row, by its own age: past the TTL a tombstone for that reason, or gone when tombstones are not kept; within the TTL unchanged, or a tombstone for size when its handle is in the evicted prefix; an older tombstone stays as it was exactly within its own TTL |
| `RescueSweep.SweepKeepsLiveRows` | tokenjuice_hermes/rescue_sqlite_maintenance.py:40-54 | no live row is deleted, exactly when the tombstone TTL is not negative or nothing expired |
| `RescueSweep.SweepFiles` | tokenjuice_hermes/rescue_sqlite_maintenance.py:71-81 | a registered handle keeps its file exactly when some session still owns it live, and the file is untouched |
| `RescueSweep.FileFates` | tokenjuice_hermes/rescue_sqlite_maintenance.py:40-81 | a registered file stays exactly when it is not in the evicted prefix and some session owns it live within the TTL |
| `RescueSweep.PrefixFacts` | tokenjuice_hermes/rescue_sqlite_maintenance.py:55-70 | the evicted prefix in numbers: at its end the running total is within max_mb * 1048576, and before each of its members above |
| `RescueSweep.PutRenewsOnlyNewRows` | tokenjuice_hermes/rescue_sqlite.py:91-102 | the TTL step spares what was just put exactly when its row is new or its first put was within the TTL |
| `RescueSweep.SweepRetryExact` | tokenjuice_hermes/rescue_sqlite.py:229-250 | a sweep retried after its unlinks repeats the clean run exactly when it evicts the same live rows again |
| `RescueSweep.SweepRetriesAgree` | tokenjuice_hermes/rescue_sqlite.py:229-250 | however often a sweep is repeated, its files are those of one run and its final state that of one repetition |
| `RescueSweep.SweepRetryOfFullStore` | tokenjuice_hermes/rescue_sqlite_maintenance.py:55-83 | with every file present the retry evicts nothing, and every live row that the clean run would have evicted stays live without a file |
| `RescueReconcile.SettledMeansNothingToDo` | tokenjuice_hermes/rescue_sqlite_maintenance.py:101-147 | rows and files agree exactly when a reconcile counts three zeros |
| `RescueReconcile.DamagedAre` | tokenjuice_hermes/rescue_sqlite_maintenance.py:108-131 | missing are the registered handles in use without a file, mismatched those whose file has another length or hash |
| `RescueReconcile.ReconcileFates` | tokenjuice_hermes/rescue_sqlite_maintenance.py:112-140 | what becomes of each row: a live registered one without a file is a tombstone for missing_blob, with a wrong file for integrity_mismatch, and every other row stays |
| `RescueReconcile.CountsAre` | tokenjuice_hermes/rescue_sqlite_maintenance.py:101-147 | the three counts are the sizes of these sets and of the files without a row |
| `RescueReconcile.ReconcileSettles` | tokenjuice_hermes/rescue_sqlite_maintenance.py:101-147 | after one reconcile every live row has a matching file and every file a row; the next one changes nothing |
| `RescueReachable.ReachableReconcile` | tokenjuice_hermes/rescue_sqlite_maintenance.py:101-147 | the same from every reachable state, outside changes included |
| `RescueReconcile.ReconcileLosesNoFile` | tokenjuice_hermes/rescue_sqlite_maintenance.py:141-144 | a registered file stays with its bytes, any other is among the orphans under its name, and an earlier orphan stays as it was exactly when no different file of its name arrives |
| `RescueReconcile.RetriedStatsMultiply` | tokenjuice_hermes/rescue_sqlite_maintenance.py:101-147 | rolled back runs multiply the missing and mismatch counters and not the orphan counter |
| `RescueReconcile.ReportIsExact` | tokenjuice_hermes/rescue_sqlite_maintenance.py:101-147 | the report is exact if and only if no run was rolled back or no handle was damaged |
| `RescueMigration.PutEntry` | tokenjuice_hermes/rescue_sqlite_migration.py:61-109 | one entry has the effect of its function, and no blob file changes |
| `RescueMigration.MigrateFile` | tokenjuice_hermes/rescue_sqlite_migration.py:55-56 | the entries of one file in order, up to the first exception |
| `RescueMigration.EntryExactly` | tokenjuice_hermes/rescue_sqlite_migration.py:61-109 | the outcome of one entry: tombstone, skip, exception or put, with the conditions of each and the rows it leaves |
| `RescueMigration.FileItemsExactly` | tokenjuice_hermes/rescue_sqlite_migration.py:45-56 | the items of a readable file are the entries under its `blobs`, in order, for its session |
| `RescueMigration.MigrateIndexes` | tokenjuice_hermes/rescue_sqlite_migration.py:38-58 | the whole loop over what each read meets: the rows of all files up to the first exception, the marker exactly when nothing raised and every file was readable, malformed files set aside in order |
| `RescueMigration.ReadableIff` | tokenjuice_hermes/rescue_sqlite_migration.py:45-54 | a file that does not change stands in the way of the marker exactly when it cannot be read or decoded, or is a non-blank text without a non-empty JSON object |
| `RescueMigration.EmptyObjectBlocksMarker` | tokenjuice_hermes/rescue_sqlite_migration.py:48-51 | a file `{}` has nothing to migrate and keeps every run from writing the marker |
| `RescueMigration.FilesRaise` | tokenjuice_hermes/rescue_sqlite_migration.py:45-56 | the loop raises exactly when some file is not valid UTF-8 or some entry breaks the schema |
| `RescueMigration.MigrationRaises` | tokenjuice_hermes/rescue_sqlite_migration.py:61-79 | the migration raises exactly when some entry has a redeemable blob under an unregistered handle of the wrong length |
| `RescueMigration.EachEntryDecides` | tokenjuice_hermes/rescue_sqlite_migration.py:61-109 | each session and handle ends with the row that its own entry asks for, and other rows stay |
| `RescueMigration.MigrationIgnoresOrder` | tokenjuice_hermes/rescue_sqlite_migration.py:45-56 | any order of the entries leaves the same ownership rows, blob rows and sessions up to timestamps |
| `RescueMigration.MigrationIgnoresFileOrder` | tokenjuice_hermes/rescue_sqlite_migration.py:45-56 | any order of the index files raises alike and leaves the same rows and sessions up to timestamps |
| `RescueMigration.MigrationIsIdempotent` | tests/test_rescue_store_migration.py:114-163 | migrating again at once changes no ownership row, blob row or session up to timestamps and raises nothing |
| `RescueMigration.UnredeemableAddsNothing` | tokenjuice_hermes/rescue_sqlite_migration.py:67-75 | an entry whose blob is missing or does not match adds no row |
| `PruningGroups.ParseContributions` | tokenjuice_hermes/structured_pruning_groups.py:26-36 | all contributions in order, or None as soon as one is invalid |
| `PruningGroups.ParsedAreNumbered` | tokenjuice_hermes/structured_pruning_groups.py:57-124 | parsed contributions are numbered by position and keep their originals |
| `PruningRules.ParsedExactly` | tokenjuice_hermes/structured_pruning_groups.py:26-124 | parsing succeeds exactly when every contribution has all its strings and two counts, and carries over each field |
| `PruningGroups.Collect` | tokenjuice_hermes/structured_pruning_groups.py:144-152 | the first loop gives the singletons in order and every atomic group's members in order |
| `PruningGroups.MembersAre` | tokenjuice_hermes/structured_pruning_groups.py:222-231 | a group holds exactly what is grouped with its leader, and its index is its leader's position |
| `PruningGroups.LastNMembers` | tokenjuice_hermes/structured_pruning_groups.py:202-219 | in an increasing list the last n elements are those that fewer than n others follow |
| `PruningGroups.SingleDrafts` | tokenjuice_hermes/structured_pruning_groups.py:154-164 | one group per contribution without an atomic group, in order |
| `PruningGroups.AtomicDrafts` | tokenjuice_hermes/structured_pruning_groups.py:165-177 | one group per atomic id with exactly its members, in order |
| `PruningGroups.BuildDrafts` | tokenjuice_hermes/structured_pruning_groups.py:154-179 | singletons and atomic groups, sorted, are one group per leader in the order of the leaders |
| `PruningGroups.BuildGroups` | tokenjuice_hermes/structured_pruning_groups.py:140-199 | the final groups, one per leader, with flags computed over the whole input |
| `PruningProtection.RecentMessagesAre` | tokenjuice_hermes/structured_pruning_groups.py:202-208 | a position is recent exactly when it holds a message that fewer than N messages follow |
| `PruningProtection.ToolFlag` | tokenjuice_hermes/structured_pruning_groups.py:211-219 | a group carries the tool flag exactly when it is a tool group that fewer than M tool groups start after |
| `PruningProtection.FlagsMeanShielded` | tokenjuice_hermes/structured_pruning_groups.py:181-258 | the three flags of a group say together exactly that its members are shielded |
| `PruningRules.ShieldedExactly` | tokenjuice_hermes/structured_pruning_groups.py:181-258 | shielded is what is grouped with one of ten protected classes or one of the last messages, or belongs to one of the last tool groups, the last ones counted over the contributions themselves |
| `PruningRules.EligibleExactly` | tokenjuice_hermes/structured_pruning_selection.py:46-68 | a group is eligible on a route by its members alone: not shielded, something to prune, every member that may be pruned allowed on this route by its policy, none within its cache TTL unless asked, and enough tokens |
| `PruningRules.CandidatesExactly` | tokenjuice_hermes/structured_pruning_selection.py:46-68 | the candidates are the eligible groups, one for each leader |
| `PruningRules.FreshIff` | tokenjuice_hermes/structured_pruning_groups.py:275-291 | what the cache TTL protects, by age, policy, stability and scope |
| `PruningRules.RouteIsByPressure` | tokenjuice_hermes/structured_pruning.py:186-219 | a prepared call takes the soft route exactly below the threshold |
| `PruningRules.PreparedNumbers` | tokenjuice_hermes/structured_pruning.py:186-292 | threshold, pressure, trigger and target of a prepared call, from the host, the context, the contributions and the configuration in that order |
| `PruningRules.PreparedIff` | tokenjuice_hermes/structured_pruning.py:186-219 | a call is prepared exactly when pruning is enabled, the contributions parse, the threshold is positive and the pressure is known and at least the trigger |
| `PruningRules.NowIs` | tokenjuice_hermes/structured_pruning_groups.py:127-137 | the clock is the host's, else a second after the latest contribution, else unknown |
| `PruningSelection.CandidateGroups` | tokenjuice_hermes/structured_pruning_selection.py:46-68 | exactly the eligible groups, in order |
| `PruningSelection.LargestAreBest` | tokenjuice_hermes/structured_pruning_selection.py:71-89 | exchange: no k groups save more than the k largest |
| `PruningSelection.GreedyIsOptimal` | docs/configuration.md:94-97 | the shortest sufficient prefix of the largest groups from the latest sufficient index on is optimal over all subsets |
| `PruningSelection.TakeUntil` | tokenjuice_hermes/structured_pruning_selection.py:82-88 | the shortest prefix that meets the target, or proof that all together fall short |
| `PruningSelection.TryEarliest` | tokenjuice_hermes/structured_pruning_selection.py:79-88 | one round finds an optimal answer or shows that the groups from this index on fall short |
| `PruningSelection.SearchBackwards` | tokenjuice_hermes/structured_pruning_selection.py:79-89 | from the latest index to the earliest, the first round that meets the target gives the optimum; otherwise all candidates fall short |
| `PruningSelection.OptimalSubset` | tokenjuice_hermes/structured_pruning_selection.py:71-89 | the one lexicographic optimum (latest earliest index, fewest groups, largest savings) over all subsets that meet the target whose ties go to the largest and then oldest groups; None exactly when all together fall short |
| `PruningSelection.BestIsUnique` | tokenjuice_hermes/structured_pruning_selection.py:71-89 | there is only one such answer |
| `PruningSelection.PartialSubset` | tokenjuice_hermes/structured_pruning_selection.py:92-96 | the latest candidate alone, None exactly without candidates |
| `PruningSelection.SelectPrunedGroups` | tokenjuice_hermes/structured_pruning_selection.py:8-43 | the route that answers, and an optimal answer for the target of that route |
| `PruningSelection.SelectedAreEligible` | tokenjuice_hermes/structured_pruning_selection.py:20-43 | selected groups are eligible; TTL-protected ones appear only on the hard route and only when the others cannot reach the required savings |
| `PruningSelection.SelectionFailsExactly` | tokenjuice_hermes/structured_pruning_selection.py:25-43 | with positive targets the answer is None exactly when all candidates of the route fall short of both |
| `PruningOutcomes.SelectionMeets` | tokenjuice_hermes/structured_pruning_selection.py:8-43 | what a selection must save, and exactly when there is one, by the distance to the target and to the threshold; groups within their cache TTL only when the others fall short; and with neither distance the latest candidate alone |
| `PruningOutcomes.BestMeans` | docs/configuration.md:94-97 | against any other choice that meets the target the answer begins no earlier; if the other begins as late it has no fewer groups; with as many it saves no more |
| `PruningOutcomes.TiesGoToOldest` | tokenjuice_hermes/structured_pruning_selection.py:71-89 | no candidate passed over from the earliest chosen one on saves more than a chosen one, and with equal savings none is older |
| `PruningRescue.RescueTwice` | tokenjuice_hermes/structured_pruning_rescue.py:103-138 | an excerpt is not rescued again |
| `PruningOutcomes.RescueExactly` | tokenjuice_hermes/structured_pruning_rescue.py:103-138 | what is put is the contribution's own content, and the excerpt that replaces it is made from that content and the handle that the store gave; its sizes are those of the excerpt and every other field stays |
| `PruningRescue.ApplyReplacements` | tokenjuice_hermes/structured_pruning_rescue.py:50-74 | the loop gives each contribution its fate and the counters their sums |
| `PruningRescue.ApplyPrunedGroups` | tokenjuice_hermes/structured_pruning_rescue.py:34-74 | the whole application, None exactly when a needed rescue is impossible |
| `PruningOutcomes.ReplacementsAre` | tokenjuice_hermes/structured_pruning_rescue.py:77-100 | rescued are exactly the pruned diagnostics, each by its own excerpt, and none when one of them fails |
| `PruningOutcomes.FateExactly` | tokenjuice_hermes/structured_pruning_rescue.py:34-74 | with unique ids: what is not selected stays, a selected diagnostic becomes its excerpt, what is grouped with one stays, and everything else that is selected goes |
| `PruningOutcomes.ApplicationFailsIff` | tokenjuice_hermes/structured_pruning_rescue.py:77-138 | an application fails exactly when some selected diagnostic cannot be rescued |
| `PruningOutcomes.CountsBalance` | tokenjuice_hermes/structured_pruning_rescue.py:50-74 | what is retained, pruned and rescued adds up, and nothing is rescued exactly when nothing is replaced |
| `PruningGuarantees.PrunedMeansSelected` | tokenjuice_hermes/structured_pruning_rescue.py:40 | with unique ids the dictionary of selected contributions holds exactly the members of selected groups |
| `PruningGuarantees.ShieldedVerbatim` | tokenjuice_hermes/structured_pruning_rescue.py:34-74 | shielded contributions whose ids no applied group shares appear in the result verbatim, in order and as often as before |
| `PruningGuarantees.SharedIdNotKept` | tokenjuice_hermes/structured_pruning_rescue.py:40-67 | a shielded contribution that shares its id with a member of an applied group is dropped or replaced |
| `PruningGuarantees.GroupSharesFate` | tokenjuice_hermes/structured_pruning_rescue.py:44-67 | a member of a group is dropped only together with all others, also when some are replaced |
| `PruningGuarantees.GroupsStayWhole` | tokenjuice_hermes/structured_pruning_rescue.py:34-74 | of a group all members stay, some perhaps as excerpts, or none |
| `PruningGuarantees.TokensBalance` | tokenjuice_hermes/structured_pruning_rescue.py:54-74 | saved tokens are the original total less the retained total plus the growth of replacements |
| `PruningGuarantees.RealReduction` | tokenjuice_hermes/structured_pruning_rescue.py:54-74 | the real reduction reaches a target exactly when the saved tokens exceed it by the growth |
| `PruningGuarantees.AppliedWithoutGrowth` | tokenjuice_hermes/structured_pruning_rescue.py:54-74 | applying groups of which no member would grow by being rescued adds no tokens |
| `PruningGuarantees.AppliedWithGrowth` | tokenjuice_hermes/structured_pruning_rescue.py:54-74 | with unique ids, applying groups of which some member would grow adds tokens |
| `Pruning.PrunePrepared` | tokenjuice_hermes/structured_pruning.py:69-135 | the decision: the groups, a selection of the required kind, and acceptance or failing open after the retry |
| `Pruning.PruneStructuredContext` | tokenjuice_hermes/structured_pruning.py:60-165 | the whole call from raw contributions to effective ones, None whenever it fails open |
| `PruningOutcomes.DecisionExactly` | tokenjuice_hermes/structured_pruning_apply.py:35-76 | the selection is accepted when what it saves covers the excess; otherwise every candidate is tried, if that is another set of groups, under the same test; otherwise the call fails open |
| `PruningOutcomes.SoftRouteIsGentle` | tokenjuice_hermes/structured_pruning.py:60-219 | end to end, below the threshold, nothing that is grouped with a contribution of an eligible class whose policy is not soft_trim, or with one whose cache TTL still runs, is removed or changed, unless something else shares its id |
| `Pruning.SelectedAreCandidates` | tokenjuice_hermes/structured_pruning_selection.py:8-68 | whatever route gave the selection, its groups are candidates |
| `Pruning.RetryIsCandidates` | tokenjuice_hermes/structured_pruning_apply.py:50-55 | so are the groups of the retry |
| `Pruning.AcceptedIsSafe` | tokenjuice_hermes/structured_pruning_apply.py:35-76 | whatever route or retry led to it, an accepted result prunes candidate groups only, none of them shielded, and covers the excess |
| `Pruning.UnprunedSurvive` | tokenjuice_hermes/structured_pruning_rescue.py:34-74 | contributions whose ids no pruned group holds come out verbatim and in order |
| `Pruning.ShieldedSurvive` | tokenjuice_hermes/structured_pruning.py:60-165 | end to end, the host's shielded contributions come out verbatim, in order, none missing and none added, when no candidate shares an id with them |
| `Pruning.ShieldedSurviveWithUniqueIds` | tokenjuice_hermes/structured_pruning.py:60-165 | so always when ids are unique |
| `Pruning.GroupsSurviveWhole` | tokenjuice_hermes/structured_pruning.py:60-165 | end to end, no member of an atomic group outlives another |
| `Pruning.PressureAfterPruning` | tokenjuice_hermes/structured_pruning.py:71-135 | the pressure really left is the pressure less the saved tokens plus the growth of replacements, so within the threshold without growth |
| `PruningCalls.CallForAll` | tokenjuice_hermes/structured_pruning.py:60-165 | for any contributions with something to save there is an accepted call that prunes every candidate with savings and is credited with exactly the excess |
| `PruningCalls.GrowthExceedsThreshold` | tokenjuice_hermes/structured_pruning.py:71-135 | when a member of a candidate with savings would grow by being rescued, an accepted call that leaves more than its threshold |
| `PruningCalls.StaysWithinIff` | tokenjuice_hermes/structured_pruning.py:71-135 | over all pressures, thresholds and targets, every accepted call stays within its threshold exactly when no member of a candidate group would grow by being rescued |
| `PruningCalls.GrowthCanHideShortfall` | tokenjuice_hermes/structured_pruning_rescue.py:69-72 | two concrete contributions and an accepted call on them that leaves more than its threshold |
| `PruningCalls.ProtectionNeedsOwnIds` | tokenjuice_hermes/structured_pruning_rescue.py:40-74 | every accepted call keeps everything shielded exactly when no shielded contribution shares its id with a member of a candidate group |
| `PruningCalls.SharedIdIsLost` | tokenjuice_hermes/structured_pruning_rescue.py:40-67 | for a shielded contribution that shares its id with a candidate with savings, an accepted call that does not keep it |
| `JsonParser.ParseString` | tokenjuice_hermes/json_types.py:124-140 | the loop over characters and escapes computes the string function |
| `JsonParser.SkipExponent` | tokenjuice_hermes/json_types.py:169-179 | an exponent ends after its digits; without digits the number is refused |
| `JsonParser.ParseNumber` | tokenjuice_hermes/json_types.py:158-179 | the statements with their flags compute the number function, with its refusals |
| `JsonParser.ParseValue` | tokenjuice_hermes/json_types.py:54-74 | the dispatch computes the value function |
| `JsonParser.ParseObject` | tokenjuice_hermes/json_types.py:76-92 | an opening brace and what follows compute the value function on objects |
| `JsonParser.ParseMembers` | tokenjuice_hermes/json_types.py:81-92 | the loop that fills the dict computes the member function |
| `JsonParser.ParseMember` | tokenjuice_hermes/json_types.py:94-104 | a member is a key, a colon and a value with white space between them, or nothing |
| `JsonParser.ParseArray` | tokenjuice_hermes/json_types.py:106-122 | an opening bracket and what follows compute the value function on arrays |
| `JsonParser.ParseItems` | tokenjuice_hermes/json_types.py:111-122 | the loop that fills the list computes the item function |
| `JsonParser.Parse` | tokenjuice_hermes/json_types.py:48-52 | the whole text must be one value between white space |
| `JsonParser.ParseFlatObject` | tokenjuice_hermes/json_types.py:199-209 | an object without nested values, and its fields unchanged; None exactly otherwise |
| `JsonGrammar.StringReads` | tokenjuice_hermes/json_types.py:124-156 | every string of the grammar, in every choice of escapes, is read as its characters up to its closing quote |
| `JsonGrammar.NumberReads` | tokenjuice_hermes/json_types.py:158-184 | every number form is read as its value, and refused exactly when it is an integer beyond Python's digit limit |
| `JsonGrammar.ValueReads` | tokenjuice_hermes/json_types.py:54-192 | every document of the grammar, wherever it stands, is read as its meaning and stops at its end; refused exactly when it holds such an integer |
| `JsonGrammar.DocumentReads` | tokenjuice_hermes/json_types.py:48-52 | the same for a whole text with white space around it |
| `JsonAccepts.ValueIsDocument` | tokenjuice_hermes/json_types.py:54-192 | the converse: whatever the parser accepts at a position is a document that stands there, read as its meaning and up to its end |
| `JsonAccepts.ParsesIff` | tokenjuice_hermes/json_types.py:48-192 | a text is read as a value other than null exactly when it is a document with that meaning, all integers within the digit limit, between white space |
| `JsonAccepts.OthersAreRefused` | tokenjuice_hermes/json_types.py:48-52 | a text that is no such document, for instance one with anything after its value, is refused |
| `JsonAccepts.EscapeTable` | tokenjuice_hermes/json_types.py:12-22 | the eight short escapes and their characters |
| `Json.PutAssigns` | tokenjuice_hermes/json_types.py:86-89 | a repeated key keeps its place and takes the last value; other keys are as they were |
| `JsonPrinter.EscapedIsOneUnit` | tokenjuice_hermes/json_types.py:142-156 | the escape of a code point is read back as that code point exactly when it is below 0x10000 |
| `JsonPrinter.PrintMeans` | tokenjuice_hermes/json_types.py:54-192 | the printed document is well formed and means the value, and fits exactly when all integers convert |
| `JsonPrinter.ParseUndoesPrint` | tokenjuice_hermes/json_types.py:195-196 | parsing a printed value gives the value back exactly when all its integers convert |
| `Passref.Budget.Replace` | tokenjuice_hermes/passref.py:281-299 | what replaces one handle and how the four counters change |
| `Passref.Budget.ReplaceAll` | tokenjuice_hermes/passref.py:301 | left to right over all matches with one budget |
| `Passref.Budget.ExpandString` | tokenjuice_hermes/passref.py:270-301 | a string without a handle is returned with the budget untouched, any other is expanded |
| `Passref.Budget.ExpandValue` | tokenjuice_hermes/passref.py:252-267 | the recursion over lists and dicts threads one budget in order |
| `Passref.ExpandWithStore` | tokenjuice_hermes/passref.py:231-249 | expansion under a fresh budget, None without a store or without a change |
| `Passref.HandleRequest` | tokenjuice_hermes/passref.py:209-228 | the gate in the order of its checks |
| `PassrefRules.RequestExactly` | tokenjuice_hermes/passref.py:136-249 | what every request gets: nothing when it is not looked at or holds no handle; the refusal when its tool is not listed or, listed or not, its name holds one of the sink words; else the session marker, or the expansion over the store |
| `PassrefRules.SinksLearnNothing` | tokenjuice_hermes/passref.py:140-150 | a tool whose name holds a sink word, whatever the allow list says, and an unlisted tool get the same answer from any two stores |
| `PassrefRules.HandleIff` | tokenjuice_hermes/passref.py:27 | a handle is four fixed characters and twelve lower-case hexadecimal digits |
| `PassrefRules.OneHandleExactly` | tokenjuice_hermes/passref.py:270-318 | a string with one handle keeps everything around it, and the handle becomes the blob, its beginning with the cut marker, or one of the three refusals, as the store and the budget say; with the counters after it |
| `PassrefGuarantees.SubLeavesHandle` | tokenjuice_hermes/passref.py:163-165 | replacing handles in a string leaves a handle exactly when there was one and the marker holds one |
| `PassrefGuarantees.ReplaceLeavesHandle` | tokenjuice_hermes/passref.py:153-170 | the same at any depth of a value |
| `PassrefGuarantees.PlainMarkerCanFormHandle` | tokenjuice_hermes/passref.py:163-165 | a marker without brackets and without a handle that forms one |
| `PassrefGuarantees.SubIsExact` | tokenjuice_hermes/passref.py:163-165 | the text splits into handles and literals without handles, and only the handles are replaced |
| `PassrefGuarantees.SubIsConstantCallback` | tokenjuice_hermes/passref.py:163-165 | denial and expansion rewrite the same matches: one with a constant marker, the other with a callback |
| `PassrefGuarantees.SubWithinBudget` | tokenjuice_hermes/passref.py:301 | a substitution keeps to the budget whenever its callback does |
| `PassrefGuarantees.TreeWithinBudget` | tokenjuice_hermes/passref.py:252-301 | from any budget, an expansion keeps to what is left of the limit and counts exactly what it charges |
| `PassrefGuarantees.BudgetBound` | tokenjuice_hermes/passref.py:252-301 | inserted blob text is at most the limit; the counter equals inserted text and truncation markers and exceeds the limit by at most one such marker |
| `PassrefGuarantees.CounterExceedsLimitIff` | docs/configuration.md:68 | over any arguments, the counter ends above the limit exactly when the handles' full costs in order exceed it and no prefix of them spends it exactly; otherwise it ends at their sum or at the limit |
| `PassrefGuarantees.FittingBlobsStayWithin` | docs/configuration.md:68 | when every referenced blob fits its own limit and all of them, by occurrence, fit the total, the counter is their length |
| `PassrefGuarantees.CounterCanExceedLimit` | tokenjuice_hermes/passref.py:293-298 | the counter exceeds the limit by the whole marker when a blob just does not fit |
| `PassrefGuarantees.TreeIsFaithful` | tokenjuice_hermes/passref.py:252-301 | putting the handles back gives the original strings; every stretch is a literal without a handle, a refusal, or the beginning of a blob that the session references, marked exactly when cut |
| `PassrefGuarantees.ExpandedKeys` | tokenjuice_hermes/passref.py:263-266 | expansion keeps the keys and their order |
| `PassrefGate.SessionRequiredHoldsNoHandle` | tokenjuice_hermes/passref.py:177-178 | the session marker is bracketed and holds no handle |
| `PassrefGate.DenialHoldsHandle` | tokenjuice_hermes/passref.py:173-174 | the denial marker is bracketed and holds a handle exactly when the tool's name does |
| `PassrefGate.ChangedIffHandle` | tokenjuice_hermes/passref.py:277-279 | an expansion is marked as a change exactly when some string holds a handle |
| `PassrefGate.LeftAloneIff` | tokenjuice_hermes/passref.py:209-249 | a request is left alone exactly when it does not concern the plugin, holds no handle, or may be expanded without a store |
| `PassrefGate.DeniedHandlesAreGone` | tokenjuice_hermes/passref.py:181-228 | a denied request keeps no handle unless the tool's name holds one |
| `PassrefGate.TreeLearnsOwnBlobs` | tokenjuice_hermes/passref.py:281-299 | two stores that agree at every moment on the session's own blobs give the same expansion |
| `PassrefGate.RequestLearnsOwnBlobs` | tokenjuice_hermes/passref.py:209-249 | a sink or unlisted tool, or a request without a session, learns nothing from the store; others only about their own blobs and the presence of others |
| `PassrefRescue.ExpansionIsOwnPut` | tokenjuice_hermes/rescue_store.py:77-99 | while writers, sweeps and readers go on between and during the queries of one expansion, inserted blob text is the beginning of the one text that the session itself put under that handle |
| `Memo.DeepCopy` | tokenjuice_hermes/structured_pruning_memo.py:133-138 | a copy of nested lists and dicts made of new objects only, None exactly when some leaf cannot be copied |
| `MemoGuarantees.CopyableIff` | tokenjuice_hermes/structured_pruning_memo.py:133-138 | a result can be copied exactly when no part of it at any path is a value outside JSON |
| `Memo.PruningMemo.ReuseOrCompute` | tokenjuice_hermes/structured_pruning_memo.py:65-89 | the answer and the new contents of one call; computing happens exactly on a miss, a hit returns new objects at every depth, and nothing handed out is held by the memo |
| `Memo.PruningMemo.Hit` | tokenjuice_hermes/structured_pruning_memo.py:75-78 | a hit hands out new objects at every depth that hold the stored tree, and copying never fails |
| `Memo.PruningMemo.MoveToEnd` | tokenjuice_hermes/structured_pruning_memo.py:76 | a hit becomes the most recent entry and the others keep their order |
| `Memo.PruningMemo.Store` | tokenjuice_hermes/structured_pruning_memo.py:84-88 | a new entry becomes the most recent one and the oldest beyond the capacity go |
| `Memo.PruningMemo.Evict` | tokenjuice_hermes/structured_pruning_memo.py:87-88 | the newest entries stay, at most max(1, max_entries) |
| `MemoGuarantees.SamePayloadIff` | tokenjuice_hermes/structured_pruning_memo.py:92-130 | two requests have one payload exactly when they agree on every listed input, with absent as null in contributions only |
| `MemoGuarantees.FieldChangesPayloadIff` | tokenjuice_hermes/structured_pruning_memo.py:124-130 | changing a contribution field changes the payload exactly when the field is listed and differs |
| `MemoGuarantees.FingerprintSees` | tokenjuice_hermes/structured_pruning_memo.py:92-130 | the inputs that a fingerprint sees, written out: pressure, threshold, the settings by name and prefix, and twelve fields of each contribution |
| `MemoGuarantees.NoFingerprintIff` | tokenjuice_hermes/structured_pruning_memo.py:92-105 | there is no fingerprint exactly when one of these inputs cannot be written as JSON |
| `MemoGuarantees.RecentIsByLastUse` | tokenjuice_hermes/structured_pruning_memo.py:74-88 | the reference order lists each used key once, by last use |
| `MemoGuarantees.HoldsMostRecent` | tokenjuice_hermes/structured_pruning_memo.py:74-88 | after any calls the memo holds exactly the most recently used keys, in order, at most max_entries or one when that is less |
| `MemoGuarantees.RunAgrees` | tokenjuice_hermes/structured_pruning_memo.py:65-89 | when computing respects the fingerprint every answer of every run is the direct one |
| `MemoGuarantees.SecondCallHits` | tokenjuice_hermes/structured_pruning_memo.py:74-78 | the second of two calls with one fingerprint gets the first one's result |
| `MemoGuarantees.TransparentIff` | tokenjuice_hermes/structured_pruning_memo.py:65-89 | over all sequences of calls the memo is transparent exactly when computing respects the fingerprint |
| `MemoGuarantees.UnfingerprintedFieldMakesStale` | tokenjuice_hermes/structured_pruning_memo.py:124-130 | a computation that looks at an unlisted field gets a stale answer |
| `MemoGuarantees.CallsWithWrites` | tokenjuice_hermes/structured_pruning_memo.py:65-89 | over any sequence of calls, each followed by arbitrary writes at any depth into every result ever handed out, contents and answers are those of the plain steps |
| `MemoGuarantees.HitAfterMutation` | tokenjuice_hermes/structured_pruning_memo.py:74-89 | overwriting a returned result at any depth does not change a later hit, and the hit does not compute |
| `YamlConfig.StripComment` | tokenjuice_hermes/hermes_config.py:112-122 | the line up to the first '#' outside quotes |
| `YamlConfig.ParseMapping` | tokenjuice_hermes/hermes_config.py:86-109 | loop and recursion compute the mapping function, which ends before the first entry not indented more than its base |
| `YamlConfig.Load` | tokenjuice_hermes/hermes_config.py:72-83 | the document is split, stripped of comments and blank lines, and parsed from its first line |
| `YamlRules.ScalarExactly` | tokenjuice_hermes/hermes_config.py:125-152 | what a scalar means: quotes make it a string, three groups of words in any mixture of cases are null, true and false, then numbers, else its own text |
| `YamlRules.IgnoredIff` | tokenjuice_hermes/hermes_config.py:92-97 | a line is ignored exactly when it has no colon or nothing before its first one |
| `YamlRules.BlankIff` | tokenjuice_hermes/hermes_config.py:74-80 | a line gives no entry exactly when nothing but white space stands before its end or its first '#' |
| `YamlRules.QuotedHash` | tokenjuice_hermes/hermes_config.py:112-122 | a '#' between two quotes is no comment, and one right after them is |
| `YamlRules.SplitUndoesEndings` | tokenjuice_hermes/hermes_config.py:74 | splitting into lines undoes joining with any of Python's line ends |
| `YamlFlatten.LineParts` | tokenjuice_hermes/hermes_config.py:92-97 | a line is split at its first colon whatever white space surrounds it |
| `YamlFlatten.BlockReads` | tokenjuice_hermes/hermes_config.py:86-109 | the lines of a block, each nested block with a deeper indent of its own, are read as its meaning up to the first line indented no more than the base |
| `YamlFlatten.MeaningIsTree` | tokenjuice_hermes/hermes_config.py:99-107 | with distinct keys at every level the meaning is the tree itself, in order |
| `YamlFlatten.TreeIsRebuilt` | tokenjuice_hermes/hermes_config.py:86-109 | un-flattening rebuilds every tree of mappings with distinct keys and stops where it should |
| `YamlFlatten.SplitUndoesJoin` | tokenjuice_hermes/hermes_config.py:74 | splitting a text into lines undoes joining them |
| `YamlFlatten.LineReads` | tokenjuice_hermes/hermes_config.py:74-80 | indent, content, trailing white space and comment of a line are told apart, provided no quote is open where the comment starts |
| `YamlFlatten.DocumentLoads` | tokenjuice_hermes/hermes_config.py:72-83 | a document whose lines, comments and blank lines aside, are those of a block loads as its tree |
| `YamlRules.FileLoads` | tokenjuice_hermes/hermes_config.py:72-109 | the same for a whole file given line by line, with trailing white space and comments after its entries |

## Left out

- SQLite and file mechanics: connections, busy timeouts, the deadline and delays of the retry loop, temporary files, permissions.
- A retry loop that gives up is modelled for `put_blob` only; for the others it is the state before plus the file operations already done.
- A lock is met at BEGIN or at COMMIT; other database errors inside a transaction are not modelled, except the length check of `blobs.handle`.
- SHA-256 is injective and `safe_sid` is the identity; two digests may still share their first twelve digits.
- Bytes change from outside only between transactions, and not between the check and the read of one fetch.
- `RescueStore.OwnershipStore.Sweep`: the clock and the order of rows with equal `created_at` are arguments.
- Fetch modes stat, range and grep, `find_meta`, `stats` and the texts of their replies.
- Schema creation and rebuild (`rescue_sqlite_schema.py`), and the legacy index writers and sweep (`rescue_index.py`, `rescue_sweep.py`).
- `RescueMigration.MigrateIndexes`: `json.loads` is an argument that gives entries or an error; other exceptions it raises, entries of other types, and locks met by the transactions are not modelled.
- Floats: `int(a * r / 100)` is integer division, and a JSON float is kept as its text.
- `PruningRescue.ApplyPrunedGroups`: the rescue store is a function from contents to handles, and of an excerpt only its first line is known.
- Provider messages and tools, status counters and telemetry, and the parsing of the pruning configuration.
- JSON: decimal digits outside ASCII, and the recursion limit of Python.
- `JsonParser.ParseNumber`: an integer is refused at 4300 digits, Python's default, which the host can change.
- Passref: Python's `str.lower` is an argument; the store changes between the queries of one expansion, but bytes do not change from outside between the check and the read of one handle; the parsing of the allow list is not modelled.
- `Memo.PruningMemo.ReuseOrCompute`: serialised text and its digest are injective, so the payload itself is the key; `json.dumps` is not injective on strings with lone surrogates, since it writes a surrogate pair and the character above U+FFFF alike.  A result that contains itself is not modelled, and a part that occurs twice is copied twice.
- `MemoGuarantees.CallsWithWrites`: each callback returns a new result; one that returns an object it returned before is covered by the contract of a single call.
- `PruningCalls.StaysWithinIff`: candidates without any savings, which exist only when the configured minimum is 0: no growth in any candidate is then sufficient, no growth in a candidate with savings necessary.
- `PruningCalls.ProtectionNeedsOwnIds`: the same two halves for candidates without savings.
- `YamlConfig.Load`: Python's conversion of a plain scalar to int or float is an argument; the lookup of the plugin's section is not modelled.
- `plugin.py`, `compaction.py`, `request_pruning.py`, `rescue_excerpt.py`, `rescue_grep.py`: registration, slicing and formatting, which would add easy members only.
