/** What holds in the states that runs of the protocol reach: other sessions, the size cap and reconcile. */
module RescueReachable {
  import opened Prelude
  import opened RescueState
  import opened RescueFetch
  import opened RescueBlobStore
  import opened RescueProtocol
  import opened RescueSweep
  import opened RescueReconcile

  // ---- other sessions ----

  /** Steps of puts and tombstones of other sessions, finished, rolled back or cut off, and of any reader. */
  predicate IsForeign(step: Step, session: SessionKey) {
    match step
    case BeginPut(w, _) => w.session != session
    case BeginTombstone(other, _, _, _, _) => other != session
    case WriteStep => true
    case Commit => true
    case Abort => true
    case Lookup(_, _, _) => true
    case Verify(_) => true
    case Read(_) => true
    case _ => false
  }

  /** What `now` has kept, since `was`, of what this session owns under this handle; a foreign transaction may be open. */
  ghost predicate Undisturbed(was: Sys, now: Sys, session: SessionKey, handle: Handle) {
    var owned := OwnedBlob(was.db, session, handle);
    && OwnedBlob(now.db, session, handle) == owned
    && (now.tx.Some? ==>
          && now.tx.value.unlinks == {} && now.tx.value.moves == {}
          && OwnedBlob(now.tx.value.db, session, handle) == owned)
    && (owned.Some? ==>
          && (handle in was.disk.files ==> handle in now.disk.files)
          && (handle in now.disk.files ==>
                || (handle in was.disk.files && now.disk.files[handle] == was.disk.files[handle])
                || now.disk.files[handle] == Registered(was.db, handle)))
  }

  lemma ForeignBegin(was: Sys, s: Sys, step: Step, session: SessionKey, handle: Handle)
    requires Inv(s) && Undisturbed(was, s, session, handle) && IsForeign(step, session)
    requires step.BeginPut? || step.BeginTombstone?
    ensures Undisturbed(was, After(s, step), session, handle)
  {
    assert IsLive(s.db.owners, (session, handle)) ==> handle in s.db.blobs;
  }

  lemma ForeignWrite(was: Sys, s: Sys, session: SessionKey, handle: Handle)
    requires Inv(s) && Undisturbed(was, s, session, handle)
    ensures Undisturbed(was, After(s, WriteStep), session, handle)
  {
    if s.tx.Some? && s.tx.value.write.Some? && OwnedBlob(was.db, session, handle).Some? {
      assert TxOk(s, s.tx.value);
      assert handle in s.db.blobs && handle in s.tx.value.db.blobs;
      assert Registered(s.tx.value.db, handle) == Registered(s.db, handle) == Registered(was.db, handle);
    }
  }

  lemma ForeignStep(was: Sys, s: Sys, step: Step, session: SessionKey, handle: Handle)
    requires Inv(s) && Undisturbed(was, s, session, handle) && IsForeign(step, session)
    ensures Undisturbed(was, After(s, step), session, handle)
  {
    if step.BeginPut? || step.BeginTombstone? {
      ForeignBegin(was, s, step, session, handle);
    } else if step.WriteStep? {
      ForeignWrite(was, s, session, handle);
    }
  }

  lemma {:induction false} ForeignRun(was: Sys, s: Sys, steps: seq<Step>, session: SessionKey, handle: Handle)
    requires Inv(s) && Undisturbed(was, s, session, handle)
    requires forall step :: step in steps ==> IsForeign(step, session)
    ensures Undisturbed(was, Run(s, steps), session, handle)
    decreases |steps|
  {
    if steps != [] {
      assert steps[0] in steps && forall step :: step in steps[1..] ==> step in steps;
      StepOk(s, steps[0]);
      ForeignStep(was, s, steps[0], session, handle);
      ForeignRun(was, After(s, steps[0]), steps[1..], session, handle);
    }
  }

  /** From any reachable state without an open transaction, and at every moment of whatever puts and tombstones other
      sessions begin, write, commit, roll back or leave open: this session owns what it owned, fetches what it could fetch
      with the same reply, and what it can fetch besides is what it put itself. */
  lemma ForeignRunsDoNotInterfere(files: Files, steps: seq<Step>, foreign: seq<Step>,
                                  session: SessionKey, handle: Handle, cfg: FetchConfig)
    requires Run(Init(files), steps).tx.None?
    requires forall step :: step in foreign ==> IsForeign(step, session)
    ensures var s := Run(Init(files), steps);
            var t := Run(s, foreign);
            && OwnedBlob(t.db, session, handle) == OwnedBlob(s.db, session, handle)
            && (SessionReferences(s.db, s.disk.files, session, handle) ==>
                  && SessionReferences(t.db, t.disk.files, session, handle)
                  && FetchFull(t.db, t.disk.files, session, handle, cfg) == FetchFull(s.db, s.disk.files, session, handle, cfg))
            && (SessionReferences(t.db, t.disk.files, session, handle) ==> (session, handle, t.disk.files[handle]) in s.puts)
  {
    var s := Run(Init(files), steps);
    RunOk(Init(files), steps);
    assert IsLive(s.db.owners, (session, handle)) ==> handle in s.db.blobs;
    ForeignRun(s, s, foreign, session, handle);
  }

  // ---- sweep and reconcile ----

  /** The hypotheses of the sweep theorems hold in every state that is reached without outside changes. */
  lemma ReachableSizes(files: Files, steps: seq<Step>)
    requires forall step :: step in steps ==> !step.Corrupt?
    ensures var s := Run(Init(files), steps); SizesNonNegative(s.db.blobs) && LengthsMatch(s.db.blobs, s.disk.files)
  {
    RunFilesOk(Init(files), steps);
    var s := Run(Init(files), steps);
    forall handle | handle in s.db.blobs && handle in s.disk.files
      ensures ByteSize(s.disk.files[handle]) == s.db.blobs[handle].size
    {
      assert Agrees(s.db, s.disk.files, handle);
    }
  }

  /** The bound on what a sweep leaves, and exactly when it meets the cap, in every reachable state. */
  lemma ReachableSweep(files: Files, steps: seq<Step>, args: SweepArgs)
    requires forall step :: step in steps ==> !step.Corrupt?
    requires OldestFirst(args.oldestFirst, Run(Init(files), steps).db.blobs)
    ensures var s := Run(Init(files), steps);
            var stored := StoredBytes(args.oldestFirst, SweepPlan(s.db, s.disk, args).disk.files);
            && stored <= Max(0, MaxBytes(args)) + Phantom(s.db, s.disk.files, args)
            && ((forall handle :: handle in s.db.blobs ==> handle in s.disk.files) ==> stored <= Max(0, MaxBytes(args)))
            && (stored <= MaxBytes(args)
                <==> Phantom(s.db, s.disk.files, args) <= Slack(s.db, s.disk.files, args) + LaterUnowned(s.db, s.disk.files, args))
  {
    var s := Run(Init(files), steps);
    ReachableSizes(files, steps);
    SweepSizeBound(s.db, s.disk, args);
    SweepMeetsCapIff(s.db, s.disk, args);
  }

  /** In every reachable state, outside changes included, one reconcile settles the store. */
  lemma ReachableReconcile(files: Files, steps: seq<Step>, clock: Handle -> real, later: Handle -> real)
    ensures var s := Run(Init(files), steps);
            var p := ReconcilePlan(s.db, s.disk, clock);
            && Settled(p.db, p.disk.files)
            && ReconcilePlan(p.db, p.disk, later) == p
            && ReconcileCounts(p.db, p.disk.files) == ReconcileStats(0, 0, 0)
  {
    RunOk(Init(files), steps);
    var s := Run(Init(files), steps);
    ReconcileSettles(s.db, s.disk, clock, later);
  }

  // ---- a run after which a sweep misses the cap ----

  function PutSteps(w: BlobWrite, now: real): seq<Step> {
    [BeginPut(w, now), WriteStep, Commit]
  }

  function SweepSteps(args: SweepArgs): seq<Step> {
    [BeginSweep(args)] + Unlinks(args.oldestFirst) + [Commit]
  }

  /** One content is put, outlives its TTL and is swept; then another one is put. */
  function MissSteps(gone: BlobWrite, kept: BlobWrite, args: SweepArgs): seq<Step> {
    PutSteps(gone, 0.0) + SweepSteps(args.(oldestFirst := [gone.handle])) + PutSteps(kept, args.now)
  }

  /** The state that those steps reach. */
  function MissState(gone: BlobWrite, kept: BlobWrite, args: SweepArgs): Plan {
    var tombstone := Tombstoned(OwnRow(Live, gone.tool, gone.size, 0.0, Some(0.0), None, None), args.now, Ttl);
    var live := OwnRow(Live, kept.tool, kept.size, args.now, Some(args.now), None, None);
    Plan(Db(map[gone.handle := BlobRow(gone.fullHash, gone.size, 0.0), kept.handle := BlobRow(kept.fullHash, kept.size, args.now)],
            map[gone.session := 0.0, kept.session := if kept.session == gone.session then 0.0 else args.now],
            map[(gone.session, gone.handle) := tombstone, (kept.session, kept.handle) := live]),
         Disk(map[kept.handle := kept.raw], map[]))
  }

  predicate IsNewWrite(w: BlobWrite) {
    Genuine(w) && |w.handle| == HANDLE_LENGTH
  }

  function FirstPlan(gone: BlobWrite): Plan {
    Plan(Db(map[gone.handle := BlobRow(gone.fullHash, gone.size, 0.0)], map[gone.session := 0.0],
            map[(gone.session, gone.handle) := OwnRow(Live, gone.tool, gone.size, 0.0, Some(0.0), None, None)]),
         Disk(map[gone.handle := gone.raw], map[]))
  }

  lemma FirstPut(gone: BlobWrite)
    requires IsNewWrite(gone)
    ensures PutPlan(Init(map[]).db, Disk(map[], map[]), gone, 0.0) == FirstPlan(gone)
  {
  }

  function SecondPlan(gone: BlobWrite, args: SweepArgs): Plan {
    var p := FirstPlan(gone);
    var row := p.db.owners[(gone.session, gone.handle)];
    Plan(p.db.(owners := map[(gone.session, gone.handle) := Tombstoned(row, args.now, Ttl)]), Disk(map[], map[]))
  }

  lemma FirstSweep(gone: BlobWrite, args: SweepArgs)
    requires args.oldestFirst == [gone.handle] && args.now > args.ttl >= 0.0 && args.tombstoneTtl >= 0.0
    ensures var p := FirstPlan(gone);
            && SweepPlan(p.db, p.disk, args) == SecondPlan(gone, args)
            && DeadHandles(p.db.blobs, SweptOwners(p.db, p.disk.files, args)) == {gone.handle}
  {
    var p := FirstPlan(gone);
    var owners := SweptOwners(p.db, p.disk.files, args);
    assert owners == SecondPlan(gone, args).db.owners;
    assert DeadHandles(p.db.blobs, owners) == {gone.handle};
    assert Without(p.disk.files, {gone.handle}) == map[];
  }

  lemma SecondPut(gone: BlobWrite, kept: BlobWrite, args: SweepArgs)
    requires IsNewWrite(gone) && IsNewWrite(kept) && gone.handle != kept.handle
    ensures var p := SecondPlan(gone, args); PutPlan(p.db, p.disk, kept, args.now) == MissState(gone, kept, args)
  {
    var p := SecondPlan(gone, args);
    var q := PutPlan(p.db, p.disk, kept, args.now);
    assert q.db == RegisterPut(p.db, kept, args.now);
    assert q.db.blobs == MissState(gone, kept, args).db.blobs;
    assert q.db.sessions == MissState(gone, kept, args).db.sessions;
    assert q.db.owners == MissState(gone, kept, args).db.owners;
    assert q.disk == MissState(gone, kept, args).disk;
  }

  lemma MissRun(gone: BlobWrite, kept: BlobWrite, args: SweepArgs)
    requires IsNewWrite(gone) && IsNewWrite(kept) && gone.handle != kept.handle
    requires args.now > args.ttl >= 0.0 && args.tombstoneTtl >= 0.0
    ensures var s := Run(Init(map[]), MissSteps(gone, kept, args));
            s.tx.None? && Plan(s.db, s.disk) == MissState(gone, kept, args)
  {
    var start, early := Init(map[]), args.(oldestFirst := [gone.handle]);
    RunConcat(start, PutSteps(gone, 0.0) + SweepSteps(early), PutSteps(kept, args.now));
    RunConcat(start, PutSteps(gone, 0.0), SweepSteps(early));
    RunOk(start, PutSteps(gone, 0.0));
    PutRun(start, gone, 0.0);
    FirstPut(gone);
    var s1 := Run(start, PutSteps(gone, 0.0));
    FirstSweep(gone, early);
    SweepRun(s1, early, early.oldestFirst);
    RunOk(s1, SweepSteps(early));
    var s2 := Run(s1, SweepSteps(early));
    PutRun(s2, kept, args.now);
    SecondPut(gone, kept, args);
  }

  /** The sweep of that state visits the row of the file that is already gone, and stops. */
  lemma MissedCap(gone: BlobWrite, kept: BlobWrite, args: SweepArgs)
    requires IsNewWrite(kept) && gone.handle != kept.handle && args.ttl >= 0.0
    requires args.oldestFirst == [gone.handle, kept.handle]
    requires 0 <= MaxBytes(args) < kept.size <= MaxBytes(args) + gone.size
    ensures var s := MissState(gone, kept, args);
            StoredBytes(args.oldestFirst, SweepPlan(s.db, s.disk, args).disk.files) == kept.size
  {
    var s, order := MissState(gone, kept, args), args.oldestFirst;
    assert order[1..] == [kept.handle] && order[1..][1..] == [];
    assert PresentSizes([kept.handle], s.db.blobs, s.disk.files) == kept.size;
    assert EvictCount(order, s.db.blobs, kept.size, MaxBytes(args)) == 1;
    assert EvictedPrefix(s.db, s.disk.files, args) == [gone.handle];
    var p := SweepPlan(s.db, s.disk, args);
    assert p.db.owners[(kept.session, kept.handle)].state.Live?;
    assert StoredBytes([kept.handle], p.disk.files) == kept.size;
  }

  /** Whatever the cap: a run of the protocol reaches a state in which a sweep leaves more than the cap, because blob rows
      outlive their files and the row of a file that is gone still counts against the running total.  It takes two contents
      with different handles, the second over the cap by no more than the size of the first. */
  lemma SweepCanMissCap(gone: string, kept: string, tool: string, session: SessionKey, hexOf: Digest -> string,
                        ttl: real, tombstoneTtl: real, maxMb: nat)
    returns (steps: seq<Step>, args: SweepArgs)
    requires IsHexDigest(hexOf) && ttl >= 0.0 && tombstoneTtl >= 0.0
    requires hexOf(Sha256(Utf8(gone)))[..HANDLE_LENGTH] != hexOf(Sha256(Utf8(kept)))[..HANDLE_LENGTH]
    requires maxMb * BYTES_PER_MB < Utf8Length(kept) <= maxMb * BYTES_PER_MB + Utf8Length(gone)
    ensures args.ttl == ttl && args.tombstoneTtl == tombstoneTtl && args.maxMb == maxMb
    ensures var s := Run(Init(map[]), steps);
            && s.tx.None? && OldestFirst(args.oldestFirst, s.db.blobs)
            && StoredBytes(args.oldestFirst, SweepPlan(s.db, s.disk, args).disk.files) > MaxBytes(args)
  {
    var first := NewWrite(gone, tool, session, hexOf(Sha256(Utf8(gone))));
    var second := NewWrite(kept, tool, session, hexOf(Sha256(Utf8(kept))));
    args := SweepArgs(ttl + 1.0, ttl, tombstoneTtl, maxMb, [first.handle, second.handle]);
    steps := MissSteps(first, second, args);
    MissRun(first, second, args);
    MissedCap(first, second, args);
  }

  lemma {:induction false} LengthOfRepeated(n: nat)
    ensures Utf8Length(seq(n, _ => 'b')) == n
  {
    if n > 0 {
      assert seq(n, _ => 'b')[1..] == seq(n - 1, _ => 'b');
      LengthOfRepeated(n - 1);
    }
  }

  /** Such contents exist for every cap. */
  lemma CapCanBeMissed(maxMb: nat)
    ensures var kept := seq(maxMb * BYTES_PER_MB + 1, _ => 'b');
            && kept != "a"
            && maxMb * BYTES_PER_MB < Utf8Length(kept) <= maxMb * BYTES_PER_MB + Utf8Length("a")
  {
    var kept := seq(maxMb * BYTES_PER_MB + 1, _ => 'b');
    LengthOfRepeated(maxMb * BYTES_PER_MB + 1);
    assert "a"[1..] == "";
    assert kept[0] == 'b';
  }
}
