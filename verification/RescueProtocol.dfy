/** The store as a protocol: one writer transaction at a time, its file operations one by one, readers in between,
    rollbacks and crashes anywhere before COMMIT. */
module RescueProtocol {
  import opened Prelude
  import opened RescueState
  import opened RescueFetch
  import opened RescueReplies

  /** "This session put these bytes under this handle." */
  type Claim = (SessionKey, Handle, FileData)

  /** An open write transaction: the rows it will commit, the file operations still to do, and the put it stands for. */
  datatype Tx = Tx(db: Db, write: Option<(Handle, FileData)>, unlinks: set<string>, moves: set<string>, claims: set<Claim>)

  /** A full fetch between its steps: the ownership row is read, or the file was checked against it. */
  datatype Reader =
    | Looked(session: SessionKey, handle: Handle, row: BlobRow)
    | Verified(session: SessionKey, handle: Handle)

  /** `puts` and `served` record history: the puts that were accepted and the contents that fetches returned. */
  datatype Sys = Sys(db: Db, disk: Disk, tx: Option<Tx>, readers: map<nat, Reader>, puts: set<Claim>, served: set<Claim>)

  datatype Step =
    | BeginPut(w: BlobWrite, now: real)
    | BeginTombstone(session: SessionKey, handle: Handle, tool: string, size: int, sweptAt: real)
    | BeginSweep(args: SweepArgs)
    | BeginReconcile(clock: Handle -> real)
    | WriteStep
    | UnlinkStep(name: string)
    | MoveStep(name: string)
    | Commit
    | Abort
    | Lookup(reader: nat, session: SessionKey, handle: Handle)
    | Verify(reader: nat)
    | Read(reader: nat)
    | Corrupt(name: string, data: Option<FileData>)

  function Init(files: Files): Sys {
    Sys(Db(map[], map[], map[]), Disk(files, map[]), None, map[], {}, {})
  }

  function PutClaim(w: BlobWrite): Claim {
    (w.session, w.handle, w.raw)
  }

  function PutTx(db: Db, files: Files, w: BlobWrite, now: real): Tx {
    Tx(PutPlan(db, Disk(files, map[]), w, now).db,
       if !Collides(db, w) && NeedsWrite(db, files, w) then Some((w.handle, w.raw)) else None,
       {}, {},
       if PutResult(db, files, w).Accepted? then {PutClaim(w)} else {})
  }

  function SweepTx(db: Db, files: Files, args: SweepArgs): Tx {
    var owners := SweptOwners(db, files, args);
    Tx(db.(owners := owners), None, DeadHandles(db.blobs, owners), {}, {})
  }

  function ReconcileTx(db: Db, files: Files, clock: Handle -> real): Tx {
    Tx(db.(owners := ReconciledOwners(db, files, clock)), None, {}, Unknown(db, files), {})
  }

  predicate NoVerifiedReader(s: Sys) {
    forall r :: r in s.readers ==> !s.readers[r].Verified?
  }

  function VerifyReader(s: Sys, r: nat): Sys {
    if r in s.readers && s.readers[r].Looked? then
      var Looked(session, handle, row) := s.readers[r];
      if Matches(s.disk.files, handle, row.fullHash, row.size)
      then s.(readers := s.readers[r := Verified(session, handle)])
      else s.(readers := s.readers - {r})
    else s
  }

  function ReadFile(s: Sys, r: nat): Sys {
    if r in s.readers && s.readers[r].Verified? then
      var Verified(session, handle) := s.readers[r];
      var done := s.(readers := s.readers - {r});
      if handle in s.disk.files
      then done.(served := s.served + {(session, handle, s.disk.files[handle])})
      else done
    else s
  }

  /** The effect of one step; a step that is not enabled changes nothing.  Bytes change from outside only while no
      transaction is open and no fetch stands between its check and its read. */
  ghost function After(s: Sys, step: Step): Sys {
    match step
    case BeginPut(w, now) =>
      if s.tx.None? && Genuine(w) then s.(tx := Some(PutTx(s.db, s.disk.files, w, now))) else s
    case BeginTombstone(session, handle, tool, size, sweptAt) =>
      if s.tx.None? then s.(tx := Some(Tx(InsertTombstone(s.db, session, handle, tool, size, sweptAt), None, {}, {}, {})))
      else s
    case BeginSweep(args) =>
      if s.tx.None? && OldestFirst(args.oldestFirst, s.db.blobs)
      then s.(tx := Some(SweepTx(s.db, s.disk.files, args))) else s
    case BeginReconcile(clock) =>
      if s.tx.None? then s.(tx := Some(ReconcileTx(s.db, s.disk.files, clock))) else s
    case WriteStep =>
      if s.tx.Some? && s.tx.value.write.Some? then
        var (handle, data) := s.tx.value.write.value;
        s.(tx := Some(s.tx.value.(write := None)), disk := s.disk.(files := s.disk.files[handle := data]))
      else s
    case UnlinkStep(name) =>
      if s.tx.Some? && name in s.tx.value.unlinks then
        s.(tx := Some(s.tx.value.(unlinks := s.tx.value.unlinks - {name})),
           disk := s.disk.(files := Without(s.disk.files, {name})))
      else s
    case MoveStep(name) =>
      if s.tx.Some? && name in s.tx.value.moves && name in s.disk.files then
        s.(tx := Some(s.tx.value.(moves := s.tx.value.moves - {name})), disk := MoveOut(s.disk, {name}))
      else s
    case Commit =>
      if s.tx.Some? && s.tx.value.write.None? && s.tx.value.unlinks == {} && s.tx.value.moves == {}
      then s.(db := s.tx.value.db, puts := s.puts + s.tx.value.claims, tx := None) else s
    case Abort => s.(tx := None)
    case Lookup(r, session, handle) =>
      (match OwnedBlob(s.db, session, handle)
       case None => s
       case Some(row) =>
         if r !in s.readers && session != "" && IsValidHandle(handle)
         then s.(readers := s.readers[r := Looked(session, handle, row)]) else s)
    case Verify(r) => VerifyReader(s, r)
    case Read(r) => ReadFile(s, r)
    case Corrupt(name, data) =>
      if s.tx.None? && NoVerifiedReader(s) then
        s.(disk := s.disk.(files := if data.Some? then s.disk.files[name := data.value] else Without(s.disk.files, {name})))
      else s
  }

  ghost function Run(s: Sys, steps: seq<Step>): Sys
    decreases |steps|
  {
    if steps == [] then s else Run(After(s, steps[0]), steps[1..])
  }

  lemma {:induction false} RunConcat(s: Sys, first: seq<Step>, second: seq<Step>)
    ensures Run(s, first + second) == Run(Run(s, first), second)
    decreases |first|
  {
    if first == [] {
      assert first + second == second;
    } else {
      assert (first + second)[1..] == first[1..] + second;
      RunConcat(After(s, first[0]), first[1..], second);
    }
  }

  // ---- invariant ----

  function Registered(db: Db, handle: Handle): FileData
    requires handle in db.blobs
  {
    db.blobs[handle].fullHash.data
  }

  /** Every blob row describes real bytes, every live row is backed by a blob row and by a put of that session, and
      every put under a handle put the registered bytes. */
  ghost predicate RowsOk(db: Db, claims: set<Claim>) {
    && (forall h :: h in db.blobs ==> db.blobs[h].size == ByteSize(Registered(db, h)) && |h| == HANDLE_LENGTH)
    && (forall key :: IsLive(db.owners, key) ==>
          key.1 in db.blobs && (key.0, key.1, Registered(db, key.1)) in claims)
    && (forall c :: c in claims ==> c.1 in db.blobs && Registered(db, c.1) == c.2)
  }

  /** Blob rows are never changed or removed. */
  ghost predicate Extends(older: Db, newer: Db) {
    forall h :: h in older.blobs ==> h in newer.blobs && newer.blobs[h] == older.blobs[h]
  }

  ghost predicate TxOk(s: Sys, tx: Tx) {
    && RowsOk(tx.db, s.puts + tx.claims)
    && Extends(s.db, tx.db)
    && (tx.write.Some? ==>
          var (handle, data) := tx.write.value; handle in tx.db.blobs ==> Registered(tx.db, handle) == data)
  }

  ghost predicate ReaderOk(s: Sys, reader: Reader) {
    && reader.handle in s.db.blobs
    && (reader.session, reader.handle, Registered(s.db, reader.handle)) in s.puts
    && match reader
       case Looked(_, handle, row) => row == s.db.blobs[handle]
       case Verified(_, handle) => handle in s.disk.files ==> s.disk.files[handle] == Registered(s.db, handle)
  }

  ghost predicate Inv(s: Sys) {
    && RowsOk(s.db, s.puts)
    && (s.tx.Some? ==> TxOk(s, s.tx.value))
    && (forall r :: r in s.readers ==> ReaderOk(s, s.readers[r]))
    && s.served <= s.puts
  }

  // ---- preservation, one lemma per kind of step ----

  lemma PutTxOk(s: Sys, w: BlobWrite, now: real)
    requires Inv(s) && Genuine(w)
    ensures TxOk(s, PutTx(s.db, s.disk.files, w, now))
  {
    var tx := PutTx(s.db, s.disk.files, w, now);
    if PutResult(s.db, s.disk.files, w).Accepted? {
      assert tx.db == RegisterPut(s.db, w, now);
      assert Registered(tx.db, w.handle) == w.raw;
    } else {
      assert tx.db == s.db && s.puts + tx.claims == s.puts;
    }
  }

  lemma MaintenanceTxOk(s: Sys, tx: Tx)
    requires Inv(s) && tx.write.None? && tx.claims == {}
    requires tx.db.blobs == s.db.blobs
    requires forall key :: IsLive(tx.db.owners, key) ==> IsLive(s.db.owners, key)
    ensures TxOk(s, tx)
  {
    assert s.puts + tx.claims == s.puts;
  }

  lemma CommitOk(s: Sys)
    requires Inv(s)
    ensures Inv(After(s, Commit))
  {
    var t := After(s, Commit);
    if t != s {
      forall r | r in s.readers
        ensures ReaderOk(t, s.readers[r])
      {
        assert ReaderOk(s, s.readers[r]);
      }
    }
  }

  lemma FileStepOk(s: Sys, step: Step)
    requires Inv(s) && (step.WriteStep? || step.UnlinkStep? || step.MoveStep? || step.Corrupt?)
    ensures Inv(After(s, step))
  {
    var t := After(s, step);
    forall r | r in s.readers
      ensures ReaderOk(t, s.readers[r])
    {
      assert ReaderOk(s, s.readers[r]);
    }
  }

  lemma ReaderStepOk(s: Sys, step: Step)
    requires Inv(s) && (step.Lookup? || step.Verify? || step.Read?)
    ensures Inv(After(s, step))
  {
    match step
    case Lookup(r, session, handle) => LookupOk(s, r, session, handle);
    case Verify(r) => VerifyOk(s, r);
    case Read(r) => ReadOk(s, r);
  }

  lemma LookupOk(s: Sys, r: nat, session: SessionKey, handle: Handle)
    requires Inv(s)
    ensures Inv(After(s, Lookup(r, session, handle)))
  {
    assert IsLive(s.db.owners, (session, handle)) ==> handle in s.db.blobs;
  }

  lemma VerifyOk(s: Sys, r: nat)
    requires Inv(s)
    ensures Inv(VerifyReader(s, r))
  {
    assert r in s.readers ==> ReaderOk(s, s.readers[r]);
  }

  lemma ReadOk(s: Sys, r: nat)
    requires Inv(s)
    ensures Inv(ReadFile(s, r))
  {
    assert r in s.readers ==> ReaderOk(s, s.readers[r]);
  }

  lemma BeginOk(s: Sys, step: Step)
    requires Inv(s)
    requires step.BeginPut? || step.BeginTombstone? || step.BeginSweep? || step.BeginReconcile? || step.Abort?
    ensures Inv(After(s, step))
  {
    match step
    case BeginPut(w, now) => if Genuine(w) { PutTxOk(s, w, now); }
    case BeginTombstone(session, handle, tool, size, sweptAt) =>
      MaintenanceTxOk(s, Tx(InsertTombstone(s.db, session, handle, tool, size, sweptAt), None, {}, {}, {}));
    case BeginSweep(args) => MaintenanceTxOk(s, SweepTx(s.db, s.disk.files, args));
    case BeginReconcile(clock) => MaintenanceTxOk(s, ReconcileTx(s.db, s.disk.files, clock));
    case Abort =>
  }

  lemma StepOk(s: Sys, step: Step)
    requires Inv(s)
    ensures Inv(After(s, step))
    ensures Extends(s.db, After(s, step).db)
    ensures s.puts <= After(s, step).puts && s.served <= After(s, step).served
  {
    if step.Commit? {
      CommitOk(s);
    } else if step.WriteStep? || step.UnlinkStep? || step.MoveStep? || step.Corrupt? {
      FileStepOk(s, step);
    } else if step.Lookup? || step.Verify? || step.Read? {
      ReaderStepOk(s, step);
    } else {
      BeginOk(s, step);
    }
  }

  lemma {:induction false} RunOk(s: Sys, steps: seq<Step>)
    requires Inv(s)
    ensures Inv(Run(s, steps))
    ensures Extends(s.db, Run(s, steps).db)
    ensures s.puts <= Run(s, steps).puts && s.served <= Run(s, steps).served
    decreases |steps|
  {
    if steps != [] {
      StepOk(s, steps[0]);
      RunOk(After(s, steps[0]), steps[1..]);
    }
  }

  // ---- safety of every run ----

  /** Whatever writers, rollbacks, crashes and corruptions did in between, a fetch returns the one content that its
      own session put under that handle. */
  lemma FetchReturnsOwnPut(files: Files, steps: seq<Step>, c: Claim)
    requires c in Run(Init(files), steps).served
    ensures c in Run(Init(files), steps).puts
    ensures forall c' :: c' in Run(Init(files), steps).puts && c'.1 == c.1 ==> c'.2 == c.2
  {
    RunOk(Init(files), steps);
  }

  /** The same for a fetch whose steps are not interleaved with anything. */
  lemma FullFetchIsOwnPut(files: Files, steps: seq<Step>, session: SessionKey, handle: Handle, cfg: FetchConfig)
    ensures var s := Run(Init(files), steps);
            var reply := FetchFull(s.db, s.disk.files, session, handle, cfg);
            reply.Blob? ==> (session, handle, Utf8(reply.text)) in s.puts
  {
    RunOk(Init(files), steps);
    var s := Run(Init(files), steps);
    if SessionReferences(s.db, s.disk.files, session, handle) {
      assert IsLive(s.db.owners, (session, handle));
    }
  }

  /** In every reachable state live rows have blob rows, and no later step changes a blob row. */
  lemma RegistrationIsPermanent(files: Files, steps: seq<Step>, more: seq<Step>)
    ensures var s := Run(Init(files), steps);
            && Extends(s.db, Run(s, more).db)
            && forall key :: IsLive(s.db.owners, key) ==> key.1 in s.db.blobs
  {
    RunOk(Init(files), steps);
    RunOk(Run(Init(files), steps), more);
  }

  // ---- file integrity ----

  ghost predicate Agrees(db: Db, files: Files, handle: Handle) {
    handle in db.blobs && handle in files ==> files[handle] == Registered(db, handle)
  }

  /** The file at a registered handle is absent or holds the registered bytes; an open transaction keeps this for the
      rows it will commit, except where its own write is still to come. */
  ghost predicate FilesOk(s: Sys) {
    && (forall h :: Agrees(s.db, s.disk.files, h))
    && (s.tx.Some? ==> forall h :: Agrees(s.tx.value.db, s.disk.files, h)
                                   || (s.tx.value.write.Some? && s.tx.value.write.value.0 == h))
  }

  lemma BeginFilesOk(s: Sys, step: Step)
    requires Inv(s) && FilesOk(s)
    requires step.BeginPut? || step.BeginTombstone? || step.BeginSweep? || step.BeginReconcile?
    ensures FilesOk(After(s, step))
  {
    var t := After(s, step);
    if t != s {
      forall h
        ensures Agrees(t.tx.value.db, t.disk.files, h) || (t.tx.value.write.Some? && t.tx.value.write.value.0 == h)
      {
        assert Agrees(s.db, s.disk.files, h);
      }
    }
  }

  lemma FileStepFilesOk(s: Sys, step: Step)
    requires Inv(s) && FilesOk(s)
    requires step.WriteStep? || step.UnlinkStep? || step.MoveStep? || step.Commit?
    ensures FilesOk(After(s, step))
  {
    var t := After(s, step);
    if s.tx.Some? {
      var tx := s.tx.value;
      assert TxOk(s, tx);
      forall h
        ensures Agrees(t.db, t.disk.files, h)
        ensures t.tx.Some? ==> Agrees(t.tx.value.db, t.disk.files, h)
                               || (t.tx.value.write.Some? && t.tx.value.write.value.0 == h)
      {
        assert Agrees(s.db, s.disk.files, h);
        assert Agrees(tx.db, s.disk.files, h) || (tx.write.Some? && tx.write.value.0 == h);
        assert h in s.db.blobs ==> h in tx.db.blobs && tx.db.blobs[h] == s.db.blobs[h];
      }
    }
  }

  lemma StepFilesOk(s: Sys, step: Step)
    requires Inv(s) && FilesOk(s) && !step.Corrupt?
    ensures FilesOk(After(s, step))
  {
    if step.BeginPut? || step.BeginTombstone? || step.BeginSweep? || step.BeginReconcile? {
      BeginFilesOk(s, step);
    } else if step.WriteStep? || step.UnlinkStep? || step.MoveStep? || step.Commit? {
      FileStepFilesOk(s, step);
    } else {
      IdleFilesOk(s, step);
    }
  }

  lemma IdleFilesOk(s: Sys, step: Step)
    requires FilesOk(s) && (step.Abort? || step.Lookup? || step.Verify? || step.Read?)
    ensures FilesOk(After(s, step))
  {
    assert After(s, step).disk == s.disk && After(s, step).db == s.db;
  }

  lemma {:induction false} RunFilesOk(s: Sys, steps: seq<Step>)
    requires Inv(s) && FilesOk(s)
    requires forall step :: step in steps ==> !step.Corrupt?
    ensures Inv(Run(s, steps)) && FilesOk(Run(s, steps))
    decreases |steps|
  {
    if steps != [] {
      var step := steps[0];
      assert step in steps;
      StepOk(s, step);
      StepFilesOk(s, step);
      RunFilesOk(After(s, step), steps[1..]);
    }
  }

  /** Without outside corruption the file at a registered handle is, at every moment, absent or a match for its row. */
  lemma FilesMatchRegistration(files: Files, steps: seq<Step>, handle: Handle)
    requires forall step :: step in steps ==> !step.Corrupt?
    ensures var s := Run(Init(files), steps);
            handle in s.db.blobs && handle in s.disk.files ==>
              Matches(s.disk.files, handle, s.db.blobs[handle].fullHash, s.db.blobs[handle].size)
  {
    RunFilesOk(Init(files), steps);
    assert Agrees(Run(Init(files), steps).db, Run(Init(files), steps).disk.files, handle);
  }

  // ---- other sessions ----

  /** A put by another session leaves this session's ownership as it was, never takes its content away, and can only
      restore the very bytes this session put.  A put that collides with a registered handle changes nothing. */
  lemma PutsDoNotInterfere(db: Db, disk: Disk, claims: set<Claim>, w: BlobWrite, now: real,
                           session: SessionKey, handle: Handle, cfg: FetchConfig)
    requires RowsOk(db, claims) && Genuine(w) && w.session != session
    ensures var p := PutPlan(db, disk, w, now);
            && OwnedBlob(p.db, session, handle) == OwnedBlob(db, session, handle)
            && (Collides(db, w) ==> p == Plan(db, disk))
            && (FetchFull(db, disk.files, session, handle, cfg).Blob? ==>
                  FetchFull(p.db, p.disk.files, session, handle, cfg) == FetchFull(db, disk.files, session, handle, cfg))
            && (SessionReferences(p.db, p.disk.files, session, handle)
                && !SessionReferences(db, disk.files, session, handle) ==>
                  w.handle == handle && p.disk.files[handle] == w.raw == Registered(db, handle)
                  && (session, handle, w.raw) in claims)
  {
    var key := (session, handle);
    assert IsLive(db.owners, key) ==> handle in db.blobs && (session, handle, Registered(db, handle)) in claims;
  }

  // ---- the transactions of the store object are runs of the protocol ----

  /** A put that meets nobody ends as its plan. */
  lemma PutRun(s: Sys, w: BlobWrite, now: real)
    requires Inv(s) && s.tx.None? && Genuine(w)
    ensures var t := Run(s, [BeginPut(w, now), WriteStep, Commit]);
            t.tx.None? && Plan(t.db, t.disk) == PutPlan(s.db, s.disk, w, now)
  {
    var steps := [BeginPut(w, now), WriteStep, Commit];
    assert steps[1..] == [WriteStep, Commit] && steps[1..][1..] == [Commit] && [Commit][1..] == [];
    var s1 := After(s, steps[0]);
    var s2 := After(s1, WriteStep);
    assert Run(s, steps) == Run(s1, steps[1..]) == Run(s2, [Commit]) == After(s2, Commit);
  }

  /** A put that is rolled back leaves the rows and the history alone, and its file behind. */
  lemma AbortedPutRun(s: Sys, w: BlobWrite, now: real)
    requires s.tx.None? && Genuine(w)
    ensures Run(s, [BeginPut(w, now), WriteStep, Abort]) == s.(disk := PutPlan(s.db, s.disk, w, now).disk)
  {
    var steps := [BeginPut(w, now), WriteStep, Abort];
    assert steps[1..] == [WriteStep, Abort] && steps[1..][1..] == [Abort] && [Abort][1..] == [];
    var s1 := After(s, steps[0]);
    var s2 := After(s1, WriteStep);
    assert Run(s, steps) == Run(s1, steps[1..]) == Run(s2, [Abort]) == After(s2, Abort);
  }

  /** A legacy tombstone replaces the whole row of its key and changes no other row. */
  lemma TombstoneRun(s: Sys, session: SessionKey, handle: Handle, tool: string, size: int, sweptAt: real)
    requires s.tx.None?
    ensures var t := Run(s, [BeginTombstone(session, handle, tool, size, sweptAt), Commit]);
            && t.tx.None? && t.disk == s.disk && t.puts == s.puts && t.db.blobs == s.db.blobs
            && t.db.owners == s.db.owners[(session, handle) :=
                 OwnRow(Tombstone, tool, size, sweptAt, None, Some(sweptAt), Some(LegacyTombstone))]
            && t.db.sessions == if session in s.db.sessions then s.db.sessions else s.db.sessions[session := sweptAt]
  {
    var steps := [BeginTombstone(session, handle, tool, size, sweptAt), Commit];
    assert steps[1..] == [Commit] && [Commit][1..] == [];
    var s1 := After(s, steps[0]);
    assert Run(s, steps) == Run(s1, [Commit]) == After(s1, Commit);
  }

  /** A change from outside between transactions is the given one and no other. */
  lemma OutsideChange(s: Sys, name: string, data: Option<FileData>)
    requires s.tx.None? && forall r :: r in s.readers ==> s.readers[r].Looked?
    ensures var t := After(s, Corrupt(name, data));
            && t == s.(disk := t.disk) && t.disk.orphans == s.disk.orphans
            && (name in t.disk.files <==> data.Some?) && (data.Some? ==> t.disk.files[name] == data.value)
            && forall other :: other != name ==>
                 (other in t.disk.files <==> other in s.disk.files)
                 && (other in s.disk.files ==> t.disk.files[other] == s.disk.files[other])
  {
  }

  /** An undisturbed fetch serves the file exactly to a session that owns the handle live while the file has the registered
      length and hash, and changes nothing else. */
  lemma FetchRun(s: Sys, r: nat, session: SessionKey, handle: Handle)
    requires r !in s.readers
    ensures var key := (session, handle);
            var redeems :=
              && session != "" && LooksLikeHandle(handle)
              && key in s.db.owners && s.db.owners[key].state == Live && handle in s.db.blobs && handle in s.disk.files
              && ByteSize(s.disk.files[handle]) == s.db.blobs[handle].size
              && Sha256(s.disk.files[handle]) == s.db.blobs[handle].fullHash;
            Run(s, [Lookup(r, session, handle), Verify(r), Read(r)])
            == if redeems then s.(served := s.served + {(session, handle, s.disk.files[handle])}) else s
  {
    ValidHandleIff(handle);
    var steps := [Lookup(r, session, handle), Verify(r), Read(r)];
    assert steps[1..] == [Verify(r), Read(r)] && steps[1..][1..] == [Read(r)] && [Read(r)][1..] == [];
    var s1 := After(s, steps[0]);
    var s2 := After(s1, Verify(r));
    assert Run(s, steps) == Run(s1, steps[1..]) == Run(s2, [Read(r)]) == After(s2, Read(r));
    assert After(s2, Read(r)).readers == s.readers;
  }

  function Unlinks(names: seq<string>): seq<Step> {
    seq(|names|, i requires 0 <= i < |names| => UnlinkStep(names[i]))
  }

  lemma {:induction false} UnlinksRun(s: Sys, names: seq<string>)
    requires s.tx.Some? && NoDuplicates(names) && forall name :: name in names <==> name in s.tx.value.unlinks
    requires s.tx.value.write.None? && s.tx.value.moves == {} && s.tx.value.claims == {}
    ensures var t := Run(s, Unlinks(names) + [Commit]);
            && t.tx.None? && t.db == s.tx.value.db
            && t.disk == s.disk.(files := Without(s.disk.files, s.tx.value.unlinks))
    decreases |names|
  {
    var steps := Unlinks(names) + [Commit];
    if names == [] {
      assert s.tx.value.unlinks == {};
      assert steps == [Commit] && [Commit][1..] == [];
      assert Without(s.disk.files, {}) == s.disk.files;
    } else {
      assert steps[0] == UnlinkStep(names[0]) && steps[1..] == Unlinks(names[1..]) + [Commit];
      var s1 := After(s, steps[0]);
      assert names[0] in names;
      assert forall name :: name in names <==> name == names[0] || name in names[1..];
      UnlinksRun(s1, names[1..]);
      assert Without(Without(s.disk.files, {names[0]}), s1.tx.value.unlinks)
          == Without(s.disk.files, s.tx.value.unlinks);
    }
  }

  function Moves(names: seq<string>): seq<Step> {
    seq(|names|, i requires 0 <= i < |names| => MoveStep(names[i]))
  }

  lemma {:induction false} MovesRun(s: Sys, names: seq<string>)
    requires s.tx.Some? && NoDuplicates(names) && forall name :: name in names <==> name in s.tx.value.moves
    requires forall name :: name in names ==> name in s.disk.files
    requires s.tx.value.write.None? && s.tx.value.unlinks == {} && s.tx.value.claims == {}
    ensures var t := Run(s, Moves(names) + [Commit]);
            && t.tx.None? && t.db == s.tx.value.db
            && t.disk == MoveOut(s.disk, s.tx.value.moves)
    decreases |names|
  {
    var steps := Moves(names) + [Commit];
    if names == [] {
      assert s.tx.value.moves == {};
      assert steps == [Commit] && [Commit][1..] == [];
      assert MoveOut(s.disk, {}) == s.disk;
    } else {
      assert steps[0] == MoveStep(names[0]) && steps[1..] == Moves(names[1..]) + [Commit];
      var s1 := After(s, steps[0]);
      assert names[0] in names;
      assert forall name :: name in names <==> name == names[0] || name in names[1..];
      MoveOneMore(s.disk, names[0], s1.tx.value.moves, s.tx.value.moves);
      MovesRun(s1, names[1..]);
    }
  }

  lemma MoveOneMore(disk: Disk, name: string, rest: set<string>, all: set<string>)
    requires name !in rest && all == {name} + rest && forall n :: n in all ==> n in disk.files
    ensures MoveOut(MoveOut(disk, {name}), rest) == MoveOut(disk, all)
  {
    var twice, once := MoveOut(MoveOut(disk, {name}), rest), MoveOut(disk, all);
    assert twice.files == once.files;
    assert twice.orphans == once.orphans;
  }

  /** A reconcile that meets nobody ends as its plan, in whatever order it moves files. */
  lemma ReconcileRun(s: Sys, clock: Handle -> real, names: seq<string>)
    requires s.tx.None? && NoDuplicates(names)
    requires forall name :: name in names <==> name in Unknown(s.db, s.disk.files)
    ensures var t := Run(s, [BeginReconcile(clock)] + Moves(names) + [Commit]);
            t.tx.None? && Plan(t.db, t.disk) == ReconcilePlan(s.db, s.disk, clock)
  {
    var steps := [BeginReconcile(clock)] + Moves(names) + [Commit];
    assert steps[1..] == Moves(names) + [Commit];
    MovesRun(After(s, steps[0]), names);
  }

  /** A sweep that meets nobody ends as its plan, in whatever order it unlinks. */
  lemma SweepRun(s: Sys, args: SweepArgs, names: seq<string>)
    requires s.tx.None? && OldestFirst(args.oldestFirst, s.db.blobs) && NoDuplicates(names)
    requires forall name :: name in names <==> name in DeadHandles(s.db.blobs, SweptOwners(s.db, s.disk.files, args))
    ensures var t := Run(s, [BeginSweep(args)] + Unlinks(names) + [Commit]);
            t.tx.None? && Plan(t.db, t.disk) == SweepPlan(s.db, s.disk, args)
  {
    var steps := [BeginSweep(args)] + Unlinks(names) + [Commit];
    assert steps[1..] == Unlinks(names) + [Commit];
    UnlinksRun(After(s, steps[0]), names);
  }
}
