/** What `reconcile` establishes, and what its counters say after retries. */
module RescueReconcile {
  import opened Prelude
  import opened RescueState
  import opened RescueStore

  ghost predicate LiveRowsRegistered(db: Db) {
    forall key :: IsLive(db.owners, key) ==> key.1 in db.blobs
  }

  /** Rows and files agree: every live row has its blob row and a matching file, every file has a blob row. */
  ghost predicate Settled(db: Db, files: Files) {
    && (forall key :: IsLive(db.owners, key) ==>
          key.1 in db.blobs && Matches(files, key.1, db.blobs[key.1].fullHash, db.blobs[key.1].size))
    && (forall name :: name in files ==> name in db.blobs)
  }

  /** Registered and owned live by some session. */
  ghost predicate IsInUse(db: Db, handle: Handle) {
    handle in db.blobs && exists key :: key in db.owners && key.1 == handle && db.owners[key].state == Live
  }

  /** Missing are the used handles without a file, mismatched those whose file has another length or hash. */
  lemma DamagedAre(db: Db, files: Files, handle: Handle)
    ensures handle in Damaged(db, files, MissingBlob) <==> IsInUse(db, handle) && handle !in files
    ensures handle in Damaged(db, files, IntegrityMismatch)
       <==> IsInUse(db, handle) && handle in files
            && (ByteSize(files[handle]) != db.blobs[handle].size || Sha256(files[handle]) != db.blobs[handle].fullHash)
  {
    assert HasLiveOwner(db.owners, handle) <==>
           exists key :: key in db.owners && key.1 == handle && db.owners[key].state == Live;
  }

  /** What one reconcile does to every row, and what it reports. */
  lemma ReconcileFates(db: Db, disk: Disk, clock: Handle -> real, key: (SessionKey, Handle))
    requires key in db.owners
    ensures var owners, row, handle := ReconcilePlan(db, disk, clock).db.owners, db.owners[key], key.1;
            var stamped := (reason: Reason) =>
              OwnRow(Tombstone, row.tool, row.size, row.createdAt, row.accessedAt, Some(clock(handle)), Some(reason));
            && owners.Keys == db.owners.Keys
            && owners[key] ==
                 if row.state != Live || handle !in db.blobs then row
                 else if handle !in disk.files then stamped(MissingBlob)
                 else if ByteSize(disk.files[handle]) != db.blobs[handle].size
                      || Sha256(disk.files[handle]) != db.blobs[handle].fullHash then stamped(IntegrityMismatch)
                 else row
  {
    assert db.owners[key].state == Live ==> HasLiveOwner(db.owners, key.1);
  }

  /** The counters count handles, and files without a row. */
  lemma CountsAre(db: Db, files: Files, missing: set<Handle>, mismatched: set<Handle>, unknown: set<string>)
    requires forall h :: h in missing <==> IsInUse(db, h) && h !in files
    requires forall h :: h in mismatched <==>
               IsInUse(db, h) && h in files
               && (ByteSize(files[h]) != db.blobs[h].size || Sha256(files[h]) != db.blobs[h].fullHash)
    requires forall name :: name in unknown <==> name in files && name !in db.blobs
    ensures ReconcileCounts(db, files) == ReconcileStats(|missing|, |mismatched|, |unknown|)
  {
    forall h
      ensures h in Damaged(db, files, MissingBlob) <==> h in missing
      ensures h in Damaged(db, files, IntegrityMismatch) <==> h in mismatched
    {
      DamagedAre(db, files, h);
    }
    assert Damaged(db, files, MissingBlob) == missing && Damaged(db, files, IntegrityMismatch) == mismatched;
    assert Unknown(db, files) == unknown;
  }

  /** A state is settled exactly when a reconcile would find nothing to count. */
  lemma SettledMeansNothingToDo(db: Db, files: Files)
    requires LiveRowsRegistered(db)
    ensures Settled(db, files) <==> ReconcileCounts(db, files) == ReconcileStats(0, 0, 0)
  {
    var missing, wrong, unknown := Damaged(db, files, MissingBlob), Damaged(db, files, IntegrityMismatch), Unknown(db, files);
    if Settled(db, files) {
      forall handle
        ensures Damage(db, files, handle).None?
      {
        if handle in db.blobs && HasLiveOwner(db.owners, handle) {
          var key :| key in db.owners && key.1 == handle && db.owners[key].state.Live?;
          assert IsLive(db.owners, key);
        }
      }
      assert missing == {} && wrong == {} && unknown == {};
    }
    if missing == {} && wrong == {} && unknown == {} {
      forall key | IsLive(db.owners, key)
        ensures Matches(files, key.1, db.blobs[key.1].fullHash, db.blobs[key.1].size)
      {
        assert HasLiveOwner(db.owners, key.1);
        assert key.1 !in missing && key.1 !in wrong;
      }
      assert forall name :: name in files && name !in db.blobs ==> name in unknown;
    }
  }

  /** One reconcile settles the store, and the next one, at whatever time, changes nothing and reports zeros. */
  lemma ReconcileSettles(db: Db, disk: Disk, clock: Handle -> real, later: Handle -> real)
    requires LiveRowsRegistered(db)
    ensures var p := ReconcilePlan(db, disk, clock);
            && Settled(p.db, p.disk.files)
            && ReconcilePlan(p.db, p.disk, later) == p
            && ReconcileCounts(p.db, p.disk.files) == ReconcileStats(0, 0, 0)
  {
    var p := ReconcilePlan(db, disk, clock);
    ReconcileMakesSettled(db, disk, clock);
    NothingToReconcile(p.db, p.disk, later);
    SettledMeansNothingToDo(p.db, p.disk.files);
  }

  lemma ReconcileMakesSettled(db: Db, disk: Disk, clock: Handle -> real)
    requires LiveRowsRegistered(db)
    ensures var p := ReconcilePlan(db, disk, clock); Settled(p.db, p.disk.files)
  {
    var p := ReconcilePlan(db, disk, clock);
    forall key | IsLive(p.db.owners, key)
      ensures key.1 in p.db.blobs && Matches(p.disk.files, key.1, p.db.blobs[key.1].fullHash, p.db.blobs[key.1].size)
    {
      assert IsLive(db.owners, key) && Damage(db, disk.files, key.1).None?;
      assert HasLiveOwner(db.owners, key.1);
    }
  }

  lemma NothingToReconcile(db: Db, disk: Disk, clock: Handle -> real)
    requires Settled(db, disk.files)
    ensures ReconcilePlan(db, disk, clock) == Plan(db, disk)
  {
    NothingDamaged(db, disk.files);
    assert ReconciledOwners(db, disk.files, clock) == db.owners;
    assert Unknown(db, disk.files) == {};
    assert MoveOut(disk, {}) == disk;
  }

  lemma NothingDamaged(db: Db, files: Files)
    requires Settled(db, files)
    ensures forall handle :: Damage(db, files, handle).None?
  {
    forall handle
      ensures Damage(db, files, handle).None?
    {
      if handle in db.blobs && HasLiveOwner(db.owners, handle) {
        var key :| key in db.owners && key.1 == handle && db.owners[key].state.Live?;
        assert IsLive(db.owners, key);
      }
    }
  }

  /** A registered file stays, and any other file is found among the orphans under its name.  An orphan that was there
      before stays exactly when no file of its name arrives; otherwise it is overwritten. */
  lemma ReconcileLosesNoFile(db: Db, disk: Disk, clock: Handle -> real, name: string)
    ensures var p := ReconcilePlan(db, disk, clock);
            && (name in disk.files ==>
                  if name in db.blobs then name in p.disk.files && p.disk.files[name] == disk.files[name]
                  else name !in p.disk.files && name in p.disk.orphans && p.disk.orphans[name] == disk.files[name])
            && (name in disk.orphans ==>
                  name in p.disk.orphans
                  && (p.disk.orphans[name] == disk.orphans[name]
                      <==> (name in disk.files && name !in db.blobs ==> disk.files[name] == disk.orphans[name])))
  {
  }

  /** `repeats` rolled back runs multiply the row counters and leave the orphan counter alone. */
  lemma {:induction false} RetriedStatsMultiply(once: ReconcileStats, repeats: nat)
    ensures RetriedStats(once, repeats)
            == ReconcileStats((repeats + 1) * once.missing, (repeats + 1) * once.mismatch, once.orphan)
  {
    if repeats > 0 {
      RetriedStatsMultiply(once, repeats - 1);
      assert (repeats + 1) * once.missing == repeats * once.missing + once.missing;
      assert (repeats + 1) * once.mismatch == repeats * once.mismatch + once.mismatch;
    }
  }

  /** The report of a reconcile is the number of handles it really tombstoned exactly when no run of its operation was
      rolled back or no handle was damaged. */
  lemma ReportIsExact(db: Db, files: Files, repeats: nat)
    ensures RetriedStats(ReconcileCounts(db, files), repeats) == ReconcileCounts(db, files)
       <==> repeats == 0 || (Damaged(db, files, MissingBlob) == {} && Damaged(db, files, IntegrityMismatch) == {})
  {
    var once := ReconcileCounts(db, files);
    RetriedStatsEqualOnce(once, repeats);
    assert once.missing == 0 <==> Damaged(db, files, MissingBlob) == {};
    assert once.mismatch == 0 <==> Damaged(db, files, IntegrityMismatch) == {};
  }

  lemma RetriedStatsEqualOnce(once: ReconcileStats, repeats: nat)
    ensures RetriedStats(once, repeats) == once <==> repeats == 0 || (once.missing == 0 && once.mismatch == 0)
  {
    RetriedStatsMultiply(once, repeats);
    assert (repeats + 1) * once.missing == repeats * once.missing + once.missing;
    assert (repeats + 1) * once.mismatch == repeats * once.mismatch + once.mismatch;
    assert repeats > 0 && once.missing > 0 ==> repeats * once.missing > 0;
    assert repeats > 0 && once.mismatch > 0 ==> repeats * once.mismatch > 0;
  }
}
