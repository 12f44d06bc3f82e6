/** The store object: each write transaction in the statement order of the source, proved to have the effect of its plan. */
module RescueStore {
  import opened Prelude
  import opened RescueState

  /** Where a transaction attempt meets "database is locked": at BEGIN, before the operation ran, or at COMMIT, after it. */
  datatype LockPoint = AtBegin | AtCommit

  datatype PutReport = Done(accepted: bool) | RaisedIntegrityError | RaisedLocked

  function CleanReport(outcome: PutOutcome): PutReport {
    match outcome
    case Accepted => Done(true)
    case Refused => Done(false)
    case IntegrityError => RaisedIntegrityError
  }

  /** Running the operation again on the files that a rolled back attempt left has the same outcome, rows and files. */
  lemma PutReplan(db: Db, disk: Disk, w: BlobWrite, now: real)
    ensures var first := PutPlan(db, disk, w, now);
            && PutPlan(db, first.disk, w, now) == first
            && PutResult(db, first.disk.files, w) == PutResult(db, disk.files, w)
  {
  }

  /** How many of the first n attempts ran the operation before they met the lock. */
  function LocksMet(locks: seq<LockPoint>, n: nat): nat
    requires n <= |locks|
  {
    if n == 0 then 0 else LocksMet(locks, n - 1) + if locks[n - 1] == AtCommit then 1 else 0
  }

  function CommitLocks(locks: seq<LockPoint>): nat {
    LocksMet(locks, |locks|)
  }

  function AddStats(a: ReconcileStats, b: ReconcileStats): ReconcileStats {
    ReconcileStats(a.missing + b.missing, a.mismatch + b.mismatch, a.orphan + b.orphan)
  }

  /** What `reconcile` reports when `repeats` attempts ran the operation and were rolled back first: the files it
      moved away stay away, so orphans are counted once, but the rows are found damaged again each time. */
  function RetriedStats(once: ReconcileStats, repeats: nat): ReconcileStats {
    if repeats == 0 then once else AddStats(RetriedStats(once, repeats - 1), once.(orphan := 0))
  }

  /** A repeated attempt finds the same damage and no orphan. */
  lemma ReconcileReplan(db: Db, disk: Disk, clock: Handle -> real)
    ensures var first := ReconcilePlan(db, disk, clock);
            && ReconcilePlan(db, first.disk, clock) == first
            && ReconcileCounts(db, first.disk.files) == ReconcileCounts(db, disk.files).(orphan := 0)
  {
    var left := ReconcilePlan(db, disk, clock).disk;
    assert forall handle :: Damage(db, left.files, handle) == Damage(db, disk.files, handle);
    assert Damaged(db, left.files, MissingBlob) == Damaged(db, disk.files, MissingBlob);
    assert Damaged(db, left.files, IntegrityMismatch) == Damaged(db, disk.files, IntegrityMismatch);
    assert Unknown(db, left.files) == {};
  }

  /** The disk after `ran` runs of a reconcile that were rolled back. */
  function ReconciledDisk(db: Db, disk: Disk, clock: Handle -> real, ran: nat): Disk {
    if ran == 0 then disk else ReconcilePlan(db, ReconciledDisk(db, disk, clock, ran - 1), clock).disk
  }

  /** The counters after `ran` runs, none of which reset them. */
  function Counted(db: Db, disk: Disk, clock: Handle -> real, ran: nat): ReconcileStats {
    if ran == 0 then ReconcileStats(0, 0, 0)
    else AddStats(Counted(db, disk, clock, ran - 1), ReconcileCounts(db, ReconciledDisk(db, disk, clock, ran - 1).files))
  }

  /** However often the operation ran before, one more run ends where a single run ends, and the counters are those of
      RetriedStats. */
  lemma {:induction false} ReconcileRuns(db: Db, disk: Disk, clock: Handle -> real, ran: nat)
    ensures ReconcilePlan(db, ReconciledDisk(db, disk, clock, ran), clock) == ReconcilePlan(db, disk, clock)
    ensures Counted(db, disk, clock, ran + 1) == RetriedStats(ReconcileCounts(db, disk.files), ran)
  {
    ReconcileReplan(db, disk, clock);
    if ran > 0 {
      ReconcileRuns(db, disk, clock, ran - 1);
    }
  }

  /** The ownership rows after the handles in `done` were processed. */
  function ReconciledPart(work: Db, files: Files, clock: Handle -> real, done: seq<Handle>): Owners {
    map key | key in work.owners ::
      if key.1 in done && work.owners[key].state.Live? && Damage(work, files, key.1).Some?
      then Tombstoned(work.owners[key], clock(key.1), Damage(work, files, key.1).value)
      else work.owners[key]
  }

  /** Processing one more handle sees its original owners and changes only their rows. */
  lemma ReconcileStep(work: Db, files: Files, clock: Handle -> real, done: seq<Handle>, handle: Handle)
    requires handle !in done
    ensures var part := ReconciledPart(work, files, clock, done);
            && HasLiveOwner(part, handle) == HasLiveOwner(work.owners, handle)
            && ReconciledPart(work, files, clock, done + [handle])
               == match Damage(work, files, handle)
                  case None => part
                  case Some(reason) => TombstoneHandles(part, {handle}, clock(handle), reason)
  {
    var part := ReconciledPart(work, files, clock, done);
    SameOwners(work.owners, part, handle);
    match Damage(work, files, handle)
    case None => ReconcileIntact(work, files, clock, done, handle);
    case Some(reason) => ReconcileDamaged(work, files, clock, done, handle, reason);
  }

  lemma SameOwners(owners: Owners, part: Owners, handle: Handle)
    requires part.Keys == owners.Keys && forall key :: key in part && key.1 == handle ==> part[key] == owners[key]
    ensures HasLiveOwner(part, handle) == HasLiveOwner(owners, handle)
  {
  }

  lemma ReconcileIntact(work: Db, files: Files, clock: Handle -> real, done: seq<Handle>, handle: Handle)
    requires Damage(work, files, handle).None?
    ensures ReconciledPart(work, files, clock, done + [handle]) == ReconciledPart(work, files, clock, done)
  {
  }

  lemma ReconcileDamaged(work: Db, files: Files, clock: Handle -> real, done: seq<Handle>, handle: Handle, reason: Reason)
    requires handle !in done && Damage(work, files, handle) == Some(reason)
    ensures ReconciledPart(work, files, clock, done + [handle])
         == TombstoneHandles(ReconciledPart(work, files, clock, done), {handle}, clock(handle), reason)
  {
  }

  lemma ReconcileNone(work: Db, files: Files, clock: Handle -> real)
    ensures ReconciledPart(work, files, clock, []) == work.owners
  {
  }

  lemma ReconcileDone(work: Db, files: Files, clock: Handle -> real, rows: seq<Handle>)
    requires forall handle :: handle in rows <==> handle in work.blobs
    ensures ReconciledPart(work, files, clock, rows) == ReconciledOwners(work, files, clock)
  {
  }

  function CountDamage(rows: seq<Handle>, work: Db, files: Files, reason: Reason): nat {
    |Filter(rows, handle => Damage(work, files, handle) == Some(reason))|
  }

  /** The counters after the handles in `done` were processed. */
  function Tally(stats: ReconcileStats, work: Db, files: Files, done: seq<Handle>): ReconcileStats {
    stats.(missing := stats.missing + CountDamage(done, work, files, MissingBlob),
           mismatch := stats.mismatch + CountDamage(done, work, files, IntegrityMismatch))
  }

  lemma TallyStep(stats: ReconcileStats, work: Db, files: Files, done: seq<Handle>, handle: Handle)
    ensures var before := Tally(stats, work, files, done);
            Tally(stats, work, files, done + [handle])
            == match Damage(work, files, handle)
               case None => before
               case Some(reason) =>
                 if reason == MissingBlob then before.(missing := before.missing + 1)
                 else before.(mismatch := before.mismatch + 1)
  {
    FilterConcat(done, [handle], handle => Damage(work, files, handle) == Some(MissingBlob));
    FilterConcat(done, [handle], handle => Damage(work, files, handle) == Some(IntegrityMismatch));
    assert [handle][1..] == [];
  }

  lemma TallyDone(stats: ReconcileStats, work: Db, files: Files, rows: seq<Handle>)
    requires NoDuplicates(rows) && forall handle :: handle in rows <==> handle in work.blobs
    ensures Tally(stats, work, files, rows)
            == stats.(missing := stats.missing + |Damaged(work, files, MissingBlob)|,
                      mismatch := stats.mismatch + |Damaged(work, files, IntegrityMismatch)|)
  {
    FilterCardinality(rows, handle => Damage(work, files, handle) == Some(MissingBlob),
                      Damaged(work, files, MissingBlob));
    FilterCardinality(rows, handle => Damage(work, files, handle) == Some(IntegrityMismatch),
                      Damaged(work, files, IntegrityMismatch));
  }

  /** The blob directory after the unknown files among `done` moved out. */
  ghost predicate QuarantinedSoFar(before: Disk, after: Disk, done: seq<string>, isUnknown: string -> bool) {
    && (forall name :: name in after.files <==> name in before.files && !(name in done && isUnknown(name)))
    && (forall name :: name in after.files ==> after.files[name] == before.files[name])
    && (forall name :: name in after.orphans <==> name in before.orphans || (name in done && isUnknown(name)))
    && (forall name :: name in after.orphans ==>
          if name in done && isUnknown(name) then name in before.files && after.orphans[name] == before.files[name]
          else after.orphans[name] == before.orphans[name])
  }

  lemma QuarantineStep(before: Disk, now: Disk, done: seq<string>, name: string, isUnknown: string -> bool)
    requires QuarantinedSoFar(before, now, done, isUnknown)
    requires name in before.files && name !in done
    ensures name in now.files
    ensures var next := if isUnknown(name) then Disk(now.files - {name}, now.orphans[name := now.files[name]]) else now;
            QuarantinedSoFar(before, next, done + [name], isUnknown)
  {
  }

  lemma QuarantineDone(before: Disk, now: Disk, names: seq<string>, isUnknown: string -> bool, work: Db)
    requires QuarantinedSoFar(before, now, names, isUnknown)
    requires forall name :: name in names <==> name in before.files
    requires forall name :: isUnknown(name) <==> name !in work.blobs
    ensures now == MoveOut(before, Unknown(work, before.files))
  {
    var out := Unknown(work, before.files);
    assert forall name :: name in out <==> name in names && isUnknown(name);
    var expected := MoveOut(before, out);
    assert now.files == expected.files;
    assert now.orphans == expected.orphans;
  }

  lemma TombstoneOneMore(kept: Owners, front: seq<Handle>, handle: Handle, all: seq<Handle>, now: real)
    requires all == front + [handle]
    ensures TombstoneHandles(TombstoneHandles(kept, (set h | h in front), now, SizeCap), {handle}, now, SizeCap)
         == TombstoneHandles(kept, (set h | h in all), now, SizeCap)
  {
  }

  class OwnershipStore {
    var db: Db
    var disk: Disk

    constructor (files: Files)
      ensures db == Db(map[], map[], map[]) && disk == Disk(files, map[])
    {
      db := Db(map[], map[], map[]);
      disk := Disk(files, map[]);
    }

    /** The body of `put_blob`'s operation on the working rows `work`. */
    method PutOperation(work: Db, w: BlobWrite, now: real) returns (rows: Db, outcome: PutOutcome)
      modifies this`disk
      ensures Plan(rows, disk) == PutPlan(work, old(disk), w, now) || outcome == IntegrityError
      ensures outcome == PutResult(work, old(disk.files), w)
      ensures disk == PutPlan(work, old(disk), w, now).disk
    {
      rows := work;
      var known := w.handle in rows.blobs;
      if known && (rows.blobs[w.handle].fullHash != w.fullHash || rows.blobs[w.handle].size != w.size) {
        return rows, Refused;
      }
      if !known || !Matches(disk.files, w.handle, w.fullHash, w.size) {
        disk := disk.(files := disk.files[w.handle := w.raw]);
        if !Matches(disk.files, w.handle, w.fullHash, w.size) {
          return rows, Refused;
        }
      }
      if !known {
        if |w.handle| != HANDLE_LENGTH {
          return rows, IntegrityError;
        }
        rows := rows.(blobs := rows.blobs[w.handle := BlobRow(w.fullHash, w.size, now)]);
      }
      if w.session !in rows.sessions {
        rows := rows.(sessions := rows.sessions[w.session := now]);
      }
      var key := (w.session, w.handle);
      if key in rows.owners {
        var row := rows.owners[key].(state := Live, tool := w.tool, size := w.size, accessedAt := Some(now),
                                     sweptAt := None, reason := None);
        rows := rows.(owners := rows.owners[key := row]);
      } else {
        var row := OwnRow(Live, w.tool, w.size, now, Some(now), None, None);
        rows := rows.(owners := rows.owners[key := row]);
      }
      outcome := Accepted;
    }

    /** `put_blob` under `_write_tx`: `locks` are the attempts that met a lock, `gaveUp` says that the deadline passed
        after them.  Rolled back attempts leave their file writes behind, and still the call ends as one clean run. */
    method PutBlob(w: BlobWrite, now: real, locks: seq<LockPoint>, gaveUp: bool) returns (report: PutReport)
      modifies this
      ensures var plan := PutPlan(old(db), old(disk), w, now);
              if report == RaisedLocked then
                gaveUp && db == old(db) && (disk == old(disk) || disk == plan.disk)
              else
                report == CleanReport(PutResult(old(db), old(disk.files), w)) && Plan(db, disk) == plan
      ensures !gaveUp ==> report != RaisedLocked
    {
      PutReplan(db, disk, w, now);
      for i := 0 to |locks|
        invariant db == old(db)
        invariant disk == old(disk) || disk == PutPlan(db, old(disk), w, now).disk
      {
        if locks[i] == AtCommit {
          var _, outcome := PutOperation(db, w, now);
          if outcome == IntegrityError {
            return RaisedIntegrityError;
          }
        }
      }
      if gaveUp {
        return RaisedLocked;
      }
      var rows, outcome := PutOperation(db, w, now);
      if outcome == IntegrityError {
        return RaisedIntegrityError;
      }
      db := rows;
      report := Done(outcome == Accepted);
    }

    /** The last loop of `sweep`. */
    method UnlinkDead(owners: Owners)
      modifies this`disk
      ensures disk == old(disk).(files := Without(old(disk.files), DeadHandles(db.blobs, owners)))
    {
      var rows := Listing(db.blobs.Keys);
      for i := 0 to |rows|
        invariant disk.orphans == old(disk.orphans)
        invariant forall name :: (name in disk.files
                                  <==> name in old(disk.files) && (name !in rows[..i] || HasLiveOwner(owners, name)))
        invariant forall name :: name in disk.files ==> disk.files[name] == old(disk.files)[name]
      {
        assert rows[..i + 1] == rows[..i] + [rows[i]];
        if !HasLiveOwner(owners, rows[i]) {
          disk := disk.(files := disk.files - {rows[i]});
        }
      }
    }

    /** The running total that `sweep` starts from. */
    method PresentTotal(order: seq<Handle>) returns (total: int)
      ensures total == PresentSizes(order, db.blobs, disk.files)
    {
      total := 0;
      for i := 0 to |order|
        invariant total + PresentSizes(order[i..], db.blobs, disk.files) == PresentSizes(order, db.blobs, disk.files)
      {
        assert order[i..][1..] == order[i + 1..];
        if order[i] in disk.files {
          total := total + SizeOf(db.blobs, order[i]);
        }
      }
    }

    /** The size loop of `sweep`. */
    method EvictOldest(kept: Owners, order: seq<Handle>, start: int, maxBytes: int, now: real) returns (owners: Owners)
      ensures var evicted := order[..EvictCount(order, db.blobs, start, maxBytes)];
              owners == TombstoneHandles(kept, (set handle | handle in evicted), now, SizeCap)
    {
      owners := kept;
      var total, i := start, 0;
      while i < |order|
        invariant 0 <= i <= |order|
        invariant i + EvictCount(order[i..], db.blobs, total, maxBytes) == EvictCount(order, db.blobs, start, maxBytes)
        invariant owners == TombstoneHandles(kept, (set handle | handle in order[..i]), now, SizeCap)
      {
        if total <= maxBytes {
          break;
        }
        assert order[i..][1..] == order[i + 1..];
        assert order[..i + 1] == order[..i] + [order[i]];
        TombstoneOneMore(kept, order[..i], order[i], order[..i + 1], now);
        owners := TombstoneHandles(owners, {order[i]}, now, SizeCap);
        total := total - SizeOf(db.blobs, order[i]);
        i := i + 1;
      }
    }

    /** `sweep`'s operation. */
    method SweepOperation(args: SweepArgs) returns (rows: Db)
      requires OldestFirst(args.oldestFirst, db.blobs)
      modifies this`disk
      ensures Plan(rows, disk) == SweepPlan(db, old(disk), args)
    {
      var total := PresentTotal(args.oldestFirst);
      var kept := DropTombstones(TtlExpire(db.owners, args.now, args.ttl), args.now, args.tombstoneTtl);
      var owners := EvictOldest(kept, args.oldestFirst, total, args.maxMb * BYTES_PER_MB, args.now);
      UnlinkDead(owners);
      rows := db.(owners := owners);
    }

    /** `sweep` under `_write_tx`: an attempt that met a lock at COMMIT has already removed its files. */
    method Sweep(args: SweepArgs, locks: seq<LockPoint>)
      requires OldestFirst(args.oldestFirst, db.blobs)
      modifies this
      ensures Plan(db, disk) == SweepPlan(old(db), SweptDisk(old(db), old(disk), args, CommitLocks(locks)), args)
    {
      ghost var ran := 0;
      for i := 0 to |locks|
        invariant db == old(db) && ran == LocksMet(locks, i)
        invariant disk == SweptDisk(db, old(disk), args, ran)
      {
        if locks[i] == AtCommit {
          var _ := SweepOperation(args);
          ran := ran + 1;
        }
      }
      db := SweepOperation(args);
    }

    /** One round of the first loop of `reconcile`. */
    method CheckHandle(work: Db, clock: Handle -> real, handle: Handle, ghost done: seq<Handle>,
                       before: Owners, ghost start: ReconcileStats, stats: ReconcileStats)
      returns (owners: Owners, counted: ReconcileStats)
      requires handle in work.blobs && handle !in done
      requires before == ReconciledPart(work, disk.files, clock, done)
      requires stats == Tally(start, work, disk.files, done)
      ensures owners == ReconciledPart(work, disk.files, clock, done + [handle])
      ensures counted == Tally(start, work, disk.files, done + [handle])
    {
      ReconcileStep(work, disk.files, clock, done, handle);
      TallyStep(start, work, disk.files, done, handle);
      owners, counted := before, stats;
      if HasLiveOwner(owners, handle) {
        if handle !in disk.files {
          counted := counted.(missing := counted.missing + 1);
          owners := TombstoneHandles(owners, {handle}, clock(handle), MissingBlob);
        } else if !Matches(disk.files, handle, work.blobs[handle].fullHash, work.blobs[handle].size) {
          counted := counted.(mismatch := counted.mismatch + 1);
          owners := TombstoneHandles(owners, {handle}, clock(handle), IntegrityMismatch);
        }
      }
    }

    /** The first loop of `reconcile`: live rows whose file is missing or wrong become tombstones. */
    method TombstoneDamaged(work: Db, clock: Handle -> real, stats: ReconcileStats)
      returns (owners: Owners, counted: ReconcileStats)
      ensures owners == ReconciledOwners(work, disk.files, clock)
      ensures counted == stats.(missing := stats.missing + |Damaged(work, disk.files, MissingBlob)|,
                                mismatch := stats.mismatch + |Damaged(work, disk.files, IntegrityMismatch)|)
    {
      var rows := Listing(work.blobs.Keys);
      ReconcileNone(work, disk.files, clock);
      owners, counted := work.owners, stats;
      for i := 0 to |rows|
        invariant owners == ReconciledPart(work, disk.files, clock, rows[..i])
        invariant counted == Tally(stats, work, disk.files, rows[..i])
      {
        assert rows[..i + 1] == rows[..i] + [rows[i]];
        owners, counted := CheckHandle(work, clock, rows[i], rows[..i], owners, stats, counted);
      }
      assert rows[..|rows|] == rows;
      ReconcileDone(work, disk.files, clock, rows);
      TallyDone(stats, work, disk.files, rows);
    }

    /** The second loop of `reconcile`, over one listing of the blob directory. */
    method QuarantineListed(names: seq<string>, isUnknown: string -> bool) returns (orphans: nat)
      requires NoDuplicates(names) && forall name :: name in names ==> name in disk.files
      modifies this`disk
      ensures QuarantinedSoFar(old(disk), disk, names, isUnknown)
      ensures orphans == |Filter(names, isUnknown)|
    {
      orphans := 0;
      for i := 0 to |names|
        invariant QuarantinedSoFar(old(disk), disk, names[..i], isUnknown)
        invariant orphans + |Filter(names[i..], isUnknown)| == |Filter(names, isUnknown)|
      {
        assert names[i..][1..] == names[i + 1..];
        assert names[..i + 1] == names[..i] + [names[i]];
        QuarantineStep(old(disk), disk, names[..i], names[i], isUnknown);
        if isUnknown(names[i]) {
          orphans := orphans + 1;
          disk := Disk(disk.files - {names[i]}, disk.orphans[names[i] := disk.files[names[i]]]);
        }
      }
      assert names[..|names|] == names;
    }

    /** Files without a blob row leave the blob directory. */
    method QuarantineOrphans(work: Db, stats: ReconcileStats) returns (counted: ReconcileStats)
      modifies this`disk
      ensures disk == MoveOut(old(disk), Unknown(work, old(disk.files)))
      ensures counted == stats.(orphan := stats.orphan + |Unknown(work, old(disk.files))|)
    {
      var names := Listing(disk.files.Keys);
      var isUnknown := (name: string) => name !in work.blobs;
      var orphans := QuarantineListed(names, isUnknown);
      QuarantineDone(old(disk), disk, names, isUnknown, work);
      FilterCardinality(names, isUnknown, Unknown(work, old(disk.files)));
      counted := stats.(orphan := stats.orphan + orphans);
    }

    /** `reconcile`'s operation.  Its counters live outside it, so they start at `stats`. */
    method ReconcileOperation(work: Db, clock: Handle -> real, stats: ReconcileStats)
      returns (rows: Db, counted: ReconcileStats)
      modifies this`disk
      ensures Plan(rows, disk) == ReconcilePlan(work, old(disk), clock)
      ensures counted == AddStats(stats, ReconcileCounts(work, old(disk.files)))
    {
      var owners, tombstoned := TombstoneDamaged(work, clock, stats);
      counted := QuarantineOrphans(work, tombstoned);
      rows := work.(owners := owners);
    }

    /** An attempt of `reconcile` that meets the lock at COMMIT: its files and counters stay. */
    method RolledBackReconcile(clock: Handle -> real, stats: ReconcileStats, ghost start: Disk, ghost ran: nat)
      returns (counted: ReconcileStats)
      requires disk == ReconciledDisk(db, start, clock, ran) && stats == Counted(db, start, clock, ran)
      modifies this`disk
      ensures disk == ReconciledDisk(db, start, clock, ran + 1) && counted == Counted(db, start, clock, ran + 1)
    {
      var _, total := ReconcileOperation(db, clock, stats);
      counted := total;
    }

    /** The attempt of `reconcile` that commits. */
    method CommittedReconcile(clock: Handle -> real, stats: ReconcileStats, ghost start: Disk, ghost ran: nat)
      returns (counted: ReconcileStats)
      requires disk == ReconciledDisk(db, start, clock, ran) && stats == Counted(db, start, clock, ran)
      modifies this
      ensures Plan(db, disk) == ReconcilePlan(old(db), start, clock)
      ensures counted == RetriedStats(ReconcileCounts(old(db), start.files), ran)
    {
      ReconcileRuns(db, start, clock, ran);
      var rows, total := ReconcileOperation(db, clock, stats);
      db, counted := rows, total;
    }

    /** The attempts of `reconcile` that meet a lock. */
    method LockedReconciles(clock: Handle -> real, locks: seq<LockPoint>) returns (counted: ReconcileStats)
      modifies this`disk
      ensures disk == ReconciledDisk(db, old(disk), clock, CommitLocks(locks))
      ensures counted == Counted(db, old(disk), clock, CommitLocks(locks))
    {
      counted := ReconcileStats(0, 0, 0);
      ghost var ran := 0;
      for i := 0 to |locks|
        invariant ran == LocksMet(locks, i)
        invariant disk == ReconciledDisk(db, old(disk), clock, ran)
        invariant counted == Counted(db, old(disk), clock, ran)
      {
        if locks[i] == AtCommit {
          counted := RolledBackReconcile(clock, counted, old(disk), ran);
          ran := ran + 1;
        }
      }
    }

    /** `reconcile` under `_write_tx`: each attempt that met a lock at COMMIT has already added its share. */
    method Reconcile(clock: Handle -> real, locks: seq<LockPoint>) returns (counted: ReconcileStats)
      modifies this
      ensures Plan(db, disk) == ReconcilePlan(old(db), old(disk), clock)
      ensures counted == RetriedStats(ReconcileCounts(old(db), old(disk.files)), CommitLocks(locks))
    {
      counted := LockedReconciles(clock, locks);
      counted := CommittedReconcile(clock, counted, old(disk), CommitLocks(locks));
    }
  }
}
