/** What a sweep does to bytes, rows and files. */
module RescueSweep {
  import opened Prelude
  import opened RescueState

  function MaxBytes(args: SweepArgs): int {
    args.maxMb * BYTES_PER_MB
  }

  ghost predicate SizesNonNegative(blobs: map<Handle, BlobRow>) {
    forall handle :: handle in blobs ==> blobs[handle].size >= 0
  }

  /** Present files at registered handles have their registered length. */
  ghost predicate LengthsMatch(blobs: map<Handle, BlobRow>, files: Files) {
    forall handle :: handle in blobs && handle in files ==> ByteSize(files[handle]) == blobs[handle].size
  }

  /** The bytes really stored under the listed handles. */
  function StoredBytes(order: seq<Handle>, files: Files): nat {
    if order == [] then 0
    else (if order[0] in files then ByteSize(files[order[0]]) else 0) + StoredBytes(order[1..], files)
  }

  // ---- sums ----

  lemma {:induction false} StoredBytesAreRegistered(order: seq<Handle>, blobs: map<Handle, BlobRow>, files: Files)
    requires LengthsMatch(blobs, files) && forall handle :: handle in order ==> handle in blobs
    ensures StoredBytes(order, files) == PresentSizes(order, blobs, files)
  {
    if order != [] {
      assert order[0] in order;
      StoredBytesAreRegistered(order[1..], blobs, files);
    }
  }

  lemma {:induction false} SumSplit(a: seq<Handle>, b: seq<Handle>, blobs: map<Handle, BlobRow>, files: Files)
    ensures SumSizes(a + b, blobs) == SumSizes(a, blobs) + SumSizes(b, blobs)
    ensures PresentSizes(a + b, blobs, files) == PresentSizes(a, blobs, files) + PresentSizes(b, blobs, files)
  {
    if a == [] {
      assert a + b == b;
    } else {
      assert (a + b)[1..] == a[1..] + b;
      SumSplit(a[1..], b, blobs, files);
    }
  }

  /** Fewer files store fewer bytes, and no files store none. */
  lemma {:induction false} PresentMonotone(order: seq<Handle>, blobs: map<Handle, BlobRow>, fewer: Files, files: Files)
    requires SizesNonNegative(blobs) && forall handle :: handle in order && handle in fewer ==> handle in files
    ensures 0 <= PresentSizes(order, blobs, fewer) <= PresentSizes(order, blobs, files) <= SumSizes(order, blobs)
    ensures (forall handle :: handle in order ==> handle !in fewer) ==> PresentSizes(order, blobs, fewer) == 0
    ensures (forall handle :: handle in order ==> handle in files) ==> PresentSizes(order, blobs, files) == SumSizes(order, blobs)
  {
    if order != [] {
      assert order[0] in order;
      assert forall handle :: handle in order[1..] ==> handle in order;
      PresentMonotone(order[1..], blobs, fewer, files);
    }
  }

  /** The visited prefix is the shortest one that brings the running total to the cap. */
  lemma {:induction false} EvictedPrefixIsShortest(order: seq<Handle>, blobs: map<Handle, BlobRow>, total: int, maxBytes: int)
    ensures var k := EvictCount(order, blobs, total, maxBytes);
            && (k < |order| ==> total - SumSizes(order[..k], blobs) <= maxBytes)
            && forall j :: 0 <= j < k ==> total - SumSizes(order[..j], blobs) > maxBytes
  {
    if order != [] && total > maxBytes {
      var rest := total - SizeOf(blobs, order[0]);
      EvictedPrefixIsShortest(order[1..], blobs, rest, maxBytes);
      var k := EvictCount(order, blobs, total, maxBytes);
      forall j | 0 < j <= k
        ensures SumSizes(order[..j], blobs) == SizeOf(blobs, order[0]) + SumSizes(order[1..][..j - 1], blobs)
      {
        assert order[..j][1..] == order[1..][..j - 1];
      }
    }
  }

  // ---- bytes ----

  lemma SweptPrefixIsGone(db: Db, disk: Disk, args: SweepArgs, handle: Handle)
    requires OldestFirst(args.oldestFirst, db.blobs) && handle in EvictedPrefix(db, disk.files, args)
    ensures handle !in SweepPlan(db, disk, args).disk.files
  {
    assert handle in args.oldestFirst;
  }

  /** The bytes left are what was stored, less the present part of the visited prefix, less the later files that no
      session owns any more. */
  lemma SweepAccounting(db: Db, disk: Disk, args: SweepArgs)
    requires OldestFirst(args.oldestFirst, db.blobs) && SizesNonNegative(db.blobs)
    ensures var p, order := SweepPlan(db, disk, args), args.oldestFirst;
            var prefix := EvictedPrefix(db, disk.files, args);
            var rest := order[|prefix|..];
            && order == prefix + rest
            && PresentSizes(order, db.blobs, p.disk.files)
               == PresentSizes(order, db.blobs, disk.files) - PresentSizes(prefix, db.blobs, disk.files)
                  - (PresentSizes(rest, db.blobs, disk.files) - PresentSizes(rest, db.blobs, p.disk.files))
  {
    var p, prefix := SweepPlan(db, disk, args), EvictedPrefix(db, disk.files, args);
    var rest := args.oldestFirst[|prefix|..];
    assert args.oldestFirst == prefix + rest;
    SumSplit(prefix, rest, db.blobs, disk.files);
    SumSplit(prefix, rest, db.blobs, p.disk.files);
    forall handle | handle in prefix
      ensures handle !in p.disk.files
    {
      SweptPrefixIsGone(db, disk, args, handle);
    }
    PresentMonotone(prefix, db.blobs, p.disk.files, disk.files);
  }

  /** After the visited prefix the running total is within the cap, unless every row was visited. */
  lemma TotalAfterPrefix(db: Db, files: Files, args: SweepArgs)
    ensures var prefix, total := EvictedPrefix(db, files, args), PresentSizes(args.oldestFirst, db.blobs, files);
            |prefix| < |args.oldestFirst| ==> total - SumSizes(prefix, db.blobs) <= MaxBytes(args)
  {
    var total := PresentSizes(args.oldestFirst, db.blobs, files);
    EvictedPrefixIsShortest(args.oldestFirst, db.blobs, total, MaxBytes(args));
  }

  lemma PhantomBound(db: Db, files: Files, args: SweepArgs)
    requires SizesNonNegative(db.blobs)
    ensures var prefix := EvictedPrefix(db, files, args);
            && PresentSizes(prefix, db.blobs, files) <= SumSizes(prefix, db.blobs)
            && ((forall handle :: handle in prefix ==> handle in files) ==>
                  PresentSizes(prefix, db.blobs, files) == SumSizes(prefix, db.blobs))
  {
    PresentMonotone(EvictedPrefix(db, files, args), db.blobs, files, files);
  }

  /** What is left is at most the cap plus the sizes that the loop subtracted for files that were not there; with every
      file present it is at most the cap. */
  lemma SweepSizeBound(db: Db, disk: Disk, args: SweepArgs)
    requires OldestFirst(args.oldestFirst, db.blobs) && SizesNonNegative(db.blobs) && LengthsMatch(db.blobs, disk.files)
    ensures var p, order := SweepPlan(db, disk, args), args.oldestFirst;
            var prefix := EvictedPrefix(db, disk.files, args);
            var phantom := SumSizes(prefix, db.blobs) - PresentSizes(prefix, db.blobs, disk.files);
            && 0 <= StoredBytes(order, p.disk.files) <= Max(0, MaxBytes(args)) + phantom
            && ((forall handle :: handle in db.blobs ==> handle in disk.files) ==> phantom == 0)
  {
    var left, order := SweepPlan(db, disk, args).disk.files, args.oldestFirst;
    var prefix := EvictedPrefix(db, disk.files, args);
    StoredBytesAreRegistered(order, db.blobs, left);
    RestBound(db, disk, args);
    TotalAfterPrefix(db, disk.files, args);
    PhantomBound(db, disk.files, args);
    assert forall handle :: handle in prefix ==> handle in order;
  }

  /** What is left lies after the visited prefix. */
  lemma RestBound(db: Db, disk: Disk, args: SweepArgs)
    requires OldestFirst(args.oldestFirst, db.blobs) && SizesNonNegative(db.blobs)
    ensures var left, order := SweepPlan(db, disk, args).disk.files, args.oldestFirst;
            var prefix := EvictedPrefix(db, disk.files, args);
            && PresentSizes(order, db.blobs, left)
               <= PresentSizes(order, db.blobs, disk.files) - PresentSizes(prefix, db.blobs, disk.files)
            && (|prefix| == |order| ==> PresentSizes(order, db.blobs, left) == 0)
  {
    var left, order := SweepPlan(db, disk, args).disk.files, args.oldestFirst;
    var prefix := EvictedPrefix(db, disk.files, args);
    var rest := order[|prefix|..];
    SweepAccounting(db, disk, args);
    PresentMonotone(rest, db.blobs, left, disk.files);
    if |prefix| == |order| {
      assert prefix == order;
      forall handle | handle in order
        ensures handle !in left
      {
        SweptPrefixIsGone(db, disk, args, handle);
      }
      PresentMonotone(order, db.blobs, left, disk.files);
    }
  }

  // ---- the cap ----

  /** The rows after the two time-based statements. */
  function TimedOwners(db: Db, args: SweepArgs): Owners {
    DropTombstones(TtlExpire(db.owners, args.now, args.ttl), args.now, args.tombstoneTtl)
  }

  /** The sizes of the listed files that no session owns any more once time has done its work. */
  function UnownedSizes(order: seq<Handle>, blobs: map<Handle, BlobRow>, files: Files, owners: Owners): int {
    if order == [] then 0
    else (if order[0] in files && !HasLiveOwner(owners, order[0]) then SizeOf(blobs, order[0]) else 0)
         + UnownedSizes(order[1..], blobs, files, owners)
  }

  lemma {:induction false} UnownedAreRemoved(order: seq<Handle>, blobs: map<Handle, BlobRow>, files: Files, left: Files, owners: Owners)
    requires forall handle :: handle in order ==> (handle in left <==> handle in files && HasLiveOwner(owners, handle))
    ensures PresentSizes(order, blobs, files) - PresentSizes(order, blobs, left) == UnownedSizes(order, blobs, files, owners)
  {
    if order != [] {
      assert order[0] in order;
      assert forall handle :: handle in order[1..] ==> handle in order;
      UnownedAreRemoved(order[1..], blobs, files, left, owners);
    }
  }

  /** Outside the visited prefix a file stays exactly when it was there and time leaves it a live owner. */
  lemma LaterFiles(db: Db, disk: Disk, args: SweepArgs, handle: Handle)
    requires handle in db.blobs && handle !in EvictedPrefix(db, disk.files, args)
    ensures handle in SweepPlan(db, disk, args).disk.files <==> handle in disk.files && HasLiveOwner(TimedOwners(db, args), handle)
  {
    var timed, swept := TimedOwners(db, args), SweptOwners(db, disk.files, args);
    assert forall key :: key in timed && key.1 == handle ==> swept[key] == timed[key];
    assert HasLiveOwner(swept, handle) <==> HasLiveOwner(timed, handle);
  }

  /** The sizes that the loop subtracts for files that are not there. */
  function Phantom(db: Db, files: Files, args: SweepArgs): int {
    var prefix := EvictedPrefix(db, files, args);
    SumSizes(prefix, db.blobs) - PresentSizes(prefix, db.blobs, files)
  }

  /** How far below the cap the running total ends. */
  function Slack(db: Db, files: Files, args: SweepArgs): int {
    MaxBytes(args) - (PresentSizes(args.oldestFirst, db.blobs, files) - SumSizes(EvictedPrefix(db, files, args), db.blobs))
  }

  /** The sizes of the files after the visited prefix that lose their last live owner to time. */
  function LaterUnowned(db: Db, files: Files, args: SweepArgs): int {
    var k := |EvictedPrefix(db, files, args)|;
    UnownedSizes(args.oldestFirst[k..], db.blobs, files, TimedOwners(db, args))
  }

  /** A sweep meets the cap exactly when the sizes it subtracted for absent files are made up for by the room below the cap
      and by later files that it removes for their age.  All three are known before it starts. */
  lemma SweepMeetsCapIff(db: Db, disk: Disk, args: SweepArgs)
    requires OldestFirst(args.oldestFirst, db.blobs) && SizesNonNegative(db.blobs) && LengthsMatch(db.blobs, disk.files)
    ensures StoredBytes(args.oldestFirst, SweepPlan(db, disk, args).disk.files) <= MaxBytes(args)
       <==> Phantom(db, disk.files, args) <= Slack(db, disk.files, args) + LaterUnowned(db, disk.files, args)
  {
    var left, order := SweepPlan(db, disk, args).disk.files, args.oldestFirst;
    var prefix := EvictedPrefix(db, disk.files, args);
    var rest := order[|prefix|..];
    SweepAccounting(db, disk, args);
    StoredBytesAreRegistered(order, db.blobs, left);
    forall handle | handle in rest
      ensures handle in left <==> handle in disk.files && HasLiveOwner(TimedOwners(db, args), handle)
    {
      NotInPrefix(order, |prefix|, handle);
      LaterFiles(db, disk, args, handle);
    }
    UnownedAreRemoved(rest, db.blobs, disk.files, left, TimedOwners(db, args));
  }

  lemma NotInPrefix(order: seq<Handle>, k: nat, handle: Handle)
    requires NoDuplicates(order) && k <= |order| && handle in order[k..]
    ensures handle in order && handle !in order[..k]
  {
    var i :| 0 <= i < |order[k..]| && order[k..][i] == handle;
    assert order[k + i] == handle;
  }

  // ---- rows and files ----

  /** Every row that stays live is unchanged and within its TTL; every other row that was live and is still there is a
      tombstone stamped now, for its age or for the size cap; rows that were tombstones stay until their own TTL. */
  lemma SweepRows(db: Db, disk: Disk, args: SweepArgs, key: (SessionKey, Handle))
    requires key in db.owners
    ensures var owners, row := SweepPlan(db, disk, args).db.owners, db.owners[key];
            && SweepPlan(db, disk, args).db.owners.Keys <= db.owners.Keys
            && (row.state.Live? && key in owners ==>
                  if owners[key].state.Live? then owners[key] == row && args.now - row.createdAt <= args.ttl
                  else owners[key] == Tombstoned(row, args.now, if Expired(row, args.now, args.ttl) then Ttl else SizeCap))
            && (row.state.Tombstone? ==>
                  (key in owners <==> !Forgotten(row, args.now, args.tombstoneTtl))
                  && (key in owners ==> owners[key] == row))
  {
  }

  /** What becomes of every single row.  A live row older than the TTL becomes a tombstone stamped now with all else as it
      was (or goes at once, should the tombstone TTL be negative); a younger one stays exactly as it is unless its handle is
      in the visited prefix; a tombstone stays exactly as it is until its own TTL has passed. */
  lemma RowFates(db: Db, disk: Disk, args: SweepArgs, key: (SessionKey, Handle))
    requires key in db.owners
    ensures var owners, row := SweepPlan(db, disk, args).db.owners, db.owners[key];
            if row.state == Live && args.now - row.createdAt > args.ttl then
              && (key in owners <==> args.tombstoneTtl >= 0.0)
              && (key in owners ==>
                    owners[key] == OwnRow(Tombstone, row.tool, row.size, row.createdAt, row.accessedAt, Some(args.now), Some(Ttl)))
            else if row.state == Live then
              && key in owners
              && owners[key] == if key.1 in EvictedPrefix(db, disk.files, args)
                                then OwnRow(Tombstone, row.tool, row.size, row.createdAt, row.accessedAt, Some(args.now), Some(SizeCap))
                                else row
            else
              && (key in owners <==> row.sweptAt.None? || args.now - row.sweptAt.value <= args.tombstoneTtl)
              && (key in owners ==> owners[key] == row)
  {
  }

  /** No row appears, and no other table changes. */
  lemma SweepAddsNothing(db: Db, disk: Disk, args: SweepArgs)
    ensures var p := SweepPlan(db, disk, args);
            p.db.owners.Keys <= db.owners.Keys && p.db.blobs == db.blobs && p.db.sessions == db.sessions
  {
  }

  /** A live row within its TTL whose handle the size loop does not visit keeps its file; a registered handle of which every
      live row is too old or visited loses it. */
  lemma FileFates(db: Db, disk: Disk, args: SweepArgs, handle: Handle)
    requires handle in db.blobs
    ensures handle in SweepPlan(db, disk, args).disk.files
       <==> handle in disk.files && handle !in EvictedPrefix(db, disk.files, args)
            && exists key :: key in db.owners && key.1 == handle && db.owners[key].state == Live
                             && args.now - db.owners[key].createdAt <= args.ttl
  {
    var owners := SweepPlan(db, disk, args).db.owners;
    forall key | key in db.owners && key.1 == handle
      ensures key in owners && owners[key].state == Live
         <==> db.owners[key].state == Live && args.now - db.owners[key].createdAt <= args.ttl
              && handle !in EvictedPrefix(db, disk.files, args)
    {
      RowFates(db, disk, args, key);
    }
    SweepAddsNothing(db, disk, args);
    if handle in SweepPlan(db, disk, args).disk.files {
      var key :| key in owners && key.1 == handle && owners[key].state.Live?;
    }
  }

  /** How many rows the size loop visits: none when the recorded sizes of the files that are there are within the cap, and
      otherwise no more than it takes to bring their sum to the cap, a row of an absent file counting as well. */
  lemma PrefixFacts(db: Db, files: Files, args: SweepArgs)
    requires OldestFirst(args.oldestFirst, db.blobs)
    ensures var prefix, total := EvictedPrefix(db, files, args), PresentSizes(args.oldestFirst, db.blobs, files);
            && prefix <= args.oldestFirst
            && (|prefix| < |args.oldestFirst| ==> total - SumSizes(prefix, db.blobs) <= args.maxMb * 1048576)
            && forall j :: 0 <= j < |prefix| ==> total - SumSizes(args.oldestFirst[..j], db.blobs) > args.maxMb * 1048576
  {
    EvictedPrefixIsShortest(args.oldestFirst, db.blobs, PresentSizes(args.oldestFirst, db.blobs, files), MaxBytes(args));
  }

  /** The two sums, over sets of handles: each handle contributes its registered size, in the first only when its file is
      there. */
  lemma SumsOf(order: seq<Handle>, blobs: map<Handle, BlobRow>, files: Files, handle: Handle)
    requires handle in blobs
    ensures SumSizes(order + [handle], blobs) == SumSizes(order, blobs) + blobs[handle].size
    ensures PresentSizes(order + [handle], blobs, files)
         == PresentSizes(order, blobs, files) + if handle in files then blobs[handle].size else 0
  {
    SumSplit(order, [handle], blobs, files);
    assert [handle][1..] == [];
  }

  /** No row that was live disappears exactly when the tombstone TTL is not negative or nothing expired. */
  lemma SweepKeepsLiveRows(db: Db, disk: Disk, args: SweepArgs)
    ensures (forall key :: IsLive(db.owners, key) ==> key in SweepPlan(db, disk, args).db.owners)
       <==> (args.tombstoneTtl >= 0.0 || forall key :: key in db.owners ==> !Expired(db.owners[key], args.now, args.ttl))
  {
    var owners := SweepPlan(db, disk, args).db.owners;
    assert forall key :: key in owners <==> key in TimedOwners(db, args);
    forall key | IsLive(db.owners, key)
      ensures key in owners <==> (args.tombstoneTtl >= 0.0 || !Expired(db.owners[key], args.now, args.ttl))
    {
    }
  }

  /** A registered handle keeps its file, untouched, exactly when it had one and some session still owns it live; files
      without a blob row are left alone. */
  lemma SweepFiles(db: Db, disk: Disk, args: SweepArgs, name: string)
    ensures var p := SweepPlan(db, disk, args);
            && (name in p.disk.files <==> name in disk.files && (name in db.blobs ==> HasLiveOwner(p.db.owners, name)))
            && (name in p.disk.files ==> p.disk.files[name] == disk.files[name])
            && p.disk.orphans == disk.orphans && p.db.blobs == db.blobs
  {
  }

  /** A put does not renew the age of a row: what it made live at `now` stays live through the TTL step of a sweep at
      the same moment exactly when the row is new or its first put was within the TTL. */
  lemma PutRenewsOnlyNewRows(db: Db, disk: Disk, w: BlobWrite, now: real, args: SweepArgs)
    requires PutResult(db, disk.files, w).Accepted? && args.now == now && args.ttl >= 0.0
    ensures var key := (w.session, w.handle);
            IsLive(TimedOwners(PutPlan(db, disk, w, now).db, args), key)
            <==> (key !in db.owners || now - db.owners[key].createdAt <= args.ttl)
  {
  }

  // ---- a sweep that is retried after a lock at COMMIT ----

  /** The rolled back attempt has already removed files.  The retry repeats it exactly when every live row that the
      first attempt evicted for size is evicted again. */
  lemma SweepRetryExact(db: Db, disk: Disk, args: SweepArgs)
    requires OldestFirst(args.oldestFirst, db.blobs)
    ensures var first := SweepPlan(db, disk, args);
            var again := EvictedPrefix(db, first.disk.files, args);
            SweepPlan(db, first.disk, args).db == first.db
            <==> (forall key :: IsLive(TimedOwners(db, args), key) ==>
                    (key.1 in EvictedPrefix(db, disk.files, args) <==> key.1 in again))
  {
    var kept := TimedOwners(db, args);
    var first := SweepPlan(db, disk, args);
    var second := SweepPlan(db, first.disk, args);
    var before, again := EvictedPrefix(db, disk.files, args), EvictedPrefix(db, first.disk.files, args);
    if second.db == first.db {
      forall key | IsLive(kept, key)
        ensures key.1 in before <==> key.1 in again
      {
        assert first.db.owners[key].state.Tombstone? <==> key.1 in before;
        assert second.db.owners[key].state.Tombstone? <==> key.1 in again;
      }
    }
    if forall key :: IsLive(kept, key) ==> (key.1 in before <==> key.1 in again) {
      assert second.db.owners == first.db.owners;
    }
  }

  lemma {:induction false} EvictLess(order: seq<Handle>, blobs: map<Handle, BlobRow>, less: int, total: int, maxBytes: int)
    requires less <= total
    ensures EvictCount(order, blobs, less, maxBytes) <= EvictCount(order, blobs, total, maxBytes)
  {
    if order != [] && less > maxBytes {
      EvictLess(order[1..], blobs, less - SizeOf(blobs, order[0]), total - SizeOf(blobs, order[0]), maxBytes);
    }
  }

  /** A sweep over fewer files evicts less and removes nothing that a sweep over more files would keep. */
  lemma FewerFilesFewerRemoved(db: Db, fewer: Files, files: Files, args: SweepArgs)
    requires OldestFirst(args.oldestFirst, db.blobs) && SizesNonNegative(db.blobs)
    requires forall handle :: handle in fewer ==> handle in files
    ensures EvictedPrefix(db, fewer, args) <= EvictedPrefix(db, files, args)
    ensures DeadHandles(db.blobs, SweptOwners(db, fewer, args)) <= DeadHandles(db.blobs, SweptOwners(db, files, args))
  {
    PresentMonotone(args.oldestFirst, db.blobs, fewer, files);
    EvictLess(args.oldestFirst, db.blobs, PresentSizes(args.oldestFirst, db.blobs, fewer),
              PresentSizes(args.oldestFirst, db.blobs, files), MaxBytes(args));
    LiveAfterLess(db, fewer, files, args);
  }

  lemma LiveAfterLess(db: Db, fewer: Files, files: Files, args: SweepArgs)
    requires EvictedPrefix(db, fewer, args) <= EvictedPrefix(db, files, args)
    ensures forall handle :: HasLiveOwner(SweptOwners(db, files, args), handle) ==> HasLiveOwner(SweptOwners(db, fewer, args), handle)
  {
    var owners, more := SweptOwners(db, files, args), SweptOwners(db, fewer, args);
    forall handle | HasLiveOwner(owners, handle)
      ensures HasLiveOwner(more, handle)
    {
      var key :| key in owners && key.1 == handle && owners[key].state.Live?;
      assert more[key].state.Live?;
    }
  }

  /** However often a sweep is rolled back after its unlinks, its files are those of a single run; only its rows may
      differ from those of a clean run, and the first repetition settles them. */
  lemma {:induction false} SweepRetriesAgree(db: Db, disk: Disk, args: SweepArgs, ran: nat)
    requires OldestFirst(args.oldestFirst, db.blobs) && SizesNonNegative(db.blobs) && ran > 0
    ensures SweptDisk(db, disk, args, ran) == SweepPlan(db, disk, args).disk
    ensures SweepPlan(db, SweptDisk(db, disk, args, ran), args) == SweepPlan(db, SweepPlan(db, disk, args).disk, args)
  {
    if ran > 1 {
      SweepRetriesAgree(db, disk, args, ran - 1);
      var first := SweepPlan(db, disk, args).disk;
      FewerFilesFewerRemoved(db, first.files, disk.files, args);
      assert SweepPlan(db, first, args).disk.files == first.files;
    }
  }

  /** With every file present, the retry finds the store within the cap and evicts nothing: it repeats the clean run
      exactly when the clean run evicts no live row.  Otherwise a row stays live although its file is gone. */
  lemma SweepRetryOfFullStore(db: Db, disk: Disk, args: SweepArgs)
    requires OldestFirst(args.oldestFirst, db.blobs) && SizesNonNegative(db.blobs) && LengthsMatch(db.blobs, disk.files)
    requires args.maxMb >= 0 && forall handle :: handle in db.blobs ==> handle in disk.files
    ensures var first := SweepPlan(db, disk, args);
            && EvictedPrefix(db, first.disk.files, args) == []
            && (SweepPlan(db, first.disk, args).db == first.db
                <==> forall key :: IsLive(TimedOwners(db, args), key) ==> key.1 !in EvictedPrefix(db, disk.files, args))
            && forall key :: IsLive(TimedOwners(db, args), key) && key.1 in EvictedPrefix(db, disk.files, args) ==>
                 IsLive(SweepPlan(db, first.disk, args).db.owners, key) && key.1 !in SweepPlan(db, first.disk, args).disk.files
  {
    RetryEvictsNothing(db, disk, args);
    SweepRetryExact(db, disk, args);
    forall key | IsLive(TimedOwners(db, args), key) && key.1 in EvictedPrefix(db, disk.files, args)
      ensures var again := SweepPlan(db, SweepPlan(db, disk, args).disk, args);
              IsLive(again.db.owners, key) && key.1 !in again.disk.files
    {
      SweptPrefixIsGone(db, disk, args, key.1);
      LiveWithoutEviction(db, SweepPlan(db, disk, args).disk, args, key);
    }
  }

  lemma LiveWithoutEviction(db: Db, disk: Disk, args: SweepArgs, key: (SessionKey, Handle))
    requires EvictedPrefix(db, disk.files, args) == [] && IsLive(TimedOwners(db, args), key)
    ensures var p := SweepPlan(db, disk, args);
            IsLive(p.db.owners, key) && (key.1 !in disk.files ==> key.1 !in p.disk.files)
  {
  }

  lemma RetryEvictsNothing(db: Db, disk: Disk, args: SweepArgs)
    requires OldestFirst(args.oldestFirst, db.blobs) && SizesNonNegative(db.blobs) && LengthsMatch(db.blobs, disk.files)
    requires args.maxMb >= 0 && forall handle :: handle in db.blobs ==> handle in disk.files
    ensures EvictedPrefix(db, SweepPlan(db, disk, args).disk.files, args) == []
  {
    SweepSizeBound(db, disk, args);
    StoredBytesAreRegistered(args.oldestFirst, db.blobs, SweepPlan(db, disk, args).disk.files);
  }
}
