/** The rescue store as a value: the SQLite rows, the blob directory and the effect of each write transaction.

    A write transaction works on a private copy of the rows and touches files on the way.  Its effect is a `Plan`: the
    rows that COMMIT publishes, and the file operations carried out before COMMIT, which no ROLLBACK undoes. */
module RescueState {
  import opened Prelude

  /** The bytes of one file.  `Binary` stands for bytes that are not valid UTF-8. */
  datatype FileData = Utf8(text: string) | Binary(bytes: seq<nat>)

  /** SHA-256, taken as injective: a digest determines the bytes it was computed from. */
  datatype Digest = Sha256(data: FileData)

  type Handle = string
  type SessionKey = string
  type Files = map<string, FileData>

  const HANDLE_LENGTH: nat := 12

  function Utf8Length(text: string): nat {
    if text == [] then 0
    else
      var c := text[0] as int;
      (if c < 0x80 then 1 else if c < 0x800 then 2 else if c < 0x1_0000 then 3 else 4) + Utf8Length(text[1..])
  }

  function ByteSize(data: FileData): nat {
    match data
    case Utf8(text) => Utf8Length(text)
    case Binary(bytes) => |bytes|
  }

  datatype BlobRow = BlobRow(fullHash: Digest, size: int, createdAt: real)

  datatype State = Live | Tombstone

  datatype Reason = Ttl | SizeCap | MissingBlob | IntegrityMismatch | LegacyTombstone

  datatype OwnRow = OwnRow(state: State, tool: string, size: int, createdAt: real,
                           accessedAt: Option<real>, sweptAt: Option<real>, reason: Option<Reason>)

  type Owners = map<(SessionKey, Handle), OwnRow>

  datatype Db = Db(blobs: map<Handle, BlobRow>, sessions: map<SessionKey, real>, owners: Owners)

  datatype BlobWrite = BlobWrite(raw: FileData, handle: Handle, fullHash: Digest, size: int,
                                 session: SessionKey, tool: string)

  /** The blob directory, and the files that `reconcile` moved out of it. */
  datatype Disk = Disk(files: Files, orphans: Files)

  /** Where a transaction ends when all of it succeeds: the committed rows and the files it left. */
  datatype Plan = Plan(db: Db, disk: Disk)

  function Without(files: Files, names: set<string>): Files {
    map name | name in files && name !in names :: files[name]
  }

  /** The files called `names` move from the blob directory to the orphans. */
  function MoveOut(disk: Disk, names: set<string>): Disk
    requires forall name :: name in names ==> name in disk.files
  {
    Disk(Without(disk.files, names),
         map name | name in disk.orphans.Keys + names ::
           if name in names then disk.files[name] else disk.orphans[name])
  }

  /** `_blob_matches`: the file exists and has the recorded length and hash. */
  predicate Matches(files: Files, name: string, fullHash: Digest, size: int) {
    name in files && ByteSize(files[name]) == size && Sha256(files[name]) == fullHash
  }

  predicate IsLive(owners: Owners, key: (SessionKey, Handle)) {
    key in owners && owners[key].state.Live?
  }

  predicate HasLiveOwner(owners: Owners, handle: Handle) {
    exists key :: key in owners && key.1 == handle && owners[key].state.Live?
  }

  function Tombstoned(row: OwnRow, now: real, reason: Reason): OwnRow {
    row.(state := Tombstone, sweptAt := Some(now), reason := Some(reason))
  }

  /** UPDATE ownership SET state='tombstone' ... WHERE handle in `handles` AND state='live'. */
  function TombstoneHandles(owners: Owners, handles: set<Handle>, now: real, reason: Reason): Owners {
    map key | key in owners ::
      if key.1 in handles && owners[key].state.Live? then Tombstoned(owners[key], now, reason) else owners[key]
  }

  // ---- put ----

  datatype PutOutcome = Accepted | Refused | IntegrityError

  function AddSession(sessions: map<SessionKey, real>, session: SessionKey, now: real): map<SessionKey, real> {
    if session in sessions then sessions else sessions[session := now]
  }

  /** The row that the upsert leaves: a known row keeps its created_at. */
  function UpsertedRow(owners: Owners, w: BlobWrite, now: real): OwnRow {
    var key := (w.session, w.handle);
    OwnRow(Live, w.tool, w.size, if key in owners then owners[key].createdAt else now, Some(now), None, None)
  }

  function RegisterPut(db: Db, w: BlobWrite, now: real): Db {
    Db(if w.handle in db.blobs then db.blobs else db.blobs[w.handle := BlobRow(w.fullHash, w.size, now)],
       AddSession(db.sessions, w.session, now),
       db.owners[(w.session, w.handle) := UpsertedRow(db.owners, w, now)])
  }

  /** The registered blob under this handle has another hash or size. */
  predicate Collides(db: Db, w: BlobWrite) {
    w.handle in db.blobs && (db.blobs[w.handle].fullHash != w.fullHash || db.blobs[w.handle].size != w.size)
  }

  /** The record describes its own bytes. */
  predicate Genuine(w: BlobWrite) {
    w.fullHash == Sha256(w.raw) && w.size == ByteSize(w.raw)
  }

  predicate NeedsWrite(db: Db, files: Files, w: BlobWrite) {
    w.handle !in db.blobs || !Matches(files, w.handle, w.fullHash, w.size)
  }

  function PutResult(db: Db, files: Files, w: BlobWrite): PutOutcome {
    if Collides(db, w) || (NeedsWrite(db, files, w) && !Genuine(w)) then Refused
    else if w.handle !in db.blobs && |w.handle| != HANDLE_LENGTH then IntegrityError
    else Accepted
  }

  function PutFiles(db: Db, files: Files, w: BlobWrite): Files {
    if !Collides(db, w) && NeedsWrite(db, files, w) then files[w.handle := w.raw] else files
  }

  /** The transaction of `put_blob`. */
  function PutPlan(db: Db, disk: Disk, w: BlobWrite, now: real): Plan {
    Plan(if PutResult(db, disk.files, w).Accepted? then RegisterPut(db, w, now) else db,
         disk.(files := PutFiles(db, disk.files, w)))
  }

  /** The whole row that `_insert_tombstone` writes, replacing any previous one. */
  function InsertTombstone(db: Db, session: SessionKey, handle: Handle, tool: string, size: int, sweptAt: real): Db {
    var row := OwnRow(Tombstone, tool, size, sweptAt, None, Some(sweptAt), Some(LegacyTombstone));
    Db(db.blobs, AddSession(db.sessions, session, sweptAt), db.owners[(session, handle) := row])
  }

  // ---- sweep ----

  /** `oldestFirst` is the answer that SQLite gives to ORDER BY created_at; ties may come in any order. */
  datatype SweepArgs = SweepArgs(now: real, ttl: real, tombstoneTtl: real, maxMb: int, oldestFirst: seq<Handle>)

  const BYTES_PER_MB: int := 1024 * 1024

  ghost predicate OldestFirst(order: seq<Handle>, blobs: map<Handle, BlobRow>) {
    && NoDuplicates(order)
    && (forall handle :: handle in order <==> handle in blobs)
    && forall i, j :: 0 <= i < j < |order| ==> blobs[order[i]].createdAt <= blobs[order[j]].createdAt
  }

  predicate Expired(row: OwnRow, now: real, ttl: real) {
    row.state.Live? && now - row.createdAt > ttl
  }

  function TtlExpire(owners: Owners, now: real, ttl: real): Owners {
    map key | key in owners :: if Expired(owners[key], now, ttl) then Tombstoned(owners[key], now, Ttl) else owners[key]
  }

  predicate Forgotten(row: OwnRow, now: real, tombstoneTtl: real) {
    row.state.Tombstone? && row.sweptAt.Some? && now - row.sweptAt.value > tombstoneTtl
  }

  function DropTombstones(owners: Owners, now: real, tombstoneTtl: real): Owners {
    map key | key in owners && !Forgotten(owners[key], now, tombstoneTtl) :: owners[key]
  }

  function SizeOf(blobs: map<Handle, BlobRow>, handle: Handle): int {
    if handle in blobs then blobs[handle].size else 0
  }

  function SumSizes(order: seq<Handle>, blobs: map<Handle, BlobRow>): int {
    if order == [] then 0 else SizeOf(blobs, order[0]) + SumSizes(order[1..], blobs)
  }

  function PresentSizes(order: seq<Handle>, blobs: map<Handle, BlobRow>, files: Files): int {
    if order == [] then 0
    else (if order[0] in files then SizeOf(blobs, order[0]) else 0) + PresentSizes(order[1..], blobs, files)
  }

  /** How many rows the size loop visits, starting from the running total `total`. */
  function EvictCount(order: seq<Handle>, blobs: map<Handle, BlobRow>, total: int, maxBytes: int): (k: nat)
    ensures k <= |order|
  {
    if order == [] || total <= maxBytes then 0
    else 1 + EvictCount(order[1..], blobs, total - SizeOf(blobs, order[0]), maxBytes)
  }

  function EvictedPrefix(db: Db, files: Files, args: SweepArgs): seq<Handle> {
    var total := PresentSizes(args.oldestFirst, db.blobs, files);
    args.oldestFirst[..EvictCount(args.oldestFirst, db.blobs, total, args.maxMb * BYTES_PER_MB)]
  }

  function SweptOwners(db: Db, files: Files, args: SweepArgs): Owners {
    var kept := DropTombstones(TtlExpire(db.owners, args.now, args.ttl), args.now, args.tombstoneTtl);
    var evicted := EvictedPrefix(db, files, args);
    TombstoneHandles(kept, (set handle | handle in evicted), args.now, SizeCap)
  }

  /** Every registered handle that no session owns live any more loses its file. */
  function SweepPlan(db: Db, disk: Disk, args: SweepArgs): Plan {
    var owners := SweptOwners(db, disk.files, args);
    Plan(db.(owners := owners), disk.(files := Without(disk.files, DeadHandles(db.blobs, owners))))
  }

  /** The disk after `ran` runs of a sweep that were rolled back. */
  function SweptDisk(db: Db, disk: Disk, args: SweepArgs, ran: nat): Disk {
    if ran == 0 then disk else SweepPlan(db, SweptDisk(db, disk, args, ran - 1), args).disk
  }

  function DeadHandles(blobs: map<Handle, BlobRow>, owners: Owners): set<Handle> {
    set handle | handle in blobs && !HasLiveOwner(owners, handle)
  }

  // ---- reconcile ----

  /** What is wrong with a registered handle that some session owns live. */
  function Damage(db: Db, files: Files, handle: Handle): Option<Reason> {
    if handle !in db.blobs || !HasLiveOwner(db.owners, handle) then None
    else if handle !in files then Some(MissingBlob)
    else if !Matches(files, handle, db.blobs[handle].fullHash, db.blobs[handle].size) then Some(IntegrityMismatch)
    else None
  }

  /** `clock` gives the time at which each row is processed. */
  function ReconciledOwners(db: Db, files: Files, clock: Handle -> real): Owners {
    map key | key in db.owners ::
      if db.owners[key].state.Live? && Damage(db, files, key.1).Some?
      then Tombstoned(db.owners[key], clock(key.1), Damage(db, files, key.1).value)
      else db.owners[key]
  }

  function Unknown(db: Db, files: Files): set<string> {
    set name | name in files && name !in db.blobs
  }

  function ReconcilePlan(db: Db, disk: Disk, clock: Handle -> real): Plan {
    Plan(db.(owners := ReconciledOwners(db, disk.files, clock)), MoveOut(disk, Unknown(db, disk.files)))
  }

  datatype ReconcileStats = ReconcileStats(missing: nat, mismatch: nat, orphan: nat)

  function Damaged(db: Db, files: Files, reason: Reason): set<Handle> {
    set handle | handle in db.blobs && Damage(db, files, handle) == Some(reason)
  }

  function ReconcileCounts(db: Db, files: Files): ReconcileStats {
    ReconcileStats(|Damaged(db, files, MissingBlob)|, |Damaged(db, files, IntegrityMismatch)|,
                   |Unknown(db, files)|)
  }
}
