/** Moving the legacy JSON session indexes into the ownership rows. */
module RescueMigration {
  import opened Prelude
  import opened RescueState
  import opened RescueStore

  /** One entry of a legacy index; `hash` is None when the stored text is no SHA-256 digest. */
  datatype Entry = Entry(sweptAt: Option<real>, tool: string, size: int, hash: Option<Digest>)

  /** What `json.loads` makes of a text: an error, a document that is no object, or an object with its `blobs` member, if
      any, and a number of other members. */
  datatype Loaded = JsonError | NoObject | Object(blobs: Option<seq<(Handle, Entry)>>, others: nat)

  /** What one read of an index file meets; an absent file was removed after the directory was listed. */
  datatype Reading = Text(text: string) | NotUtf8 | Absent | IoError

  /** The migration reads an index file, and reads it again when the first read gave nothing; `copies` says whether a copy
      into the quarantine succeeds. */
  datatype IndexFile = IndexFile(session: SessionKey, first: Reading, second: Reading, copies: bool)

  datatype Item = Item(session: SessionKey, handle: Handle, entry: Entry) {
    function Key(): (SessionKey, Handle) {
      (session, handle)
    }
  }

  /** What the migration works with and does not change: the blob files, the hex text of a digest, and `json.loads`. */
  datatype Source = Source(files: Files, hexOf: Digest -> string, loads: string -> Loaded)

  type Clock = ((SessionKey, Handle)) -> real

  datatype Migration = Migration(db: Db, raised: bool)

  /** The blob file exists, is named after the recorded digest and matches it. */
  predicate Redeemable(src: Source, item: Item) {
    && item.handle in src.files
    && item.entry.hash.Some?
    && item.handle <= src.hexOf(item.entry.hash.value)
    && Matches(src.files, item.handle, item.entry.hash.value, item.entry.size)
  }

  function ItemWrite(src: Source, item: Item): (w: BlobWrite)
    requires Redeemable(src, item)
    ensures Genuine(w)
  {
    BlobWrite(src.files[item.handle], item.handle, item.entry.hash.value, item.entry.size, item.session, item.entry.tool)
  }

  function MigrateEntry(db: Db, src: Source, item: Item, clock: Clock): Migration {
    if item.entry.sweptAt.Some? then
      Migration(InsertTombstone(db, item.session, item.handle, item.entry.tool, item.entry.size, item.entry.sweptAt.value),
                false)
    else if !Redeemable(src, item) then Migration(db, false)
    else
      var w := ItemWrite(src, item);
      Migration(PutPlan(db, Disk(src.files, map[]), w, clock(item.Key())).db,
                PutResult(db, src.files, w).IntegrityError?)
  }

  /** An exception ends the migration; the rows committed before it stay. */
  function MigrateAll(db: Db, src: Source, items: seq<Item>, clock: Clock): Migration
    decreases |items|
  {
    if items == [] then Migration(db, false)
    else
      var first := MigrateEntry(db, src, items[0], clock);
      if first.raised then first else MigrateAll(first.db, src, items[1..], clock)
  }

  ghost predicate DistinctKeys(items: seq<Item>) {
    forall i, j :: 0 <= i < j < |items| ==> items[i].Key() != items[j].Key()
  }

  // ---- what one entry decides ----

  /** What one entry does, case by case: a swept entry becomes a tombstone as old as its sweep; any other needs a file that
      the entry's hash and size describe and a handle that the hash starts with, and must not contradict a registered blob. */
  lemma EntryExactly(db: Db, src: Source, item: Item, clock: Clock)
    ensures var m, e, h, key := MigrateEntry(db, src, item, clock), item.entry, item.handle, (item.session, item.handle);
            var sessionsAt := (now: real) => if item.session in db.sessions then db.sessions else db.sessions[item.session := now];
            var redeemable :=
              && e.hash.Some? && h in src.files && h <= src.hexOf(e.hash.value)
              && ByteSize(src.files[h]) == e.size && Sha256(src.files[h]) == e.hash.value;
            if e.sweptAt.Some? then
              var at := e.sweptAt.value;
              var row := OwnRow(Tombstone, e.tool, e.size, at, None, Some(at), Some(LegacyTombstone));
              m == Migration(Db(db.blobs, sessionsAt(at), db.owners[key := row]), false)
            else if !redeemable || (h in db.blobs && (db.blobs[h].fullHash != e.hash.value || db.blobs[h].size != e.size)) then
              m == Migration(db, false)
            else if h !in db.blobs && |h| != 12 then m == Migration(db, true)
            else
              var now := clock(key);
              var row := OwnRow(Live, e.tool, e.size, if key in db.owners then db.owners[key].createdAt else now, Some(now), None, None);
              var blobs := if h in db.blobs then db.blobs else db.blobs[h := BlobRow(e.hash.value, e.size, now)];
              m == Migration(Db(blobs, sessionsAt(now), db.owners[key := row]), false)
  {
  }

  /** The registered row of this handle names other bytes than the file holds. */
  predicate Conflicts(db: Db, item: Item)
    requires item.entry.hash.Some?
  {
    item.handle in db.blobs
    && (db.blobs[item.handle].fullHash != item.entry.hash.value || db.blobs[item.handle].size != item.entry.size)
  }

  predicate AddsLiveRow(db: Db, src: Source, item: Item) {
    item.entry.sweptAt.None? && Redeemable(src, item) && !Conflicts(db, item)
  }

  /** The blob row would break the length check of the schema. */
  predicate Breaks(db: Db, src: Source, item: Item) {
    item.entry.sweptAt.None? && Redeemable(src, item) && item.handle !in db.blobs && |item.handle| != HANDLE_LENGTH
  }

  function Erase(row: OwnRow): OwnRow {
    row.(createdAt := 0.0, accessedAt := None)
  }

  /** An ownership row up to the times at which the migration happened to run. */
  function Shape(db: Db, key: (SessionKey, Handle)): Option<OwnRow> {
    if key in db.owners then Some(Erase(db.owners[key])) else None
  }

  /** The row an entry asks for, whatever the other entries say. */
  function EntryShape(db: Db, src: Source, item: Item): Option<OwnRow> {
    var e := item.entry;
    if e.sweptAt.Some? then Some(OwnRow(Tombstone, e.tool, e.size, 0.0, None, e.sweptAt, Some(LegacyTombstone)))
    else if AddsLiveRow(db, src, item) then Some(OwnRow(Live, e.tool, e.size, 0.0, None, None, None))
    else Shape(db, item.Key())
  }

  /** Blob rows are only added, and only for the bytes that the file holds. */
  ghost predicate BlobsGrow(older: Db, newer: Db, files: Files) {
    && (forall h :: h in older.blobs ==> h in newer.blobs && newer.blobs[h] == older.blobs[h])
    && (forall h :: h in newer.blobs && h !in older.blobs ==>
          h in files && newer.blobs[h].fullHash == Sha256(files[h]) && newer.blobs[h].size == ByteSize(files[h])
          && |h| == HANDLE_LENGTH)
  }

  /** Entries that were already migrated do not change what the next one decides. */
  lemma DecisionIsStable(older: Db, newer: Db, src: Source, item: Item)
    requires BlobsGrow(older, newer, src.files)
    ensures AddsLiveRow(newer, src, item) == AddsLiveRow(older, src, item)
    ensures Breaks(newer, src, item) == Breaks(older, src, item)
  {
  }

  lemma EntryRaises(start: Db, db: Db, src: Source, item: Item, clock: Clock)
    requires BlobsGrow(start, db, src.files)
    ensures var m := MigrateEntry(db, src, item, clock);
            && m.raised == Breaks(start, src, item)
            && BlobsGrow(start, m.db, src.files)
            && db.blobs.Keys <= m.db.blobs.Keys
            && (AddsLiveRow(start, src, item) && !m.raised ==> item.handle in m.db.blobs)
  {
    DecisionIsStable(start, db, src, item);
  }

  lemma EntryEffect(start: Db, db: Db, src: Source, item: Item, clock: Clock)
    requires BlobsGrow(start, db, src.files) && !MigrateEntry(db, src, item, clock).raised
    ensures var m := MigrateEntry(db, src, item, clock);
            && Shape(m.db, item.Key()) == EntryShape(db, src, item)
            && (forall key :: key != item.Key() ==> Shape(m.db, key) == Shape(db, key))
  {
    DecisionIsStable(start, db, src, item);
  }

  /** The migration raises exactly when some entry breaks the schema; blob rows only grow, and cover every live row
      that an entry asks for. */
  lemma {:induction false} MigrationRaises(start: Db, db: Db, src: Source, items: seq<Item>, clock: Clock)
    requires BlobsGrow(start, db, src.files)
    ensures var m := MigrateAll(db, src, items, clock);
            && (m.raised <==> exists item :: item in items && Breaks(start, src, item))
            && BlobsGrow(start, m.db, src.files)
            && db.blobs.Keys <= m.db.blobs.Keys
            && (!m.raised ==> forall item :: item in items && AddsLiveRow(start, src, item) ==> item.handle in m.db.blobs)
    decreases |items|
  {
    if items != [] {
      assert forall x :: x in items <==> x == items[0] || x in items[1..];
      EntryRaises(start, db, src, items[0], clock);
      MigrationRaises(start, MigrateEntry(db, src, items[0], clock).db, src, items[1..], clock);
    }
  }

  /** Every key ends with the row its own entry asks for, and the keys without an entry keep theirs. */
  lemma {:induction false} EachEntryDecides(start: Db, db: Db, src: Source, items: seq<Item>, clock: Clock)
    requires BlobsGrow(start, db, src.files) && DistinctKeys(items) && !MigrateAll(db, src, items, clock).raised
    ensures var m := MigrateAll(db, src, items, clock);
            && (forall item :: item in items ==> Shape(m.db, item.Key()) == EntryShape(db, src, item))
            && (forall key :: (forall item :: item in items ==> item.Key() != key) ==> Shape(m.db, key) == Shape(db, key))
    decreases |items|
  {
    if items != [] {
      var item, rest := items[0], items[1..];
      var first := MigrateEntry(db, src, item, clock).db;
      EntryRaises(start, db, src, item, clock);
      EntryEffect(start, db, src, item, clock);
      EachEntryDecides(start, first, src, rest, clock);
      var m := MigrateAll(db, src, items, clock);
      assert m == MigrateAll(first, src, rest, clock);
      assert forall x :: x in items <==> x == item || x in rest;
      forall x | x in rest
        ensures x.Key() != item.Key() && Shape(m.db, x.Key()) == EntryShape(db, src, x)
      {
        KeysDiffer(items, x);
        DecisionIsStable(start, db, src, x);
        DecisionIsStable(start, first, src, x);
      }
    }
  }

  lemma KeysDiffer(items: seq<Item>, x: Item)
    requires DistinctKeys(items) && items != [] && x in items[1..]
    ensures x.Key() != items[0].Key()
  {
    var i :| 0 <= i < |items[1..]| && items[1..][i] == x;
    assert items[i + 1] == x;
  }

  // ---- order and repetition ----

  ghost predicate SameItems(xs: seq<Item>, ys: seq<Item>) {
    forall item :: item in xs <==> item in ys
  }

  function UpToTime(row: BlobRow): BlobRow {
    row.(createdAt := 0.0)
  }

  /** The same ownership rows, blob rows and sessions, up to the times at which the migration happened to run. */
  ghost predicate SameRows(a: Db, b: Db) {
    && (forall key :: Shape(a, key) == Shape(b, key))
    && (forall h :: h in a.blobs <==> h in b.blobs)
    && (forall h :: h in a.blobs && h in b.blobs ==> UpToTime(a.blobs[h]) == UpToTime(b.blobs[h]))
    && a.sessions.Keys == b.sessions.Keys
  }

  predicate WritesRow(db: Db, src: Source, item: Item) {
    item.entry.sweptAt.Some? || AddsLiveRow(db, src, item)
  }

  /** The blob rows and sessions at the end are the old ones and those of the entries that write a row. */
  lemma {:induction false} WhatIsAdded(start: Db, db: Db, src: Source, items: seq<Item>, clock: Clock)
    requires BlobsGrow(start, db, src.files) && !MigrateAll(db, src, items, clock).raised
    ensures var m := MigrateAll(db, src, items, clock).db;
            && (forall h :: h in m.blobs <==> h in db.blobs || exists item :: item in items && AddsLiveRow(start, src, item) && item.handle == h)
            && (forall k :: k in m.sessions <==> k in db.sessions || exists item :: item in items && WritesRow(start, src, item) && item.session == k)
    decreases |items|
  {
    if items != [] {
      EntryRaises(start, db, src, items[0], clock);
      OneIsAdded(start, db, src, items[0], clock);
      WhatIsAdded(start, MigrateEntry(db, src, items[0], clock).db, src, items[1..], clock);
      assert forall x :: x in items <==> x == items[0] || x in items[1..];
    }
  }

  lemma OneIsAdded(start: Db, db: Db, src: Source, item: Item, clock: Clock)
    requires BlobsGrow(start, db, src.files) && !MigrateEntry(db, src, item, clock).raised
    ensures var m := MigrateEntry(db, src, item, clock).db;
            && (forall h :: h in m.blobs <==> h in db.blobs || (AddsLiveRow(start, src, item) && item.handle == h))
            && (forall k :: k in m.sessions <==> k in db.sessions || (WritesRow(start, src, item) && item.session == k))
  {
    DecisionIsStable(start, db, src, item);
  }

  lemma SameBlobs(start: Db, a: Db, b: Db, files: Files)
    requires BlobsGrow(start, a, files) && BlobsGrow(start, b, files)
    ensures forall h :: h in a.blobs && h in b.blobs ==> UpToTime(a.blobs[h]) == UpToTime(b.blobs[h])
  {
  }

  /** In whatever order the entries come, and at whatever times, the migration raises or not alike and leaves the same
      rows up to those times. */
  lemma MigrationIgnoresOrder(db: Db, src: Source, xs: seq<Item>, ys: seq<Item>, clock: Clock, clock': Clock)
    requires DistinctKeys(xs) && DistinctKeys(ys) && SameItems(xs, ys)
    ensures var m, m' := MigrateAll(db, src, xs, clock), MigrateAll(db, src, ys, clock');
            m.raised == m'.raised && (!m.raised ==> SameRows(m.db, m'.db))
  {
    MigrationRaises(db, db, src, xs, clock);
    MigrationRaises(db, db, src, ys, clock');
    var m, m' := MigrateAll(db, src, xs, clock), MigrateAll(db, src, ys, clock');
    if !m.raised {
      SameShapes(db, src, xs, ys, clock, clock');
      SameBlobs(db, m.db, m'.db, src.files);
      WhatIsAdded(db, db, src, xs, clock);
      WhatIsAdded(db, db, src, ys, clock');
    }
  }

  lemma SameShapes(db: Db, src: Source, xs: seq<Item>, ys: seq<Item>, clock: Clock, clock': Clock)
    requires DistinctKeys(xs) && DistinctKeys(ys) && SameItems(xs, ys)
    requires !MigrateAll(db, src, xs, clock).raised && !MigrateAll(db, src, ys, clock').raised
    ensures forall key :: Shape(MigrateAll(db, src, xs, clock).db, key) == Shape(MigrateAll(db, src, ys, clock').db, key)
  {
    EachEntryDecides(db, db, src, xs, clock);
    EachEntryDecides(db, db, src, ys, clock');
    forall key
      ensures Shape(MigrateAll(db, src, xs, clock).db, key) == Shape(MigrateAll(db, src, ys, clock').db, key)
    {
      if item :| item in xs && item.Key() == key {
        assert item in ys;
      }
    }
  }

  /** Running the migration again at once changes no row up to times and raises nothing. */
  lemma MigrationIsIdempotent(db: Db, src: Source, items: seq<Item>, clock: Clock, clock': Clock)
    requires DistinctKeys(items) && !MigrateAll(db, src, items, clock).raised
    ensures var once := MigrateAll(db, src, items, clock).db;
            var twice := MigrateAll(once, src, items, clock');
            !twice.raised && twice.db.blobs == once.blobs && SameRows(twice.db, once)
  {
    var once := MigrateAll(db, src, items, clock).db;
    AgainChangesNoShape(db, src, items, clock, clock');
    WhatIsAdded(db, db, src, items, clock);
    WhatIsAdded(once, once, src, items, clock');
    MigrationRaises(db, db, src, items, clock);
    forall item | item in items
      ensures WritesRow(once, src, item) == WritesRow(db, src, item)
    {
      DecisionIsStable(db, once, src, item);
    }
  }

  lemma AgainChangesNoShape(db: Db, src: Source, items: seq<Item>, clock: Clock, clock': Clock)
    requires DistinctKeys(items) && !MigrateAll(db, src, items, clock).raised
    ensures var once := MigrateAll(db, src, items, clock).db;
            var twice := MigrateAll(once, src, items, clock');
            !twice.raised && twice.db.blobs == once.blobs && forall key :: Shape(twice.db, key) == Shape(once, key)
  {
    var once := MigrateAll(db, src, items, clock).db;
    MigrationRaises(db, db, src, items, clock);
    EachEntryDecides(db, db, src, items, clock);
    MigrationRaises(once, once, src, items, clock');
    forall item | item in items
      ensures EntryShape(once, src, item) == Shape(once, item.Key())
      ensures !Breaks(once, src, item) && (item.entry.sweptAt.None? && Redeemable(src, item) ==> item.handle in once.blobs)
    {
      DecisionIsStable(db, once, src, item);
      assert !Breaks(db, src, item);
    }
    EachEntryDecides(once, once, src, items, clock');
    var twice := MigrateAll(once, src, items, clock').db;
    forall key
      ensures Shape(twice, key) == Shape(once, key)
    {
      if item :| item in items && item.Key() == key {
      }
    }
    NoNewBlobs(once, src, items, clock');
  }

  lemma {:induction false} NoNewBlobs(db: Db, src: Source, items: seq<Item>, clock: Clock)
    requires forall item :: item in items && item.entry.sweptAt.None? && Redeemable(src, item) ==> item.handle in db.blobs
    ensures MigrateAll(db, src, items, clock).db.blobs == db.blobs
    decreases |items|
  {
    if items != [] {
      assert items[0] in items;
      var first := MigrateEntry(db, src, items[0], clock);
      assert first.db.blobs == db.blobs;
      NoNewBlobs(first.db, src, items[1..], clock);
    }
  }

  /** An entry whose blob is missing or does not match adds no row. */
  lemma UnredeemableAddsNothing(db: Db, src: Source, items: seq<Item>, item: Item, clock: Clock)
    requires DistinctKeys(items) && !MigrateAll(db, src, items, clock).raised
    requires item in items && item.entry.sweptAt.None? && !Redeemable(src, item)
    ensures Shape(MigrateAll(db, src, items, clock).db, item.Key()) == Shape(db, item.Key())
  {
    EachEntryDecides(db, db, src, items, clock);
  }

  // ---- reading an index file ----

  /** How the loop treats an index file: an exception leaves it, or the file counts as unreadable or malformed, or its
      entries are migrated. */
  datatype IndexContent = Undecodable | Unreadable | Malformed | Entries(blobs: seq<(Handle, Entry)>)

  /** `not idx`, for the document that this text holds. */
  predicate IsEmptyIndex(loads: string -> Loaded, text: string) {
    match loads(text)
    case Object(blobs, others) => blobs.None? && others == 0
    case _ => true
  }

  predicate IsBlank(text: string) {
    text == [] || (IsWhite(text[0] as int) && IsBlank(text[1..]))
  }

  function EntriesOf(loaded: Loaded): seq<(Handle, Entry)> {
    if loaded.Object? && loaded.blobs.Some? then loaded.blobs.value else []
  }

  function ContentOf(src: Source, file: IndexFile): IndexContent {
    if file.first.NotUtf8? then Undecodable
    else if file.first.Text? && !IsEmptyIndex(src.loads, file.first.text) then Entries(EntriesOf(src.loads(file.first.text)))
    else match file.second
      case Absent => Entries([])
      case NotUtf8 => Undecodable
      case IoError => Unreadable
      case Text(text) => if IsBlank(text) then Entries([]) else if file.copies then Malformed else Unreadable
  }

  predicate Readable(src: Source, file: IndexFile) {
    ContentOf(src, file).Entries?
  }

  predicate IsMalformed(src: Source, file: IndexFile) {
    ContentOf(src, file).Malformed?
  }

  /** Both reads meet the same. */
  predicate IsSteady(file: IndexFile) {
    file.first == file.second
  }

  /** A file that does not change while it is read stands in the way of the marker exactly when it cannot be read or
      decoded, or holds a non-blank text that is no non-empty JSON object. */
  lemma ReadableIff(src: Source, file: IndexFile)
    requires IsSteady(file)
    ensures Readable(src, file)
       <==> file.first.Absent?
            || (file.first.Text? && (IsBlank(file.first.text) || !IsEmptyIndex(src.loads, file.first.text)))
  {
  }

  // ---- the loop over index files ----

  function FileItems(src: Source, file: IndexFile): seq<Item> {
    if Readable(src, file) then
      var blobs := ContentOf(src, file).blobs;
      seq(|blobs|, i requires 0 <= i < |blobs| => Item(file.session, blobs[i].0, blobs[i].1))
    else []
  }

  /** What is migrated from a file: the entries of the object that its text holds, in order, all for the file's session. */
  lemma FileItemsExactly(src: Source, file: IndexFile, text: string, blobs: Option<seq<(Handle, Entry)>>, others: nat)
    requires file.first == Text(text) && src.loads(text) == Object(blobs, others) && (blobs.Some? || others > 0)
    ensures var items, entries := FileItems(src, file), if blobs == None then [] else blobs.value;
            |items| == |entries| && forall k :: 0 <= k < |items| ==> items[k] == Item(file.session, entries[k].0, entries[k].1)
  {
  }

  function AllItems(src: Source, files: seq<IndexFile>): seq<Item> {
    if files == [] then [] else FileItems(src, files[0]) + AllItems(src, files[1..])
  }

  /** File by file, up to the first exception. */
  function MigrateFiles(db: Db, src: Source, files: seq<IndexFile>, clock: Clock): Migration
    decreases |files|
  {
    if files == [] then Migration(db, false)
    else if ContentOf(src, files[0]).Undecodable? then Migration(db, true)
    else
      var m := MigrateAll(db, src, FileItems(src, files[0]), clock);
      if m.raised then m else MigrateFiles(m.db, src, files[1..], clock)
  }

  ghost predicate SomeUndecodable(src: Source, files: seq<IndexFile>) {
    exists file :: file in files && ContentOf(src, file).Undecodable?
  }

  lemma {:induction false} MigrateAppend(db: Db, src: Source, items: seq<Item>, more: seq<Item>, clock: Clock)
    ensures var m := MigrateAll(db, src, items, clock);
            MigrateAll(db, src, items + more, clock) == if m.raised then m else MigrateAll(m.db, src, more, clock)
    decreases |items|
  {
    if items == [] {
      assert items + more == more;
    } else {
      assert (items + more)[1..] == items[1..] + more;
      MigrateAppend(MigrateEntry(db, src, items[0], clock).db, src, items[1..], more, clock);
    }
  }

  /** Without an undecodable file the loops are one loop over all entries. */
  lemma {:induction false} FilesAreItems(db: Db, src: Source, files: seq<IndexFile>, clock: Clock)
    requires !SomeUndecodable(src, files)
    ensures MigrateFiles(db, src, files, clock) == MigrateAll(db, src, AllItems(src, files), clock)
    decreases |files|
  {
    if files != [] {
      var items, rest := FileItems(src, files[0]), files[1..];
      assert files[0] in files && forall file :: file in rest ==> file in files;
      MigrateAppend(db, src, items, AllItems(src, rest), clock);
      FilesAreItems(MigrateAll(db, src, items, clock).db, src, rest, clock);
    }
  }

  /** The loop raises exactly when some file cannot be decoded or some entry breaks the schema. */
  lemma {:induction false} FilesRaise(start: Db, db: Db, src: Source, files: seq<IndexFile>, clock: Clock)
    requires BlobsGrow(start, db, src.files)
    ensures MigrateFiles(db, src, files, clock).raised
       <==> SomeUndecodable(src, files) || exists item :: item in AllItems(src, files) && Breaks(start, src, item)
    decreases |files|
  {
    if files != [] {
      var items, rest := FileItems(src, files[0]), files[1..];
      MigrationRaises(start, db, src, items, clock);
      FilesRaise(start, MigrateAll(db, src, items, clock).db, src, rest, clock);
      assert forall file :: file in files <==> file == files[0] || file in rest;
      assert forall item :: item in AllItems(src, files) <==> item in items || item in AllItems(src, rest);
    }
  }

  /** Index files as a directory holds them: one per session, each a JSON object with distinct handles. */
  ghost predicate IsIndexDirectory(src: Source, files: seq<IndexFile>) {
    && (forall i, j :: 0 <= i < j < |files| ==> files[i].session != files[j].session)
    && (forall file :: file in files ==> DistinctHandles(src, file))
  }

  ghost predicate DistinctHandles(src: Source, file: IndexFile) {
    Readable(src, file) ==>
      var blobs := ContentOf(src, file).blobs;
      forall i, j :: 0 <= i < j < |blobs| ==> blobs[i].0 != blobs[j].0
  }

  lemma {:induction false} ItemFile(src: Source, files: seq<IndexFile>, item: Item) returns (i: nat)
    requires item in AllItems(src, files)
    ensures i < |files| && item in FileItems(src, files[i])
  {
    if item in FileItems(src, files[0]) {
      i := 0;
    } else {
      i := ItemFile(src, files[1..], item);
      i := i + 1;
    }
  }

  lemma {:induction false} FileItemsIncluded(src: Source, files: seq<IndexFile>, i: nat, item: Item)
    requires i < |files| && item in FileItems(src, files[i])
    ensures item in AllItems(src, files)
  {
    if i > 0 {
      FileItemsIncluded(src, files[1..], i - 1, item);
    }
  }

  lemma {:induction false} DirectoryKeys(src: Source, files: seq<IndexFile>)
    requires IsIndexDirectory(src, files)
    ensures DistinctKeys(AllItems(src, files))
  {
    if files != [] {
      var rest := files[1..];
      assert forall file :: file in rest ==> file in files;
      DirectoryKeys(src, rest);
      forall item | item in AllItems(src, rest)
        ensures item.session != files[0].session
      {
        var i := ItemFile(src, rest, item);
        assert files[i + 1] == rest[i];
        FileKeysDiffer(src, rest[i]);
      }
      FileKeysDiffer(src, files[0]);
      DistinctConcat(FileItems(src, files[0]), AllItems(src, rest));
    }
  }

  lemma DistinctConcat(xs: seq<Item>, ys: seq<Item>)
    requires DistinctKeys(xs) && DistinctKeys(ys)
    requires forall x, y :: x in xs && y in ys ==> x.session != y.session
    ensures DistinctKeys(xs + ys)
  {
  }

  lemma DirectoryItems(src: Source, files: seq<IndexFile>)
    requires IsIndexDirectory(src, files)
    ensures DistinctKeys(AllItems(src, files))
    ensures forall item :: item in AllItems(src, files) <==> exists file :: file in files && item in FileItems(src, file)
  {
    DirectoryKeys(src, files);
    forall item
      ensures item in AllItems(src, files) <==> exists file :: file in files && item in FileItems(src, file)
    {
      if item in AllItems(src, files) {
        var i := ItemFile(src, files, item);
      }
      if file :| file in files && item in FileItems(src, file) {
        var i :| 0 <= i < |files| && files[i] == file;
        FileItemsIncluded(src, files, i, item);
      }
    }
  }

  lemma FileKeysDiffer(src: Source, file: IndexFile)
    requires DistinctHandles(src, file)
    ensures DistinctKeys(FileItems(src, file))
    ensures forall item :: item in FileItems(src, file) ==> item.session == file.session
  {
  }

  /** The order of the index files does not matter. */
  lemma MigrationIgnoresFileOrder(db: Db, src: Source, files: seq<IndexFile>, files': seq<IndexFile>, clock: Clock, clock': Clock)
    requires IsIndexDirectory(src, files) && IsIndexDirectory(src, files') && forall file :: file in files <==> file in files'
    ensures var m, m' := MigrateFiles(db, src, files, clock), MigrateFiles(db, src, files', clock');
            m.raised == m'.raised && (!m.raised ==> SameRows(m.db, m'.db))
  {
    DirectoryItems(src, files);
    DirectoryItems(src, files');
    FilesRaise(db, db, src, files, clock);
    FilesRaise(db, db, src, files', clock');
    if !SomeUndecodable(src, files) {
      FilesAreItems(db, src, files, clock);
      FilesAreItems(db, src, files', clock');
      MigrationIgnoresOrder(db, src, AllItems(src, files), AllItems(src, files'), clock, clock');
    }
  }

  // ---- the marker ----

  /** One run of the migration ends with the marker written. */
  ghost predicate Completes(db: Db, src: Source, files: seq<IndexFile>, clock: Clock) {
    !MigrateFiles(db, src, files, clock).raised && forall file :: file in files ==> Readable(src, file)
  }

  /** A file that holds just `{}` keeps the marker from ever being written, whatever the rows and the other files are,
      although there is nothing in it to migrate. */
  lemma EmptyObjectBlocksMarker(db: Db, src: Source, files: seq<IndexFile>, file: IndexFile, clock: Clock)
    requires file in files && IsSteady(file) && file.first == Text("{}") && src.loads("{}") == Object(None, 0)
    ensures !Completes(db, src, files, clock) && FileItems(src, file) == []
    ensures file.copies ==> IsMalformed(src, file)
  {
    assert !IsBlank("{}");
  }

  // ---- the loops ----

  /** `_migrate_entry`, with `put_blob` meeting no lock. */
  method PutEntry(store: OwnershipStore, src: Source, item: Item, clock: Clock) returns (raised: bool)
    requires store.disk.files == src.files
    modifies store
    ensures store.disk == old(store.disk)
    ensures Migration(store.db, raised) == MigrateEntry(old(store.db), src, item, clock)
  {
    if item.entry.sweptAt.Some? {
      store.db := InsertTombstone(store.db, item.session, item.handle, item.entry.tool, item.entry.size,
                                  item.entry.sweptAt.value);
      return false;
    }
    if !Redeemable(src, item) {
      return false;
    }
    var report := store.PutBlob(ItemWrite(src, item), clock(item.Key()), [], false);
    return report.RaisedIntegrityError?;
  }

  /** The inner loop, over the entries of one file. */
  method MigrateFile(store: OwnershipStore, src: Source, items: seq<Item>, clock: Clock) returns (raised: bool)
    requires store.disk.files == src.files
    modifies store
    ensures store.disk == old(store.disk)
    ensures Migration(store.db, raised) == MigrateAll(old(store.db), src, items, clock)
  {
    raised := false;
    for i := 0 to |items|
      invariant store.disk == old(store.disk)
      invariant MigrateAll(store.db, src, items[i..], clock) == MigrateAll(old(store.db), src, items, clock)
    {
      assert items[i..][1..] == items[i + 1..];
      raised := PutEntry(store, src, items[i], clock);
      if raised {
        return;
      }
    }
  }

  lemma FileFlags(src: Source, files: seq<IndexFile>, i: nat)
    requires i < |files|
    ensures var isMalformed := (file: IndexFile) => IsMalformed(src, file);
            Filter(files[..i + 1], isMalformed) == Filter(files[..i], isMalformed) + if IsMalformed(src, files[i]) then [files[i]] else []
    ensures (forall file :: file in files[..i + 1] ==> Readable(src, file))
            <==> (forall file :: file in files[..i] ==> Readable(src, file)) && Readable(src, files[i])
  {
    assert files[..i + 1] == files[..i] + [files[i]];
    assert [files[i]][1..] == [];
    FilterConcat(files[..i], [files[i]], (file: IndexFile) => IsMalformed(src, file));
  }

  /** `migrate_legacy_indexes`: `marker` says whether the marker file is there.  Files that cannot be read leave it
      unwritten, so that the next start tries again; malformed ones are also copied aside. */
  method MigrateIndexes(store: OwnershipStore, src: Source, files: seq<IndexFile>, clock: Clock, marker: bool)
    returns (marked: bool, quarantined: seq<IndexFile>, raised: bool)
    requires store.disk.files == src.files
    modifies store
    ensures store.disk == old(store.disk)
    ensures marker ==> store.db == old(store.db) && marked && !raised && quarantined == []
    ensures !marker ==> Migration(store.db, raised) == MigrateFiles(old(store.db), src, files, clock)
    ensures !marker ==> (marked <==> Completes(old(store.db), src, files, clock))
    ensures !marker && !raised ==> quarantined == Filter(files, (file: IndexFile) => IsMalformed(src, file))
  {
    marked, quarantined, raised := marker, [], false;
    if marker {
      return;
    }
    var completed := true;
    for i := 0 to |files|
      invariant store.disk == old(store.disk)
      invariant MigrateFiles(store.db, src, files[i..], clock) == MigrateFiles(old(store.db), src, files, clock)
      invariant completed <==> forall file :: file in files[..i] ==> Readable(src, file)
      invariant quarantined == Filter(files[..i], (file: IndexFile) => IsMalformed(src, file))
    {
      assert files[i..][0] == files[i] && files[i..][1..] == files[i + 1..];
      FileFlags(src, files, i);
      match ContentOf(src, files[i])
      case Undecodable =>
        raised := true;
        return;
      case Unreadable =>
        completed := false;
      case Malformed =>
        quarantined := quarantined + [files[i]];
        completed := false;
      case Entries(_) =>
        raised := MigrateFile(store, src, FileItems(src, files[i]), clock);
        if raised {
          return;
        }
    }
    assert files[..|files|] == files;
    marked := completed;
  }
}
