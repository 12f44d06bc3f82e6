/** The public store: content in, opaque handle out, and content back. */
module RescueBlobStore {
  import opened Prelude
  import opened RescueState
  import opened RescueStore
  import opened RescueFetch

  datatype PutReply = NoHandle | Stored(handle: Handle) | Collision | Raised

  /** Hexadecimal SHA-256 texts; different digests may agree on their first twelve digits. */
  ghost predicate IsHexDigest(hexOf: Digest -> string) {
    forall d :: |hexOf(d)| >= HANDLE_LENGTH && AllHex(hexOf(d))
  }

  function NewWrite(content: string, tool: string, session: SessionKey, hex: string): (w: BlobWrite)
    requires |hex| >= HANDLE_LENGTH
    ensures Genuine(w)
  {
    var raw := Utf8(content);
    BlobWrite(raw, hex[..HANDLE_LENGTH], Sha256(raw), ByteSize(raw), session, tool)
  }

  class BlobStore {
    var ownership: OwnershipStore?

    constructor (ownership: OwnershipStore?)
      ensures this.ownership == ownership
    {
      this.ownership := ownership;
    }

    /** `locks` and `gaveUp` are those that `put_blob` meets.  The error after the deadline reaches the caller; the file
        may then be written although no row was. */
    method Put(content: string, tool: string, session: SessionKey, now: real, hexOf: Digest -> string,
               locks: seq<LockPoint>, gaveUp: bool)
      returns (reply: PutReply)
      requires IsHexDigest(hexOf)
      modifies ownership
      ensures session == "" || ownership == null ==> reply == NoHandle
      ensures session == "" && ownership != null ==> ownership.db == old(ownership.db) && ownership.disk == old(ownership.disk)
      ensures session != "" && ownership != null ==>
                var w := NewWrite(content, tool, session, hexOf(Sha256(Utf8(content))));
                var plan := PutPlan(old(ownership.db), old(ownership.disk), w, now);
                if reply == Raised then
                  gaveUp && ownership.db == old(ownership.db) && ownership.disk in {old(ownership.disk), plan.disk}
                else
                  && Plan(ownership.db, ownership.disk) == plan
                  && reply == if Collides(old(ownership.db), w) then Collision else Stored(w.handle)
      ensures !gaveUp ==> reply != Raised
    {
      if session == "" || ownership == null {
        return NoHandle;
      }
      var w := NewWrite(content, tool, session, hexOf(Sha256(Utf8(content))));
      var report := ownership.PutBlob(w, now, locks, gaveUp);
      reply := if report == Done(true) then Stored(w.handle) else if report == Done(false) then Collision else Raised;
    }
  }

  /** What one put of a genuine record does to rows and files, told apart by what is registered. */
  lemma PutExactly(db: Db, disk: Disk, w: BlobWrite, now: real)
    requires w.fullHash == Sha256(w.raw) && w.size == ByteSize(w.raw)
    ensures var p, result, key := PutPlan(db, disk, w, now), PutResult(db, disk.files, w), (w.session, w.handle);
            var known := w.handle in db.blobs;
            if known && (db.blobs[w.handle].fullHash != w.fullHash || db.blobs[w.handle].size != w.size) then
              result == Refused && p == Plan(db, disk)
            else
              && p.disk == Disk(disk.files[w.handle := w.raw], disk.orphans)
              && if !known && |w.handle| != 12 then result == IntegrityError && p.db == db
                 else
                   && result == Accepted
                   && p.db.blobs == (if known then db.blobs else db.blobs[w.handle := BlobRow(w.fullHash, w.size, now)])
                   && p.db.sessions == (if w.session in db.sessions then db.sessions else db.sessions[w.session := now])
                   && p.db.owners == db.owners[key :=
                        OwnRow(Live, w.tool, w.size, if key in db.owners then db.owners[key].createdAt else now, Some(now), None, None)]
  {
  }

  /** What was put can be fetched at once by its session: all of it exactly when refusing is off or it is no longer than the
      full-fetch cap, and otherwise its length.  It is registered under the first twelve digits with its hash, its length in
      bytes and its tool. */
  lemma PutThenFetch(db: Db, disk: Disk, content: string, tool: string, session: SessionKey, hex: string, now: real,
                     cfg: FetchConfig)
    requires |hex| >= HANDLE_LENGTH && AllHex(hex) && session != ""
    requires !Collides(db, NewWrite(content, tool, session, hex))
    ensures var w := NewWrite(content, tool, session, hex);
            var p := PutPlan(db, disk, w, now);
            var reply := FetchFull(p.db, p.disk.files, session, w.handle, cfg);
            && (reply == Blob(content) <==> !cfg.refuseFullFetch || |content| <= cfg.fullFetchMaxChars)
            && (reply != Blob(content) ==> reply == TooLong(|content|, cfg.fullFetchMaxChars))
            && w.handle == hex[..12] && w.handle in p.db.blobs
            && p.db.blobs[w.handle].fullHash == Sha256(Utf8(content)) && p.db.blobs[w.handle].size == Utf8Length(content)
            && (session, w.handle) in p.db.owners && p.db.owners[(session, w.handle)].tool == tool
            && p.db.owners[(session, w.handle)].size == Utf8Length(content)
  {
    var w := NewWrite(content, tool, session, hex);
    var p := PutPlan(db, disk, w, now);
    assert IsLive(p.db.owners, (session, w.handle));
    assert p.disk.files[w.handle] == Utf8(content);
  }

  /** A session that does not own the handle live gets no content, whoever else stored it. */
  lemma NotOwnedNotFetched(db: Db, files: Files, session: SessionKey, handle: Handle, cfg: FetchConfig)
    ensures FetchFull(db, files, session, handle, cfg).Blob? ==>
              && IsLive(db.owners, (session, handle)) && handle in db.blobs
              && Matches(files, handle, db.blobs[handle].fullHash, db.blobs[handle].size)
    ensures handle !in files || !IsLive(db.owners, (session, handle)) ==>
              !FetchFull(db, files, session, handle, cfg).Blob? && !FetchFull(db, files, session, handle, cfg).TooLong?
  {
  }
}
