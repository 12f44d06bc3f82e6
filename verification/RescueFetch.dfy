/** Reading a blob back: authorize, then read. */
module RescueFetch {
  import opened Prelude
  import opened Numerals
  import opened RescueState

  datatype Reply =
    | InvalidHandle
    | SessionRequired
    | Swept(handle: Handle, tool: string, size: int)
    | NotAvailable(handle: Handle)
    | NotFound(handle: Handle)
    | BinaryBlob(handle: Handle, bytes: nat)
    | TooLong(length: nat, cap: int)
    | Blob(text: string)

  datatype FetchConfig = FetchConfig(fullFetchMaxChars: int, refuseFullFetch: bool)

  predicate IsHex(c: char) {
    '0' <= c <= '9' || 'a' <= c <= 'f'
  }

  predicate AllHex(s: string) {
    forall i :: 0 <= i < |s| ==> IsHex(s[i])
  }

  /** The pattern ^[0-9a-f]{12}$ of Python: `$` also matches before one final newline. */
  predicate IsValidHandle(handle: Handle) {
    || (|handle| == HANDLE_LENGTH && AllHex(handle))
    || (|handle| == HANDLE_LENGTH + 1 && AllHex(handle[..HANDLE_LENGTH]) && handle[HANDLE_LENGTH] == '\n')
  }

  /** The join of `session_references`: the blob row of a handle that the session owns live. */
  function OwnedBlob(db: Db, session: SessionKey, handle: Handle): Option<BlobRow> {
    if IsLive(db.owners, (session, handle)) && handle in db.blobs then Some(db.blobs[handle]) else None
  }

  predicate SessionReferences(db: Db, files: Files, session: SessionKey, handle: Handle) {
    && session != ""
    && IsValidHandle(handle)
    && match OwnedBlob(db, session, handle)
       case None => false
       case Some(row) => Matches(files, handle, row.fullHash, row.size)
  }

  function TombstoneReply(db: Db, session: SessionKey, handle: Handle): Option<Reply> {
    var key := (session, handle);
    if key in db.owners && db.owners[key].state.Tombstone? then
      var row := db.owners[key];
      Some(Swept(handle,
                 if row.tool == "" then "the source tool" else row.tool,
                 if handle in db.blobs then db.blobs[handle].size else row.size))
    else None
  }

  function OrElse(reply: Option<Reply>, default: Reply): Reply {
    if reply.Some? then reply.value else default
  }

  /** None means that the session may read the blob. */
  function Authorize(db: Db, files: Files, session: SessionKey, handle: Handle): Option<Reply> {
    if !IsValidHandle(handle) then Some(InvalidHandle)
    else if session == "" then Some(SessionRequired)
    else if !SessionReferences(db, files, session, handle) then
      Some(OrElse(TombstoneReply(db, session, handle), NotAvailable(handle)))
    else None
  }

  function ReadBlobText(db: Db, files: Files, session: SessionKey, handle: Handle): Reply {
    if handle !in files then OrElse(TombstoneReply(db, session, handle), NotFound(handle))
    else match files[handle]
      case Utf8(text) => Blob(text)
      case Binary(bytes) => BinaryBlob(handle, |bytes|)
  }

  predicate HasBlob(files: Files, handle: Handle) {
    IsValidHandle(handle) && handle in files
  }

  /** `blob_text`: the content of a blob file that is valid UTF-8, with no question of ownership. */
  function BlobText(files: Files, handle: Handle): Option<string> {
    if HasBlob(files, handle) && files[handle].Utf8? then Some(files[handle].text) else None
  }

  /** The text of the replies that can reach the full-fetch cap. */
  function Render(reply: Reply): string {
    match reply
    case InvalidHandle => "Error: invalid handle"
    case SessionRequired => "Error: session ID required to fetch a handle"
    case Swept(handle, tool, size) =>
      "[Swept] Handle " + handle + " (from " + tool + ", " + Grouped(size) + " chars) expired "
      + "after the retention window. Re-run " + tool + " to regenerate it."
    case NotAvailable(handle) => "Error: handle " + handle + " not available in this session"
    case NotFound(handle) => "Error: handle " + handle + " not found (may have been swept)"
    case BinaryBlob(handle, size) => "Error: handle " + handle + " is binary (" + Decimal(size) + " bytes)"
    case TooLong(length, cap) =>
      "Refused: blob is " + Grouped(length) + " chars, over the tokenjuice_rescue_full_fetch_max_chars="
      + Grouped(cap) + " limit (tokenjuice_rescue_refuse_full_fetch=True). Use mode='range' with start/count, "
      + "e.g. start=0,count=20, or mode='grep' with a literal pattern."
    case Blob(text) => text
  }

  /** `_fetch_full` looks at the length of whatever text it is given, message or blob. */
  function CapFull(reply: Reply, cfg: FetchConfig): Reply {
    var length := |Render(reply)|;
    if cfg.refuseFullFetch && length > cfg.fullFetchMaxChars then TooLong(length, cfg.fullFetchMaxChars) else reply
  }

  /** A full fetch whose two steps see the same rows and files. */
  function FetchFull(db: Db, files: Files, session: SessionKey, handle: Handle, cfg: FetchConfig): Reply {
    match Authorize(db, files, session, handle)
    case Some(reply) => reply
    case None => CapFull(ReadBlobText(db, files, session, handle), cfg)
  }
}
