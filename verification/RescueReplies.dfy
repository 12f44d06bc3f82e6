/** What a full fetch answers, case by case, said in terms of rows and files. */
module RescueReplies {
  import opened RescueState
  import opened Numerals
  import opened RescueFetch

  // ---- bytes ----

  /** The bytes of one character by section 3 of RFC 3629. */
  function Encoded(c: int): seq<int> {
    if c < 0x80 then [c]
    else if c < 0x800 then [0xC0 + c / 0x40, 0x80 + c % 0x40]
    else if c < 0x1_0000 then [0xE0 + c / 0x1000, 0x80 + c / 0x40 % 0x40, 0x80 + c % 0x40]
    else [0xF0 + c / 0x4_0000, 0x80 + c / 0x1000 % 0x40, 0x80 + c / 0x40 % 0x40, 0x80 + c % 0x40]
  }

  function EncodedText(text: string): seq<int> {
    if text == [] then [] else Encoded(text[0] as int) + EncodedText(text[1..])
  }

  /** The size of a text is the number of its bytes. */
  lemma {:induction false} SizeIsBytes(text: string)
    ensures ByteSize(Utf8(text)) == |EncodedText(text)|
  {
    if text != [] {
      SizeIsBytes(text[1..]);
    }
  }

  // ---- handles ----

  const HEX_DIGITS := "0123456789abcdef"

  /** Twelve hexadecimal digits, with or without a final newline. */
  ghost predicate LooksLikeHandle(handle: Handle) {
    exists core: string :: IsCore(core) && (handle == core || handle == core + "\n")
  }

  predicate IsCore(core: string) {
    |core| == 12 && forall k :: 0 <= k < 12 ==> core[k] in HEX_DIGITS
  }

  lemma HexDigitsAre(c: char)
    ensures IsHex(c) <==> c in HEX_DIGITS
  {
    assert HEX_DIGITS[0] == '0' && HEX_DIGITS[1] == '1' && HEX_DIGITS[2] == '2' && HEX_DIGITS[3] == '3';
    assert HEX_DIGITS[4] == '4' && HEX_DIGITS[5] == '5' && HEX_DIGITS[6] == '6' && HEX_DIGITS[7] == '7';
    assert HEX_DIGITS[8] == '8' && HEX_DIGITS[9] == '9' && HEX_DIGITS[10] == 'a' && HEX_DIGITS[11] == 'b';
    assert HEX_DIGITS[12] == 'c' && HEX_DIGITS[13] == 'd' && HEX_DIGITS[14] == 'e' && HEX_DIGITS[15] == 'f';
  }

  lemma CoreIsHex(core: string)
    ensures IsCore(core) <==> |core| == HANDLE_LENGTH && AllHex(core)
  {
    forall k | 0 <= k < |core|
      ensures IsHex(core[k]) <==> core[k] in HEX_DIGITS
    {
      HexDigitsAre(core[k]);
    }
  }

  lemma ValidHandleIff(handle: Handle)
    ensures IsValidHandle(handle) <==> LooksLikeHandle(handle)
  {
    if IsValidHandle(handle) {
      var core := handle[..HANDLE_LENGTH];
      CoreIsHex(core);
      assert handle == core || handle == core + "\n";
    }
    if LooksLikeHandle(handle) {
      var core :| IsCore(core) && (handle == core || handle == core + "\n");
      CoreIsHex(core);
      assert handle[..HANDLE_LENGTH] == core;
    }
  }

  // ---- replies ----

  /** The session owns the handle live, and the file has the registered length and hash. */
  ghost predicate Redeems(db: Db, files: Files, session: SessionKey, handle: Handle) {
    var key := (session, handle);
    && key in db.owners && db.owners[key].state == Live
    && handle in db.blobs && handle in files
    && ByteSize(files[handle]) == db.blobs[handle].size && Sha256(files[handle]) == db.blobs[handle].fullHash
  }

  /** What a text becomes under the configured cap. */
  ghost predicate IsCapped(reply: Reply, whole: Reply, length: nat, cfg: FetchConfig) {
    reply == if cfg.refuseFullFetch && length > cfg.fullFetchMaxChars then TooLong(length, cfg.fullFetchMaxChars) else whole
  }

  /** A session that may redeem a handle gets the whole text exactly when refusing is off or the text is no longer than the
      cap, and is told its length otherwise. */
  lemma OwnedTextIsReturned(db: Db, files: Files, session: SessionKey, handle: Handle, text: string, cfg: FetchConfig)
    requires LooksLikeHandle(handle) && session != "" && Redeems(db, files, session, handle) && files[handle] == Utf8(text)
    ensures var reply := FetchFull(db, files, session, handle, cfg);
            && (reply == Blob(text) <==> !cfg.refuseFullFetch || |text| <= cfg.fullFetchMaxChars)
            && (reply != Blob(text) ==> reply == TooLong(|text|, cfg.fullFetchMaxChars))
  {
    ValidHandleIff(handle);
  }

  /** Bytes that are no text are only described; the description is itself subject to the cap. */
  lemma OwnedBytesAreDescribed(db: Db, files: Files, session: SessionKey, handle: Handle, bytes: seq<nat>, cfg: FetchConfig)
    requires LooksLikeHandle(handle) && session != "" && Redeems(db, files, session, handle) && files[handle] == Binary(bytes)
    ensures var message := "Error: handle " + handle + " is binary (" + Decimal(|bytes|) + " bytes)";
            IsCapped(FetchFull(db, files, session, handle, cfg), BinaryBlob(handle, |bytes|), |message|, cfg)
  {
    ValidHandleIff(handle);
  }

  /** Every other fetch is refused, for the first reason that applies. */
  lemma OtherFetchesAreRefused(db: Db, files: Files, session: SessionKey, handle: Handle, cfg: FetchConfig)
    ensures var reply, key := FetchFull(db, files, session, handle, cfg), (session, handle);
            && (!LooksLikeHandle(handle) ==> reply == InvalidHandle)
            && (LooksLikeHandle(handle) && session == "" ==> reply == SessionRequired)
            && (LooksLikeHandle(handle) && session != "" && !Redeems(db, files, session, handle) ==>
                  if key in db.owners && db.owners[key].state == Tombstone then
                    reply == Swept(handle,
                                   if db.owners[key].tool == "" then "the source tool" else db.owners[key].tool,
                                   if handle in db.blobs then db.blobs[handle].size else db.owners[key].size)
                  else reply == NotAvailable(handle))
  {
    ValidHandleIff(handle);
  }
}
