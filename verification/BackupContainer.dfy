/** The .mnb container (minit/backups.py): magic, big-endian header length,
    canonical JSON header, GCM ciphertext of the tar+gzip stream, 16-byte tag.
    The header is the additional data of the stream and carries the data key in
    an envelope under the app key. */
module BackupContainer {
  import opened Results
  import opened Bytes
  import opened CanonicalJson
  import Base64Url
  import opened Gcm
  import opened Envelope

  const BACKUP_MAGIC: bytes := [77, 73, 78, 73, 84, 66, 48, 49]
  const MAX_HEADER_BYTES: nat := 16 * 1024 * 1024
  const FORMAT_NAME: string := "minit-data-backup"

  /** BackupError by message, and the AttributeError of a header that is no dict. */
  datatype BackupError =
    | NotABackup | TruncatedHeader | BadHeaderLength | BadHeader | WrongAppOrFormat | BadBackupId
    | UnboundEnvelope | CannotUnlock | BadKeyLength | BadNonce | BadNonceLength | TruncatedPayload
    | HeaderTooLarge | IntegrityFailed | EndedEarly | UnsafeMember | BadArchive | NotFound | Raised

  /** What one backup draws at random, and the clock. */
  datatype BackupDraw = BackupDraw(backupKey: Key, nonce: Nonce, keyDraw: Draw, createdAt: string)

  // ----- writing ------------------------------------------------------------

  function KeyEnvelope(g: Cipher, appKey: Key, appId: string, backupId: string, d: BackupDraw): Fields {
    EncryptEnvelope(g, d.backupKey, appKey, Context(BackupDataKey(appId, backupId)), d.keyDraw).value
  }

  function Header(appId: string, backupId: string, createdAt: string, nonce: bytes, envelope: Fields): Fields {
    Field("schema_version", Int(1),
    Field("format", Str(FORMAT_NAME),
    Field("algorithm", Str(ALGORITHM),
    Field("app_id", Str(appId),
    Field("backup_id", Str(backupId),
    Field("created_at", Str(createdAt),
    Field("compression", Str("tar-gzip"),
    Field("nonce", Str(Base64Url.Encode(nonce)),
    Field("key_envelope", Obj(envelope), NoFields)))))))))
  }

  function BackupHeader(g: Cipher, appKey: Key, appId: string, backupId: string, d: BackupDraw): Fields {
    Header(appId, backupId, d.createdAt, d.nonce, KeyEnvelope(g, appKey, appId, backupId, d))
  }

  function Prefix(header: bytes): bytes
    requires |header| <= MAX_HEADER_BYTES
  {
    BACKUP_MAGIC + BigEndian32(|header|) + header
  }

  /** The whole file _write_backup_stream leaves behind. */
  function Container(g: Cipher, appKey: Key, appId: string, backupId: string, d: BackupDraw, archive: bytes)
    : Result<bytes, BackupError>
  {
    var header := PrintBytes(Obj(BackupHeader(g, appKey, appId, backupId, d)));
    if |header| > MAX_HEADER_BYTES then Err(HeaderTooLarge)
    else Ok(Prefix(header) + Seal(g, d.backupKey, d.nonce, archive, header))
  }

  // ----- opening ------------------------------------------------------------

  /** Magic and header, as both the local reader and the server read them. */
  function ReadHeader(file: bytes): Result<(bytes, bytes), BackupError> {
    if |file| < 8 || file[..8] != BACKUP_MAGIC then Err(NotABackup)
    else if |file| < 12 then Err(TruncatedHeader)
    else
      var n := FromBigEndian32(file[8..12]);
      if n == 0 || n > MAX_HEADER_BYTES then Err(BadHeaderLength)
      else if |file| < 12 + n then Err(TruncatedHeader)
      else Ok((file[12..12 + n], file[12 + n..]))
  }

  /** json.loads(header_bytes.decode("utf-8")), required to be a dict. */
  function ParseHeader(header: bytes): Result<Fields, BackupError> {
    match Utf8Decode(header)
    case None => Err(BadHeader)
    case Some(text) =>
      match Parse(text)
      case None => Err(BadHeader)
      case Some(Obj(f)) => Ok(f)
      case Some(_) => Err(Raised)
  }

  datatype Opened = Opened(header: Fields, key: bytes, nonce: bytes, aad: bytes, ciphertext: bytes, tag: bytes)

  /** The identity checks on the header, then the data key and the nonce. */
  function UnlockHeader(g: Cipher, h: Fields, appId: string, appKey: bytes): Result<(bytes, bytes), BackupError> {
    if !IsOne(Lookup(h, "schema_version")) || Lookup(h, "format") != Some(Str(FORMAT_NAME))
       || Lookup(h, "algorithm") != Some(Str(ALGORITHM)) || Lookup(h, "app_id") != Some(Str(appId)) then
      Err(WrongAppOrFormat)
    else match (Lookup(h, "backup_id"), Lookup(h, "key_envelope"))
      case (Some(Str(backupId)), Some(Obj(envelope))) =>
        (match Lookup(envelope, "context")
         case None => Err(UnboundEnvelope)
         case Some(c) =>
           if !Same(c, Obj(Context(BackupDataKey(appId, backupId)))) then Err(UnboundEnvelope)
           else UnlockDataKey(g, h, envelope, appKey))
      case (Some(Str(_)), _) => Err(UnboundEnvelope)
      case (_, _) => Err(BadBackupId)
  }

  function UnlockDataKey(g: Cipher, h: Fields, envelope: Fields, appKey: bytes): Result<(bytes, bytes), BackupError> {
    match DecryptEnvelope(g, envelope, appKey)
    case Err(BadType) => Err(Raised)
    case Err(_) => Err(CannotUnlock)
    case Ok(key) =>
      if |key| != Envelope.KEY_BYTES then Err(BadKeyLength)
      else match Base64Field(h, "nonce")
        case Err(_) => Err(BadNonce)
        case Ok(nonce) => if |nonce| != NONCE_BYTES then Err(BadNonceLength) else Ok((key, nonce))
  }

  /** _open_decrypted_reader. */
  function OpenContainer(g: Cipher, file: bytes, appId: string, appKey: bytes): (r: Result<Opened, BackupError>)
    ensures r.Ok? ==> |r.value.tag| == TAG_BYTES
  {
    var parts :- ReadHeader(file);
    var h :- ParseHeader(parts.0);
    var unlocked :- UnlockHeader(g, h, appId, appKey);
    var payload := parts.1;
    if |payload| < TAG_BYTES then Err(TruncatedPayload)
    else
      var n := |payload| - TAG_BYTES;
      Ok(Opened(h, unlocked.0, unlocked.1, PrintBytes(Obj(h)), payload[..n], payload[n..]))
  }

  /** The plaintext of an opened container, if its tag is right. */
  function Plaintext(g: Cipher, o: Opened): Option<bytes> {
    Open(g, o.key, o.nonce, o.ciphertext + o.tag, o.aad)
  }

  // ----- what the writer emits opens ----------------------------------------

  function HeaderPairs(appId: string, backupId: string, createdAt: string, nonce: bytes, envelope: Fields)
    : (pairs: seq<(string, Json)>)
    ensures KeysDiffer(pairs)
  {
    assert "format"[0] != "app_id"[0] && "algorithm"[0] != "backup_id"[0];
    [("schema_version", Int(1)), ("format", Str(FORMAT_NAME)), ("algorithm", Str(ALGORITHM)), ("app_id", Str(appId)),
     ("backup_id", Str(backupId)), ("created_at", Str(createdAt)), ("compression", Str("tar-gzip")),
     ("nonce", Str(Base64Url.Encode(nonce))), ("key_envelope", Obj(envelope))]
  }

  lemma HeaderIsDict(appId: string, backupId: string, createdAt: string, nonce: bytes, envelope: Fields)
    ensures Dict(HeaderPairs(appId, backupId, createdAt, nonce, envelope))
            == Header(appId, backupId, createdAt, nonce, envelope)
  {
    hide Dict, KeysDiffer;
    var p := HeaderPairs(appId, backupId, createdAt, nonce, envelope);
    DictEnd(p);
    DictCons(p, 0); DictCons(p, 1); DictCons(p, 2); DictCons(p, 3); DictCons(p, 4);
    DictCons(p, 5); DictCons(p, 6); DictCons(p, 7); DictCons(p, 8);
  }

  lemma HeaderFields(appId: string, backupId: string, createdAt: string, nonce: bytes, envelope: Fields)
    ensures var h := Header(appId, backupId, createdAt, nonce, envelope);
            && Lookup(h, "schema_version") == Some(Int(1)) && Lookup(h, "format") == Some(Str(FORMAT_NAME))
            && Lookup(h, "algorithm") == Some(Str(ALGORITHM)) && Lookup(h, "app_id") == Some(Str(appId))
            && Lookup(h, "backup_id") == Some(Str(backupId)) && Lookup(h, "created_at") == Some(Str(createdAt))
            && Lookup(h, "nonce") == Some(Str(Base64Url.Encode(nonce)))
            && Lookup(h, "key_envelope") == Some(Obj(envelope))
    ensures IsValue(Obj(envelope)) ==> IsValue(Obj(Header(appId, backupId, createdAt, nonce, envelope)))
  {
    var p := HeaderPairs(appId, backupId, createdAt, nonce, envelope);
    HeaderIsDict(appId, backupId, createdAt, nonce, envelope);
    forall i | 0 <= i < 9 ensures Lookup(Dict(p), p[i].0) == Some(p[i].1) { DictLookup(p, i); }
    assert p[0].0 == "schema_version" && p[1].0 == "format" && p[2].0 == "algorithm" && p[3].0 == "app_id";
    assert p[4].0 == "backup_id" && p[5].0 == "created_at" && p[7].0 == "nonce" && p[8].0 == "key_envelope";
    if IsValue(Obj(envelope)) { DictIsValue(p); }
  }

  lemma ReadHeaderOfPrefix(header: bytes, payload: bytes)
    requires 0 < |header| <= MAX_HEADER_BYTES
    ensures ReadHeader(Prefix(header) + payload) == Ok((header, payload))
  {
    var file := Prefix(header) + payload;
    BigEndian32RoundTrip(|header|);
    assert file[..8] == BACKUP_MAGIC && file[8..12] == BigEndian32(|header|);
    assert file[12..12 + |header|] == header && file[12 + |header|..] == payload;
  }

  lemma ParseHeaderOfPrint(h: Fields)
    requires IsValue(Obj(h))
    ensures ParseHeader(PrintBytes(Obj(h))) == Ok(Canon(Obj(h)).fields)
    ensures PrintBytes(Canon(Obj(h))) == PrintBytes(Obj(h)) && PrintBytes(Obj(h)) != []
  {
    Utf8DecodeAscii(Print(Obj(h)));
    ParsePrint(Obj(h));
    CanonIsValue(Obj(h));
    PrintDictEnd(h);
  }

  /** The header a reader parses, its fields sorted, unlocks like the original. */
  lemma UnlockOwnHeader(g: Cipher, appKey: Key, appId: string, backupId: string, d: BackupDraw)
    ensures var h := BackupHeader(g, appKey, appId, backupId, d);
            IsValue(Obj(h)) && UnlockHeader(g, Canon(Obj(h)).fields, appId, appKey) == Ok((d.backupKey, d.nonce))
  {
    hide DecryptEnvelope, EncryptEnvelope, Context;
    var p := BackupDataKey(appId, backupId);
    var envelope := KeyEnvelope(g, appKey, appId, backupId, d);
    ContextIsContext(p);
    EnvelopeIsValue(g, d.backupKey, appKey, Context(p), d.keyDraw);
    EnvelopeFields(g, d.backupKey, appKey, Context(p), d.keyDraw);
    EnvelopeRoundTrip(g, d.backupKey, appKey, Context(p), d.keyDraw);
    DecryptCanon(g, envelope, appKey);
    HeaderFields(appId, backupId, d.createdAt, d.nonce, envelope);
    var h := BackupHeader(g, appKey, appId, backupId, d);
    LookupCanon(h, "schema_version"); LookupCanon(h, "format"); LookupCanon(h, "algorithm");
    LookupCanon(h, "app_id"); LookupCanon(h, "backup_id"); LookupCanon(h, "nonce"); LookupCanon(h, "key_envelope");
    LookupCanon(envelope, "context");
    CanonIsValue(Obj(Context(p)));
    Base64Url.DecodeEncode(d.nonce);
    UnlockSteps(g, Canon(Obj(h)).fields, appId, backupId, appKey, Canon(Obj(envelope)).fields);
  }

  /** The path through UnlockHeader when every check passes. */
  lemma UnlockSteps(g: Cipher, h: Fields, appId: string, backupId: string, appKey: bytes, envelope: Fields)
    requires IsOne(Lookup(h, "schema_version")) && Lookup(h, "format") == Some(Str(FORMAT_NAME))
    requires Lookup(h, "algorithm") == Some(Str(ALGORITHM)) && Lookup(h, "app_id") == Some(Str(appId))
    requires Lookup(h, "backup_id") == Some(Str(backupId)) && Lookup(h, "key_envelope") == Some(Obj(envelope))
    requires Lookup(envelope, "context").Some?
             && Same(Lookup(envelope, "context").value, Obj(Context(BackupDataKey(appId, backupId))))
    ensures UnlockHeader(g, h, appId, appKey) == UnlockDataKey(g, h, envelope, appKey)
  {
    hide DecryptEnvelope, Context, Same;
  }

  /** Opening what the writer emitted recovers the data key, the nonce, the
      additional data and the archive. */
  lemma ContainerRoundTrip(g: Cipher, appKey: Key, appId: string, backupId: string, d: BackupDraw, archive: bytes)
    requires Container(g, appKey, appId, backupId, d, archive).Ok?
    ensures var h := BackupHeader(g, appKey, appId, backupId, d);
            var o := OpenContainer(g, Container(g, appKey, appId, backupId, d, archive).value, appId, appKey);
            && o.Ok? && o.value.header == Canon(Obj(h)).fields && o.value.aad == PrintBytes(Obj(h))
            && o.value.key == d.backupKey && o.value.nonce == d.nonce
            && o.value.ciphertext + o.value.tag == Seal(g, d.backupKey, d.nonce, archive, PrintBytes(Obj(h)))
            && Plaintext(g, o.value) == Some(archive)
  {
    hide EncryptEnvelope, DecryptEnvelope, UnlockHeader, BackupHeader, Print;
    var h := BackupHeader(g, appKey, appId, backupId, d);
    var aad := PrintBytes(Obj(h));
    var payload := Seal(g, d.backupKey, d.nonce, archive, aad);
    UnlockOwnHeader(g, appKey, appId, backupId, d);
    ParseHeaderOfPrint(h);
    ReadHeaderOfPrefix(aad, payload);
    OpenSeal(g, d.backupKey, d.nonce, archive, aad);
    var n := |payload| - TAG_BYTES;
    assert payload[..n] + payload[n..] == payload;
  }

  // ----- an accepted container is one that was written ----------------------

  /** One stream that was encrypted, by this app or by anyone with the key. */
  datatype Stream = Stream(key: bytes, nonce: bytes, header: Fields, archive: bytes)

  /** The ideal assumption about forgery for the stream of a container. */
  ghost predicate StreamUnforged(g: Cipher, log: set<Stream>, o: Opened) {
    Plaintext(g, o).Some? ==>
      exists s :: s in log && s.key == o.key && s.nonce == o.nonce && o.aad == PrintBytes(Obj(s.header))
                  && o.ciphertext + o.tag == Seal(g, s.key, s.nonce, s.archive, o.aad)
  }

  lemma OpenedHeader(g: Cipher, file: bytes, appId: string, appKey: bytes)
    requires OpenContainer(g, file, appId, appKey).Ok?
    ensures var o := OpenContainer(g, file, appId, appKey).value;
            && o.aad == PrintBytes(Obj(o.header)) && IsValue(Obj(o.header))
            && Lookup(o.header, "app_id") == Some(Str(appId))
            && Lookup(o.header, "backup_id").Some? && Lookup(o.header, "backup_id").value.Str?
  {
    hide DecryptEnvelope, Same, Context, Print, Utf8Decode, ParseValue;
    var text := Utf8Decode(ReadHeader(file).value.0).value;
    ParsedIsValue(SkipSpace(text));
  }

  /** Whatever file is presented: if it opens for this app and its tag checks,
      its archive was encrypted under a header equal to the one presented, so
      for this app, and for the backup id the file claims. */
  lemma AcceptedContainerWasWritten(g: Cipher, log: set<Stream>, file: bytes, appId: string, appKey: bytes)
    requires OpenContainer(g, file, appId, appKey).Ok?
    requires StreamUnforged(g, log, OpenContainer(g, file, appId, appKey).value)
    requires Plaintext(g, OpenContainer(g, file, appId, appKey).value).Some?
    requires forall s | s in log :: IsValue(Obj(s.header))
    ensures var o := OpenContainer(g, file, appId, appKey).value;
            exists s :: s in log && Plaintext(g, o) == Some(s.archive) && SameEntries(s.header, o.header)
                        && Lookup(s.header, "app_id") == Some(Str(appId))
                        && Lookup(s.header, "backup_id") == Lookup(o.header, "backup_id")
  {
    hide OpenContainer, Print;
    var o := OpenContainer(g, file, appId, appKey).value;
    OpenedHeader(g, file, appId, appKey);
    var s :| s in log && s.key == o.key && s.nonce == o.nonce && o.aad == PrintBytes(Obj(s.header))
             && o.ciphertext + o.tag == Seal(g, s.key, s.nonce, s.archive, o.aad);
    OpenSeal(g, s.key, s.nonce, s.archive, o.aad);
    PrintBytesInjective(Obj(s.header), Obj(o.header));
    SameDicts(s.header, o.header);
    assert MapCanon(Lookup(s.header, "app_id")) == MapCanon(Lookup(o.header, "app_id"));
    assert MapCanon(Lookup(s.header, "backup_id")) == MapCanon(Lookup(o.header, "backup_id"));
  }

  // ----- what the server inspects -------------------------------------------

  datatype Inspection = Accepted(createdAt: string) | Rejected

  /** _inspect_backup_header in cloud_service/app.py; an AttributeError there is
      a rejection as well. */
  function Inspect(file: bytes, appId: string, backupId: string): Inspection {
    match ReadHeader(file)
    case Err(_) => Rejected
    case Ok(parts) =>
      match ParseHeader(parts.0)
      case Err(_) => Rejected
      case Ok(h) =>
        if Lookup(h, "format") != Some(Str(FORMAT_NAME)) || Lookup(h, "algorithm") != Some(Str(ALGORITHM)) then Rejected
        else if Lookup(h, "app_id") != Some(Str(appId)) || Lookup(h, "backup_id") != Some(Str(backupId)) then Rejected
        else match Lookup(h, "created_at")
          case Some(Str(t)) => if |t| <= 64 then Accepted(t) else Rejected
          case _ => Rejected
  }

  /** The server accepts whatever the local reader opens, under the id in its
      header, exactly when the creation time is a string of at most 64
      characters. */
  lemma OpenedPassesInspection(g: Cipher, file: bytes, appId: string, backupId: string, appKey: bytes)
    requires OpenContainer(g, file, appId, appKey).Ok?
    requires Lookup(OpenContainer(g, file, appId, appKey).value.header, "backup_id") == Some(Str(backupId))
    ensures var t := Lookup(OpenContainer(g, file, appId, appKey).value.header, "created_at");
            Inspect(file, appId, backupId)
            == if t.Some? && t.value.Str? && |t.value.s| <= 64 then Accepted(t.value.s) else Rejected
  {
    hide DecryptEnvelope, Same, Context, Print, Utf8Decode, Parse;
  }

  /** In particular everything the writer emits, under its own id. */
  lemma WrittenPassesInspection(g: Cipher, appKey: Key, appId: string, backupId: string, d: BackupDraw, archive: bytes)
    requires Container(g, appKey, appId, backupId, d, archive).Ok? && |d.createdAt| <= 64
    ensures Inspect(Container(g, appKey, appId, backupId, d, archive).value, appId, backupId) == Accepted(d.createdAt)
  {
    hide OpenContainer, Inspect, Container, KeyEnvelope;
    var file := Container(g, appKey, appId, backupId, d, archive).value;
    var envelope := KeyEnvelope(g, appKey, appId, backupId, d);
    var h := BackupHeader(g, appKey, appId, backupId, d);
    ContainerRoundTrip(g, appKey, appId, backupId, d, archive);
    UnlockOwnHeader(g, appKey, appId, backupId, d);
    HeaderFields(appId, backupId, d.createdAt, d.nonce, envelope);
    LookupCanon(h, "backup_id");
    LookupCanon(h, "created_at");
    OpenedPassesInspection(g, file, appId, backupId, appKey);
  }
}
