/** The layout of a .mnb file, and exactly which files the local reader opens and
    the server accepts. */
module ContainerOutcomes {
  import opened Results
  import opened Bytes
  import opened CanonicalJson
  import opened Gcm
  import opened Envelope
  import opened BackupContainer
  import opened KeyOutcomes

  // ----- the layout ---------------------------------------------------------

  const MAX: nat := 16777216

  /** Eight bytes MINITB01, the header's length in four, the header, the rest. */
  ghost predicate LaidOut(file: bytes, header: bytes, payload: bytes) {
    && |file| == 12 + |header| + |payload| && 0 < |header| <= MAX
    && IsAscii("MINITB01") && file[..8] == Ascii("MINITB01") && Number(256, file[8..12]) == |header|
    && file[12..12 + |header|] == header && file[12 + |header|..] == payload
  }

  lemma MagicText()
    ensures IsAscii("MINITB01") && Ascii("MINITB01") == BACKUP_MAGIC
  {}

  lemma FourBytesSpell(b: bytes)
    requires |b| == 4
    ensures Number(256, b) == FromBigEndian32(b)
  {
    FourDigits(256, b[0], b[1], b[2], b[3]);
    assert b == [b[0], b[1], b[2], b[3]];
  }

  /** Header and payload are read exactly where a file is laid out so. */
  lemma ReadHeaderExactly(file: bytes, header: bytes, payload: bytes)
    ensures ReadHeader(file) == Ok((header, payload)) <==> LaidOut(file, header, payload)
    ensures ReadHeader(file) == Err(NotABackup) <==> !(IsAscii("MINITB01") && Ascii("MINITB01") <= file)
  {
    MagicText();
    if |file| >= 12 { FourBytesSpell(file[8..12]); }
  }

  /** What the writer leaves behind, byte by byte: the layout, the ciphertext as
      the archive XOR the keystream of the backup key, and the tag over the
      header and the ciphertext. A header over 16 MiB is refused. */
  lemma ContainerLayout(g: Cipher, appKey: Key, appId: string, backupId: string, d: BackupDraw, archive: bytes)
    ensures var header := PrintBytes(Obj(BackupHeader(g, appKey, appId, backupId, d)));
            var r := Container(g, appKey, appId, backupId, d, archive);
            && (r.Ok? <==> |header| <= MAX)
            && (r.Ok? ==>
                  exists payload: bytes ::
                    && LaidOut(r.value, header, payload) && |payload| == |archive| + 16
                    && payload[|archive|..] == g.mac(d.backupKey, d.nonce, header, payload[..|archive|])
                    && forall i | 0 <= i < |archive| ::
                         payload[i] == Xor(archive[i], g.keystream(d.backupKey, d.nonce, i)))
  {
    hide BackupHeader, Seal, Xor, Print;
    var h := BackupHeader(g, appKey, appId, backupId, d);
    var header := PrintBytes(Obj(h));
    PrintDictEnd(h);
    if |header| <= MAX {
      var payload := Seal(g, d.backupKey, d.nonce, archive, header);
      SealLayout(g, d.backupKey, d.nonce, archive, header);
      ReadHeaderOfPrefix(header, payload);
      ReadHeaderExactly(Prefix(header) + payload, header, payload);
    }
  }

  // ----- the local reader ---------------------------------------------------

  /** The header is of this app and format, its envelope is bound to this app and
      the backup it names and holds this 32-byte key, and this is its nonce. */
  ghost predicate HeaderUnlocks(g: Cipher, h: Fields, appId: string, appKey: bytes, key: bytes, nonce: bytes) {
    && Lookup(h, "schema_version") in {Some(Int(1)), Some(Bool(true))}
    && Lookup(h, "format") == Some(Str("minit-data-backup")) && Lookup(h, "algorithm") == Some(Str("AES-256-GCM"))
    && Lookup(h, "app_id") == Some(Str(appId))
    && Base64Field(h, "nonce") == Ok(nonce) && |nonce| == 12
    && (match (Lookup(h, "backup_id"), Lookup(h, "key_envelope"))
        case (Some(Str(backupId)), Some(e)) => Holds(g, e, BackupDataKey(appId, backupId), appKey, key)
        case _ => false)
  }

  lemma UnlockExactly(g: Cipher, h: Fields, appId: string, appKey: bytes, key: bytes, nonce: bytes)
    ensures UnlockHeader(g, h, appId, appKey) == Ok((key, nonce)) <==> HeaderUnlocks(g, h, appId, appKey, key, nonce)
  {
    hide DecryptEnvelope, Same, Context, Base64Field;
  }

  /** Whatever file is presented, it opens exactly when it is laid out as a backup,
      its header is a JSON dict that unlocks, and a tag fits into the rest; and
      then ciphertext and tag are that rest and the additional data is the
      header's canonical text. */
  lemma OpenExactly(g: Cipher, file: bytes, appId: string, appKey: bytes, o: Opened)
    ensures OpenContainer(g, file, appId, appKey) == Ok(o)
       <==> exists header ::
              && LaidOut(file, header, o.ciphertext + o.tag) && |o.tag| == 16
              && ParseHeader(header) == Ok(o.header) && o.aad == PrintBytes(Obj(o.header))
              && HeaderUnlocks(g, o.header, appId, appKey, o.key, o.nonce)
  {
    hide ReadHeader, ParseHeader, UnlockHeader, HeaderUnlocks, LaidOut, Print;
    var payload := o.ciphertext + o.tag;
    forall header ensures ReadHeader(file) == Ok((header, payload)) <==> LaidOut(file, header, payload) {
      ReadHeaderExactly(file, header, payload);
    }
    UnlockExactly(g, o.header, appId, appKey, o.key, o.nonce);
    if OpenContainer(g, file, appId, appKey) == Ok(o) {
      var parts := ReadHeader(file).value;
      assert o.ciphertext + o.tag == parts.1;
      assert LaidOut(file, parts.0, payload);
    }
    if header :| && LaidOut(file, header, payload) && |o.tag| == 16 && ParseHeader(header) == Ok(o.header)
                 && o.aad == PrintBytes(Obj(o.header)) && HeaderUnlocks(g, o.header, appId, appKey, o.key, o.nonce) {
      var n := |payload| - 16;
      assert payload[..n] == o.ciphertext && payload[n..] == o.tag;
    }
  }

  /** The key such a file gives was sealed as the key of the backup it names. */
  lemma UnlockedKeyIsTheBackups(g: Cipher, log: set<Sealing>, h: Fields, appId: string, appKey: bytes, key: bytes,
                                nonce: bytes)
    requires FreshDataKeys(log) && HeaderUnlocks(g, h, appId, appKey, key, nonce) && IsValue(Obj(h))
    requires EnvelopeUnforged(g, log, Lookup(h, "key_envelope").value.fields, appKey)
    ensures exists s :: s in log && s.plaintext == key && s.wrappingKey == appKey && s.purpose.BackupDataKey?
                        && s.purpose.appId == appId && Lookup(h, "backup_id") == Some(Str(s.purpose.backupId))
  {
    hide DecryptEnvelope, Same, Context, Base64Field, EnvelopeUnforged;
    var e, backupId := Lookup(h, "key_envelope").value, Lookup(h, "backup_id").value.s;
    LookupIsValue(h, "key_envelope");
    OpensOnlyForItsPurpose(g, log, e.fields, appKey, BackupDataKey(appId, backupId));
  }

  // ----- the server ---------------------------------------------------------

  /** The server accepts a file exactly when it is laid out as a backup and its
      header is a dict of this format that names the app and the backup of the
      path, with a creation time of at most 64 characters. */
  lemma InspectExactly(file: bytes, appId: string, backupId: string, createdAt: string)
    ensures Inspect(file, appId, backupId) == Accepted(createdAt)
       <==> exists header, payload ::
              && LaidOut(file, header, payload) && ParseHeader(header).Ok? && |createdAt| <= 64
              && var h := ParseHeader(header).value;
                 && Lookup(h, "format") == Some(Str("minit-data-backup"))
                 && Lookup(h, "algorithm") == Some(Str("AES-256-GCM")) && Lookup(h, "app_id") == Some(Str(appId))
                 && Lookup(h, "backup_id") == Some(Str(backupId)) && Lookup(h, "created_at") == Some(Str(createdAt))
  {
    hide ReadHeader, ParseHeader, LaidOut;
    forall header, payload ensures ReadHeader(file) == Ok((header, payload)) <==> LaidOut(file, header, payload) {
      ReadHeaderExactly(file, header, payload);
    }
    match ReadHeader(file)
    case Ok(parts) => assert LaidOut(file, parts.0, parts.1);
    case Err(_) =>
  }
}
