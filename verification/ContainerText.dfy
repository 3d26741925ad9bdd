/** The .mnb file byte by byte, and exactly which files the local reader and the
    server take. */
module ContainerText {
  import opened Results
  import opened Bytes
  import opened CanonicalJson
  import opened JsonText
  import Base64Url
  import opened Gcm
  import opened Envelope
  import opened EnvelopeText
  import opened BackupContainer

  // ----- the header's text --------------------------------------------------

  /** The fields of a header in key order. */
  function SortedHeader(appId: string, backupId: string, createdAt: string, nonce: bytes, envelope: Json): Fields {
    Field("algorithm", Str("AES-256-GCM"), Field("app_id", Str(appId), Field("backup_id", Str(backupId),
    Field("compression", Str("tar-gzip"), LaterHeader(createdAt, nonce, envelope)))))
  }

  function LaterHeader(createdAt: string, nonce: bytes, envelope: Json): Fields {
    Field("created_at", Str(createdAt), Field("format", Str("minit-data-backup"),
    Field("key_envelope", envelope, Field("nonce", Str(Base64Url.Encode(nonce)),
    Field("schema_version", Int(1), NoFields)))))
  }

  lemma HeaderOrder()
    ensures Less("algorithm", "app_id") && Less("app_id", "backup_id") && Less("backup_id", "compression")
    ensures Less("compression", "created_at") && Less("compression", "key_envelope")
    ensures Less("created_at", "key_envelope") && Less("key_envelope", "nonce")
    ensures Less("algorithm", "format") && Less("app_id", "format") && Less("backup_id", "format")
    ensures Less("compression", "format") && Less("created_at", "format") && Less("format", "key_envelope")
  {
    assert "algorithm"[0] == "app_id"[0] && "algorithm"[1..][0] < "app_id"[1..][0];
    assert "app_id"[0] < "backup_id"[0] < "compression"[0] == "created_at"[0] < "format"[0] < "key_envelope"[0];
    assert "compression"[1..][0] < "created_at"[1..][0] && "key_envelope"[0] < "nonce"[0];
  }

  lemma SchemaVersionIsLast()
    ensures Less("algorithm", "schema_version") && Less("app_id", "schema_version")
    ensures Less("backup_id", "schema_version") && Less("compression", "schema_version")
    ensures Less("created_at", "schema_version") && Less("format", "schema_version")
    ensures Less("key_envelope", "schema_version") && Less("nonce", "schema_version")
  {
    assert "algorithm"[0] == "app_id"[0] < "backup_id"[0] < "compression"[0] == "created_at"[0] < "format"[0]
           < "key_envelope"[0] < "nonce"[0] < "schema_version"[0];
  }

  lemma InsertFirst(k: string, v: Json, f: Fields)
    requires f.Field? && Less(k, f.key)
    ensures Insert(k, v, f) == Field(k, v, f)
  {}

  lemma InsertLater(k: string, v: Json, f: Fields)
    requires f.Field? && Less(f.key, k)
    ensures Insert(k, v, f) == Field(f.key, f.value, Insert(k, v, f.rest))
  {
    if Less(k, f.key) {
      LessTransitive(k, f.key, k);
      LessIrreflexive(k);
    }
  }

  lemma InsertLast(k: string, v: Json)
    ensures Insert(k, v, NoFields) == Field(k, v, NoFields)
  {}

  /** The last six fields of a header as they are inserted. */
  lemma SortLater(createdAt: string, nonce: bytes, envelope: Json)
    ensures var n := Str(Base64Url.Encode(nonce));
            Sort(Field("created_at", Str(createdAt), Field("compression", Str("tar-gzip"),
                 Field("nonce", n, Field("key_envelope", envelope, NoFields)))))
            == Field("compression", Str("tar-gzip"), Field("created_at", Str(createdAt),
               Field("key_envelope", envelope, Field("nonce", n, NoFields))))
  {
    hide Less, Insert, Base64Url.Encode;
    HeaderOrder();
    var n := Str(Base64Url.Encode(nonce));
    var one := Field("key_envelope", envelope, NoFields);
    InsertLast("key_envelope", envelope);
    assert Sort(one) == one by { assert Sort(NoFields) == NoFields; }
    InsertLast("nonce", n);
    InsertLater("nonce", n, one);
    var two := Field("key_envelope", envelope, Field("nonce", n, NoFields));
    assert Sort(Field("nonce", n, one)) == two;
    InsertFirst("compression", Str("tar-gzip"), two);
    var three := Field("compression", Str("tar-gzip"), two);
    assert Sort(Field("compression", Str("tar-gzip"), Field("nonce", n, one))) == three;
    InsertLater("created_at", Str(createdAt), three);
    InsertFirst("created_at", Str(createdAt), two);
  }

  lemma SortFront(appId: string, backupId: string, f: Fields, sorted: Fields)
    requires Sort(f) == sorted && sorted.Field? && sorted.key == "compression"
    ensures Sort(Field("algorithm", Str("AES-256-GCM"), Field("app_id", Str(appId),
                 Field("backup_id", Str(backupId), f))))
         == Field("algorithm", Str("AES-256-GCM"),
                  Field("app_id", Str(appId), Field("backup_id", Str(backupId), sorted)))
  {
    hide Less, Insert;
    HeaderOrder();
    InsertFirst("backup_id", Str(backupId), sorted);
    var one := Field("backup_id", Str(backupId), sorted);
    assert Sort(Field("backup_id", Str(backupId), f)) == one;
    InsertFirst("app_id", Str(appId), one);
    var two := Field("app_id", Str(appId), one);
    assert Sort(Field("app_id", Str(appId), Field("backup_id", Str(backupId), f))) == two;
    InsertFirst("algorithm", Str("AES-256-GCM"), two);
  }

  /** Past `f.key`, which is smaller, into the rest. */
  lemma InsertPast(k: string, v: Json, key: string, value: Json, rest: Fields, result: Fields)
    requires Less(key, k) && Insert(k, v, rest) == result
    ensures Insert(k, v, Field(key, value, rest)) == Field(key, value, result)
  {
    InsertLater(k, v, Field(key, value, rest));
  }

  /** The header as it is built, around any envelope. */
  function BuiltHeader(appId: string, backupId: string, createdAt: string, nonce: bytes, envelope: Json): Fields {
    Field("schema_version", Int(1), Field("format", Str("minit-data-backup"), Field("algorithm", Str("AES-256-GCM"),
    Field("app_id", Str(appId), Field("backup_id", Str(backupId), BuiltLater(createdAt, nonce, envelope))))))
  }

  function BuiltLater(createdAt: string, nonce: bytes, envelope: Json): Fields {
    Field("created_at", Str(createdAt), Field("compression", Str("tar-gzip"),
    Field("nonce", Str(Base64Url.Encode(nonce)), Field("key_envelope", envelope, NoFields))))
  }

  lemma CanonHeader(appId: string, backupId: string, createdAt: string, nonce: bytes, envelope: Fields)
    ensures CanonFields(Header(appId, backupId, createdAt, nonce, envelope))
         == BuiltHeader(appId, backupId, createdAt, nonce, Canon(Obj(envelope)))
  {
    hide Canon, Base64Url.Encode;
    var e, n := Obj(envelope), Str(Base64Url.Encode(nonce));
    assert forall s :: Canon(Str(s)) == Str(s) && Canon(Int(1)) == Int(1) by { CanonStr(); }
    var later := BuiltLater(createdAt, nonce, e);
    assert CanonFields(Field("nonce", n, Field("key_envelope", e, NoFields)))
        == Field("nonce", n, Field("key_envelope", Canon(e), NoFields)) by {
      assert CanonFields(Field("key_envelope", e, NoFields)) == Field("key_envelope", Canon(e), NoFields);
    }
    assert CanonFields(later) == BuiltLater(createdAt, nonce, Canon(e));
    var front := Field("app_id", Str(appId), Field("backup_id", Str(backupId), later));
    assert CanonFields(Field("backup_id", Str(backupId), later))
        == Field("backup_id", Str(backupId), BuiltLater(createdAt, nonce, Canon(e)));
    assert CanonFields(Field("algorithm", Str("AES-256-GCM"), front))
        == Field("algorithm", Str("AES-256-GCM"), CanonFields(front));
  }

  lemma CanonStr()
    ensures forall s :: Canon(Str(s)) == Str(s)
    ensures Canon(Int(1)) == Int(1)
  {}

  lemma HeaderSorts(appId: string, backupId: string, createdAt: string, nonce: bytes, envelope: Fields)
    ensures Canon(Obj(Header(appId, backupId, createdAt, nonce, envelope)))
         == Obj(SortedHeader(appId, backupId, createdAt, nonce, Canon(Obj(envelope))))
  {
    hide Less, Insert, Base64Url.Encode, Header;
    var e := Canon(Obj(envelope));
    CanonHeader(appId, backupId, createdAt, nonce, envelope);
    var later := BuiltLater(createdAt, nonce, e);
    SortLater(createdAt, nonce, e);
    SortFront(appId, backupId, later, Sort(later));
    FormatGoesIn(appId, backupId, createdAt, nonce, e);
    VersionGoesLast(appId, backupId, createdAt, nonce, e);
    var r3 := Field("algorithm", Str("AES-256-GCM"),
                    Field("app_id", Str(appId), Field("backup_id", Str(backupId), later)));
    var r2 := Field("format", Str("minit-data-backup"), r3);
    assert Sort(r2) == Insert("format", Str("minit-data-backup"), Sort(r3));
    assert Sort(Field("schema_version", Int(1), r2)) == Insert("schema_version", Int(1), Sort(r2));
    assert Field("schema_version", Int(1), r2) == BuiltHeader(appId, backupId, createdAt, nonce, e);
  }

  /** format goes between created_at and key_envelope. */
  lemma FormatGoesIn(appId: string, backupId: string, createdAt: string, nonce: bytes, e: Json)
    ensures var n := Str(Base64Url.Encode(nonce));
            var k := Field("key_envelope", e, Field("nonce", n, NoFields));
            Insert("format", Str("minit-data-backup"),
              Field("algorithm", Str("AES-256-GCM"), Field("app_id", Str(appId), Field("backup_id", Str(backupId),
              Field("compression", Str("tar-gzip"), Field("created_at", Str(createdAt), k))))))
            == Field("algorithm", Str("AES-256-GCM"), Field("app_id", Str(appId), Field("backup_id", Str(backupId),
               Field("compression", Str("tar-gzip"), Field("created_at", Str(createdAt),
               Field("format", Str("minit-data-backup"), k))))))
  {
    hide Less, Insert, Base64Url.Encode;
    HeaderOrder();
    var format := Str("minit-data-backup");
    var k := Field("key_envelope", e, Field("nonce", Str(Base64Url.Encode(nonce)), NoFields));
    InsertFirst("format", format, k);
    var k' := Field("format", format, k);
    InsertPast("format", format, "created_at", Str(createdAt), k, k');
    var c, c' := Field("created_at", Str(createdAt), k), Field("created_at", Str(createdAt), k');
    InsertPast("format", format, "compression", Str("tar-gzip"), c, c');
    var m, m' := Field("compression", Str("tar-gzip"), c), Field("compression", Str("tar-gzip"), c');
    InsertPast("format", format, "backup_id", Str(backupId), m, m');
    var b, b' := Field("backup_id", Str(backupId), m), Field("backup_id", Str(backupId), m');
    InsertPast("format", format, "app_id", Str(appId), b, b');
    var a, a' := Field("app_id", Str(appId), b), Field("app_id", Str(appId), b');
    InsertPast("format", format, "algorithm", Str("AES-256-GCM"), a, a');
  }

  /** schema_version goes past everything. */
  lemma VersionGoesLast(appId: string, backupId: string, createdAt: string, nonce: bytes, e: Json)
    ensures var n := Str(Base64Url.Encode(nonce));
            Insert("schema_version", Int(1),
              Field("algorithm", Str("AES-256-GCM"), Field("app_id", Str(appId), Field("backup_id", Str(backupId),
              Field("compression", Str("tar-gzip"), Field("created_at", Str(createdAt),
              Field("format", Str("minit-data-backup"), Field("key_envelope", e, Field("nonce", n, NoFields)))))))))
            == SortedHeader(appId, backupId, createdAt, nonce, e)
  {
    hide Less, Insert, Base64Url.Encode;
    SchemaVersionIsLast();
    var v, n := Int(1), Str(Base64Url.Encode(nonce));
    InsertLast("schema_version", v);
    var s := Field("schema_version", v, NoFields);
    InsertPast("schema_version", v, "nonce", n, NoFields, s);
    var f8, g8 := Field("nonce", n, NoFields), Field("nonce", n, s);
    InsertPast("schema_version", v, "key_envelope", e, f8, g8);
    var f7, g7 := Field("key_envelope", e, f8), Field("key_envelope", e, g8);
    InsertPast("schema_version", v, "format", Str("minit-data-backup"), f7, g7);
    var f6, g6 := Field("format", Str("minit-data-backup"), f7), Field("format", Str("minit-data-backup"), g7);
    InsertPast("schema_version", v, "created_at", Str(createdAt), f6, g6);
    var f5, g5 := Field("created_at", Str(createdAt), f6), Field("created_at", Str(createdAt), g6);
    InsertPast("schema_version", v, "compression", Str("tar-gzip"), f5, g5);
    var f4, g4 := Field("compression", Str("tar-gzip"), f5), Field("compression", Str("tar-gzip"), g5);
    InsertPast("schema_version", v, "backup_id", Str(backupId), f4, g4);
    var f3, g3 := Field("backup_id", Str(backupId), f4), Field("backup_id", Str(backupId), g4);
    InsertPast("schema_version", v, "app_id", Str(appId), f3, g3);
    var f2, g2 := Field("app_id", Str(appId), f3), Field("app_id", Str(appId), g3);
    InsertPast("schema_version", v, "algorithm", Str("AES-256-GCM"), f2, g2);
  }

  // ----- the header as text -------------------------------------------------

  lemma PlainHeaderNames()
    ensures AllPlain("algorithm") && AllPlain("app_id") && AllPlain("backup_id") && AllPlain("compression")
    ensures AllPlain("created_at") && AllPlain("format") && AllPlain("key_envelope") && AllPlain("nonce")
    ensures AllPlain("schema_version")
  {}

  /** The header the writer authenticates and stores is this text: nine names in
      order, with the envelope's own canonical text inside. */
  lemma HeaderText(g: Cipher, appKey: Key, appId: string, backupId: string, d: BackupDraw)
    ensures Print(Obj(BackupHeader(g, appKey, appId, backupId, d)))
         == Braces([Member("algorithm", Quoted("AES-256-GCM")), Member("app_id", Quoted(appId)),
                    Member("backup_id", Quoted(backupId)), Member("compression", Quoted("tar-gzip")),
                    Member("created_at", Quoted(d.createdAt)), Member("format", Quoted("minit-data-backup")),
                    Member("key_envelope", Print(Obj(KeyEnvelope(g, appKey, appId, backupId, d)))),
                    Member("nonce", Quoted(Base64Url.Encode(d.nonce))), Member("schema_version", "1")])
  {
    hide Emit, Braces, Member, Members, PlainKeys, AllPlain, Canon, Base64Url.Encode, KeyEnvelope;
    var envelope := KeyEnvelope(g, appKey, appId, backupId, d);
    HeaderSorts(appId, backupId, d.createdAt, d.nonce, envelope);
    var e := Canon(Obj(envelope));
    var f := SortedHeader(appId, backupId, d.createdAt, d.nonce, e);
    SortedHeaderMembers(appId, backupId, d.createdAt, d.nonce, e);
    ObjectPrints(f);
  }

  lemma LaterMembers(createdAt: string, nonce: bytes, e: Json)
    ensures PlainKeys(LaterHeader(createdAt, nonce, e))
    ensures Members(LaterHeader(createdAt, nonce, e))
         == [Member("created_at", Quoted(createdAt)), Member("format", Quoted("minit-data-backup")),
             Member("key_envelope", Emit(e, [])), Member("nonce", Quoted(Base64Url.Encode(nonce))),
             Member("schema_version", "1")]
  {
    hide Emit, Member, Members, PlainKeys, AllPlain, Base64Url.Encode;
    PlainHeaderNames();
    NoMembers();
    EmitOne();
    QuotedIs(createdAt);
    QuotedIs("minit-data-backup");
    QuotedIs(Base64Url.Encode(nonce));
    var f5 := Field("schema_version", Int(1), NoFields);
    NextMember("schema_version", Int(1), NoFields);
    var f4 := Field("nonce", Str(Base64Url.Encode(nonce)), f5);
    NextMember("nonce", Str(Base64Url.Encode(nonce)), f5);
    var f3 := Field("key_envelope", e, f4);
    NextMember("key_envelope", e, f4);
    var f2 := Field("format", Str("minit-data-backup"), f3);
    NextMember("format", Str("minit-data-backup"), f3);
    NextMember("created_at", Str(createdAt), f2);
  }

  lemma SortedHeaderMembers(appId: string, backupId: string, createdAt: string, nonce: bytes, e: Json)
    ensures PlainKeys(SortedHeader(appId, backupId, createdAt, nonce, e))
    ensures Members(SortedHeader(appId, backupId, createdAt, nonce, e))
         == [Member("algorithm", Quoted("AES-256-GCM")), Member("app_id", Quoted(appId)),
             Member("backup_id", Quoted(backupId)), Member("compression", Quoted("tar-gzip")),
             Member("created_at", Quoted(createdAt)), Member("format", Quoted("minit-data-backup")),
             Member("key_envelope", Emit(e, [])), Member("nonce", Quoted(Base64Url.Encode(nonce))),
             Member("schema_version", "1")]
  {
    hide Emit, Member, Members, PlainKeys, AllPlain, Base64Url.Encode, LaterHeader;
    PlainHeaderNames();
    LaterMembers(createdAt, nonce, e);
    QuotedIs("AES-256-GCM");
    QuotedIs(appId);
    QuotedIs(backupId);
    QuotedIs("tar-gzip");
    var f4 := Field("compression", Str("tar-gzip"), LaterHeader(createdAt, nonce, e));
    NextMember("compression", Str("tar-gzip"), LaterHeader(createdAt, nonce, e));
    var f3 := Field("backup_id", Str(backupId), f4);
    NextMember("backup_id", Str(backupId), f4);
    var f2 := Field("app_id", Str(appId), f3);
    NextMember("app_id", Str(appId), f3);
    NextMember("algorithm", Str("AES-256-GCM"), f2);
  }
}
