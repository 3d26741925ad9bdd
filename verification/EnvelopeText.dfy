/** The bytes that authenticate an envelope, written out: _aad in
    minit/crypto.py for each of the four contexts Minit uses. */
module EnvelopeText {
  import opened Results
  import opened Bytes
  import opened CanonicalJson
  import opened JsonText
  import opened Envelope

  /** A string as JSON writes it, in its quotes. */
  function Quoted(s: string): string {
    Print(Str(s))
  }

  /** A name and its value as they stand in an object. */
  function Member(key: string, value: string): string {
    "\"" + key + "\":" + value
  }

  function Commas(members: seq<string>): string {
    if members == [] then "" else if |members| == 1 then members[0] else members[0] + "," + Commas(members[1..])
  }

  function Braces(members: seq<string>): string {
    "{" + Commas(members) + "}"
  }

  predicate PlainKeys(f: Fields) {
    f.Field? ==> AllPlain(f.key) && PlainKeys(f.rest)
  }

  function Members(f: Fields): seq<string> {
    match f case NoFields => [] case Field(k, v, rest) => [Member(k, Emit(v, []))] + Members(rest)
  }

  lemma EmitOneField(key: string, value: Json, rest: string, after: string)
    requires AllPlain(key)
    ensures ['"'] + EmitChars(key, [':'] + Emit(value, after)) == Member(key, Emit(value, [])) + after
  {
    hide Emit;
    EmitAppend(value, [], after);
    assert [] + after == after;
    PlainChars(key, [':'] + Emit(value, after));
    assert ['"'] + (key + "\"" + ([':'] + (Emit(value, []) + after))) == "\"" + key + "\":" + Emit(value, []) + after;
  }

  /** An object prints as its members, in the order of its fields. */
  lemma {:induction false} FieldsPrint(f: Fields, rest: string)
    requires f.Field? && PlainKeys(f)
    ensures EmitFields(f, rest) == Commas(Members(f)) + rest
    decreases f
  {
    hide Emit, EmitChars, AllPlain, Member;
    var first := Member(f.key, Emit(f.value, []));
    if f.rest.NoFields? {
      EmitOneField(f.key, f.value, rest, rest);
      assert Members(f) == [first];
    } else {
      FieldsPrint(f.rest, rest);
      EmitOneField(f.key, f.value, rest, [','] + EmitFields(f.rest, rest));
      assert Members(f)[1..] == Members(f.rest) && |Members(f)| > 1 by { assert Members(f.rest) != []; }
      assert first + ([','] + (Commas(Members(f.rest)) + rest)) == first + "," + Commas(Members(f.rest)) + rest;
    }
  }

  lemma ObjectPrints(f: Fields)
    requires f.Field? && PlainKeys(f)
    ensures Emit(Obj(f), []) == Braces(Members(f))
  {
    hide EmitFields;
    FieldsPrint(f, ['}'] + []);
    assert ['{'] + (Commas(Members(f)) + (['}'] + [])) == "{" + Commas(Members(f)) + "}";
  }

  // ----- contexts -----------------------------------------------------------

  /** The canonical text of a context. */
  function ContextText(p: Purpose): string {
    match p
    case AppKey(a) => Braces([Member("app_id", Quoted(a)), Member("type", Quoted("app-key"))])
    case RecoveryAppKey(a) => Braces([Member("app_id", Quoted(a)), Member("type", Quoted("recovery-app-key"))])
    case AppSecret(a, n) =>
      Braces([Member("app_id", Quoted(a)), Member("name", Quoted(n)), Member("type", Quoted("app-secret"))])
    case BackupDataKey(a, b) =>
      Braces([Member("app_id", Quoted(a)), Member("backup_id", Quoted(b)), Member("type", Quoted("backup-data-key"))])
  }

  lemma SortPair(k1: string, v1: Json, k2: string, v2: Json)
    requires Less(k2, k1) && !Less(k1, k2)
    ensures Sort(Field(k1, v1, Field(k2, v2, NoFields))) == Field(k2, v2, Field(k1, v1, NoFields))
  {
    hide Less;
    assert Sort(Field(k2, v2, NoFields)) == Field(k2, v2, NoFields) by { assert Sort(NoFields) == NoFields; }
    assert Insert(k1, v1, NoFields) == Field(k1, v1, NoFields);
  }

  lemma SortTriple(k1: string, v1: Json, k2: string, v2: Json, k3: string, v3: Json)
    requires !Less(k1, k2) && !Less(k1, k3) && Less(k2, k3)
    ensures Sort(Field(k1, v1, Field(k2, v2, Field(k3, v3, NoFields))))
         == Field(k2, v2, Field(k3, v3, Field(k1, v1, NoFields)))
  {
    hide Less;
    assert Sort(Field(k3, v3, NoFields)) == Field(k3, v3, NoFields) by { assert Sort(NoFields) == NoFields; }
    assert Insert(k2, v2, Field(k3, v3, NoFields)) == Field(k2, v2, Field(k3, v3, NoFields));
    assert Insert(k1, v1, Field(k3, v3, NoFields)) == Field(k3, v3, Field(k1, v1, NoFields));
  }

  lemma NameOrder()
    ensures Less("app_id", "type") && !Less("type", "app_id") && !Less("type", "name") && !Less("type", "backup_id")
    ensures Less("app_id", "name") && Less("app_id", "backup_id")
    ensures Less("algorithm", "context") && Less("context", "version")
  {
    assert "app_id"[0] < "type"[0] && "name"[0] < "type"[0] && "backup_id"[0] < "type"[0];
    assert "app_id"[0] < "name"[0] && "app_id"[0] < "backup_id"[0] && "algorithm"[0] < "context"[0] < "version"[0];
  }

  /** The fields of a context in key order. */
  function SortedContext(p: Purpose): Fields {
    match p
    case AppKey(a) => TwoNames(a, "app-key")
    case RecoveryAppKey(a) => TwoNames(a, "recovery-app-key")
    case AppSecret(a, n) => ThreeNames(a, "name", n, "app-secret")
    case BackupDataKey(a, b) => ThreeNames(a, "backup_id", b, "backup-data-key")
  }

  function TwoNames(appId: string, kind: string): Fields {
    Field("app_id", Str(appId), Field("type", Str(kind), NoFields))
  }

  function ThreeNames(appId: string, key: string, value: string, kind: string): Fields {
    Field("app_id", Str(appId), Field(key, Str(value), Field("type", Str(kind), NoFields)))
  }

  lemma ContextSorts(p: Purpose)
    ensures Canon(Obj(Context(p))) == Obj(SortedContext(p))
  {
    hide Less, Sort;
    NameOrder();
    ContextIsContext(p);
    ContextIsValue(Context(p));
    match p
    case AppKey(a) => SortPair("type", Str("app-key"), "app_id", Str(a));
    case RecoveryAppKey(a) => SortPair("type", Str("recovery-app-key"), "app_id", Str(a));
    case AppSecret(a, n) => SortTriple("type", Str("app-secret"), "app_id", Str(a), "name", Str(n));
    case BackupDataKey(a, b) => SortTriple("type", Str("backup-data-key"), "app_id", Str(a), "backup_id", Str(b));
  }

  lemma PlainNames()
    ensures AllPlain("app_id") && AllPlain("type") && AllPlain("name") && AllPlain("backup_id")
    ensures AllPlain("algorithm") && AllPlain("context") && AllPlain("version")
  {}

  lemma ContextPrints(p: Purpose)
    ensures Emit(Obj(SortedContext(p)), []) == ContextText(p)
  {
    hide Emit, Quoted, Braces, Member, AllPlain, TwoNames, ThreeNames;
    PlainNames();
    match p
    case AppKey(a) => TwoPrint(a, "app-key");
    case RecoveryAppKey(a) => TwoPrint(a, "recovery-app-key");
    case AppSecret(a, n) => ThreePrint(a, "name", n, "app-secret");
    case BackupDataKey(a, b) => ThreePrint(a, "backup_id", b, "backup-data-key");
  }

  lemma NextMember(key: string, value: Json, rest: Fields)
    requires AllPlain(key) && PlainKeys(rest)
    ensures PlainKeys(Field(key, value, rest))
    ensures Members(Field(key, value, rest)) == [Member(key, Emit(value, []))] + Members(rest)
  {}

  lemma NoMembers()
    ensures PlainKeys(NoFields) && Members(NoFields) == []
  {}

  lemma TwoPrint(appId: string, kind: string)
    ensures Emit(Obj(TwoNames(appId, kind)), [])
         == Braces([Member("app_id", Quoted(appId)), Member("type", Quoted(kind))])
  {
    hide Emit, Braces, Member, AllPlain, Members, PlainKeys;
    PlainNames();
    NoMembers();
    var last := Field("type", Str(kind), NoFields);
    NextMember("type", Str(kind), NoFields);
    NextMember("app_id", Str(appId), last);
    QuotedIs(appId);
    QuotedIs(kind);
    assert Members(TwoNames(appId, kind)) == [Member("app_id", Quoted(appId)), Member("type", Quoted(kind))];
    ObjectPrints(TwoNames(appId, kind));
  }

  lemma ThreePrint(appId: string, key: string, value: string, kind: string)
    requires AllPlain(key)
    ensures Emit(Obj(ThreeNames(appId, key, value, kind)), [])
         == Braces([Member("app_id", Quoted(appId)), Member(key, Quoted(value)), Member("type", Quoted(kind))])
  {
    hide Emit, Braces, Member, AllPlain, Members, PlainKeys;
    PlainNames();
    NoMembers();
    var last := Field("type", Str(kind), NoFields);
    NextMember("type", Str(kind), NoFields);
    NextMember(key, Str(value), last);
    NextMember("app_id", Str(appId), Field(key, Str(value), last));
    QuotedIs(appId);
    QuotedIs(value);
    QuotedIs(kind);
    assert Members(ThreeNames(appId, key, value, kind))
        == [Member("app_id", Quoted(appId)), Member(key, Quoted(value)), Member("type", Quoted(kind))];
    ObjectPrints(ThreeNames(appId, key, value, kind));
  }

  lemma QuotedIs(s: string)
    ensures Emit(Str(s), []) == Quoted(s)
  {}

  // ----- the additional data ------------------------------------------------

  predicate AadIs(p: Purpose, text: string) {
    IsAscii(text) && Aad(Context(p)) == Ascii(text)
  }

  /** For every purpose and identity, the additional data of an envelope is this
      text: the three names in order, the context inside, nothing else. */
  lemma AadText(p: Purpose)
    ensures AadIs(p, Braces([Member("algorithm", Quoted("AES-256-GCM")), Member("context", ContextText(p)),
                             Member("version", "1")]))
  {
    hide Emit, ContextText, AadPayload, Member, Braces, Payload;
    PayloadSorts(p);
    ContextPrints(p);
    PayloadPrints(Obj(SortedContext(p)));
  }

  lemma PayloadPrints(context: Json)
    ensures Emit(Obj(Payload(context)), [])
         == Braces([Member("algorithm", Quoted("AES-256-GCM")), Member("context", Emit(context, [])),
                    Member("version", "1")])
  {
    hide Emit, Braces, Member, AllPlain, Members, PlainKeys;
    PlainNames();
    NoMembers();
    var version := Field("version", Int(1), NoFields);
    NextMember("version", Int(1), NoFields);
    NextMember("context", context, version);
    NextMember("algorithm", Str("AES-256-GCM"), Field("context", context, version));
    EmitOne();
    QuotedIs("AES-256-GCM");
    assert Members(Payload(context))
        == [Member("algorithm", Quoted("AES-256-GCM")), Member("context", Emit(context, [])), Member("version", "1")];
    ObjectPrints(Payload(context));
  }

  lemma EmitOne()
    ensures Emit(Int(1), []) == "1"
  {}

  /** A wrapped key is authenticated with the same text and a suffix. */
  lemma WrapText(p: Purpose)
    ensures IsAscii("|wrapped-key") && WrapAad(Context(p)) == Aad(Context(p)) + Ascii("|wrapped-key")
  {
    hide Aad;
  }

  function Payload(context: Json): Fields {
    Field("algorithm", Str("AES-256-GCM"), Field("context", context, Field("version", Int(1), NoFields)))
  }

  lemma PayloadSorts(p: Purpose)
    ensures Canon(AadPayload(Context(p))) == Obj(Payload(Obj(SortedContext(p))))
  {
    hide Less, Sort, Context;
    NameOrder();
    AadPairs(Context(p));
    ContextSorts(p);
    SortedPayload(Obj(SortedContext(p)));
  }

  lemma SortedPayload(context: Json)
    ensures Sort(Payload(context)) == Payload(context)
  {
    hide Less;
    NameOrder();
    var f3 := Field("version", Int(1), NoFields);
    var f2 := Field("context", context, f3);
    assert Sorted(f3) && Sorted(f2) && Sorted(Payload(context));
    SortOfSorted(Payload(context));
  }

  // ----- one of them in full ------------------------------------------------

  lemma LiteralMember(key: string, value: string)
    requires AllPlain(value)
    ensures Member(key, Quoted(value)) == "\"" + key + "\":\"" + value + "\""
  {
    PlainText(value);
  }

  /** {"algorithm":"AES-256-GCM","context":{...},"version":1} for the secret TOKEN
      of the app app-1. */
  lemma AadOfToken()
    ensures AadIs(AppSecret("app-1", "TOKEN"),
                  Braces(["\"algorithm\":\"AES-256-GCM\"",
                          "\"context\":" + Braces(["\"app_id\":\"app-1\"", "\"name\":\"TOKEN\"",
                                                   "\"type\":\"app-secret\""]),
                          "\"version\":1"]))
  {
    hide AadIs, Braces, Quoted, AllPlain;
    AadText(AppSecret("app-1", "TOKEN"));
    PlainValues();
    LiteralMember("app_id", "app-1");
    LiteralMember("name", "TOKEN");
    LiteralMember("type", "app-secret");
    LiteralMember("algorithm", "AES-256-GCM");
    TokenMembers();
    OuterMembers(ContextText(AppSecret("app-1", "TOKEN")));
  }

  lemma TokenMembers()
    ensures "\"" + "app_id" + "\":\"" + "app-1" + "\"" == "\"app_id\":\"app-1\""
    ensures "\"" + "name" + "\":\"" + "TOKEN" + "\"" == "\"name\":\"TOKEN\""
    ensures "\"" + "type" + "\":\"" + "app-secret" + "\"" == "\"type\":\"app-secret\""
  {}

  lemma OuterMembers(context: string)
    ensures "\"" + "algorithm" + "\":\"" + "AES-256-GCM" + "\"" == "\"algorithm\":\"AES-256-GCM\""
    ensures Member("context", context) == "\"context\":" + context && Member("version", "1") == "\"version\":1"
  {
    assert "\"" + "context" + "\":" == "\"context\":";
  }

  lemma PlainValues()
    ensures AllPlain("app-1") && AllPlain("TOKEN") && AllPlain("app-secret") && AllPlain("AES-256-GCM")
  {}
}
