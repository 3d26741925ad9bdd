/** Authenticated envelopes (minit/crypto.py): a fresh data key encrypts the
    plaintext, the wrapping key encrypts the data key, and the canonical JSON of
    the context is the additional data of both. An envelope is the dict that is
    stored as JSON. */
module Envelope {
  import opened Results
  import opened Bytes
  import opened CanonicalJson
  import Base64Url
  import opened Gcm

  const KEY_BYTES: nat := 32
  const NONCE_BYTES: nat := 12
  const ALGORITHM: string := "AES-256-GCM"
  const WRAP_SUFFIX: string := "|wrapped-key"

  /** ValueError (which base64 errors are), KeyError, InvalidTag, and the
      AttributeError or TypeError of a field that is not a string. */
  datatype CryptoError = BadValue | MissingField | InvalidTag | BadType

  type Key = k: bytes | |k| == KEY_BYTES witness seq(32, _ => 0)
  type Nonce = n: bytes | |n| == NONCE_BYTES witness seq(12, _ => 0)

  /** What encrypt_envelope draws at random. */
  datatype Draw = Draw(dataKey: Key, dataNonce: Nonce, wrapNonce: Nonce)

  predicate AllStrings(f: Fields) {
    f.Field? ==> f.value.Str? && AllStrings(f.rest)
  }

  /** A dict[str, str]. */
  predicate IsContext(f: Fields) {
    AllStrings(f) && DistinctKeys(f)
  }

  function AadPayload(context: Fields): Json {
    Obj(Field("algorithm", Str(ALGORITHM), Field("context", Obj(context), Field("version", Int(1), NoFields))))
  }

  function Aad(context: Fields): bytes {
    PrintBytes(AadPayload(context))
  }

  function WrapAad(context: Fields): bytes {
    Aad(context) + Ascii(WRAP_SUFFIX)
  }

  function EncryptEnvelope(g: Cipher, plaintext: bytes, wrappingKey: bytes, context: Fields, draw: Draw)
    : Result<Fields, CryptoError>
  {
    if |wrappingKey| != KEY_BYTES then Err(BadValue)
    else
      var ciphertext := Seal(g, draw.dataKey, draw.dataNonce, plaintext, Aad(context));
      var wrappedKey := Seal(g, wrappingKey, draw.wrapNonce, draw.dataKey, WrapAad(context));
      Ok(EnvelopeDict(context, draw, wrappedKey, ciphertext))
  }

  function EnvelopeDict(context: Fields, draw: Draw, wrappedKey: bytes, ciphertext: bytes): Fields {
    Field("version", Int(1),
    Field("algorithm", Str(ALGORITHM),
    Field("context", Obj(context),
    Field("data_nonce", Str(Base64Url.Encode(draw.dataNonce)),
    Field("wrapped_key_nonce", Str(Base64Url.Encode(draw.wrapNonce)),
    Field("wrapped_key", Str(Base64Url.Encode(wrappedKey)),
    Field("ciphertext", Str(Base64Url.Encode(ciphertext)), NoFields)))))))
  }

  /** Python's v == 1, which True satisfies as well. */
  predicate IsOne(v: Option<Json>) {
    v == Some(Int(1)) || v == Some(Bool(true))
  }

  function Base64Field(envelope: Fields, key: string): Result<bytes, CryptoError> {
    match Lookup(envelope, key)
    case None => Err(MissingField)
    case Some(Str(text)) =>
      (match Base64Url.Decode(text) case None => Err(BadValue) case Some(b) => Ok(b))
    case Some(_) => Err(BadType)
  }

  /** AESGCM(key).decrypt with its check of the nonce length. */
  function OpenChecked(g: Cipher, key: bytes, nonce: bytes, data: bytes, aad: bytes): Result<bytes, CryptoError> {
    if |nonce| < 8 || |nonce| > 128 then Err(BadValue)
    else match Open(g, key, nonce, data, aad)
      case None => Err(InvalidTag)
      case Some(p) => Ok(p)
  }

  function DecryptEnvelope(g: Cipher, envelope: Fields, wrappingKey: bytes): Result<bytes, CryptoError> {
    if |wrappingKey| != KEY_BYTES then Err(BadValue)
    else if !IsOne(Lookup(envelope, "version")) then Err(BadValue)
    else if Lookup(envelope, "algorithm") != Some(Str(ALGORITHM)) then Err(BadValue)
    else match Lookup(envelope, "context")
      case Some(Obj(context)) =>
        if AllStrings(context) then DecryptBound(g, envelope, wrappingKey, context) else Err(BadValue)
      case _ => Err(BadValue)
  }

  /** The decryption once the context is known. */
  function DecryptBound(g: Cipher, envelope: Fields, wrappingKey: bytes, context: Fields): Result<bytes, CryptoError> {
    var wrappedKey :- Base64Field(envelope, "wrapped_key");
    var wrapNonce :- Base64Field(envelope, "wrapped_key_nonce");
    var dataKey :- OpenChecked(g, wrappingKey, wrapNonce, wrappedKey, WrapAad(context));
    if |dataKey| != KEY_BYTES then Err(BadValue)
    else
      var dataNonce :- Base64Field(envelope, "data_nonce");
      var ciphertext :- Base64Field(envelope, "ciphertext");
      OpenChecked(g, dataKey, dataNonce, ciphertext, Aad(context))
  }

  // ----- the additional data ------------------------------------------------

  lemma {:induction false} ContextIsValue(f: Fields)
    requires AllStrings(f)
    ensures AreFieldValues(f) && CanonFields(f) == f
  {
    if f.Field? { ContextIsValue(f.rest); }
  }

  lemma AadPayloadIsValue(c: Fields)
    requires IsContext(c)
    ensures IsValue(AadPayload(c)) && IsValue(Obj(c))
  {
    ContextIsValue(c);
    AadPairs(c);
    var version := Field("version", Int(1), NoFields);
    var rest := Field("context", Obj(c), version);
    assert |"context"| == |"version"| == 7 && |"algorithm"| == 9 && "context"[0] != "version"[0];
    assert AreFieldValues(version) && DistinctKeys(version) && !HasKey(version, "context")
           && !HasKey(version, "algorithm");
    assert rest.key != "algorithm" && rest.rest == version;
    assert !HasKey(rest, "algorithm");
    assert AreFieldValues(rest) && DistinctKeys(rest);
  }

  lemma AadPairs(c: Fields)
    ensures Lookup(AadPayload(c).fields, "context") == Some(Obj(c))
    ensures CanonFields(AadPayload(c).fields)
         == Field("algorithm", Str(ALGORITHM), Field("context", Canon(Obj(c)), Field("version", Int(1), NoFields)))
  {
    var rest := Field("context", Obj(c), Field("version", Int(1), NoFields));
    assert CanonFields(rest) == Field("context", Canon(Obj(c)), Field("version", Int(1), NoFields));
    assert Lookup(rest, "context") == Some(Obj(c));
  }

  /** Two contexts share their additional data exactly when they are equal dicts. */
  lemma AadInjective(c: Fields, d: Fields)
    requires IsContext(c) && IsContext(d)
    ensures Aad(c) == Aad(d) <==> Same(Obj(c), Obj(d))
  {
    AadPayloadIsValue(c);
    AadPayloadIsValue(d);
    PrintBytesInjective(AadPayload(c), AadPayload(d));
    AadPairs(c);
    AadPairs(d);
    SameDicts(AadPayload(c).fields, AadPayload(d).fields);
    if Aad(c) == Aad(d) {
      assert MapCanon(Lookup(AadPayload(c).fields, "context")) == MapCanon(Lookup(AadPayload(d).fields, "context"));
    }
  }

  lemma AadEnd(c: Fields)
    ensures Aad(c) != [] && Aad(c)[|Aad(c)| - 1] == 125
  {
    PrintDictEnd(AadPayload(c).fields);
    var p := Print(AadPayload(c));
    assert Aad(c) == Ascii(p) && Ascii(p)[|p| - 1] == '}' as int;
  }

  lemma WrapAadEnd(c: Fields)
    ensures WrapAad(c)[|WrapAad(c)| - 1] == 121
  {}

  /** The additional data of a wrapped key is never that of a plaintext. */
  lemma SuffixNeverCollides(c: Fields, d: Fields)
    ensures Aad(c) != WrapAad(d)
  {
    AadEnd(c);
    WrapAadEnd(d);
  }

  lemma WrapAadInjective(c: Fields, d: Fields)
    requires IsContext(c) && IsContext(d) && WrapAad(c) == WrapAad(d)
    ensures Same(Obj(c), Obj(d))
  {
    var n := |WRAP_SUFFIX|;
    assert Aad(c) == WrapAad(c)[..|WrapAad(c)| - n] && Aad(d) == WrapAad(d)[..|WrapAad(d)| - n];
    AadInjective(c, d);
  }

  // ----- round trip ---------------------------------------------------------

  lemma EnvelopeFields(g: Cipher, plaintext: bytes, wrappingKey: bytes, context: Fields, draw: Draw)
    requires |wrappingKey| == KEY_BYTES
    ensures var e := EncryptEnvelope(g, plaintext, wrappingKey, context, draw).value;
            && Base64Field(e, "data_nonce") == Ok(draw.dataNonce)
            && Base64Field(e, "wrapped_key_nonce") == Ok(draw.wrapNonce)
            && Base64Field(e, "wrapped_key") == Ok(Seal(g, wrappingKey, draw.wrapNonce, draw.dataKey, WrapAad(context)))
            && Base64Field(e, "ciphertext") == Ok(Seal(g, draw.dataKey, draw.dataNonce, plaintext, Aad(context)))
            && Lookup(e, "context") == Some(Obj(context))
            && IsOne(Lookup(e, "version")) && Lookup(e, "algorithm") == Some(Str(ALGORITHM))
  {
    hide Seal, Aad, WrapAad, Dict, Base64Url.Encode, Base64Url.Decode;
    var wrappedKey := Seal(g, wrappingKey, draw.wrapNonce, draw.dataKey, WrapAad(context));
    var ciphertext := Seal(g, draw.dataKey, draw.dataNonce, plaintext, Aad(context));
    Base64Url.DecodeEncode(draw.dataNonce);
    Base64Url.DecodeEncode(draw.wrapNonce);
    Base64Url.DecodeEncode(wrappedKey);
    Base64Url.DecodeEncode(ciphertext);
    var pairs := EnvelopePairs(context, draw, wrappedKey, ciphertext);
    EnvelopeDictPairs(context, draw, wrappedKey, ciphertext);
    forall i | 0 <= i < 7 ensures Lookup(Dict(pairs), pairs[i].0) == Some(pairs[i].1) { DictLookup(pairs, i); }
    assert pairs[0].0 == "version" && pairs[1].0 == "algorithm" && pairs[2].0 == "context"
           && pairs[3].0 == "data_nonce";
    assert pairs[4].0 == "wrapped_key_nonce" && pairs[5].0 == "wrapped_key" && pairs[6].0 == "ciphertext";
  }

  /** The same dict as a list of pairs, for looking fields up by position. */
  function EnvelopePairs(context: Fields, draw: Draw, wrappedKey: bytes, ciphertext: bytes)
    : (pairs: seq<(string, Json)>)
    ensures KeysDiffer(pairs)
  {
    assert "version"[0] != "context"[0] && "data_nonce"[0] != "ciphertext"[0];
    [("version", Int(1)),
     ("algorithm", Str(ALGORITHM)),
     ("context", Obj(context)),
     ("data_nonce", Str(Base64Url.Encode(draw.dataNonce))),
     ("wrapped_key_nonce", Str(Base64Url.Encode(draw.wrapNonce))),
     ("wrapped_key", Str(Base64Url.Encode(wrappedKey))),
     ("ciphertext", Str(Base64Url.Encode(ciphertext)))]
  }

  lemma EnvelopeDictPairs(context: Fields, draw: Draw, wrappedKey: bytes, ciphertext: bytes)
    ensures Dict(EnvelopePairs(context, draw, wrappedKey, ciphertext))
            == EnvelopeDict(context, draw, wrappedKey, ciphertext)
  {
    hide Dict, KeysDiffer;
    var pairs := EnvelopePairs(context, draw, wrappedKey, ciphertext);
    DictEnd(pairs);
    DictCons(pairs, 0); DictCons(pairs, 1); DictCons(pairs, 2); DictCons(pairs, 3);
    DictCons(pairs, 4); DictCons(pairs, 5); DictCons(pairs, 6);
  }

  lemma DictEnd(pairs: seq<(string, Json)>)
    ensures Dict(pairs[|pairs|..]) == NoFields
  {}

  lemma DictCons(pairs: seq<(string, Json)>, i: nat)
    requires i < |pairs|
    ensures Dict(pairs[i..]) == Field(pairs[i].0, pairs[i].1, Dict(pairs[i + 1..]))
    ensures pairs[0..] == pairs && pairs[|pairs|..] == []
  {}

  lemma EnvelopeIsValue(g: Cipher, plaintext: bytes, wrappingKey: bytes, context: Fields, draw: Draw)
    requires |wrappingKey| == KEY_BYTES && IsContext(context)
    ensures IsValue(Obj(EncryptEnvelope(g, plaintext, wrappingKey, context, draw).value))
  {
    var wrappedKey := Seal(g, wrappingKey, draw.wrapNonce, draw.dataKey, WrapAad(context));
    var ciphertext := Seal(g, draw.dataKey, draw.dataNonce, plaintext, Aad(context));
    ContextIsValue(context);
    EnvelopeDictPairs(context, draw, wrappedKey, ciphertext);
    DictIsValue(EnvelopePairs(context, draw, wrappedKey, ciphertext));
  }

  /** An envelope opens to what was put in, under the key that wrapped it. */
  lemma EnvelopeRoundTrip(g: Cipher, plaintext: bytes, wrappingKey: bytes, context: Fields, draw: Draw)
    requires |wrappingKey| == KEY_BYTES && IsContext(context)
    ensures DecryptEnvelope(g, EncryptEnvelope(g, plaintext, wrappingKey, context, draw).value, wrappingKey)
            == Ok(plaintext)
  {
    EnvelopeFields(g, plaintext, wrappingKey, context, draw);
    OpenSeal(g, wrappingKey, draw.wrapNonce, draw.dataKey, WrapAad(context));
    OpenSeal(g, draw.dataKey, draw.dataNonce, plaintext, Aad(context));
  }

  /** No other key of the run opens it. */
  lemma WrongKeyNeverOpens(g: Cipher, keys: set<bytes>, plaintext: bytes, wrappingKey: bytes, context: Fields,
                           draw: Draw, other: bytes)
    requires |wrappingKey| == KEY_BYTES && IsContext(context)
    requires KeySeparated(g, keys) && wrappingKey in keys && other in keys && other != wrappingKey
    ensures DecryptEnvelope(g, EncryptEnvelope(g, plaintext, wrappingKey, context, draw).value, other).Err?
  {
    EnvelopeFields(g, plaintext, wrappingKey, context, draw);
    WrongKeyFails(g, keys, wrappingKey, other, draw.wrapNonce, draw.dataKey, WrapAad(context));
  }

  /** The two boxes of the envelope are what sealing gives: this data key under
      the wrapping key, and this plaintext under the data key, both for c. */
  predicate SealedAs(g: Cipher, envelope: Fields, wrappingKey: bytes, plaintext: bytes, c: Fields, wrapNonce: bytes,
                     dataKey: bytes, dataNonce: bytes)
  {
    && Lookup(envelope, "context") == Some(Obj(c)) && AllStrings(c)
    && 8 <= |wrapNonce| <= 128 && 8 <= |dataNonce| <= 128 && |dataKey| == 32
    && Base64Field(envelope, "wrapped_key_nonce") == Ok(wrapNonce)
    && Base64Field(envelope, "wrapped_key") == Ok(Seal(g, wrappingKey, wrapNonce, dataKey, WrapAad(c)))
    && Base64Field(envelope, "data_nonce") == Ok(dataNonce)
    && Base64Field(envelope, "ciphertext") == Ok(Seal(g, dataKey, dataNonce, plaintext, Aad(c)))
  }

  predicate HasForm(envelope: Fields) {
    && Lookup(envelope, "version") in {Some(Int(1)), Some(Bool(true))}
    && Lookup(envelope, "algorithm") == Some(Str("AES-256-GCM"))
  }

  lemma DecryptedIsSealed(g: Cipher, envelope: Fields, wrappingKey: bytes)
    returns (c: Fields, wrapNonce: bytes, dataKey: bytes, dataNonce: bytes)
    requires DecryptEnvelope(g, envelope, wrappingKey).Ok?
    ensures |wrappingKey| == 32 && HasForm(envelope)
    ensures SealedAs(g, envelope, wrappingKey, DecryptEnvelope(g, envelope, wrappingKey).value, c, wrapNonce, dataKey,
                     dataNonce)
  {
    hide Base64Field, Aad, WrapAad, Seal, Open, AllStrings, Lookup;
    c := Lookup(envelope, "context").value.fields;
    var wrapped := Base64Field(envelope, "wrapped_key").value;
    wrapNonce := Base64Field(envelope, "wrapped_key_nonce").value;
    dataKey := OpenChecked(g, wrappingKey, wrapNonce, wrapped, WrapAad(c)).value;
    dataNonce := Base64Field(envelope, "data_nonce").value;
    var ciphertext := Base64Field(envelope, "ciphertext").value;
    OpenIffSealed(g, wrappingKey, wrapNonce, wrapped, WrapAad(c), dataKey);
    OpenIffSealed(g, dataKey, dataNonce, ciphertext, Aad(c), DecryptEnvelope(g, envelope, wrappingKey).value);
  }

  lemma SealedIsDecrypted(g: Cipher, envelope: Fields, wrappingKey: bytes, plaintext: bytes, c: Fields,
                          wrapNonce: bytes, dataKey: bytes, dataNonce: bytes)
    requires |wrappingKey| == 32 && HasForm(envelope)
    requires SealedAs(g, envelope, wrappingKey, plaintext, c, wrapNonce, dataKey, dataNonce)
    ensures DecryptEnvelope(g, envelope, wrappingKey) == Ok(plaintext)
  {
    hide Base64Field, Aad, WrapAad, Seal, Open, AllStrings, Lookup;
    OpenSeal(g, wrappingKey, wrapNonce, dataKey, WrapAad(c));
    OpenSeal(g, dataKey, dataNonce, plaintext, Aad(c));
  }

  /** Whatever dict is presented, decryption gives a plaintext exactly when the
      wrapping key has 32 bytes, version and algorithm are the supported ones, and
      the dict holds that plaintext sealed for its own context. */
  lemma DecryptExactly(g: Cipher, envelope: Fields, wrappingKey: bytes, plaintext: bytes)
    ensures DecryptEnvelope(g, envelope, wrappingKey) == Ok(plaintext)
       <==> |wrappingKey| == 32 && HasForm(envelope)
            && exists c, wrapNonce, dataKey, dataNonce ::
                 SealedAs(g, envelope, wrappingKey, plaintext, c, wrapNonce, dataKey, dataNonce)
  {
    hide DecryptEnvelope, SealedAs, HasForm;
    if DecryptEnvelope(g, envelope, wrappingKey) == Ok(plaintext) {
      var c, wrapNonce, dataKey, dataNonce := DecryptedIsSealed(g, envelope, wrappingKey);
    }
    if |wrappingKey| == 32 && HasForm(envelope) {
      forall c, wrapNonce, dataKey, dataNonce |
             SealedAs(g, envelope, wrappingKey, plaintext, c, wrapNonce, dataKey, dataNonce)
        ensures DecryptEnvelope(g, envelope, wrappingKey) == Ok(plaintext)
      {
        SealedIsDecrypted(g, envelope, wrappingKey, plaintext, c, wrapNonce, dataKey, dataNonce);
      }
    }
  }

  // ----- stored form --------------------------------------------------------

  lemma {:induction false} InsertAllStrings(key: string, value: Json, f: Fields)
    ensures AllStrings(Insert(key, value, f)) <==> value.Str? && AllStrings(f)
  {
    if f.Field? && !Less(key, f.key) { InsertAllStrings(key, value, f.rest); }
  }

  lemma {:induction false} SortAllStrings(f: Fields)
    ensures AllStrings(Sort(f)) <==> AllStrings(f)
  {
    if f.Field? {
      SortAllStrings(f.rest);
      InsertAllStrings(f.key, f.value, Sort(f.rest));
    }
  }

  lemma {:induction false} CanonAllStrings(f: Fields)
    ensures AllStrings(CanonFields(f)) <==> AllStrings(f)
  {
    if f.Field? { CanonAllStrings(f.rest); }
  }

  /** Sorting the fields of the context changes nothing in the additional data. */
  lemma AadOfCanon(c: Fields)
    requires IsValue(Obj(c))
    ensures Aad(Canon(Obj(c)).fields) == Aad(c)
  {
    CanonIsValue(Obj(c));
    AadPairs(c);
    AadPairs(Canon(Obj(c)).fields);
  }

  lemma Base64FieldOfCanon(envelope: Fields, key: string)
    requires IsValue(Obj(envelope))
    ensures Base64Field(Canon(Obj(envelope)).fields, key) == Base64Field(envelope, key)
  {
    LookupCanon(envelope, key);
  }

  lemma DecryptBoundCanon(g: Cipher, envelope: Fields, wrappingKey: bytes, c: Fields, d: Fields)
    requires IsValue(Obj(envelope)) && Aad(c) == Aad(d)
    ensures DecryptBound(g, Canon(Obj(envelope)).fields, wrappingKey, c) == DecryptBound(g, envelope, wrappingKey, d)
  {
    hide Base64Field, Aad, Open, IsValue, Lookup;
    Base64FieldOfCanon(envelope, "wrapped_key");
    Base64FieldOfCanon(envelope, "wrapped_key_nonce");
    Base64FieldOfCanon(envelope, "data_nonce");
    Base64FieldOfCanon(envelope, "ciphertext");
    assert WrapAad(c) == WrapAad(d);
  }

  /** Decryption does not depend on the order in which the stored JSON lists
      the fields, of the envelope or of its context. */
  lemma DecryptCanon(g: Cipher, envelope: Fields, wrappingKey: bytes)
    requires IsValue(Obj(envelope))
    ensures DecryptEnvelope(g, Canon(Obj(envelope)).fields, wrappingKey) == DecryptEnvelope(g, envelope, wrappingKey)
  {
    hide DecryptBound, Lookup, Aad, AllStrings;
    var sorted := Canon(Obj(envelope)).fields;
    LookupCanon(envelope, "version");
    LookupCanon(envelope, "algorithm");
    LookupCanon(envelope, "context");
    assert IsOne(Lookup(sorted, "version")) <==> IsOne(Lookup(envelope, "version"));
    match Lookup(envelope, "context")
    case Some(Obj(c)) =>
      LookupIsValue(envelope, "context");
      AadOfCanon(c);
      CanonAllStrings(c);
      SortAllStrings(CanonFields(c));
      DecryptBoundCanon(g, envelope, wrappingKey, Canon(Obj(c)).fields, c);
    case _ =>
  }

  // ----- one envelope, one purpose ------------------------------------------

  /** What Minit seals envelopes for, with the identities each is bound to. */
  datatype Purpose =
    | AppKey(appId: string)
    | RecoveryAppKey(appId: string)
    | AppSecret(appId: string, name: string)
    | BackupDataKey(appId: string, backupId: string)

  function Context(p: Purpose): Fields {
    match p
    case AppKey(a) => Pair("app-key", a)
    case RecoveryAppKey(a) => Pair("recovery-app-key", a)
    case AppSecret(a, n) => Triple("app-secret", a, "name", n)
    case BackupDataKey(a, b) => Triple("backup-data-key", a, "backup_id", b)
  }

  function Pair(kind: string, appId: string): Fields {
    Field("type", Str(kind), Field("app_id", Str(appId), NoFields))
  }

  function Triple(kind: string, appId: string, key: string, value: string): Fields {
    Field("type", Str(kind), Field("app_id", Str(appId), Field(key, Str(value), NoFields)))
  }

  lemma PairIsContext(kind: string, appId: string)
    ensures IsContext(Pair(kind, appId)) && IsValue(Obj(Pair(kind, appId)))
    ensures Lookup(Pair(kind, appId), "type") == Some(Str(kind))
    ensures Lookup(Pair(kind, appId), "app_id") == Some(Str(appId))
  {
    var last := Field("app_id", Str(appId), NoFields);
    assert "type" != "app_id";
    assert AllStrings(last) && DistinctKeys(last) && AreFieldValues(last) && !HasKey(last, "type");
  }

  lemma TripleIsContext(kind: string, appId: string, key: string, value: string)
    requires key != "type" && key != "app_id"
    ensures IsContext(Triple(kind, appId, key, value)) && IsValue(Obj(Triple(kind, appId, key, value)))
    ensures Lookup(Triple(kind, appId, key, value), "type") == Some(Str(kind))
    ensures Lookup(Triple(kind, appId, key, value), "app_id") == Some(Str(appId))
    ensures Lookup(Triple(kind, appId, key, value), key) == Some(Str(value))
  {
    var last := Field(key, Str(value), NoFields);
    var mid := Field("app_id", Str(appId), last);
    assert "type" != "app_id";
    assert AllStrings(last) && DistinctKeys(last) && AreFieldValues(last) && !HasKey(last, "app_id")
           && !HasKey(last, "type");
    assert AllStrings(mid) && DistinctKeys(mid) && AreFieldValues(mid) && !HasKey(mid, "type");
    assert Lookup(mid, "app_id") == Some(Str(appId)) && Lookup(mid, key) == Some(Str(value));
  }

  lemma ContextIsContext(p: Purpose)
    ensures IsContext(Context(p)) && IsValue(Obj(Context(p)))
  {
    KeyNames();
    match p
    case AppKey(a) => PairIsContext("app-key", a);
    case RecoveryAppKey(a) => PairIsContext("recovery-app-key", a);
    case AppSecret(a, n) => TripleIsContext("app-secret", a, "name", n);
    case BackupDataKey(a, b) => TripleIsContext("backup-data-key", a, "backup_id", b);
  }

  lemma KeyNames()
    ensures "name" != "type" && "name" != "app_id" && "backup_id" != "type" && "backup_id" != "app_id"
  {}

  /** The names under which a purpose is stored. */
  function Kind(p: Purpose): string {
    match p
    case AppKey(_) => "app-key"
    case RecoveryAppKey(_) => "recovery-app-key"
    case AppSecret(_, _) => "app-secret"
    case BackupDataKey(_, _) => "backup-data-key"
  }

  lemma KindInjective(p: Purpose, q: Purpose)
    requires Kind(p) == Kind(q)
    ensures p.AppKey? == q.AppKey? && p.RecoveryAppKey? == q.RecoveryAppKey? && p.AppSecret? == q.AppSecret?
  {}

  lemma ContextLookups(p: Purpose)
    ensures Lookup(Context(p), "type") == Some(Str(Kind(p)))
    ensures Lookup(Context(p), "app_id") == Some(Str(p.appId))
    ensures p.AppSecret? ==> Lookup(Context(p), "name") == Some(Str(p.name))
    ensures p.BackupDataKey? ==> Lookup(Context(p), "backup_id") == Some(Str(p.backupId))
  {
    KeyNames();
    match p
    case AppKey(a) => PairIsContext("app-key", a);
    case RecoveryAppKey(a) => PairIsContext("recovery-app-key", a);
    case AppSecret(a, n) => TripleIsContext("app-secret", a, "name", n);
    case BackupDataKey(a, b) => TripleIsContext("backup-data-key", a, "backup_id", b);
  }

  /** No two purposes have equal contexts. */
  lemma ContextInjective(p: Purpose, q: Purpose)
    requires Same(Obj(Context(p)), Obj(Context(q)))
    ensures p == q
  {
    ContextIsContext(p); ContextIsContext(q);
    ContextLookups(p); ContextLookups(q);
    SameDicts(Context(p), Context(q));
    assert MapCanon(Lookup(Context(p), "type")) == MapCanon(Lookup(Context(q), "type"));
    assert MapCanon(Lookup(Context(p), "app_id")) == MapCanon(Lookup(Context(q), "app_id"));
    assert MapCanon(Lookup(Context(p), "name")) == MapCanon(Lookup(Context(q), "name"));
    assert MapCanon(Lookup(Context(p), "backup_id")) == MapCanon(Lookup(Context(q), "backup_id"));
    KindInjective(p, q);
  }

  /** One call of encrypt_envelope. */
  datatype Sealing = Sealing(purpose: Purpose, plaintext: bytes, wrappingKey: bytes, draw: Draw)

  /** What one AESGCM encryption produced. */
  datatype Box = Box(key: bytes, nonce: bytes, aad: bytes, data: bytes)

  function DataBox(g: Cipher, s: Sealing): Box {
    var aad := Aad(Context(s.purpose));
    Box(s.draw.dataKey, s.draw.dataNonce, aad, Seal(g, s.draw.dataKey, s.draw.dataNonce, s.plaintext, aad))
  }

  function KeyBox(g: Cipher, s: Sealing): Box {
    var aad := WrapAad(Context(s.purpose));
    Box(s.wrappingKey, s.draw.wrapNonce, aad, Seal(g, s.wrappingKey, s.draw.wrapNonce, s.draw.dataKey, aad))
  }

  /** The ideal assumption about forgery, for one decryption: it succeeds only
      on a box that some call in the log produced. */
  ghost predicate Unforged(g: Cipher, log: set<Sealing>, b: Box) {
    Open(g, b.key, b.nonce, b.data, b.aad).Some? ==> exists s :: s in log && (b == DataBox(g, s) || b == KeyBox(g, s))
  }

  /** Both decryptions inside decrypt_envelope are unforged. */
  ghost predicate EnvelopeUnforged(g: Cipher, log: set<Sealing>, envelope: Fields, wrappingKey: bytes) {
    match (Lookup(envelope, "context"), Base64Field(envelope, "wrapped_key"),
           Base64Field(envelope, "wrapped_key_nonce"))
    case (Some(Obj(c)), Ok(wrapped), Ok(nonce)) =>
      && Unforged(g, log, Box(wrappingKey, nonce, WrapAad(c), wrapped))
      && (match (Open(g, wrappingKey, nonce, wrapped, WrapAad(c)),
                 Base64Field(envelope, "data_nonce"), Base64Field(envelope, "ciphertext"))
          case (Some(dataKey), Ok(n), Ok(data)) => Unforged(g, log, Box(dataKey, n, Aad(c), data))
          case _ => true)
    case _ => true
  }

  ghost predicate FreshDataKeys(log: set<Sealing>) {
    forall s, t | s in log && t in log && s.draw.dataKey == t.draw.dataKey :: s == t
  }

  lemma OpenedKeyBox(g: Cipher, log: set<Sealing>, key: bytes, nonce: bytes, c: Fields, data: bytes)
    returns (s: Sealing)
    requires IsContext(c)
    requires Unforged(g, log, Box(key, nonce, WrapAad(c), data)) && Open(g, key, nonce, data, WrapAad(c)).Some?
    ensures s in log && s.wrappingKey == key && Same(Obj(c), Obj(Context(s.purpose)))
    ensures Open(g, key, nonce, data, WrapAad(c)) == Some(s.draw.dataKey)
  {
    var b := Box(key, nonce, WrapAad(c), data);
    s :| s in log && (b == DataBox(g, s) || b == KeyBox(g, s));
    ContextIsContext(s.purpose);
    SuffixNeverCollides(Context(s.purpose), c);
    WrapAadInjective(c, Context(s.purpose));
    OpenSeal(g, key, nonce, s.draw.dataKey, WrapAad(c));
  }

  lemma OpenedDataBox(g: Cipher, log: set<Sealing>, key: bytes, nonce: bytes, c: Fields, data: bytes)
    returns (s: Sealing)
    requires Unforged(g, log, Box(key, nonce, Aad(c), data)) && Open(g, key, nonce, data, Aad(c)).Some?
    ensures s in log && s.draw.dataKey == key
    ensures Open(g, key, nonce, data, Aad(c)) == Some(s.plaintext)
  {
    var b := Box(key, nonce, Aad(c), data);
    s :| s in log && (b == DataBox(g, s) || b == KeyBox(g, s));
    SuffixNeverCollides(c, Context(s.purpose));
    OpenSeal(g, key, nonce, s.plaintext, Aad(c));
  }

  /** Whatever envelope is presented, with fields from anywhere: if it opens,
      its context, wrapping key and plaintext are those of one single call of
      encrypt_envelope. Nothing opens under another app, name, type or backup
      id, and parts of two envelopes never combine. */
  lemma OpensOnlyAsSealed(g: Cipher, log: set<Sealing>, envelope: Fields, wrappingKey: bytes)
    requires FreshDataKeys(log) && EnvelopeUnforged(g, log, envelope, wrappingKey)
    requires IsValue(Obj(envelope)) && DecryptEnvelope(g, envelope, wrappingKey).Ok?
    ensures exists s :: s in log && s.wrappingKey == wrappingKey
              && Same(Lookup(envelope, "context").value, Obj(Context(s.purpose)))
              && DecryptEnvelope(g, envelope, wrappingKey) == Ok(s.plaintext)
  {
    var c := Lookup(envelope, "context").value.fields;
    LookupIsValue(envelope, "context");
    var wrapped, wrapNonce := Base64Field(envelope, "wrapped_key").value,
                                Base64Field(envelope, "wrapped_key_nonce").value;
    var s := OpenedKeyBox(g, log, wrappingKey, wrapNonce, c, wrapped);
    var data, nonce := Base64Field(envelope, "ciphertext").value, Base64Field(envelope, "data_nonce").value;
    var t := OpenedDataBox(g, log, s.draw.dataKey, nonce, c, data);
    assert s == t;
  }

  /** A caller that compares the context with the one it expects, as Minit's
      callers do, obtains only a plaintext sealed for that purpose. */
  lemma OpensOnlyForItsPurpose(g: Cipher, log: set<Sealing>, envelope: Fields, wrappingKey: bytes, purpose: Purpose)
    requires FreshDataKeys(log) && EnvelopeUnforged(g, log, envelope, wrappingKey)
    requires IsValue(Obj(envelope)) && DecryptEnvelope(g, envelope, wrappingKey).Ok?
    requires Same(Lookup(envelope, "context").value, Obj(Context(purpose)))
    ensures exists s :: s in log && s.wrappingKey == wrappingKey && s.purpose == purpose
              && DecryptEnvelope(g, envelope, wrappingKey) == Ok(s.plaintext)
  {
    OpensOnlyAsSealed(g, log, envelope, wrappingKey);
    var s :| s in log && s.wrappingKey == wrappingKey
             && Same(Lookup(envelope, "context").value, Obj(Context(s.purpose)))
             && DecryptEnvelope(g, envelope, wrappingKey) == Ok(s.plaintext);
    ContextInjective(s.purpose, purpose);
  }
}
