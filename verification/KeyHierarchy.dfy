/** The key hierarchy (minit/key_store.py, app_keys.py, recovery.py,
    secrets.py): a device root key in the OS key store wraps the app key, the
    app key wraps secrets, and a recovery key held by the user wraps the app key
    a second time. Each operation is a function of the project's files and the
    store of the device it runs on; runs interleave operations on any number
    of devices, with failing stores and failing writes. */
module KeyHierarchy {
  import opened Results
  import opened Bytes
  import opened CanonicalJson
  import opened Gcm
  import opened Envelope
  import RecoveryText
  import Base64Url

  /** app-key.json, recovery.json and secrets.json as the JSON they hold. */
  datatype Disk = Disk(appKey: Option<Json>, recovery: Option<Json>, secrets: Option<Json>)

  /** What an operation sees: the project's files and the device's root key. */
  datatype Local = Local(disk: Disk, root: Option<bytes>)

  datatype Failure =
    | StoreUnavailable | NotBound | CannotUnlock | BadLength | BadFile | WriteFailed | BadName | EmptyValue
    | AlreadyConfigured | NoRecovery | RecoveryMismatch | BadRecoveryText | BadText

  datatype Step<T> = Step(local: Local, result: Result<T, Failure>)

  /** How the key store behaves during one call: a read or a write can raise, a
      write can be dropped, raise after storing, or be followed by another
      writer's, and the confirming read can raise. */
  datatype Backend =
    Reliable | ReadFails | WriteFails | WriteIgnored | WriteRaises | WrittenOver(left: Option<bytes>) | ConfirmFails

  /** Everything an operation does not decide itself: store behaviour, random
      draws, and whether its writes of app-key.json and of its own file work. */
  datatype Chance = Chance(store: Backend, secondStore: Backend, rootKey: Key, appKey: Key, recoveryKey: Key,
                           keyDraw: Draw, fileDraw: Draw, keyWrite: bool, fileWrite: bool)

  // ----- key_store.py and app_keys.py ---------------------------------------

  /** get_or_create_device_root_key: the store's new content and the result. */
  function RootKey(root: Option<bytes>, store: Backend, drawn: Key): (r: (Option<bytes>, Result<Key, Failure>))
    ensures root.Some? ==> r.0 == root
    ensures r.1.Ok? ==> r.0 == Some(r.1.value)
    ensures r.0 == root || r.0 == Some(drawn) || (store.WrittenOver? && r.0 == store.left)
  {
    if store.ReadFails? then (root, Err(StoreUnavailable))
    else match root
      case Some(k) => (root, if |k| == Envelope.KEY_BYTES then Ok(k) else Err(StoreUnavailable))
      case None =>
        match store
        case Reliable => (Some(drawn), Ok(drawn))
        case ConfirmFails => (Some(drawn), Err(StoreUnavailable))
        case WriteRaises => (Some(drawn), Err(StoreUnavailable))
        case WrittenOver(left) => (left, if left == Some(drawn) then Ok(drawn) else Err(StoreUnavailable))
        case _ => (None, Err(StoreUnavailable))
  }

  /** envelope.get("context") == expected. */
  predicate ContextMatches(envelope: Fields, p: Purpose) {
    match Lookup(envelope, "context")
    case None => false
    case Some(c) => Same(c, Obj(Context(p)))
  }

  function Wrap(g: Cipher, appId: string, l: Local, appKey: bytes, store: Backend, ch: Chance): Step<()> {
    if |appKey| != Envelope.KEY_BYTES then Step(l, Err(BadLength))
    else
      var (root, key) := RootKey(l.root, store, ch.rootKey);
      match key
      case Err(f) => Step(l.(root := root), Err(f))
      case Ok(rootKey) =>
        if !ch.keyWrite then Step(l.(root := root), Err(WriteFailed))
        else
          var e := EncryptEnvelope(g, appKey, rootKey, Context(AppKey(appId)), ch.keyDraw).value;
          Step(Local(l.disk.(appKey := Some(Obj(e))), root), Ok(()))
  }

  /** Opening a stored envelope: a field of the wrong type is not caught. */
  function Unlock(g: Cipher, envelope: Fields, key: bytes): Result<bytes, Failure> {
    match DecryptEnvelope(g, envelope, key)
    case Ok(b) => Ok(b)
    case Err(BadType) => Err(BadFile)
    case Err(_) => Err(CannotUnlock)
  }

  function GetOrCreateAppKey(g: Cipher, appId: string, l: Local, ch: Chance): Step<bytes> {
    var (root, key) := RootKey(l.root, ch.store, ch.rootKey);
    var l1 := l.(root := root);
    match (key, l.disk.appKey)
    case (Err(f), _) => Step(l1, Err(f))
    case (Ok(rootKey), Some(Obj(envelope))) =>
      if !ContextMatches(envelope, AppKey(appId)) then Step(l1, Err(NotBound))
      else (match Unlock(g, envelope, rootKey)
        case Err(f) => Step(l1, Err(f))
        case Ok(k) => Step(l1, if |k| == Envelope.KEY_BYTES then Ok(k) else Err(BadLength)))
    case (Ok(_), Some(_)) => Step(l1, Err(BadFile))
    case (Ok(_), None) =>
      var s := Wrap(g, appId, l1, ch.appKey, ch.secondStore, ch);
      Step(s.local, match s.result case Err(f) => Err(f) case Ok(_) => Ok(ch.appKey))
  }

  // ----- secrets.py ---------------------------------------------------------

  predicate NameStart(c: char) { 'A' <= c <= 'Z' || 'a' <= c <= 'z' || c == '_' }

  /** SECRET_NAME_RE.fullmatch. */
  predicate ValidName(name: string) {
    && 1 <= |name| <= 128 && NameStart(name[0])
    && forall i | 1 <= i < |name| :: NameStart(name[i]) || '0' <= name[i] <= '9'
  }

  const LETTERS: string := "ABCDEFGHIJKLMNOPQRSTUVWXYZ" + "abcdefghijklmnopqrstuvwxyz"
  const NUMERALS: string := "0123456789"

  predicate IsLetter(c: char) { c in LETTERS }

  predicate IsNumeral(c: char) { c in NUMERALS }

  /** What the pattern stands for: a name of letters, underscores and numerals, of
      1 to 128 characters, that starts with no numeral. */
  predicate IsVariableName(name: string) {
    && 1 <= |name| <= 128 && !IsNumeral(name[0])
    && forall i | 0 <= i < |name| :: IsLetter(name[i]) || name[i] == '_' || IsNumeral(name[i])
  }

  lemma LettersExactly(c: char)
    ensures c in LETTERS <==> 'A' <= c <= 'Z' || 'a' <= c <= 'z'
  {
    var upper, lower := "ABCDEFGHIJKLMNOPQRSTUVWXYZ", "abcdefghijklmnopqrstuvwxyz";
    assert LETTERS == upper + lower;
    forall d: nat | d < 26 ensures upper[d] as int == 65 + d && lower[d] as int == 97 + d { Base64Url.Letters(d); }
    if 'A' <= c <= 'Z' { assert upper[c as int - 65] == c; }
    if 'a' <= c <= 'z' { assert lower[c as int - 97] == c; }
  }

  lemma NumeralsExactly(c: char)
    ensures c in NUMERALS <==> '0' <= c <= '9'
  {
    if '0' <= c <= '9' { assert NUMERALS[c as int - 48] == c; }
  }

  lemma NameCharacters(c: char)
    ensures IsLetter(c) || c == '_' <==> NameStart(c)
    ensures NameStart(c) ==> !IsNumeral(c)
    ensures IsNumeral(c) <==> '0' <= c <= '9'
  {
    LettersExactly(c);
    NumeralsExactly(c);
  }

  lemma NamesExactly(name: string)
    ensures ValidName(name) <==> IsVariableName(name)
  {
    hide NameStart, IsLetter, IsNumeral;
    forall i | 0 <= i < |name|
      ensures NameStart(name[i]) || '0' <= name[i] <= '9'
         <==> IsLetter(name[i]) || name[i] == '_' || IsNumeral(name[i])
      ensures NameStart(name[i]) <==> (IsLetter(name[i]) || name[i] == '_') && !IsNumeral(name[i])
    {
      NameCharacters(name[i]);
    }
  }

  function LoadSecrets(d: Disk): Result<Fields, Failure> {
    match d.secrets
    case None => Ok(NoFields)
    case Some(Obj(f)) => Ok(f)
    case Some(_) => Err(BadFile)
  }

  /** The file is written with sorted keys. */
  function SaveSecrets(d: Disk, f: Fields): Disk {
    d.(secrets := Some(Canon(Obj(f))))
  }

  function SetSecret(g: Cipher, appId: string, l: Local, name: string, value: string, ch: Chance): Step<()> {
    if !ValidName(name) then Step(l, Err(BadName))
    else if value == [] then Step(l, Err(EmptyValue))
    else
      var k := GetOrCreateAppKey(g, appId, l, ch);
      match (k.result, LoadSecrets(k.local.disk))
      case (Err(f), _) => Step(k.local, Err(f))
      case (_, Err(f)) => Step(k.local, Err(f))
      case (Ok(appKey), Ok(secrets)) =>
        match EncryptEnvelope(g, Utf8Encode(value), appKey, Context(AppSecret(appId, name)), ch.fileDraw)
        case Err(_) => Step(k.local, Err(BadLength))
        case Ok(e) =>
          if !ch.fileWrite then Step(k.local, Err(WriteFailed))
          else Step(k.local.(disk := SaveSecrets(k.local.disk, Put(secrets, name, Obj(e)))), Ok(()))
  }

  function GetSecret(g: Cipher, appId: string, l: Local, name: string, ch: Chance): Step<Option<string>> {
    if !ValidName(name) then Step(l, Err(BadName))
    else match LoadSecrets(l.disk)
      case Err(f) => Step(l, Err(f))
      case Ok(secrets) =>
        match Lookup(secrets, name)
        case None => Step(l, Ok(None))
        case Some(Null) => Step(l, Ok(None))
        case Some(Obj(envelope)) =>
          if !ContextMatches(envelope, AppSecret(appId, name)) then Step(l, Err(NotBound))
          else
            var k := GetOrCreateAppKey(g, appId, l, ch);
            (match k.result
             case Err(f) => Step(k.local, Err(f))
             case Ok(appKey) =>
               match Unlock(g, envelope, appKey)
               case Err(f) => Step(k.local, Err(f))
               case Ok(b) => Step(k.local, match Utf8Decode(b) case None => Err(BadText) case Some(v) => Ok(Some(v))))
        case Some(_) => Step(l, Err(BadFile))
  }

  /** get_all_secrets over the listed names, read one after another. */
  function GetAllSecrets(g: Cipher, appId: string, l: Local, names: seq<string>, ch: Chance)
    : Step<map<string, string>>
  {
    if names == [] then Step(l, Ok(map[]))
    else
      var last := names[|names| - 1];
      var s := GetAllSecrets(g, appId, l, names[..|names| - 1], ch);
      match s.result
      case Err(f) => s
      case Ok(before) =>
        var one := GetSecret(g, appId, s.local, last, ch);
        match one.result
        case Err(f) => Step(one.local, Err(f))
        case Ok(None) => Step(one.local, Ok(before))
        case Ok(Some(v)) => Step(one.local, Ok(before[last := v]))
  }

  /** The first name that cannot be read ends the call. */
  lemma {:induction false} FirstErrorStops(g: Cipher, appId: string, l: Local, names: seq<string>, ch: Chance, n: nat)
    requires n <= |names| && GetAllSecrets(g, appId, l, names[..n], ch).result.Err?
    ensures GetAllSecrets(g, appId, l, names, ch) == GetAllSecrets(g, appId, l, names[..n], ch)
  {
    if n < |names| {
      assert names[..|names| - 1][..n] == names[..n];
      FirstErrorStops(g, appId, l, names[..|names| - 1], ch, n);
    } else {
      assert names[..n] == names;
    }
  }

  function DeleteSecret(l: Local, name: string, ch: Chance): Step<bool> {
    if !ValidName(name) then Step(l, Err(BadName))
    else match LoadSecrets(l.disk)
      case Err(f) => Step(l, Err(f))
      case Ok(secrets) =>
        if !HasKey(secrets, name) then Step(l, Ok(false))
        else if !ch.fileWrite then Step(l, Err(WriteFailed))
        else Step(l.(disk := SaveSecrets(l.disk, Without(secrets, name))), Ok(true))
  }

  // ----- recovery.py --------------------------------------------------------

  function RecoveryPayload(appId: string, envelope: Json): Json {
    Obj(Field("schema_version", Int(1), Field("app_id", Str(appId), Field("envelope", envelope, NoFields))))
  }

  function CreateRecovery(g: Cipher, appId: string, l: Local, ch: Chance): Step<string> {
    if l.disk.recovery.Some? then Step(l, Err(AlreadyConfigured))
    else
      var k := GetOrCreateAppKey(g, appId, l, ch);
      match k.result
      case Err(f) => Step(k.local, Err(f))
      case Ok(appKey) =>
        if !ch.fileWrite then Step(k.local, Err(WriteFailed))
        else
          var e := EncryptEnvelope(g, appKey, ch.recoveryKey, Context(RecoveryAppKey(appId)), ch.fileDraw).value;
          Step(k.local.(disk := k.local.disk.(recovery := Some(RecoveryPayload(appId, Obj(e))))),
               Ok(RecoveryText.EncodeRecoveryKey(ch.recoveryKey).value))
  }

  function Recover(g: Cipher, appId: string, l: Local, text: string, ch: Chance): Step<()> {
    match l.disk.recovery
    case None => Step(l, Err(NoRecovery))
    case Some(Obj(payload)) =>
      if !IsOne(Lookup(payload, "schema_version")) || Lookup(payload, "app_id") != Some(Str(appId)) then
        Step(l, Err(RecoveryMismatch))
      else (match Lookup(payload, "envelope")
        case Some(Obj(envelope)) =>
          if !ContextMatches(envelope, RecoveryAppKey(appId)) then Step(l, Err(RecoveryMismatch))
          else (match RecoveryText.DecodeRecoveryKey(text)
            case Err(_) => Step(l, Err(BadRecoveryText))
            case Ok(key) =>
              match Unlock(g, envelope, key)
              case Err(f) => Step(l, Err(f))
              case Ok(appKey) => Wrap(g, appId, l, appKey, ch.store, ch))
        case _ => Step(l, Err(RecoveryMismatch)))
    case Some(_) => Step(l, Err(BadFile))
  }

  // ----- what a stored envelope holds ---------------------------------------

  function SealedFields(g: Cipher, plaintext: bytes, key: Key, p: Purpose, d: Draw): Fields {
    EncryptEnvelope(g, plaintext, key, Context(p), d).value
  }

  /** The stored envelope was made by encrypt_envelope from these arguments. */
  ghost predicate Sealed(g: Cipher, e: Json, plaintext: bytes, key: Key, p: Purpose) {
    e.Obj? && IsValue(e) && exists d: Draw :: Same(e, Obj(SealedFields(g, plaintext, key, p, d)))
  }

  lemma FreshIsSealed(g: Cipher, plaintext: bytes, key: Key, p: Purpose, d: Draw)
    ensures Sealed(g, Obj(SealedFields(g, plaintext, key, p, d)), plaintext, key, p)
  {
    ContextIsContext(p);
    EnvelopeIsValue(g, plaintext, key, Context(p), d);
    assert Same(Obj(SealedFields(g, plaintext, key, p, d)), Obj(SealedFields(g, plaintext, key, p, d)));
  }

  lemma SealedCanon(g: Cipher, e: Json, plaintext: bytes, key: Key, p: Purpose)
    requires Sealed(g, e, plaintext, key, p)
    ensures Sealed(g, Canon(e), plaintext, key, p)
  {
    CanonIsValue(e);
    var d: Draw :| Same(e, Obj(SealedFields(g, plaintext, key, p, d)));
    assert Same(Canon(e), Obj(SealedFields(g, plaintext, key, p, d)));
  }

  lemma SameDecrypts(g: Cipher, e: Fields, f: Fields, key: bytes)
    requires IsValue(Obj(e)) && IsValue(Obj(f)) && Same(Obj(e), Obj(f))
    ensures DecryptEnvelope(g, e, key) == DecryptEnvelope(g, f, key)
  {
    DecryptCanon(g, e, key);
    DecryptCanon(g, f, key);
  }

  /** A sealed envelope is recognised by its purpose and opens under its key. */
  lemma SealedOpens(g: Cipher, e: Json, plaintext: bytes, key: Key, p: Purpose)
    requires Sealed(g, e, plaintext, key, p)
    ensures ContextMatches(e.fields, p) && Unlock(g, e.fields, key) == Ok(plaintext)
  {
    var d: Draw :| Same(e, Obj(SealedFields(g, plaintext, key, p, d)));
    var f := SealedFields(g, plaintext, key, p, d);
    ContextIsContext(p);
    EnvelopeIsValue(g, plaintext, key, Context(p), d);
    EnvelopeRoundTrip(g, plaintext, key, Context(p), d);
    EnvelopeFields(g, plaintext, key, Context(p), d);
    SameDecrypts(g, e.fields, f, key);
    LookupCanon(e.fields, "context");
    LookupCanon(f, "context");
  }

  /** No other key of the run opens it. */
  lemma SealedRefuses(g: Cipher, keys: set<bytes>, e: Json, plaintext: bytes, key: Key, p: Purpose, other: bytes)
    requires Sealed(g, e, plaintext, key, p)
    requires KeySeparated(g, keys) && key in keys && other in keys && other != key
    ensures Unlock(g, e.fields, other).Err?
  {
    var d: Draw :| Same(e, Obj(SealedFields(g, plaintext, key, p, d)));
    ContextIsContext(p);
    EnvelopeIsValue(g, plaintext, key, Context(p), d);
    SameDecrypts(g, e.fields, SealedFields(g, plaintext, key, p, d), other);
    WrongKeyNeverOpens(g, keys, plaintext, key, Context(p), d, other);
  }

  // ----- the invariant ------------------------------------------------------

  /** What should be true of the files: the app key once it exists, the recovery
      key once issued, and the last value set under every live name. */
  datatype Truth = Truth(appKey: Option<Key>, recoveryKey: Option<Key>, values: map<string, string>)

  ghost predicate AppKeyHeld(g: Cipher, appId: string, keys: set<bytes>, d: Disk, t: Truth) {
    && (d.appKey.Some? <==> t.appKey.Some?)
    && (t.appKey.Some? ==> exists r: Key :: r in keys && Sealed(g, d.appKey.value, t.appKey.value, r, AppKey(appId)))
  }

  ghost predicate RecoveryHeld(g: Cipher, appId: string, keys: set<bytes>, d: Disk, t: Truth) {
    && (d.recovery.Some? <==> t.recoveryKey.Some?)
    && (t.recoveryKey.Some? ==>
          && t.appKey.Some? && t.recoveryKey.value in keys
          && exists e :: d.recovery == Some(RecoveryPayload(appId, e))
                         && Sealed(g, e, t.appKey.value, t.recoveryKey.value, RecoveryAppKey(appId)))
  }

  ghost predicate SecretHeld(g: Cipher, appId: string, f: Fields, t: Truth, name: string) {
    && (HasKey(f, name) <==> name in t.values)
    && (name in t.values ==>
          && t.appKey.Some? && Lookup(f, name).Some?
          && Sealed(g, Lookup(f, name).value, Utf8Encode(t.values[name]), t.appKey.value, AppSecret(appId, name)))
  }

  ghost predicate SecretsHeld(g: Cipher, appId: string, d: Disk, t: Truth) {
    && LoadSecrets(d).Ok?
    && IsValue(Obj(LoadSecrets(d).value))
    && forall name :: SecretHeld(g, appId, LoadSecrets(d).value, t, name)
  }

  ghost predicate Inv(g: Cipher, appId: string, keys: set<bytes>, d: Disk, t: Truth) {
    AppKeyHeld(g, appId, keys, d, t) && RecoveryHeld(g, appId, keys, d, t) && SecretsHeld(g, appId, d, t)
  }

  ghost predicate RootIn(root: Option<bytes>, keys: set<bytes>) {
    root.Some? ==> root.value in keys
  }

  /** The root keys a call can leave in a store. */
  ghost predicate DrawsIn(ch: Chance, keys: set<bytes>) {
    ch.rootKey in keys && LeavesIn(ch.store, keys) && LeavesIn(ch.secondStore, keys)
  }

  ghost predicate LeavesIn(store: Backend, keys: set<bytes>) {
    store.WrittenOver? ==> RootIn(store.left, keys)
  }

  // ----- what each operation keeps ------------------------------------------

  /** Writing app-key.json from the right app key keeps everything. */
  lemma WrapKeeps(g: Cipher, appId: string, keys: set<bytes>, l: Local, t: Truth, store: Backend, ch: Chance)
    requires Inv(g, appId, keys, l.disk, t) && t.appKey.Some?
    requires RootIn(l.root, keys) && DrawsIn(ch, keys) && LeavesIn(store, keys)
    ensures var s := Wrap(g, appId, l, t.appKey.value, store, ch);
            Inv(g, appId, keys, s.local.disk, t) && RootIn(s.local.root, keys)
  {
    hide EncryptEnvelope, Context, Same, IsValue;
    var s := Wrap(g, appId, l, t.appKey.value, store, ch);
    if s.result.Ok? {
      var r: Key := s.local.root.value;
      FreshIsSealed(g, t.appKey.value, r, AppKey(appId), ch.keyDraw);
      assert Sealed(g, s.local.disk.appKey.value, t.appKey.value, r, AppKey(appId));
    }
  }

  /** The app key the operation ended with. */
  function TruthAfterKey(t: Truth, after: Disk, ch: Chance): Truth {
    if t.appKey.None? && after.appKey.Some? then t.(appKey := Some(ch.appKey)) else t
  }

  /** An existing app key is returned or the call raises; in either case the
      file is untouched. A new one is created only where there was none. */
  lemma AppKeyKeeps(g: Cipher, appId: string, keys: set<bytes>, l: Local, t: Truth, ch: Chance)
    requires KeySeparated(g, keys) && Inv(g, appId, keys, l.disk, t)
    requires RootIn(l.root, keys) && DrawsIn(ch, keys)
    ensures var s := GetOrCreateAppKey(g, appId, l, ch);
            var t' := TruthAfterKey(t, s.local.disk, ch);
            && Inv(g, appId, keys, s.local.disk, t') && RootIn(s.local.root, keys)
            && s.local.disk.recovery == l.disk.recovery && s.local.disk.secrets == l.disk.secrets
            && (t.appKey.Some? ==> s.local.disk == l.disk)
            && (s.result.Ok? ==> t'.appKey == Some(s.result.value))
            && (s.result.Err? ==> s.local.disk == l.disk)
  {
    hide EncryptEnvelope, DecryptEnvelope, Same, Context, IsValue;
    var s := GetOrCreateAppKey(g, appId, l, ch);
    if t.appKey.Some? {
      var r: Key :| r in keys && Sealed(g, l.disk.appKey.value, t.appKey.value, r, AppKey(appId));
      SealedOpens(g, l.disk.appKey.value, t.appKey.value, r, AppKey(appId));
      var (root, key) := RootKey(l.root, ch.store, ch.rootKey);
      if key.Ok? && key.value != r {
        SealedRefuses(g, keys, l.disk.appKey.value, t.appKey.value, r, AppKey(appId), key.value);
      }
    } else if s.result.Ok? {
      FreshIsSealed(g, ch.appKey, s.local.root.value, AppKey(appId), ch.keyDraw);
      var t' := t.(appKey := Some(ch.appKey));
      forall name ensures SecretHeld(g, appId, LoadSecrets(s.local.disk).value, t', name) {
        assert SecretHeld(g, appId, LoadSecrets(l.disk).value, t, name);
      }
    }
  }
}
