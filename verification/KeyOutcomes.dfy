/** Exactly when each operation on the key files succeeds, whatever the files
    hold: written by Minit, damaged, or copied from another app or name. */
module KeyOutcomes {
  import opened Results
  import opened Bytes
  import opened CanonicalJson
  import opened Gcm
  import opened Envelope
  import RecoveryText
  import opened KeyHierarchy

  // ----- the device root key ------------------------------------------------

  /** An existing root key is used if it has 32 bytes; a new one counts only once
      the store has given it back. */
  lemma RootKeyExactly(root: Option<bytes>, store: Backend, drawn: Key, k: Key)
    ensures RootKey(root, store, drawn).1 == Ok(k)
       <==> match root
            case Some(r) => r == k && !store.ReadFails?
            case None => drawn == k && (store.Reliable? || store == WrittenOver(Some(drawn)))
  {}

  // ----- the app key --------------------------------------------------------

  /** The stored envelope carries this context, up to the order of its entries. */
  ghost predicate Bound(envelope: Fields, p: Purpose) {
    Lookup(envelope, "context").Some? && Same(Lookup(envelope, "context").value, Obj(Context(p)))
  }

  /** The file holds this 32-byte key, for this purpose, under that other key. */
  ghost predicate Holds(g: Cipher, file: Json, p: Purpose, key: bytes, held: bytes) {
    file.Obj? && Bound(file.fields, p) && DecryptEnvelope(g, file.fields, key) == Ok(held) && |held| == 32
  }

  /** The app key of the file if this device's root key opens it and it is bound to
      this app; without a file a new one, if it can be written. */
  ghost predicate GivesAppKey(g: Cipher, appId: string, l: Local, ch: Chance, r: Key, k: bytes) {
    && RootKey(l.root, ch.store, ch.rootKey).1 == Ok(r)
    && match l.disk.appKey
       case Some(file) => Holds(g, file, AppKey(appId), r, k)
       case None => k == ch.appKey && ch.keyWrite && !ch.secondStore.ReadFails?
  }

  lemma AppKeyExactly(g: Cipher, appId: string, l: Local, ch: Chance, k: bytes)
    ensures GetOrCreateAppKey(g, appId, l, ch).result == Ok(k) <==> exists r: Key :: GivesAppKey(g, appId, l, ch, r, k)
    ensures var d := GetOrCreateAppKey(g, appId, l, ch).local.disk;
            d == l.disk || (l.disk.appKey.None? && d.appKey.Some? && d == l.disk.(appKey := d.appKey))
  {
    hide EncryptEnvelope, DecryptEnvelope, Same, Context;
    var root := RootKey(l.root, ch.store, ch.rootKey).1;
    if root.Ok? { assert GivesAppKey(g, appId, l, ch, root.value, k)
       <==> GetOrCreateAppKey(g, appId, l, ch).result == Ok(k); }
  }

  /** A new key is sealed for this app under the device's root key. */
  lemma NewAppKeyIsSealed(g: Cipher, appId: string, l: Local, ch: Chance)
    requires l.disk.appKey.None? && GetOrCreateAppKey(g, appId, l, ch).result.Ok?
    ensures var s := GetOrCreateAppKey(g, appId, l, ch);
            s.result == Ok(ch.appKey) && s.local.root.Some? && |s.local.root.value| == 32
            && s.local.disk.appKey.Some?
            && Sealed(g, s.local.disk.appKey.value, ch.appKey, s.local.root.value, AppKey(appId))
  {
    hide EncryptEnvelope, DecryptEnvelope, Same, Context;
    var s := GetOrCreateAppKey(g, appId, l, ch);
    FreshIsSealed(g, ch.appKey, s.local.root.value, AppKey(appId), ch.keyDraw);
  }

  /** Whatever app-key.json holds, a key taken from it was sealed as this app's
      key, under this device's root key. */
  lemma StoredAppKeyIsTheApps(g: Cipher, log: set<Sealing>, appId: string, l: Local, ch: Chance)
    requires FreshDataKeys(log) && l.disk.appKey.Some? && IsValue(l.disk.appKey.value)
    requires GetOrCreateAppKey(g, appId, l, ch).result.Ok?
    requires l.disk.appKey.value.Obj? && RootKey(l.root, ch.store, ch.rootKey).1.Ok?
             ==> EnvelopeUnforged(g, log, l.disk.appKey.value.fields, RootKey(l.root, ch.store, ch.rootKey).1.value)
    ensures exists s :: s in log && s.purpose == AppKey(appId)
                        && GetOrCreateAppKey(g, appId, l, ch).result == Ok(s.plaintext)
                        && RootKey(l.root, ch.store, ch.rootKey).1 == Ok(s.wrappingKey)
  {
    hide EncryptEnvelope, DecryptEnvelope, Same, Context, EnvelopeUnforged, GetOrCreateAppKey;
    var k := GetOrCreateAppKey(g, appId, l, ch).result.value;
    AppKeyExactly(g, appId, l, ch, k);
    var r: Key :| GivesAppKey(g, appId, l, ch, r, k);
    OpensOnlyForItsPurpose(g, log, l.disk.appKey.value.fields, r, AppKey(appId));
  }

  // ----- secrets ------------------------------------------------------------

  /** Setting succeeds exactly for a variable name and a value, with an app key, a
      readable secrets file and a write that works. */
  lemma SetSecretExactly(g: Cipher, appId: string, l: Local, name: string, value: string, ch: Chance)
    ensures var k := GetOrCreateAppKey(g, appId, l, ch);
            SetSecret(g, appId, l, name, value, ch).result.Ok?
            <==> IsVariableName(name) && value != [] && k.result.Ok? && LoadSecrets(l.disk).Ok? && ch.fileWrite
    ensures SetSecret(g, appId, l, name, value, ch).result.Err? ==>
              SetSecret(g, appId, l, name, value, ch).local.disk.secrets == l.disk.secrets
  {
    hide EncryptEnvelope, Canon, Put, Context, ValidName, IsVariableName, GetOrCreateAppKey;
    NamesExactly(name);
    var k := GetOrCreateAppKey(g, appId, l, ch);
    if k.result.Ok? {
      AppKeyExactly(g, appId, l, ch, k.result.value);
      var r: Key :| GivesAppKey(g, appId, l, ch, r, k.result.value);
      EncryptsWithKey(g, Utf8Encode(value), k.result.value, Context(AppSecret(appId, name)), ch.fileDraw);
    }
    AppKeyExactly(g, appId, l, ch, []);
  }

  lemma EncryptsWithKey(g: Cipher, plaintext: bytes, key: bytes, context: Fields, d: Draw)
    requires |key| == 32
    ensures EncryptEnvelope(g, plaintext, key, context, d).Ok?
  {}

  /** The name the source gives as its example. */
  lemma ExampleNameIsAccepted()
    ensures IsVariableName("OPENAI_API_KEY") && ValidName("OPENAI_API_KEY")
    ensures !IsVariableName("1PASSWORD") && !IsVariableName("API-KEY") && !IsVariableName("")
  {
    hide ValidName;
    NamesExactly("OPENAI_API_KEY");
    forall c: char ensures IsLetter(c) <==> 'A' <= c <= 'Z' || 'a' <= c <= 'z' { LettersExactly(c); }
    forall c: char ensures IsNumeral(c) <==> '0' <= c <= '9' { NumeralsExactly(c); }
    hide IsLetter, IsNumeral;
    assert "1PASSWORD"[0] == '1' && "API-KEY"[3] == '-';
  }

  /** Reading gives a value exactly when the entry of that name is bound to this
      app and this name and opens, under the app key, to that text. */
  lemma GetSecretExactly(g: Cipher, appId: string, l: Local, name: string, ch: Chance, v: string)
    ensures GetSecret(g, appId, l, name, ch).result == Ok(Some(v))
       <==> IsVariableName(name) && LoadSecrets(l.disk).Ok?
            && GetOrCreateAppKey(g, appId, l, ch).result.Ok?
            && match Lookup(LoadSecrets(l.disk).value, name)
               case Some(Obj(e)) =>
                 Bound(e, AppSecret(appId, name))
                 && DecryptEnvelope(g, e, GetOrCreateAppKey(g, appId, l, ch).result.value) == Ok(Utf8Encode(v))
               case _ => false
  {
    hide DecryptEnvelope, Same, Context, ValidName, IsVariableName, GetOrCreateAppKey, Utf8Encode, Utf8Decode;
    NamesExactly(name);
    Utf8RoundTrip(v);
    if LoadSecrets(l.disk).Ok? && GetOrCreateAppKey(g, appId, l, ch).result.Ok? {
      match Lookup(LoadSecrets(l.disk).value, name)
      case Some(Obj(e)) =>
        var held := DecryptEnvelope(g, e, GetOrCreateAppKey(g, appId, l, ch).result.value);
        if held.Ok? && Utf8Decode(held.value).Some? { Utf8Strict(held.value); }
      case _ =>
    }
  }

  /** No decryption of this entry under the app key is of a forged box. */
  ghost predicate EntryUnforged(g: Cipher, log: set<Sealing>, appId: string, l: Local, name: string, ch: Chance)
    requires LoadSecrets(l.disk).Ok?
  {
    match (Lookup(LoadSecrets(l.disk).value, name), GetOrCreateAppKey(g, appId, l, ch).result)
    case (Some(Obj(e)), Ok(k)) => EnvelopeUnforged(g, log, e, k)
    case _ => true
  }

  /** So nothing but a value that was set for this very app and name ever comes
      back, whatever entries the file holds: none can be moved to another name or
      from another app. */
  lemma ReadSecretWasSet(g: Cipher, log: set<Sealing>, appId: string, l: Local, name: string, ch: Chance, v: string)
    requires FreshDataKeys(log) && LoadSecrets(l.disk).Ok? && IsValue(Obj(LoadSecrets(l.disk).value))
    requires GetSecret(g, appId, l, name, ch).result == Ok(Some(v))
    requires EntryUnforged(g, log, appId, l, name, ch)
    ensures exists s :: s in log && s.purpose == AppSecret(appId, name) && s.plaintext == Utf8Encode(v)
                        && GetOrCreateAppKey(g, appId, l, ch).result == Ok(s.wrappingKey)
  {
    hide DecryptEnvelope, Same, Context, IsVariableName, GetOrCreateAppKey, GetSecret, EnvelopeUnforged, Utf8Encode;
    GetSecretExactly(g, appId, l, name, ch, v);
    var e := Lookup(LoadSecrets(l.disk).value, name).value;
    LookupIsValue(LoadSecrets(l.disk).value, name);
    var k := GetOrCreateAppKey(g, appId, l, ch).result.value;
    OpensOnlyForItsPurpose(g, log, e.fields, k, AppSecret(appId, name));
  }

  /** Deleting succeeds exactly for a variable name in a readable file, with a
      write that works if there is something to delete. */
  lemma DeleteSecretExactly(l: Local, name: string, ch: Chance, there: bool)
    ensures DeleteSecret(l, name, ch).result == Ok(there)
       <==> IsVariableName(name) && LoadSecrets(l.disk).Ok? && HasKey(LoadSecrets(l.disk).value, name) == there
            && (there ==> ch.fileWrite)
  {
    hide ValidName, IsVariableName, Canon;
    NamesExactly(name);
  }

  // ----- recovery -----------------------------------------------------------

  /** The recovery file is of this app, the text is a recovery key, and that key
      opens the app key. */
  ghost predicate Unlocks(g: Cipher, appId: string, d: Disk, text: string, k: bytes) {
    && RecoveryText.DecodeRecoveryKey(text).Ok? && d.recovery.Some? && d.recovery.value.Obj?
    && var f := d.recovery.value.fields;
       && Lookup(f, "schema_version") in {Some(Int(1)), Some(Bool(true))} && Lookup(f, "app_id") == Some(Str(appId))
       && Lookup(f, "envelope").Some?
       && Holds(g, Lookup(f, "envelope").value, RecoveryAppKey(appId), RecoveryText.DecodeRecoveryKey(text).value, k)
  }

  /** Recovery succeeds exactly when the text unlocks the app key and it can be
      wrapped for this device. */
  lemma RecoverExactly(g: Cipher, appId: string, l: Local, text: string, ch: Chance)
    ensures Recover(g, appId, l, text, ch).result.Ok?
       <==> (exists k :: Unlocks(g, appId, l.disk, text, k))
            && RootKey(l.root, ch.store, ch.rootKey).1.Ok? && ch.keyWrite
    ensures Recover(g, appId, l, text, ch).result.Err? ==> Recover(g, appId, l, text, ch).local.disk == l.disk
  {
    hide EncryptEnvelope, DecryptEnvelope, Same, Context;
    var held := match l.disk.recovery
      case Some(Obj(f)) =>
        (match (Lookup(f, "envelope"), RecoveryText.DecodeRecoveryKey(text))
         case (Some(Obj(e)), Ok(key)) => DecryptEnvelope(g, e, key)
         case _ => Err(BadValue))
      case _ => Err(BadValue);
    if held.Ok? {
      assert Recover(g, appId, l, text, ch).result.Ok? ==> Unlocks(g, appId, l.disk, text, held.value);
      assert forall k :: Unlocks(g, appId, l.disk, text, k) ==> k == held.value;
    }
  }

  /** What it writes is the app key it unlocked, for this device. */
  lemma RecoveredFileHoldsKey(g: Cipher, appId: string, l: Local, text: string, ch: Chance, k: bytes)
    requires Recover(g, appId, l, text, ch).result.Ok? && Unlocks(g, appId, l.disk, text, k)
    ensures var s := Recover(g, appId, l, text, ch).local;
            s.root.Some? && |s.root.value| == 32 && s.disk.appKey.Some?
            && Sealed(g, s.disk.appKey.value, k, s.root.value, AppKey(appId))
  {
    hide EncryptEnvelope, DecryptEnvelope, Same, Context;
    var s := Recover(g, appId, l, text, ch).local;
    FreshIsSealed(g, k, s.root.value, AppKey(appId), ch.keyDraw);
  }

  /** And that key was sealed as this app's, under the recovery key in the text. */
  lemma RecoveredKeyIsTheApps(g: Cipher, log: set<Sealing>, appId: string, d: Disk, text: string, k: bytes)
    requires FreshDataKeys(log) && Unlocks(g, appId, d, text, k) && IsValue(d.recovery.value)
    requires EnvelopeUnforged(g, log, Lookup(d.recovery.value.fields, "envelope").value.fields,
                              RecoveryText.DecodeRecoveryKey(text).value)
    ensures exists s :: s in log && s.purpose == RecoveryAppKey(appId) && s.plaintext == k
                        && RecoveryText.DecodeRecoveryKey(text) == Ok(s.wrappingKey)
  {
    hide DecryptEnvelope, Same, Context, EnvelopeUnforged;
    var e := Lookup(d.recovery.value.fields, "envelope").value;
    LookupIsValue(d.recovery.value.fields, "envelope");
    OpensOnlyForItsPurpose(g, log, e.fields, RecoveryText.DecodeRecoveryKey(text).value, RecoveryAppKey(appId));
  }
}
