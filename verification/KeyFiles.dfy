/** The same operations in the form the program has: a key store and a project
    directory that methods update step by step. Each method is proved to do to
    the files and the store exactly what its function in KeyHierarchy says, so
    the results about runs are about these methods. */
module KeyFiles {
  import opened Results
  import opened Bytes
  import opened CanonicalJson
  import opened Gcm
  import opened Envelope
  import RecoveryText
  import K = KeyHierarchy

  class KeyStore {
    var root: Option<bytes>

    /** store.get, before a write or to confirm one. */
    method Get(store: K.Backend, confirming: bool) returns (r: Result<Option<bytes>, K.Failure>)
      ensures r == if store.ReadFails? || (confirming && store.ConfirmFails?) then Err(K.StoreUnavailable) else Ok(root)
    {
      if store.ReadFails? || (confirming && store.ConfirmFails?) {
        return Err(K.StoreUnavailable);
      }
      r := Ok(root);
    }

    /** store.set; a degenerate backend accepts the value and drops it, and
        another writer may come before the next read. */
    method SetKey(value: Key, store: K.Backend) returns (r: Result<(), K.Failure>)
      modifies this
      ensures root == if store.WriteFails? || store.WriteIgnored? then old(root)
                      else if store.WrittenOver? then store.left else Some(value)
      ensures r.Ok? <==> !store.WriteFails? && !store.WriteRaises?
      ensures r.Err? ==> r.error == K.StoreUnavailable
    {
      if store.WriteFails? { return Err(K.StoreUnavailable); }
      if store.WrittenOver? { root := store.left; }
      else if !store.WriteIgnored? { root := Some(value); }
      if store.WriteRaises? { return Err(K.StoreUnavailable); }
      r := Ok(());
    }

    method GetOrCreateDeviceRootKey(store: K.Backend, drawn: Key) returns (r: Result<Key, K.Failure>)
      modifies this
      ensures (root, r) == K.RootKey(old(root), store, drawn)
    {
      var existing := Get(store, false);
      if existing.Err? { return Err(existing.error); }
      if existing.value.Some? {
        if |existing.value.value| != Envelope.KEY_BYTES { return Err(K.StoreUnavailable); }
        return Ok(existing.value.value);
      }
      var wrote := SetKey(drawn, store);
      if wrote.Err? { return Err(wrote.error); }
      var confirmed := Get(store, true);
      if confirmed.Err? { return Err(confirmed.error); }
      if confirmed.value != Some(drawn) { return Err(K.StoreUnavailable); }
      r := Ok(drawn);
    }
  }

  class Project {
    const g: Cipher
    const appId: string
    var appKey: Option<Json>
    var recovery: Option<Json>
    var secrets: Option<Json>

    function View(store: KeyStore): K.Local
      reads this, store
    {
      K.Local(K.Disk(appKey, recovery, secrets), store.root)
    }

    method WrapAppKeyForDevice(key: bytes, store: KeyStore, backend: K.Backend, ch: K.Chance)
      returns (r: Result<(), K.Failure>)
      modifies this`appKey, store
      ensures K.Step(View(store), r) == K.Wrap(g, appId, old(View(store)), key, backend, ch)
    {
      hide EncryptEnvelope, Context;
      if |key| != Envelope.KEY_BYTES { return Err(K.BadLength); }
      var root := store.GetOrCreateDeviceRootKey(backend, ch.rootKey);
      if root.Err? { return Err(root.error); }
      var sealed := EncryptEnvelope(g, key, root.value, Context(AppKey(appId)), ch.keyDraw);
      if !ch.keyWrite { return Err(K.WriteFailed); }
      assert sealed.Ok? by { EncryptNeedsKey(g, key, root.value, Context(AppKey(appId)), ch.keyDraw); }
      appKey := Some(Obj(sealed.value));
      r := Ok(());
    }

    method GetOrCreateAppKey(store: KeyStore, ch: K.Chance) returns (r: Result<bytes, K.Failure>)
      modifies this`appKey, store
      ensures K.Step(View(store), r) == K.GetOrCreateAppKey(g, appId, old(View(store)), ch)
    {
      hide EncryptEnvelope, DecryptEnvelope, Context, Same;
      var root := store.GetOrCreateDeviceRootKey(ch.store, ch.rootKey);
      if root.Err? { return Err(root.error); }
      match appKey {
        case Some(Obj(envelope)) =>
          if !K.ContextMatches(envelope, AppKey(appId)) { return Err(K.NotBound); }
          var key := K.Unlock(g, envelope, root.value);
          if key.Ok? && |key.value| != Envelope.KEY_BYTES { return Err(K.BadLength); }
          return key;
        case Some(_) =>
          return Err(K.BadFile);
        case None =>
          var wrapped := WrapAppKeyForDevice(ch.appKey, store, ch.secondStore, ch);
          if wrapped.Err? { return Err(wrapped.error); }
          return Ok(ch.appKey);
      }
    }

    method LoadSecretEnvelopes() returns (r: Result<Fields, K.Failure>)
      ensures r == K.LoadSecrets(K.Disk(appKey, recovery, secrets))
    {
      match secrets {
        case None => r := Ok(NoFields);
        case Some(Obj(f)) => r := Ok(f);
        case Some(_) => r := Err(K.BadFile);
      }
    }

    method SetSecret(name: string, value: string, store: KeyStore, ch: K.Chance) returns (r: Result<(), K.Failure>)
      modifies this, store
      ensures K.Step(View(store), r) == K.SetSecret(g, appId, old(View(store)), name, value, ch)
    {
      hide EncryptEnvelope, Context, Canon;
      if !K.ValidName(name) { return Err(K.BadName); }
      if value == [] { return Err(K.EmptyValue); }
      var key := GetOrCreateAppKey(store, ch);
      if key.Err? { return Err(key.error); }
      var loaded := LoadSecretEnvelopes();
      if loaded.Err? { return Err(loaded.error); }
      var envelopes := loaded.value;
      var sealed := EncryptEnvelope(g, Utf8Encode(value), key.value, Context(AppSecret(appId, name)), ch.fileDraw);
      if sealed.Err? { return Err(K.BadLength); }
      envelopes := Put(envelopes, name, Obj(sealed.value));
      if !ch.fileWrite { return Err(K.WriteFailed); }
      secrets := Some(Canon(Obj(envelopes)));
      r := Ok(());
    }

    method GetSecret(name: string, store: KeyStore, ch: K.Chance) returns (r: Result<Option<string>, K.Failure>)
      modifies this`appKey, store
      ensures K.Step(View(store), r) == K.GetSecret(g, appId, old(View(store)), name, ch)
    {
      hide DecryptEnvelope, Context, Same, K.GetOrCreateAppKey;
      if !K.ValidName(name) { return Err(K.BadName); }
      var envelopes := LoadSecretEnvelopes();
      if envelopes.Err? { return Err(envelopes.error); }
      match Lookup(envelopes.value, name) {
        case None => return Ok(None);
        case Some(Null) => return Ok(None);
        case Some(Obj(envelope)) =>
          if !K.ContextMatches(envelope, AppSecret(appId, name)) { return Err(K.NotBound); }
          var key := GetOrCreateAppKey(store, ch);
          if key.Err? { return Err(key.error); }
          var plaintext := K.Unlock(g, envelope, key.value);
          if plaintext.Err? { return Err(plaintext.error); }
          match Utf8Decode(plaintext.value) {
            case None => return Err(K.BadText);
            case Some(text) => return Ok(Some(text));
          }
        case Some(_) => return Err(K.BadFile);
      }
    }

    /** `names` is what list_secret_names returns. */
    method GetAllSecrets(names: seq<string>, store: KeyStore, ch: K.Chance)
      returns (r: Result<map<string, string>, K.Failure>)
      modifies this`appKey, store
      ensures K.Step(View(store), r) == K.GetAllSecrets(g, appId, old(View(store)), names, ch)
    {
      hide K.GetSecret;
      var values := map[];
      for i := 0 to |names|
        invariant K.Step(View(store), Ok(values)) == K.GetAllSecrets(g, appId, old(View(store)), names[..i], ch)
      {
        assert names[..i + 1][..i] == names[..i];
        var value := GetSecret(names[i], store, ch);
        if value.Err? {
          K.FirstErrorStops(g, appId, old(View(store)), names, ch, i + 1);
          return Err(value.error);
        }
        if value.value.Some? { values := values[names[i] := value.value.value]; }
      }
      assert names[..|names|] == names;
      r := Ok(values);
    }

    method DeleteSecret(name: string, store: KeyStore, ch: K.Chance) returns (r: Result<bool, K.Failure>)
      modifies this`secrets
      ensures K.Step(View(store), r) == K.DeleteSecret(old(View(store)), name, ch)
    {
      hide Canon;
      if !K.ValidName(name) { return Err(K.BadName); }
      var loaded := LoadSecretEnvelopes();
      if loaded.Err? { return Err(loaded.error); }
      var envelopes := loaded.value;
      if !HasKey(envelopes, name) { return Ok(false); }
      envelopes := Without(envelopes, name);
      if !ch.fileWrite { return Err(K.WriteFailed); }
      secrets := Some(Canon(Obj(envelopes)));
      r := Ok(true);
    }

    method CreateRecoveryEnvelope(store: KeyStore, ch: K.Chance) returns (r: Result<string, K.Failure>)
      modifies this, store
      ensures K.Step(View(store), r) == K.CreateRecovery(g, appId, old(View(store)), ch)
    {
      hide EncryptEnvelope, Context, K.GetOrCreateAppKey;
      if recovery.Some? { return Err(K.AlreadyConfigured); }
      var key := GetOrCreateAppKey(store, ch);
      if key.Err? { return Err(key.error); }
      var sealed := EncryptEnvelope(g, key.value, ch.recoveryKey, Context(RecoveryAppKey(appId)), ch.fileDraw);
      if !ch.fileWrite { return Err(K.WriteFailed); }
      assert sealed.Ok? by {
        EncryptNeedsKey(g, key.value, ch.recoveryKey, Context(RecoveryAppKey(appId)), ch.fileDraw);
      }
      recovery := Some(K.RecoveryPayload(appId, Obj(sealed.value)));
      r := Ok(RecoveryText.EncodeRecoveryKey(ch.recoveryKey).value);
    }

    method RecoverAppKeyToCurrentDevice(text: string, store: KeyStore, ch: K.Chance) returns (r: Result<(), K.Failure>)
      modifies this`appKey, store
      ensures K.Step(View(store), r) == K.Recover(g, appId, old(View(store)), text, ch)
    {
      hide DecryptEnvelope, Context, Same, K.Wrap;
      match recovery {
        case None => return Err(K.NoRecovery);
        case Some(Obj(payload)) =>
          if !IsOne(Lookup(payload, "schema_version")) || Lookup(payload, "app_id") != Some(Str(appId)) {
            return Err(K.RecoveryMismatch);
          }
          match Lookup(payload, "envelope") {
            case Some(Obj(envelope)) =>
              if !K.ContextMatches(envelope, RecoveryAppKey(appId)) { return Err(K.RecoveryMismatch); }
              var recoveryKey := RecoveryText.DecodeRecoveryKey(text);
              if recoveryKey.Err? { return Err(K.BadRecoveryText); }
              var key := K.Unlock(g, envelope, recoveryKey.value);
              if key.Err? { return Err(key.error); }
              r := WrapAppKeyForDevice(key.value, store, ch.store, ch);
              return r;
            case _ => return Err(K.RecoveryMismatch);
          }
        case Some(_) => return Err(K.BadFile);
      }
    }
  }

  lemma EncryptNeedsKey(g: Cipher, plaintext: bytes, key: Key, context: Fields, draw: Draw)
    ensures EncryptEnvelope(g, plaintext, key, context, draw).Ok?
  {}
}
