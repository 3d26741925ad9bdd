/** App-key continuity over whole runs: whatever operations run on whatever
    devices, an app key that exists is never replaced, live secrets keep their
    last value, and an issued recovery key keeps working. */
module KeyContinuity {
  import opened Results
  import opened Bytes
  import opened CanonicalJson
  import opened Gcm
  import opened Envelope
  import RecoveryText
  import opened KeyHierarchy

  // ----- one operation at a time --------------------------------------------

  lemma SaveKeeps(g: Cipher, appId: string, keys: set<bytes>, d: Disk, f: Fields, t: Truth)
    requires AppKeyHeld(g, appId, keys, d, t) && RecoveryHeld(g, appId, keys, d, t)
    requires IsValue(Obj(f)) && forall name :: SecretHeld(g, appId, f, t, name)
    ensures Inv(g, appId, keys, SaveSecrets(d, f), t)
  {
    CanonIsValue(Obj(f));
    var sorted := Canon(Obj(f)).fields;
    forall name ensures SecretHeld(g, appId, sorted, t, name) {
      assert SecretHeld(g, appId, f, t, name);
      LookupCanon(f, name);
      LookupMissing(f, name);
      LookupMissing(sorted, name);
      if name in t.values {
        SealedCanon(g, Lookup(f, name).value, Utf8Encode(t.values[name]), t.appKey.value, AppSecret(appId, name));
      }
    }
  }

  /** set_secret: on success the name has the new value; nothing else changes
      but for an app key created where there was none. */
  lemma SetSecretKeeps(g: Cipher, appId: string, keys: set<bytes>, l: Local, t: Truth, name: string, value: string,
                       ch: Chance)
    requires KeySeparated(g, keys) && Inv(g, appId, keys, l.disk, t)
    requires RootIn(l.root, keys) && DrawsIn(ch, keys)
    ensures var s := SetSecret(g, appId, l, name, value, ch);
            var t' := TruthAfterKey(t, s.local.disk, ch);
            && Inv(g, appId, keys, s.local.disk, if s.result.Ok? then t'.(values := t'.values[name := value]) else t')
            && RootIn(s.local.root, keys) && s.local.disk.recovery == l.disk.recovery
            && (t.appKey.Some? ==> s.local.disk.appKey == l.disk.appKey)
  {
    hide EncryptEnvelope, DecryptEnvelope, Same, Context, Sealed;
    var s := SetSecret(g, appId, l, name, value, ch);
    AppKeyKeeps(g, appId, keys, l, t, ch);
    var k := GetOrCreateAppKey(g, appId, l, ch);
    if s.result.Ok? {
      var t1 := TruthAfterKey(t, k.local.disk, ch);
      var t2 := t1.(values := t1.values[name := value]);
      var f := LoadSecrets(k.local.disk).value;
      var e := Obj(SealedFields(g, Utf8Encode(value), k.result.value, AppSecret(appId, name), ch.fileDraw));
      FreshIsSealed(g, Utf8Encode(value), k.result.value, AppSecret(appId, name), ch.fileDraw);
      PutKeeps(f, name, e);
      forall n ensures SecretHeld(g, appId, Put(f, name, e), t2, n) {
        assert SecretHeld(g, appId, f, t1, n);
        LookupMissing(f, n);
        LookupMissing(Put(f, name, e), n);
      }
      SaveKeeps(g, appId, keys, k.local.disk, Put(f, name, e), t2);
    }
  }

  lemma GetSecretKeeps(g: Cipher, appId: string, keys: set<bytes>, l: Local, t: Truth, name: string, ch: Chance)
    requires KeySeparated(g, keys) && Inv(g, appId, keys, l.disk, t)
    requires RootIn(l.root, keys) && DrawsIn(ch, keys)
    ensures var s := GetSecret(g, appId, l, name, ch);
            && Inv(g, appId, keys, s.local.disk, TruthAfterKey(t, s.local.disk, ch)) && RootIn(s.local.root, keys)
            && s.local.disk.recovery == l.disk.recovery
            && (t.appKey.Some? ==> s.local.disk.appKey == l.disk.appKey)
  {
    hide EncryptEnvelope, DecryptEnvelope, Same, Context, Sealed;
    AppKeyKeeps(g, appId, keys, l, t, ch);
  }

  lemma DeleteSecretKeeps(g: Cipher, appId: string, keys: set<bytes>, l: Local, t: Truth, name: string, ch: Chance)
    requires Inv(g, appId, keys, l.disk, t)
    ensures var s := DeleteSecret(l, name, ch);
            && Inv(g, appId, keys, s.local.disk, if s.result == Ok(true) then t.(values := t.values - {name}) else t)
            && s.local.root == l.root && s.local.disk.appKey == l.disk.appKey
            && s.local.disk.recovery == l.disk.recovery
  {
    hide EncryptEnvelope, DecryptEnvelope, Same, Context, Sealed;
    var s := DeleteSecret(l, name, ch);
    if s.result == Ok(true) {
      var f := LoadSecrets(l.disk).value;
      var t' := t.(values := t.values - {name});
      WithoutKeeps(f, name);
      forall n ensures SecretHeld(g, appId, Without(f, name), t', n) {
        assert SecretHeld(g, appId, f, t, n);
      }
      SaveKeeps(g, appId, keys, l.disk, Without(f, name), t');
    }
  }

  /** create_recovery_envelope issues one recovery key and never a second. */
  lemma CreateRecoveryKeeps(g: Cipher, appId: string, keys: set<bytes>, l: Local, t: Truth, ch: Chance)
    requires KeySeparated(g, keys) && Inv(g, appId, keys, l.disk, t)
    requires RootIn(l.root, keys) && DrawsIn(ch, keys) && ch.recoveryKey in keys
    ensures var s := CreateRecovery(g, appId, l, ch);
            var t' := TruthAfterKey(t, s.local.disk, ch);
            && Inv(g, appId, keys, s.local.disk, if s.result.Ok? then t'.(recoveryKey := Some(ch.recoveryKey)) else t')
            && RootIn(s.local.root, keys)
            && (t.recoveryKey.Some? ==> s.result.Err? && s.local.disk.recovery == l.disk.recovery)
            && (t.appKey.Some? ==> s.local.disk.appKey == l.disk.appKey)
  {
    hide EncryptEnvelope, DecryptEnvelope, Same, Context, Sealed;
    var s := CreateRecovery(g, appId, l, ch);
    AppKeyKeeps(g, appId, keys, l, t, ch);
    var k := GetOrCreateAppKey(g, appId, l, ch);
    if s.result.Ok? {
      var t1 := TruthAfterKey(t, k.local.disk, ch);
      var t2 := t1.(recoveryKey := Some(ch.recoveryKey));
      var e := Obj(SealedFields(g, k.result.value, ch.recoveryKey, RecoveryAppKey(appId), ch.fileDraw));
      FreshIsSealed(g, k.result.value, ch.recoveryKey, RecoveryAppKey(appId), ch.fileDraw);
      assert s.local.disk.recovery == Some(RecoveryPayload(appId, e));
      var f := LoadSecrets(k.local.disk).value;
      forall n ensures SecretHeld(g, appId, f, t2, n) { assert SecretHeld(g, appId, f, t1, n); }
    }
  }

  lemma PayloadFields(appId: string, e: Json)
    ensures var f := RecoveryPayload(appId, e).fields;
            IsOne(Lookup(f, "schema_version")) && Lookup(f, "app_id") == Some(Str(appId))
            && Lookup(f, "envelope") == Some(e)
  {
    var last := Field("envelope", e, NoFields);
    var mid := Field("app_id", Str(appId), last);
    assert |"envelope"| == 8 && |"app_id"| == 6 && |"schema_version"| == 14;
    assert Lookup(last, "envelope") == Some(e);
    assert Lookup(mid, "envelope") == Some(e) && Lookup(mid, "app_id") == Some(Str(appId));
  }

  /** recover_app_key_to_current_device rewraps the app key it was given, or
      raises and leaves the file as it is. */
  lemma RecoverKeeps(g: Cipher, appId: string, keys: set<bytes>, l: Local, t: Truth, text: string, ch: Chance)
    requires KeySeparated(g, keys) && Inv(g, appId, keys, l.disk, t)
    requires RootIn(l.root, keys) && DrawsIn(ch, keys)
    requires RecoveryText.DecodeRecoveryKey(text).Ok? ==> RecoveryText.DecodeRecoveryKey(text).value in keys
    ensures var s := Recover(g, appId, l, text, ch);
            && Inv(g, appId, keys, s.local.disk, t) && RootIn(s.local.root, keys)
            && s.local.disk.recovery == l.disk.recovery && s.local.disk.secrets == l.disk.secrets
            && (s.result.Err? ==> s.local.disk == l.disk)
  {
    hide EncryptEnvelope, DecryptEnvelope, Same, Context, Sealed;
    if t.recoveryKey.Some? {
      var k := t.appKey.value;
      var e :| l.disk.recovery == Some(RecoveryPayload(appId, e))
               && Sealed(g, e, k, t.recoveryKey.value, RecoveryAppKey(appId));
      PayloadFields(appId, e);
      SealedOpens(g, e, k, t.recoveryKey.value, RecoveryAppKey(appId));
      WrapKeeps(g, appId, keys, l, t, ch.store, ch);
      match RecoveryText.DecodeRecoveryKey(text)
      case Ok(key) =>
        if key != t.recoveryKey.value {
          SealedRefuses(g, keys, e, k, t.recoveryKey.value, RecoveryAppKey(appId), key);
        }
      case Err(_) =>
    }
  }

  // ----- runs ---------------------------------------------------------------

  type Device = nat

  /** One project directory used from any number of devices. */
  datatype World = World(disk: Disk, roots: map<Device, bytes>)

  function RootOf(w: World, d: Device): Option<bytes> {
    if d in w.roots then Some(w.roots[d]) else None
  }

  function WithLocal(w: World, d: Device, l: Local): World {
    World(l.disk, match l.root case None => w.roots - {d} case Some(k) => w.roots[d := k])
  }

  /** UseAppKey is what creating, verifying and restoring a backup do with the
      key files; StoreReplaced is anything that happens to a key store outside
      Minit, such as a lost or restored keyring. */
  datatype Op =
    | Set(name: string, value: string) | Get(name: string) | Delete(name: string)
    | UseAppKey | IssueRecovery | RestoreAccess(text: string) | StoreReplaced(root: Option<bytes>)

  datatype Event = Event(device: Device, op: Op, chance: Chance)

  /** The files and the store after one event, and the truth about them. */
  function Apply(g: Cipher, appId: string, w: World, t: Truth, e: Event): (World, Truth) {
    var l := Local(w.disk, RootOf(w, e.device));
    match e.op
    case Set(name, value) =>
      var s := SetSecret(g, appId, l, name, value, e.chance);
      var t' := TruthAfterKey(t, s.local.disk, e.chance);
      (WithLocal(w, e.device, s.local), if s.result.Ok? then t'.(values := t'.values[name := value]) else t')
    case Get(name) =>
      var s := GetSecret(g, appId, l, name, e.chance);
      (WithLocal(w, e.device, s.local), TruthAfterKey(t, s.local.disk, e.chance))
    case Delete(name) =>
      var s := DeleteSecret(l, name, e.chance);
      (WithLocal(w, e.device, s.local), if s.result == Ok(true) then t.(values := t.values - {name}) else t)
    case UseAppKey =>
      var s := GetOrCreateAppKey(g, appId, l, e.chance);
      (WithLocal(w, e.device, s.local), TruthAfterKey(t, s.local.disk, e.chance))
    case IssueRecovery =>
      var s := CreateRecovery(g, appId, l, e.chance);
      var t' := TruthAfterKey(t, s.local.disk, e.chance);
      (WithLocal(w, e.device, s.local), if s.result.Ok? then t'.(recoveryKey := Some(e.chance.recoveryKey)) else t')
    case RestoreAccess(text) =>
      var s := Recover(g, appId, l, text, e.chance);
      (WithLocal(w, e.device, s.local), t)
    case StoreReplaced(root) => (WithLocal(w, e.device, l.(root := root)), t)
  }

  function Run(g: Cipher, appId: string, w: World, t: Truth, events: seq<Event>): (World, Truth)
    decreases |events|
  {
    if events == [] then (w, t)
    else
      var (w', t') := Apply(g, appId, w, t, events[0]);
      Run(g, appId, w', t', events[1..])
  }

  /** The keys an event brings into the run. */
  ghost predicate EventKeysIn(e: Event, keys: set<bytes>) {
    && DrawsIn(e.chance, keys) && e.chance.recoveryKey in keys
    && (e.op.StoreReplaced? ==> RootIn(e.op.root, keys))
    && (e.op.RestoreAccess? && RecoveryText.DecodeRecoveryKey(e.op.text).Ok? ==>
          RecoveryText.DecodeRecoveryKey(e.op.text).value in keys)
  }

  ghost predicate WorldInv(g: Cipher, appId: string, keys: set<bytes>, w: World, t: Truth) {
    Inv(g, appId, keys, w.disk, t) && forall d | d in w.roots :: w.roots[d] in keys
  }

  /** One event keeps the files in agreement with the truth, never replaces an
      app key or a recovery key, and changes at most the value it names. */
  lemma ApplyKeeps(g: Cipher, appId: string, keys: set<bytes>, w: World, t: Truth, e: Event)
    requires KeySeparated(g, keys) && WorldInv(g, appId, keys, w, t) && EventKeysIn(e, keys)
    ensures var (w', t') := Apply(g, appId, w, t, e);
            && WorldInv(g, appId, keys, w', t')
            && (t.appKey.Some? ==> t'.appKey == t.appKey)
            && (t.recoveryKey.Some? ==> t'.recoveryKey == t.recoveryKey)
  {
    hide SetSecret, GetSecret, DeleteSecret, GetOrCreateAppKey, CreateRecovery, Recover, Inv;
    var l := Local(w.disk, RootOf(w, e.device));
    match e.op
    case Set(name, value) => SetSecretKeeps(g, appId, keys, l, t, name, value, e.chance);
    case Get(name) => GetSecretKeeps(g, appId, keys, l, t, name, e.chance);
    case Delete(name) => DeleteSecretKeeps(g, appId, keys, l, t, name, e.chance);
    case UseAppKey => AppKeyKeeps(g, appId, keys, l, t, e.chance);
    case IssueRecovery => CreateRecoveryKeeps(g, appId, keys, l, t, e.chance);
    case RestoreAccess(text) => RecoverKeeps(g, appId, keys, l, t, text, e.chance);
    case StoreReplaced(_) =>
  }

  const FRESH_TRUTH: Truth := Truth(None, None, map[])
  const FRESH_DISK: Disk := Disk(None, None, None)

  lemma FreshInv(g: Cipher, appId: string, keys: set<bytes>, roots: map<Device, bytes>)
    requires forall d | d in roots :: roots[d] in keys
    ensures WorldInv(g, appId, keys, World(FRESH_DISK, roots), FRESH_TRUTH)
  {}

  /** App-key continuity over every run, from any point of it. */
  lemma {:induction false} RunKeeps(g: Cipher, appId: string, keys: set<bytes>, w: World, t: Truth, events: seq<Event>)
    requires KeySeparated(g, keys) && WorldInv(g, appId, keys, w, t)
    requires forall i | 0 <= i < |events| :: EventKeysIn(events[i], keys)
    ensures var (w', t') := Run(g, appId, w, t, events);
            && WorldInv(g, appId, keys, w', t')
            && (t.appKey.Some? ==> t'.appKey == t.appKey)
            && (t.recoveryKey.Some? ==> t'.recoveryKey == t.recoveryKey)
    decreases |events|
  {
    if events != [] {
      ApplyKeeps(g, appId, keys, w, t, events[0]);
      var (w', t') := Apply(g, appId, w, t, events[0]);
      RunKeeps(g, appId, keys, w', t', events[1..]);
    }
  }

  // ----- what the user gets -------------------------------------------------

  /** The device's store holds the root key that wraps the app key. */
  ghost predicate CanUnlock(g: Cipher, appId: string, d: Disk, t: Truth, root: Option<bytes>) {
    && t.appKey.Some? && d.appKey.Some? && root.Some? && |root.value| == Envelope.KEY_BYTES
    && Sealed(g, d.appKey.value, t.appKey.value, root.value, AppKey(appId))
  }

  /** There, every live secret reads back as the value last set. */
  lemma LiveSecretReads(g: Cipher, appId: string, keys: set<bytes>, l: Local, t: Truth, name: string, ch: Chance)
    requires Inv(g, appId, keys, l.disk, t) && CanUnlock(g, appId, l.disk, t, l.root)
    requires ch.store.Reliable? && ValidName(name)
    ensures GetSecret(g, appId, l, name, ch) == Step(l, Ok(if name in t.values then Some(t.values[name]) else None))
  {
    hide EncryptEnvelope, DecryptEnvelope, Same, Context;
    var f := LoadSecrets(l.disk).value;
    assert SecretHeld(g, appId, f, t, name);
    LookupMissing(f, name);
    SealedOpens(g, l.disk.appKey.value, t.appKey.value, l.root.value, AppKey(appId));
    if name in t.values {
      SealedOpens(g, Lookup(f, name).value, Utf8Encode(t.values[name]), t.appKey.value, AppSecret(appId, name));
      Utf8RoundTrip(t.values[name]);
    }
  }

  /** A device that can open the app key, or may create the first one. */
  ghost predicate CanWork(g: Cipher, appId: string, l: Local, t: Truth) {
    if t.appKey.Some? then CanUnlock(g, appId, l.disk, t, l.root)
    else l.root.Some? ==> |l.root.value| == Envelope.KEY_BYTES
  }

  predicate NoFaults(ch: Chance) {
    ch.store.Reliable? && ch.secondStore.Reliable? && ch.keyWrite && ch.fileWrite
  }

  /** There, without faults, the app key is found or created, and stays usable. */
  lemma AppKeyWorks(g: Cipher, appId: string, keys: set<bytes>, l: Local, t: Truth, ch: Chance)
    requires Inv(g, appId, keys, l.disk, t) && CanWork(g, appId, l, t) && NoFaults(ch)
    ensures var s := GetOrCreateAppKey(g, appId, l, ch);
            && s.result.Ok? && |s.result.value| == Envelope.KEY_BYTES
            && CanUnlock(g, appId, s.local.disk, TruthAfterKey(t, s.local.disk, ch), s.local.root)
  {
    hide EncryptEnvelope, DecryptEnvelope, Same, Context, IsValue;
    if t.appKey.Some? {
      SealedOpens(g, l.disk.appKey.value, t.appKey.value, l.root.value, AppKey(appId));
    } else {
      var s := GetOrCreateAppKey(g, appId, l, ch);
      FreshIsSealed(g, ch.appKey, s.local.root.value, AppKey(appId), ch.keyDraw);
    }
  }

  /** Setting a valid, non-empty secret works, and reading it back there gives
      the value that was set. */
  lemma SetThenGet(g: Cipher, appId: string, keys: set<bytes>, l: Local, t: Truth, name: string, value: string,
                   ch: Chance, ch2: Chance)
    requires KeySeparated(g, keys) && Inv(g, appId, keys, l.disk, t) && RootIn(l.root, keys) && DrawsIn(ch, keys)
    requires CanWork(g, appId, l, t) && NoFaults(ch) && ch2.store.Reliable?
    ensures var s := SetSecret(g, appId, l, name, value, ch);
            && (s.result.Ok? <==> IsVariableName(name) && value != [])
            && (s.result.Ok? ==> GetSecret(g, appId, s.local, name, ch2) == Step(s.local, Ok(Some(value))))
  {
    hide EncryptEnvelope, DecryptEnvelope, Same, Context, GetOrCreateAppKey, GetSecret;
    hide CanWork, CanUnlock, ValidName, IsVariableName, Inv, KeySeparated;
    NamesExactly(name);
    var s := SetSecret(g, appId, l, name, value, ch);
    if ValidName(name) && value != [] {
      AppKeyWorks(g, appId, keys, l, t, ch);
      var k := GetOrCreateAppKey(g, appId, l, ch);
      var t' := TruthAfterKey(t, k.local.disk, ch);
      AppKeyKeeps(g, appId, keys, l, t, ch);
      SecretsLoad(g, appId, keys, k.local.disk, t');
      SetFollowsKey(g, appId, l, name, value, ch);
      SetSecretKeeps(g, appId, keys, l, t, name, value, ch);
      SameAppKey(g, appId, k.local.disk, s.local.disk, t', t'.(values := t'.values[name := value]), k.local.root);
      LiveSecretReads(g, appId, keys, s.local, t'.(values := t'.values[name := value]), name, ch2);
    }
  }

  /** What SetSecret does once the app key is there. */
  lemma SetFollowsKey(g: Cipher, appId: string, l: Local, name: string, value: string, ch: Chance)
    requires ValidName(name) && value != [] && ch.fileWrite
    requires var k := GetOrCreateAppKey(g, appId, l, ch);
             k.result.Ok? && |k.result.value| == Envelope.KEY_BYTES && LoadSecrets(k.local.disk).Ok?
    ensures var s := SetSecret(g, appId, l, name, value, ch);
            var k := GetOrCreateAppKey(g, appId, l, ch);
            && s.result.Ok? && s.local.root == k.local.root
            && s.local.disk.appKey == k.local.disk.appKey && s.local.disk.recovery == k.local.disk.recovery
  {
    hide Canon, Put, Context, ValidName, GetOrCreateAppKey;
  }

  lemma SecretsLoad(g: Cipher, appId: string, keys: set<bytes>, d: Disk, t: Truth)
    requires Inv(g, appId, keys, d, t)
    ensures LoadSecrets(d).Ok?
  {}

  lemma SameAppKey(g: Cipher, appId: string, d: Disk, d': Disk, t: Truth, t': Truth, root: Option<bytes>)
    requires CanUnlock(g, appId, d, t, root) && d'.appKey == d.appKey && t'.appKey == t.appKey
    ensures CanUnlock(g, appId, d', t', root)
  {}

  /** Without faults, a first recovery key is issued, in its text form, and a
      second is refused. */
  lemma RecoveryIsIssuedOnce(g: Cipher, appId: string, keys: set<bytes>, l: Local, t: Truth, ch: Chance)
    requires Inv(g, appId, keys, l.disk, t) && CanWork(g, appId, l, t) && NoFaults(ch)
    ensures CreateRecovery(g, appId, l, ch).result
            == if t.recoveryKey.Some? then Err(AlreadyConfigured)
               else Ok(RecoveryText.EncodeRecoveryKey(ch.recoveryKey).value)
  {
    hide EncryptEnvelope, DecryptEnvelope, Same, Context, GetOrCreateAppKey, CanWork, SecretsHeld, AppKeyHeld;
    AppKeyWorks(g, appId, keys, l, t, ch);
  }

  /** Without faults, deleting reports whether the secret was live, and it is
      gone afterwards. */
  lemma DeleteWorks(g: Cipher, appId: string, keys: set<bytes>, l: Local, t: Truth, name: string, ch: Chance)
    requires Inv(g, appId, keys, l.disk, t) && ValidName(name) && ch.fileWrite
    ensures DeleteSecret(l, name, ch).result == Ok(name in t.values)
    ensures forall ch2 :: GetSecret(g, appId, DeleteSecret(l, name, ch).local, name, ch2).result == Ok(None)
  {
    hide EncryptEnvelope, DecryptEnvelope, Same, Context, Sealed, GetOrCreateAppKey;
    DeleteSecretKeeps(g, appId, keys, l, t, name, ch);
    var s := DeleteSecret(l, name, ch);
    var t' := if s.result == Ok(true) then t.(values := t.values - {name}) else t;
    assert SecretHeld(g, appId, LoadSecrets(l.disk).value, t, name);
    assert SecretHeld(g, appId, LoadSecrets(s.local.disk).value, t', name);
    LookupMissing(LoadSecrets(s.local.disk).value, name);
  }

  /** Only valid names are ever set. */
  ghost predicate NamesValid(t: Truth) {
    forall name | name in t.values :: IsVariableName(name)
  }

  lemma {:induction false} RunNamesValid(g: Cipher, appId: string, w: World, t: Truth, events: seq<Event>)
    requires NamesValid(t)
    ensures NamesValid(Run(g, appId, w, t, events).1)
    decreases |events|
  {
    hide EncryptEnvelope, DecryptEnvelope, GetOrCreateAppKey, Recover, Canon, Put, IsVariableName;
    if events != [] {
      var (w', t') := Apply(g, appId, w, t, events[0]);
      var l := Local(w.disk, RootOf(w, events[0].device));
      if events[0].op.Set? { SetNeedsValidName(g, appId, l, events[0]); }
      RunNamesValid(g, appId, w', t', events[1..]);
    }
  }

  lemma SetNeedsValidName(g: Cipher, appId: string, l: Local, e: Event)
    requires e.op.Set?
    ensures SetSecret(g, appId, l, e.op.name, e.op.value, e.chance).result.Ok? ==> IsVariableName(e.op.name)
  {
    hide EncryptEnvelope, GetOrCreateAppKey, Canon, Put, ValidName, IsVariableName;
    NamesExactly(e.op.name);
  }

  /** The last values of those of the names that are live. */
  function Live(t: Truth, names: seq<string>): map<string, string> {
    map name | name in t.values && name in names :: t.values[name]
  }

  lemma LiveNone(t: Truth)
    ensures Live(t, []) == map[]
  {}

  lemma LiveOneMore(t: Truth, names: seq<string>, name: string)
    ensures Live(t, names + [name])
            == if name in t.values then Live(t, names)[name := t.values[name]] else Live(t, names)
  {}

  lemma LiveAll(t: Truth, names: seq<string>)
    requires forall name | name in t.values :: name in names
    ensures Live(t, names) == t.values
  {}

  /** And all of them at once: get_all_secrets returns exactly the live names
      with their last values. */
  lemma AllSecretsRead(g: Cipher, appId: string, keys: set<bytes>, l: Local, t: Truth, names: seq<string>, ch: Chance)
    requires Inv(g, appId, keys, l.disk, t) && CanUnlock(g, appId, l.disk, t, l.root) && ch.store.Reliable?
             && NamesValid(t)
    requires forall name :: name in names <==> HasKey(LoadSecrets(l.disk).value, name)
    ensures GetAllSecrets(g, appId, l, names, ch) == Step(l, Ok(t.values))
  {
    hide GetAllSecrets, CanUnlock, Live;
    forall name | name in t.values ensures name in names {
      assert SecretHeld(g, appId, LoadSecrets(l.disk).value, t, name);
    }
    ListedSecretsRead(g, appId, keys, l, t, names, ch);
    LiveAll(t, names);
  }

  lemma {:induction false} ListedSecretsRead(g: Cipher, appId: string, keys: set<bytes>, l: Local, t: Truth,
                                             names: seq<string>, ch: Chance)
    requires Inv(g, appId, keys, l.disk, t) && CanUnlock(g, appId, l.disk, t, l.root) && ch.store.Reliable?
             && NamesValid(t)
    requires forall name | name in names :: HasKey(LoadSecrets(l.disk).value, name)
    ensures GetAllSecrets(g, appId, l, names, ch) == Step(l, Ok(Live(t, names)))
    decreases |names|
  {
    hide GetSecret, ValidName, IsVariableName, CanUnlock, AppKeyHeld, RecoveryHeld, Live;
    if names == [] {
      assert Live(t, names) == map[] by { LiveNone(t); }
    } else {
      var n := |names| - 1;
      assert names == names[..n] + [names[n]];
      LiveOneMore(t, names[..n], names[n]);
      ListedSecretsRead(g, appId, keys, l, t, names[..n], ch);
      assert SecretHeld(g, appId, LoadSecrets(l.disk).value, t, names[n]);
      NamesExactly(names[n]);
      LiveSecretReads(g, appId, keys, l, t, names[n], ch);
    }
  }

  /** An issued recovery key, pasted with any surrounding whitespace, gives any
      device with a working key store access again. */
  lemma RecoveryKeyWorks(g: Cipher, appId: string, keys: set<bytes>, l: Local, t: Truth, before: string, after: string,
                         ch: Chance)
    requires Inv(g, appId, keys, l.disk, t) && t.recoveryKey.Some?
    requires l.root.Some? ==> |l.root.value| == Envelope.KEY_BYTES
    requires ch.store.Reliable? && ch.keyWrite && RecoveryText.AllSpace(before) && RecoveryText.AllSpace(after)
    ensures var text := before + RecoveryText.EncodeRecoveryKey(t.recoveryKey.value).value + after;
            var s := Recover(g, appId, l, text, ch);
            s.result == Ok(()) && CanUnlock(g, appId, s.local.disk, t, s.local.root)
  {
    hide EncryptEnvelope, DecryptEnvelope, Same, Context;
    var text := before + RecoveryText.EncodeRecoveryKey(t.recoveryKey.value).value + after;
    RecoveryText.RecoveryKeyRoundTrip(t.recoveryKey.value, before, after);
    var k := t.appKey.value;
    var e :| l.disk.recovery == Some(RecoveryPayload(appId, e))
             && Sealed(g, e, k, t.recoveryKey.value, RecoveryAppKey(appId));
    PayloadFields(appId, e);
    SealedOpens(g, e, k, t.recoveryKey.value, RecoveryAppKey(appId));
    var s := Recover(g, appId, l, text, ch);
    assert s == Wrap(g, appId, l, k, ch.store, ch);
    FreshIsSealed(g, k, s.local.root.value, AppKey(appId), ch.keyDraw);
  }

  /** Any run from a new project, then recovery on any device, then a read
      there: the value is the last one set. */
  lemma RecoveredSecretReads(g: Cipher, appId: string, keys: set<bytes>, roots: map<Device, bytes>, events: seq<Event>,
                             device: Device, before: string, after: string, name: string, ch: Chance, ch2: Chance)
    requires KeySeparated(g, keys) && (forall d | d in roots :: roots[d] in keys)
    requires forall i | 0 <= i < |events| :: EventKeysIn(events[i], keys)
    requires DrawsIn(ch, keys) && ch.store.Reliable? && ch.keyWrite && ch2.store.Reliable?
    requires RecoveryText.AllSpace(before) && RecoveryText.AllSpace(after) && ValidName(name)
    requires var (w, t) := Run(g, appId, World(FRESH_DISK, roots), FRESH_TRUTH, events);
             t.recoveryKey.Some? && (RootOf(w, device).Some? ==> |RootOf(w, device).value| == Envelope.KEY_BYTES)
    ensures var (w, t) := Run(g, appId, World(FRESH_DISK, roots), FRESH_TRUTH, events);
            var s := Recover(g, appId, Local(w.disk, RootOf(w, device)),
                             before + RecoveryText.EncodeRecoveryKey(t.recoveryKey.value).value + after, ch);
            && s.result.Ok?
            && GetSecret(g, appId, s.local, name, ch2).result
               == Ok(if name in t.values then Some(t.values[name]) else None)
  {
    FreshInv(g, appId, keys, roots);
    RunKeeps(g, appId, keys, World(FRESH_DISK, roots), FRESH_TRUTH, events);
    var (w, t) := Run(g, appId, World(FRESH_DISK, roots), FRESH_TRUTH, events);
    var l := Local(w.disk, RootOf(w, device));
    var text := before + RecoveryText.EncodeRecoveryKey(t.recoveryKey.value).value + after;
    RecoveryText.RecoveryKeyRoundTrip(t.recoveryKey.value, before, after);
    RecoveryKeyWorks(g, appId, keys, l, t, before, after, ch);
    RecoverKeeps(g, appId, keys, l, t, text, ch);
    LiveSecretReads(g, appId, keys, Recover(g, appId, l, text, ch).local, t, name, ch2);
  }
}
