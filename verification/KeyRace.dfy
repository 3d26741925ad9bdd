/** get_or_create_app_key without a lock (minit/app_keys.py): one process looks
    for app-key.json and creates it later, and other operations can come in
    between. App-key continuity still holds over every such run until an
    existing key is written over; when that can happen, and what it costs. */
module KeyRace {
  import opened Results
  import opened Bytes
  import opened CanonicalJson
  import opened Gcm
  import opened Envelope
  import opened KeyHierarchy
  import opened KeyContinuity

  /** A call that found no app-key.json and is about to create it. */
  datatype Call = Call(device: Device, chance: Chance)

  /** `replaced` remembers whether an app key was written over. */
  datatype Race = Race(world: World, truth: Truth, waiting: seq<Call>, replaced: bool)

  /** Look and Create are the two halves of a call that creates the key; Whole
      is any operation nothing comes in between of. */
  datatype Move = Look(call: Call) | Create(i: nat) | Whole(event: Event)

  function LocalOf(w: World, d: Device): Local {
    Local(w.disk, RootOf(w, d))
  }

  function Creates(g: Cipher, appId: string, w: World, c: Call): Step<()> {
    Wrap(g, appId, LocalOf(w, c.device), c.chance.appKey, c.chance.secondStore, c.chance)
  }

  function MoveOn(g: Cipher, appId: string, s: Race, m: Move): Option<Race> {
    match m
    case Look(c) =>
      var l := LocalOf(s.world, c.device);
      var (root, key) := RootKey(l.root, c.chance.store, c.chance.rootKey);
      if key.Err? || l.disk.appKey.Some? then None
      else Some(s.(world := WithLocal(s.world, c.device, l.(root := root)), waiting := s.waiting + [c]))
    case Create(i) =>
      if i >= |s.waiting| then None
      else
        var c := s.waiting[i];
        var step := Creates(g, appId, s.world, c);
        var left := s.(world := WithLocal(s.world, c.device, step.local),
                       waiting := s.waiting[..i] + s.waiting[i + 1..]);
        if step.result.Err? then Some(left)
        else if s.world.disk.appKey.Some? then Some(left.(replaced := true))
        else Some(left.(truth := TruthAfterKey(s.truth, step.local.disk, c.chance)))
    case Whole(e) =>
      var (w, t) := Apply(g, appId, s.world, s.truth, e);
      Some(s.(world := w, truth := t))
  }

  function MoveRun(g: Cipher, appId: string, s: Race, moves: seq<Move>): Option<Race>
    decreases |moves|
  {
    if moves == [] then Some(s)
    else
      var next :- MoveOn(g, appId, s, moves[0]);
      MoveRun(g, appId, next, moves[1..])
  }

  // ----- continuity until the key is replaced -------------------------------

  ghost predicate CallIn(c: Call, keys: set<bytes>) {
    DrawsIn(c.chance, keys) && c.chance.appKey in keys
  }

  ghost predicate MoveIn(m: Move, keys: set<bytes>) {
    match m
    case Look(c) => CallIn(c, keys)
    case Create(_) => true
    case Whole(e) => EventKeysIn(e, keys)
  }

  ghost predicate RaceInv(g: Cipher, appId: string, keys: set<bytes>, s: Race) {
    && (!s.replaced ==> WorldInv(g, appId, keys, s.world, s.truth))
    && forall i | 0 <= i < |s.waiting| :: CallIn(s.waiting[i], keys)
  }

  /** Creating where there is no file is what an uninterrupted call does. */
  lemma CreateIsCall(g: Cipher, appId: string, l: Local, ch: Chance)
    requires l.disk.appKey.None?
    ensures var whole := GetOrCreateAppKey(g, appId, l, ch.(store := ch.secondStore));
            var half := Wrap(g, appId, l, ch.appKey, ch.secondStore, ch);
            whole.local == half.local && (whole.result.Ok? <==> half.result.Ok?)
            && (half.result.Ok? ==> half.local.disk.appKey.Some?)
  {
    hide EncryptEnvelope, Context;
  }

  lemma CreateKeeps(g: Cipher, appId: string, keys: set<bytes>, s: Race, i: nat)
    requires KeySeparated(g, keys) && RaceInv(g, appId, keys, s) && i < |s.waiting|
    ensures RaceInv(g, appId, keys, MoveOn(g, appId, s, Create(i)).value)
  {
    hide Inv, EncryptEnvelope, Context, GetOrCreateAppKey, Wrap, KeySeparated;
    var c := s.waiting[i];
    var l := LocalOf(s.world, c.device);
    if !s.replaced {
      if l.disk.appKey.None? {
        NoKeyYet(g, appId, keys, l.disk, s.truth);
        CreateIsCall(g, appId, l, c.chance);
        AppKeyKeeps(g, appId, keys, l, s.truth, c.chance.(store := c.chance.secondStore));
      } else if Creates(g, appId, s.world, c).result.Err? {
        FailedWrap(g, appId, l, c.chance);
      }
    }
  }

  lemma NoKeyYet(g: Cipher, appId: string, keys: set<bytes>, d: Disk, t: Truth)
    requires Inv(g, appId, keys, d, t)
    ensures d.appKey.None? <==> t.appKey.None?
  {}

  lemma FailedWrap(g: Cipher, appId: string, l: Local, ch: Chance)
    requires Wrap(g, appId, l, ch.appKey, ch.secondStore, ch).result.Err?
    ensures var l' := Wrap(g, appId, l, ch.appKey, ch.secondStore, ch).local;
            l'.disk == l.disk && l'.root == RootKey(l.root, ch.secondStore, ch.rootKey).0
  {
    hide EncryptEnvelope, Context;
  }

  /** What a call leaves of the files and the recorded keys when nothing was
      written over. */
  lemma MoveKeeps(g: Cipher, appId: string, keys: set<bytes>, s: Race, m: Move)
    requires KeySeparated(g, keys) && RaceInv(g, appId, keys, s) && MoveIn(m, keys) && MoveOn(g, appId, s, m).Some?
    ensures var s' := MoveOn(g, appId, s, m).value;
            && RaceInv(g, appId, keys, s') && (s.replaced ==> s'.replaced)
            && (s.truth.appKey.Some? && !s'.replaced ==> s'.truth.appKey == s.truth.appKey)
  {
    hide Inv, Wrap, Apply, KeySeparated;
    match m
    case Look(_) =>
    case Create(i) =>
      CreateKeeps(g, appId, keys, s, i);
      if !s.replaced { NoKeyYet(g, appId, keys, s.world.disk, s.truth); }
    case Whole(e) =>
      if !s.replaced { ApplyKeeps(g, appId, keys, s.world, s.truth, e); }
  }

  /** App-key continuity over every run of interleaved calls: until an existing
      key is written over, the files agree with the truth and no key changes. */
  lemma {:induction false} RaceRunKeeps(g: Cipher, appId: string, keys: set<bytes>, s: Race, moves: seq<Move>)
    requires KeySeparated(g, keys) && RaceInv(g, appId, keys, s)
    requires (forall i | 0 <= i < |moves| :: MoveIn(moves[i], keys)) && MoveRun(g, appId, s, moves).Some?
    ensures var s' := MoveRun(g, appId, s, moves).value;
            && RaceInv(g, appId, keys, s') && (s.replaced ==> s'.replaced)
            && (s.truth.appKey.Some? && !s'.replaced ==> s'.truth.appKey == s.truth.appKey)
    decreases |moves|
  {
    hide MoveOn, RaceInv, KeySeparated;
    if moves != [] {
      MoveKeeps(g, appId, keys, s, moves[0]);
      assert forall i | 0 <= i < |moves| - 1 :: moves[1..][i] == moves[i + 1];
      RaceRunKeeps(g, appId, keys, MoveOn(g, appId, s, moves[0]).value, moves[1..]);
    }
  }

  // ----- when a key can be replaced -----------------------------------------

  /** The write of this call works, and so do its reads of the key store. */
  predicate CanWrite(c: Call) {
    c.chance.keyWrite && !c.chance.secondStore.ReadFails?
  }

  predicate SomeCanWrite(s: Race) {
    exists i :: 0 <= i < |s.waiting| && CanWrite(s.waiting[i])
  }

  ghost predicate CanBeReplaced(g: Cipher, appId: string, s: Race) {
    exists moves :: MoveRun(g, appId, s, moves).Some? && MoveRun(g, appId, s, moves).value.replaced
  }

  /** Once the file exists it stays, so no further call comes to create it. */
  lemma MoveStays(g: Cipher, appId: string, s: Race, m: Move)
    requires s.world.disk.appKey.Some? && MoveOn(g, appId, s, m).Some?
    ensures var s' := MoveOn(g, appId, s, m).value;
            && s'.world.disk.appKey.Some? && (!SomeCanWrite(s) ==> !SomeCanWrite(s') && s'.replaced == s.replaced)
  {
    hide EncryptEnvelope, DecryptEnvelope, Context, Same, Apply;
    match m
    case Look(_) =>
    case Create(i) =>
    case Whole(e) => ApplyStays(g, appId, s.world, s.truth, e);
  }

  lemma ApplyStays(g: Cipher, appId: string, w: World, t: Truth, e: Event)
    requires w.disk.appKey.Some?
    ensures Apply(g, appId, w, t, e).0.disk.appKey.Some?
  {
    hide EncryptEnvelope, DecryptEnvelope, Context, Same;
  }

  lemma {:induction false} NeverReplaced(g: Cipher, appId: string, s: Race, moves: seq<Move>)
    requires s.world.disk.appKey.Some? && !SomeCanWrite(s) && MoveRun(g, appId, s, moves).Some?
    ensures MoveRun(g, appId, s, moves).value.replaced == s.replaced
    decreases |moves|
  {
    hide MoveOn, SomeCanWrite;
    if moves != [] {
      MoveStays(g, appId, s, moves[0]);
      NeverReplaced(g, appId, MoveOn(g, appId, s, moves[0]).value, moves[1..]);
    }
  }

  lemma CreateReplaces(g: Cipher, appId: string, s: Race, i: nat)
    requires s.world.disk.appKey.Some? && i < |s.waiting| && CanWrite(s.waiting[i])
    requires RootOf(s.world, s.waiting[i].device).Some?
             && |RootOf(s.world, s.waiting[i].device).value| == Envelope.KEY_BYTES
    ensures Creates(g, appId, s.world, s.waiting[i]).result.Ok?
    ensures MoveOn(g, appId, s, Create(i)).Some? && MoveOn(g, appId, s, Create(i)).value.replaced
  {
    hide EncryptEnvelope, Context;
  }

  /** An existing app key can be written over exactly when some call that found
      no file is still to write it and its write works. */
  lemma KeyReplacedExactly(g: Cipher, appId: string, s: Race)
    requires s.world.disk.appKey.Some? && !s.replaced
    ensures CanBeReplaced(g, appId, s) <==> SomeCanWrite(s)
  {
    hide MoveOn;
    if SomeCanWrite(s) {
      var i :| 0 <= i < |s.waiting| && CanWrite(s.waiting[i]);
      var c := s.waiting[i];
      var back := Whole(Event(c.device, StoreReplaced(Some(c.chance.rootKey)), c.chance));
      var s' := StoreBack(g, appId, s, c);
      CreateReplaces(g, appId, s', i);
      assert [back, Create(i)][1..] == [Create(i)];
      assert MoveRun(g, appId, s', [Create(i)]) == MoveOn(g, appId, s', Create(i));
      assert MoveRun(g, appId, s, [back, Create(i)]).Some?;
    } else {
      forall moves | MoveRun(g, appId, s, moves).Some? ensures !MoveRun(g, appId, s, moves).value.replaced {
        NeverReplaced(g, appId, s, moves);
      }
    }
  }

  lemma StoreBack(g: Cipher, appId: string, s: Race, c: Call) returns (s': Race)
    ensures MoveOn(g, appId, s, Whole(Event(c.device, StoreReplaced(Some(c.chance.rootKey)), c.chance))) == Some(s')
    ensures s'.world.disk == s.world.disk && s'.waiting == s.waiting && s'.replaced == s.replaced
    ensures RootOf(s'.world, c.device) == Some(c.chance.rootKey)
  {
    s' := MoveOn(g, appId, s, Whole(Event(c.device, StoreReplaced(Some(c.chance.rootKey)), c.chance))).value;
  }

  // ----- what it costs ------------------------------------------------------

  /** With another app key in the file, no secret set before can be read again,
      on any device and whatever the stores do. */
  lemma ReplacedLosesSecrets(g: Cipher, appId: string, keys: set<bytes>, l: Local, t: Truth, ch: Chance, name: string,
                             l2: Local, ch2: Chance)
    requires KeySeparated(g, keys) && Inv(g, appId, keys, l.disk, t) && name in t.values && ValidName(name)
    requires RootIn(l.root, keys) && DrawsIn(ch, keys) && ch.appKey in keys
    requires t.appKey.Some? && t.appKey.value in keys && ch.appKey != t.appKey.value
    requires Wrap(g, appId, l, ch.appKey, ch.secondStore, ch).result.Ok?
    requires l2.disk == Wrap(g, appId, l, ch.appKey, ch.secondStore, ch).local.disk
    requires RootIn(l2.root, keys) && DrawsIn(ch2, keys)
    ensures GetSecret(g, appId, l2, name, ch2).result.Err?
  {
    hide EncryptEnvelope, DecryptEnvelope, Context, Same, KeySeparated;
    var f := LoadSecrets(l2.disk).value;
    assert SecretHeld(g, appId, f, t, name);
    var e := Lookup(f, name).value;
    SealedOpens(g, e, Utf8Encode(t.values[name]), t.appKey.value, AppSecret(appId, name));
    SealedRefuses(g, keys, e, Utf8Encode(t.values[name]), t.appKey.value, AppSecret(appId, name), ch.appKey);
    var r := RootKey(l.root, ch.secondStore, ch.rootKey).1.value;
    FreshIsSealed(g, ch.appKey, r, AppKey(appId), ch.keyDraw);
    OnlyThatKey(g, appId, keys, l2, ch.appKey, r, ch2);
  }

  /** The file gives the key it holds or none. */
  lemma OnlyThatKey(g: Cipher, appId: string, keys: set<bytes>, l: Local, appKey: Key, r: Key, ch: Chance)
    requires KeySeparated(g, keys) && r in keys && RootIn(l.root, keys) && DrawsIn(ch, keys)
    requires l.disk.appKey.Some? && Sealed(g, l.disk.appKey.value, appKey, r, AppKey(appId))
    ensures var s := GetOrCreateAppKey(g, appId, l, ch);
            s.result.Err? || s.result == Ok(appKey)
  {
    hide EncryptEnvelope, DecryptEnvelope, Context, Same, KeySeparated;
    SealedOpens(g, l.disk.appKey.value, appKey, r, AppKey(appId));
    var key := RootKey(l.root, ch.store, ch.rootKey).1;
    if key.Ok? && key.value != r {
      SealedRefuses(g, keys, l.disk.appKey.value, appKey, r, AppKey(appId), key.value);
    }
  }

  /** Two first uses of a project at once, on one device or on two: one call finds
      no key, the other sets a secret, the first writes its own key, and the
      secret is lost for every reader. */
  lemma SecretLost(g: Cipher, appId: string, keys: set<bytes>, late: Call, first: Call, root: Key, name: string,
                   value: string)
    returns (s: Race)
    requires KeySeparated(g, keys) && CallIn(late, keys) && CallIn(first, keys) && root in keys
    requires first.chance.recoveryKey in keys && late.chance.appKey != first.chance.appKey
    requires NoFaults(late.chance) && NoFaults(first.chance) && ValidName(name) && value != []
    ensures var roots := map[late.device := root, first.device := root];
            var moves := [Look(late), Whole(Event(first.device, Set(name, value), first.chance)), Create(0)];
            MoveRun(g, appId, Race(World(FRESH_DISK, roots), FRESH_TRUTH, [], false), moves) == Some(s)
    ensures s.replaced && s.truth.values == map[name := value]
    ensures forall d: Device, ch :: DrawsIn(ch, keys) && RootIn(RootOf(s.world, d), keys) ==>
              GetSecret(g, appId, LocalOf(s.world, d), name, ch).result.Err?
  {
    hide MoveOn, GetSecret, Inv, KeySeparated;
    var roots := map[late.device := root, first.device := root];
    var s0 := Race(World(FRESH_DISK, roots), FRESH_TRUTH, [], false);
    var set1 := Whole(Event(first.device, Set(name, value), first.chance));
    LookWaits(g, appId, s0, late, root);
    assert [] + [late] == [late];
    var s1 := s0.(waiting := [late]);
    var s2 := FirstSets(g, appId, keys, s1, first, root, name, value);
    LateCreates(g, appId, keys, s2, late, name);
    s := MoveOn(g, appId, s2, Create(0)).value;
    assert [Look(late), set1, Create(0)][1..] == [set1, Create(0)] && [set1, Create(0)][1..] == [Create(0)];
    assert MoveRun(g, appId, s2, [Create(0)]) == MoveOn(g, appId, s2, Create(0));
    assert MoveRun(g, appId, s1, [set1, Create(0)]) == MoveRun(g, appId, s2, [Create(0)]);
  }

  lemma LookWaits(g: Cipher, appId: string, s: Race, c: Call, root: Key)
    requires s.world.disk.appKey.None? && RootOf(s.world, c.device) == Some(root) && c.chance.store.Reliable?
    ensures MoveOn(g, appId, s, Look(c)) == Some(s.(waiting := s.waiting + [c]))
  {
    assert s.world.roots[c.device := root] == s.world.roots;
  }

  lemma FirstSets(g: Cipher, appId: string, keys: set<bytes>, s: Race, c: Call, root: Key, name: string, value: string)
    returns (s': Race)
    requires KeySeparated(g, keys) && CallIn(c, keys) && c.chance.recoveryKey in keys && root in keys
    requires s.world.disk == FRESH_DISK && s.truth == FRESH_TRUTH && !s.replaced
    requires RootOf(s.world, c.device) == Some(root) && (forall d | d in s.world.roots :: s.world.roots[d] == root)
    requires NoFaults(c.chance) && ValidName(name) && value != []
    ensures MoveOn(g, appId, s, Whole(Event(c.device, Set(name, value), c.chance))) == Some(s')
    ensures s'.waiting == s.waiting && !s'.replaced && s'.world.roots == s.world.roots
    ensures WorldInv(g, appId, keys, s'.world, s'.truth)
    ensures s'.truth.appKey == Some(c.chance.appKey) && s'.truth.values == map[name := value]
  {
    hide Inv, KeySeparated, GetSecret, EncryptEnvelope, DecryptEnvelope, Context, Same, ValidName, IsVariableName;
    var l := LocalOf(s.world, c.device);
    NamesExactly(name);
    FreshInv(g, appId, keys, s.world.roots);
    SetThenGet(g, appId, keys, l, s.truth, name, value, c.chance, c.chance);
    var e := Event(c.device, Set(name, value), c.chance);
    ApplyKeeps(g, appId, keys, s.world, s.truth, e);
    s' := MoveOn(g, appId, s, Whole(e)).value;
    assert s.world.roots[c.device := root] == s.world.roots;
  }

  lemma LateCreates(g: Cipher, appId: string, keys: set<bytes>, s: Race, late: Call, name: string)
    requires KeySeparated(g, keys) && WorldInv(g, appId, keys, s.world, s.truth) && s.waiting == [late]
    requires s.truth.appKey.Some? && s.truth.appKey.value in keys && name in s.truth.values && ValidName(name)
    requires CallIn(late, keys) && late.chance.appKey != s.truth.appKey.value && NoFaults(late.chance)
    requires RootOf(s.world, late.device).Some? && |RootOf(s.world, late.device).value| == Envelope.KEY_BYTES
    ensures var r := MoveOn(g, appId, s, Create(0));
            && r.Some? && r.value.replaced && r.value.truth == s.truth
            && forall d: Device, ch :: DrawsIn(ch, keys) && RootIn(RootOf(r.value.world, d), keys) ==>
                 GetSecret(g, appId, LocalOf(r.value.world, d), name, ch).result.Err?
  {
    hide Inv, KeySeparated, GetSecret, Wrap;
    NoKeyYet(g, appId, keys, s.world.disk, s.truth);
    CreateReplaces(g, appId, s, 0);
    var w := MoveOn(g, appId, s, Create(0)).value.world;
    forall d: Device, ch | DrawsIn(ch, keys) && RootIn(RootOf(w, d), keys)
      ensures GetSecret(g, appId, LocalOf(w, d), name, ch).result.Err? {
      ReplacedLosesSecrets(g, appId, keys, LocalOf(s.world, late.device), s.truth, late.chance, name, LocalOf(w, d),
                           ch);
    }
  }

  /** The two halves with nothing in between are the operation of KeyHierarchy. */
  lemma HalvesMakeOneCall(g: Cipher, appId: string, s: Race, c: Call)
    requires MoveOn(g, appId, s, Look(c)).Some?
    ensures var halves := MoveRun(g, appId, s, [Look(c), Create(|s.waiting|)]);
            && halves.Some? && halves.value.waiting == s.waiting && halves.value.replaced == s.replaced
            && Some(halves.value) == MoveOn(g, appId, s, Whole(Event(c.device, UseAppKey, c.chance)))
  {
    hide Wrap;
    var s1 := MoveOn(g, appId, s, Look(c)).value;
    var root := RootKey(RootOf(s.world, c.device), c.chance.store, c.chance.rootKey).0;
    assert LocalOf(s1.world, c.device) == LocalOf(s.world, c.device).(root := root);
    var step := Creates(g, appId, s1.world, c);
    assert GetOrCreateAppKey(g, appId, LocalOf(s.world, c.device), c.chance).local == step.local;
    assert WithLocal(s1.world, c.device, step.local) == WithLocal(s.world, c.device, step.local);
    if step.result.Err? { FailedWrap(g, appId, LocalOf(s1.world, c.device), c.chance); }
    assert [Look(c), Create(|s.waiting|)][1..] == [Create(|s.waiting|)];
    assert MoveRun(g, appId, s1, [Create(|s.waiting|)]) == MoveOn(g, appId, s1, Create(|s.waiting|));
    assert s1.waiting[..|s.waiting|] + s1.waiting[|s.waiting| + 1..] == s.waiting;
  }
}
