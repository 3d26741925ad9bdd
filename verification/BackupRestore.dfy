/** create_backup and restore_backup (minit/backups.py) on a project's data
    directory, with failures and crashes at every step. */
module BackupRestore {
  import opened Results
  import opened Bytes
  import opened Gcm
  import opened Envelope
  import opened BackupContainer
  import opened Trees
  import opened BackupStreams
  import opened MemberPaths

  /** .minit/data, the staging directory and data-before-restore-*; None where
      the directory does not exist. */
  datatype Slots = Slots(data: Option<Tree>, staging: Option<Tree>, parked: Option<Tree>)

  /** Which steps fail, and what best-effort removal leaves behind. `lastWrites`
      is the data directory as a running app leaves it when it stops, and
      `writeFailsAt` the number of members extracted before a write fails. */
  datatype Faults = Faults(
    running: bool, stopFails: bool, lastWrites: Option<Tree>, restartFails: bool,
    writeFailsAt: Option<nat>, parkFails: bool, swapFails: bool, undoFails: bool,
    parkedLeft: Option<Tree>, stagingLeft: Option<Tree>)

  /** The three directories at every moment of a restore: the data is the whole
      original, or it is absent while the parked copy is the whole original, or
      it is the whole backup. */
  predicate Atomic(orig: Option<Tree>, backup: Option<Tree>, s: Slots) {
    || s.data == orig
    || (s.data == None && orig.Some? && s.parked == orig)
    || (backup.Some? && s.data == backup)
  }

  // ----- the directory swap as a function -----------------------------------

  datatype Outcome = Outcome(slots: Slots, raised: bool)

  /** The try block of restore_backup once the service is stopped; `staged` is
      the extracted tree, None where the extraction raised. */
  function SwapOutcome(orig: Option<Tree>, staged: Option<Tree>, f: Faults): Outcome {
    if staged.None? || (orig.Some? && f.parkFails) then Outcome(Slots(orig, f.stagingLeft, None), true)
    else if f.swapFails then
      if orig.Some? && f.undoFails then Outcome(Slots(None, f.stagingLeft, orig), true)
      else Outcome(Slots(orig, f.stagingLeft, None), true)
    else Outcome(Slots(staged, f.stagingLeft, if orig.Some? then f.parkedLeft else None), f.running && f.restartFails)
  }

  predicate Swapped(orig: Option<Tree>, staged: Option<Tree>, f: Faults) {
    staged.Some? && !(orig.Some? && f.parkFails) && !f.swapFails
  }

  predicate UndoFailed(orig: Option<Tree>, staged: Option<Tree>, f: Faults) {
    staged.Some? && orig.Some? && !f.parkFails && f.swapFails && f.undoFails
  }

  /** A restore that raises leaves the original data in place exactly when the
      swap had not happened and no undo failed. The swap can have happened: the
      service is restarted after it, and that restart may be what raises. */
  lemma RaisedKeepsOriginal(orig: Option<Tree>, staged: Option<Tree>, f: Faults)
    requires SwapOutcome(orig, staged, f).raised && (staged.Some? ==> staged != orig)
    ensures SwapOutcome(orig, staged, f).slots.data == orig
            <==> !Swapped(orig, staged, f) && !UndoFailed(orig, staged, f)
    ensures Swapped(orig, staged, f) ==>
              f.running && f.restartFails && SwapOutcome(orig, staged, f).slots.data == staged
    ensures UndoFailed(orig, staged, f) ==> SwapOutcome(orig, staged, f).slots.parked == orig
  {}

  /** So "an error means the data is the original" is false of the code, even
      with a working undo: an app that will not start again is enough. */
  lemma FailedRestartAfterSwap() returns (orig: Option<Tree>, staged: Option<Tree>, f: Faults)
    ensures SwapOutcome(orig, staged, f).raised && !f.undoFails && SwapOutcome(orig, staged, f).slots.data != orig
  {
    orig, staged := Some(map[["state.db"] := File([1])]), Some(map[["state.db"] := File([2])]);
    f := Faults(true, false, orig, true, None, false, false, false, None, None);
    assert (map[["state.db"] := File([1])])[["state.db"]] != (map[["state.db"] := File([2])])[["state.db"]];
  }

  // ----- the project --------------------------------------------------------

  lemma ListingIsInTree(t: Tree, listing: seq<Path>)
    requires IsListing(t, listing)
    ensures forall p | p in listing :: p in t
  {}

  /** Writing a container and verifying it: the verification never fails on
      what was just written, and counts the files the writer counted. */
  method WriteVerified(g: Cipher, codec: Codec, appKey: Key, appId: string, backupId: string, d: BackupDraw,
                       tree: Tree, listing: seq<Path>)
    returns (r: Result<(bytes, nat), BackupError>)
    requires IsCodec(codec) && IsTree(tree) && IsListing(tree, listing)
    ensures r.Ok? ==> Container(g, appKey, appId, backupId, d, codec.pack(EntriesOf(tree, listing))) == Ok(r.value.0)
    ensures r.Ok? ==> Verifies(g, codec, r.value.0, appId, appKey, EntriesOf(tree, listing))
    ensures r.Ok? ==> r.value.1 == CountRegular(EntriesOf(tree, listing))
    ensures r.Err? ==> Container(g, appKey, appId, backupId, d, codec.pack(EntriesOf(tree, listing))).Err?
  {
    hide Verifies, OpenContainer, EntriesOf, ExtractAll, CountRegular, IsTree, IsCodec, BackupHeader;
    var written, fileCount := WriteBackupStream(g, codec, appKey, appId, backupId, d, tree, listing);
    if written.Err? { return Err(written.error); }
    BackupHoldsTree(g, codec, appKey, appId, backupId, d, tree, listing);
    var count, members := VerifyBackup(g, codec, written.value, appId, appKey);
    assert Verifies(g, codec, written.value, appId, appKey, EntriesOf(tree, listing));
    assert count == Ok(fileCount);
    r := Ok((written.value, fileCount));
  }

  /** A missing directory archives like an empty one. */
  function TreeOf(data: Option<Tree>): Tree {
    match data case None => map[] case Some(t) => t
  }

  datatype IndexEntry = IndexEntry(backupId: string, createdAt: string, ciphertextBytes: nat, fileCount: nat)

  class Project {
    const g: Cipher
    const codec: Codec
    const appId: string
    const appKey: Key
    var slots: Slots
    var backups: map<string, bytes>
    var index: seq<IndexEntry>
    ghost var trace: seq<Slots>

    constructor (g: Cipher, codec: Codec, appId: string, appKey: Key, data: Option<Tree>)
      ensures this.g == g && this.codec == codec && this.appId == appId && this.appKey == appKey
      ensures slots == Slots(data, None, None) && backups == map[] && index == [] && trace == []
    {
      this.g, this.codec, this.appId, this.appKey := g, codec, appId, appKey;
      slots, backups, index, trace := Slots(data, None, None), map[], [], [];
    }

    /** Every indexed backup is on disk, verifies, has the recorded size, and
        holds as many regular files as the index says. */
    ghost predicate IndexVerified()
      reads `backups, `index
    {
      forall i | 0 <= i < |index| ::
        && index[i].backupId in backups && |backups[index[i].backupId]| == index[i].ciphertextBytes
        && exists es :: Verifies(g, codec, backups[index[i].backupId], appId, appKey, es)
                        && CountRegular(es) == index[i].fileCount
    }

    /** create_backup of a stopped or running app, `tree` being the data once it
        has stopped and `listing` its sorted rglob: the container is written to a
        temporary file and renamed, verified, and only then indexed. */
    method CreateBackup(backupId: string, d: BackupDraw, tree: Tree, listing: seq<Path>, f: Faults,
                        writeFails: bool, indexFails: bool)
      returns (r: Result<IndexEntry, BackupError>)
      requires IsCodec(codec) && IsTree(tree) && IsListing(tree, listing)
      requires IndexVerified() && backupId !in backups
      requires tree == TreeOf(if f.running && !f.stopFails then f.lastWrites else slots.data)
      modifies this`slots, this`backups, this`index
      ensures IndexVerified()
      ensures slots.data == if f.running && !f.stopFails then f.lastWrites else Some(TreeOf(old(slots.data)))
      ensures slots == old(slots).(data := slots.data)
      ensures forall id | id in old(backups) :: id in backups && backups[id] == old(backups[id])
      ensures var file := Container(g, appKey, appId, backupId, d, codec.pack(EntriesOf(tree, listing)));
              && (r.Ok? <==> file.Ok? && !writeFails && !indexFails && !(f.running && (f.stopFails || f.restartFails)))
              && backups == (if (f.running && f.stopFails) || file.Err? || writeFails then old(backups)
                             else old(backups)[backupId := file.value])
              && index == (if backups == old(backups) || indexFails then old(index)
                           else old(index) + [IndexEntry(backupId, d.createdAt, |file.value|, |RegularFiles(tree)|)])
              && (r.Ok? ==> index == old(index) + [r.value])
    {
      hide Container, Verifies, EntriesOf, CountRegular, IsTree, IsListing, IsCodec, IndexVerified;
      slots := slots.(data := Some(TreeOf(slots.data)));
      if f.running {
        if f.stopFails { return Err(Raised); }
        slots := slots.(data := f.lastWrites);
      }
      var written := WriteVerified(g, codec, appKey, appId, backupId, d, tree, listing);
      if written.Err? { return Err(written.error); }
      if writeFails { return Err(Raised); }
      ListingIsInTree(tree, listing);
      CountsTheFiles(tree, listing);
      var (file, fileCount) := written.value;
      StoreContainer(backupId, file);
      if indexFails { return Err(Raised); }
      var entry := IndexEntry(backupId, d.createdAt, |file|, fileCount);
      AddToIndex(entry, EntriesOf(tree, listing));
      if f.running && f.restartFails { return Err(Raised); }
      r := Ok(entry);
    }

    /** The rename that puts a finished container under its new name. */
    method StoreContainer(backupId: string, file: bytes)
      requires IndexVerified() && backupId !in backups
      modifies this`backups
      ensures IndexVerified() && backups == old(backups)[backupId := file]
    {
      hide Verifies, CountRegular;
      forall i | 0 <= i < |index| ensures index[i].backupId in backups && index[i].backupId != backupId {
        assert index[i].backupId in backups;
      }
      backups := backups[backupId := file];
      forall i | 0 <= i < |index|
        ensures exists es ::
                  Verifies(g, codec, backups[index[i].backupId], appId, appKey, es)
                  && CountRegular(es) == index[i].fileCount
      {
        assert backups[index[i].backupId] == old(backups)[index[i].backupId];
      }
    }

    /** Appending the entry of a backup that has just been verified. */
    method AddToIndex(entry: IndexEntry, ghost members: seq<Entry>)
      requires IndexVerified() && entry.backupId in backups && |backups[entry.backupId]| == entry.ciphertextBytes
      requires Verifies(g, codec, backups[entry.backupId], appId, appKey, members)
               && CountRegular(members) == entry.fileCount
      modifies this`index
      ensures IndexVerified() && index == old(index) + [entry]
    {
      hide Verifies, CountRegular;
      index := index + [entry];
    }

    // ----- restore ----------------------------------------------------------

    /** Every change of the directories goes into the trace. */
    method Become(next: Slots)
      modifies this`slots, this`trace
      ensures slots == next && trace == old(trace) + [next]
    {
      slots := next;
      trace := trace + [next];
    }

    /** The loop over the members: checked, then written into the staging
        directory, any part of which may be there when a write fails. */
    method ExtractMembers(members: seq<Entry>, writeFailsAt: Option<nat>) returns (r: Result<(), BackupError>)
      requires slots.staging == Some(map[])
      modifies this`slots, this`trace
      ensures slots == old(slots).(staging := slots.staging)
      ensures old(trace) <= trace
              && forall i | |old(trace)| <= i < |trace| :: trace[i] == old(slots).(staging := trace[i].staging)
      ensures r.Ok? ==> slots.staging.Some? && slots.staging == ExtractAll(map[], members)
      ensures r.Ok? ==> writeFailsAt.None? || writeFailsAt.value >= |members|
      ensures r.Ok? ==> forall i | 0 <= i < |members| :: !Refused(members[i])
      ensures r == Err(UnsafeMember) ==> exists i :: 0 <= i < |members| && Refused(members[i])
      ensures r.Err? && r != Err(UnsafeMember) && writeFailsAt.None? ==> ExtractAll(map[], members).None?
    {
      hide ExtractEntry, Refused;
      var tree, i := map[], 0;
      while i < |members|
        modifies this`slots, this`trace
        invariant 0 <= i <= |members| && ExtractAll(map[], members[..i]) == Some(tree)
        invariant forall j | 0 <= j < i :: !Refused(members[j])
        invariant writeFailsAt.None? || writeFailsAt.value >= i
        invariant slots == old(slots).(staging := Some(tree))
        invariant old(trace) <= trace
        invariant forall j | |old(trace)| <= j < |trace| :: trace[j] == old(slots).(staging := trace[j].staging)
      {
        if Refused(members[i]) { return Err(UnsafeMember); }
        var next := ExtractEntry(tree, members[i]);
        var partial: Tree := *;
        Become(slots.(staging := Some(partial)));
        if next.None? || writeFailsAt == Some(i) {
          if next.None? { FailedPrefix(map[], members, i); }
          return Err(Raised);
        }
        assert members[..i + 1][..i] == members[..i];
        tree := next.value;
        Become(slots.(staging := Some(tree)));
        i := i + 1;
      }
      assert members[..i] == members;
      r := Ok(());
    }

    /** _extract_verified_backup: members are written as they are read, before
        the tag is checked; the drain checks it. */
    method Extract(file: bytes, writeFailsAt: Option<nat>) returns (r: Result<(), BackupError>, ghost es: seq<Entry>)
      requires IsCodec(codec)
      modifies this`slots, this`trace
      ensures slots == old(slots).(staging := slots.staging)
      ensures old(trace) <= trace
              && forall i | |old(trace)| <= i < |trace| :: trace[i] == old(slots).(staging := trace[i].staging)
      ensures r.Ok? ==>
                Verifies(g, codec, file, appId, appKey, es) && slots.staging.Some?
                && slots.staging == ExtractAll(map[], es) && (writeFailsAt.Some? ==> writeFailsAt.value >= |es|)
      ensures r.Err? && writeFailsAt.None? ==>
                forall good :: Verifies(g, codec, file, appId, appKey, good) ==> ExtractAll(map[], good).None?
    {
      hide OpenContainer, Verifies, ExtractEntry, Refused, Mask, Plaintext, IsCodec;
      es := [];
      var container := OpenDecryptedReader(g, file, appId, appKey);
      if container.Err? {
        FailedMeansNone(g, codec, file, appId, appKey);
        return Err(container.error), [];
      }
      var reader := container.value;
      Become(slots.(staging := Some(map[])));
      var pass := ArchivePass(reader, codec);
      if pass.Err? {
        PassFailureMeansNone(reader, g, codec, file, appId, appKey, pass.error);
        return Err(pass.error), [];
      }
      ghost var passed := reader.delivered;
      PassedIsOnly(reader, g, codec, file, appId, appKey, pass.value);
      var members := pass.value;
      var written := ExtractMembers(members, writeFailsAt);
      if written.Err? {
        if written.error == UnsafeMember {
          ghost var i :| 0 <= i < |members| && Refused(members[i]);
          RefusedMeansNone(g, codec, file, appId, appKey, members, i);
        }
        return Err(written.error), [];
      }
      var drained := reader.Drain();
      if drained.Err? {
        PassFailureMeansNone(reader, g, codec, file, appId, appKey, drained.error);
        return Err(drained.error), [];
      }
      PassedMeansVerifies(reader, g, codec, file, appId, appKey, members, passed);
      return Ok(()), members;
    }

    /** restore_backup. `orig` is the data when the service has stopped and
        `staged` what the extraction produced; every state the directories pass
        through from then on is in the trace, so a crash anywhere leaves one of
        them. */
    method RestoreBackup(backupId: string, f: Faults)
      returns (r: Result<(), BackupError>, ghost orig: Option<Tree>, ghost staged: Option<Tree>)
      requires IsCodec(codec) && slots.staging == None && slots.parked == None
      modifies this`slots, this`trace
      ensures old(trace) <= trace && forall i | |old(trace)| <= i < |trace| :: Atomic(orig, staged, trace[i])
      ensures staged.Some? ==> backupId in backups
      ensures staged.Some? ==>
                exists es :: Verifies(g, codec, backups[backupId], appId, appKey, es) && staged == ExtractAll(map[], es)
                             && (f.writeFailsAt.Some? ==> f.writeFailsAt.value >= |es|)
      ensures r.Ok? <==> staged.Some? && !(orig.Some? && f.parkFails) && !f.swapFails && !(f.running && f.restartFails)
      ensures staged.Some? && !(orig.Some? && f.parkFails) && !f.swapFails ==> slots.data == staged
      ensures staged.None? || (orig.Some? && f.parkFails) || (f.swapFails && !(orig.Some? && f.undoFails)) ==>
                slots.data == orig
      ensures staged.Some? && orig.Some? && !f.parkFails && f.swapFails && f.undoFails ==>
                slots.data == None && slots.parked == orig
      ensures backupId !in backups ==> r == Err(NotFound)
      ensures trace != old(trace) ==>
                backupId in backups && trace[|trace| - 1] == slots
                && exists es :: Verifies(g, codec, backups[backupId], appId, appKey, es)
      ensures orig == if f.running && !f.stopFails && trace != old(trace) then f.lastWrites else old(slots.data)
      ensures trace != old(trace) ==>
                slots == SwapOutcome(orig, staged, f).slots && r.Err? == SwapOutcome(orig, staged, f).raised
      ensures trace == old(trace) ==> r.Err? && staged.None? && slots == old(slots)
      ensures staged.None? && f.writeFailsAt.None? && !(f.running && f.stopFails) && backupId in backups ==>
                forall good ::
                  Verifies(g, codec, backups[backupId], appId, appKey, good) ==> ExtractAll(map[], good).None?
    {
      hide OpenContainer, Verifies;
      orig, staged := slots.data, None;
      if backupId !in backups { return Err(NotFound), orig, staged; }
      var file := backups[backupId];
      var verified, _ := VerifyBackup(g, codec, file, appId, appKey);
      if verified.Err? { return Err(verified.error), orig, staged; }
      if f.running && f.stopFails { return Err(Raised), orig, staged; }
      Become(if f.running then slots.(data := f.lastWrites) else slots);
      orig := slots.data;

      var extracted, es := Extract(file, f.writeFailsAt);
      r := if extracted.Err? then Err(extracted.error) else Ok(());
      if extracted.Ok? {
        staged := slots.staging;
        r := SwapIn(f, orig, staged);
      }
      Become(slots.(staging := f.stagingLeft));
      if f.running && f.restartFails { r := Err(Raised); }
    }

    /** Parking the current data, moving the staged tree in, and undoing the
        first when the second fails. */
    method SwapIn(f: Faults, ghost orig: Option<Tree>, ghost staged: Option<Tree>) returns (r: Result<(), BackupError>)
      requires slots == Slots(orig, staged, None) && staged.Some?
      modifies this`slots, this`trace
      ensures old(trace) <= trace && forall i | |old(trace)| <= i < |trace| :: Atomic(orig, staged, trace[i])
      ensures Atomic(orig, staged, slots)
      ensures slots.(staging := f.stagingLeft) == SwapOutcome(orig, staged, f).slots
      ensures r.Ok? <==> Swapped(orig, staged, f)
    {
      if slots.data.Some? {
        if f.parkFails { return Err(Raised); }
        Become(Slots(None, slots.staging, slots.data));
      }
      if f.swapFails {
        if slots.parked.Some? && slots.data.None? && !f.undoFails { Become(Slots(slots.parked, slots.staging, None)); }
        return Err(Raised);
      }
      Become(Slots(slots.staging, None, slots.parked));
      Become(slots.(parked := if slots.parked.Some? then f.parkedLeft else None));
      r := Ok(());
    }
  }

  // ----- why an extraction fails --------------------------------------------

  lemma {:induction false} FailedPrefix(t: Tree, es: seq<Entry>, i: nat)
    requires i < |es| && ExtractAll(t, es[..i]).Some? && ExtractEntry(ExtractAll(t, es[..i]).value, es[i]).None?
    ensures ExtractAll(t, es).None?
  {
    hide ExtractEntry;
    var n := |es| - 1;
    if i < n {
      assert es[..n][..i] == es[..i];
      FailedPrefix(t, es[..n], i);
    }
  }

  lemma FailedMeansNone(g: Cipher, codec: Codec, file: bytes, appId: string, appKey: bytes)
    requires OpenContainer(g, file, appId, appKey).Err?
    ensures forall es :: !Verifies(g, codec, file, appId, appKey, es)
  {
    hide OpenContainer;
  }

  lemma PassFailureMeansNone(reader: DecryptingReader, g: Cipher, codec: Codec, file: bytes, appId: string,
                             appKey: bytes, e: BackupError)
    requires ReadsContainer(reader, g, file, appId, appKey) && reader.Valid()
    requires reader.Explains(e) || (reader.Finished() && codec.unpack(reader.delivered) == None)
    ensures forall es :: !Verifies(g, codec, file, appId, appKey, es)
  {
    hide OpenContainer;
    if reader.Explains(e) { reader.FailureIsForgery(e); } else { reader.FinishedIsWhole(); }
  }

  /** The members a pass saw are the only ones the container can hold. */
  lemma PassedIsOnly(reader: DecryptingReader, g: Cipher, codec: Codec, file: bytes, appId: string, appKey: bytes,
                     es: seq<Entry>)
    requires IsCodec(codec) && ReadsContainer(reader, g, file, appId, appKey) && reader.Valid()
    requires codec.unpack(reader.delivered) == Some(es)
    ensures forall good :: Verifies(g, codec, file, appId, appKey, good) ==> good == es
  {
    hide OpenContainer;
    reader.DeliveredIsPrefix();
    WholeIsPlaintext(reader, g, file, appId, appKey);
    var whole := Mask(g, reader.key, reader.nonce, 0, reader.Ciphertext());
    assert codec.unpack(whole) == codec.unpack(reader.delivered);
  }

  lemma RefusedMeansNone(g: Cipher, codec: Codec, file: bytes, appId: string, appKey: bytes, es: seq<Entry>, i: nat)
    requires i < |es| && Refused(es[i])
    ensures !Verifies(g, codec, file, appId, appKey, es)
  {}

  // ----- create, edit, restore ----------------------------------------------

  /** A container written from a tree verifies, with the writer's file count,
      and extracting its members gives exactly that tree. */
  lemma BackupHoldsTree(g: Cipher, codec: Codec, appKey: Key, appId: string, backupId: string, d: BackupDraw,
                        t: Tree, listing: seq<Path>)
    requires IsCodec(codec) && IsTree(t) && IsListing(t, listing)
    requires Container(g, appKey, appId, backupId, d, codec.pack(EntriesOf(t, listing))).Ok?
    ensures var file := Container(g, appKey, appId, backupId, d, codec.pack(EntriesOf(t, listing))).value;
            forall es :: Verifies(g, codec, file, appId, appKey, es) <==> es == EntriesOf(t, listing)
    ensures ExtractAll(map[], EntriesOf(t, listing)) == Some(t)
  {
    hide Container, OpenContainer, Plaintext, BackupHeader, Refused, EntriesOf, ExtractAll;
    ContainerRoundTrip(g, appKey, appId, backupId, d, codec.pack(EntriesOf(t, listing)));
    MembersAccepted(t, listing);
    ArchiveRoundTrip(t, listing);
  }

  /** The data a backup finds: as a running app leaves it when it stops. */
  function AtBackup(data: Option<Tree>, f: Faults): Tree {
    TreeOf(if f.running then f.lastWrites else data)
  }

  /** Creating a backup, then any edits, then restoring, the app running or not
      at either time: the data is exactly the tree that was backed up and later
      files are gone, even if the app does not start again after the restore. */
  method CreateEditRestore(p: Project, backupId: string, d: BackupDraw, listing: seq<Path>, edited: Option<Tree>,
                           making: Faults, restoring: Faults)
    returns (created: bool, restored: bool)
    requires IsCodec(p.codec) && p.IndexVerified() && backupId !in p.backups
    requires p.slots.staging == None && p.slots.parked == None
    requires IsTree(AtBackup(p.slots.data, making)) && IsListing(AtBackup(p.slots.data, making), listing)
    requires making.running ==> !making.stopFails && !making.restartFails
    requires (restoring.running ==> !restoring.stopFails) && restoring.writeFailsAt.None?
    requires !restoring.parkFails && !restoring.swapFails
    modifies p
    ensures created <==>
            Container(p.g, p.appKey, p.appId, backupId, d,
                      p.codec.pack(EntriesOf(AtBackup(old(p.slots.data), making), listing))).Ok?
    ensures created ==> p.slots.data == Some(AtBackup(old(p.slots.data), making))
    ensures restored <==> created && !(restoring.running && restoring.restartFails)
  {
    hide Container, Verifies, OpenContainer, EntriesOf, ExtractAll;
    var tree := AtBackup(p.slots.data, making);
    var made := p.CreateBackup(backupId, d, tree, listing, making, false, false);
    if made.Err? { return false, false; }
    BackupHoldsTree(p.g, p.codec, p.appKey, p.appId, backupId, d, tree, listing);
    p.slots := p.slots.(data := edited);
    assert Verifies(p.g, p.codec, p.backups[backupId], p.appId, p.appKey, EntriesOf(tree, listing));
    var r, orig, staged := p.RestoreBackup(backupId, restoring);
    created, restored := true, r.Ok?;
  }
}
