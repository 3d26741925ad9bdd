# Verified model of Minit's backups, supervision, keys and rollback

Minit runs a local app under a detached supervisor, keeps encrypted backups of
its data, and rolls its source files back. This Dafny project models the parts
of it on which data can be lost or a wrong process killed, and proves what they
keep, over every input, every fault and every interleaving.

`dafny verify dfyconfig.toml` checks the whole project.

## What is modelled

**Text and bytes.** `Bytes`, `Base64Url`, `RecoveryText` and `CanonicalJson` are
the codecs: UTF-8, base64url with Python's lenient decoder, the text form of a
recovery key, and `json.dumps(sort_keys=True, separators=(",", ":"))` with a
parser for it (sections 4 and 7 of RFC 8259, sections 3.2 and 5 of RFC 4648).
`JsonText` says what the text looks like: key order, escapes, punctuation.

**Authenticated encryption.** `Gcm` is AES-256-GCM as sections 7.1 and 7.2 of
NIST SP 800-38D describe it: a keystream and a 16-byte tag, both parameters.
What an ideal cipher adds is stated where it is used: a wrong key of the run
never matches a tag (`KeySeparated`), and what opens was sealed before
(`Unforged`, `StreamUnforged`). Round trips need neither. `Envelope` is the
two-level envelope of `minit/crypto.py`, and `EnvelopeText` the text that
authenticates it.

**Keys.** `KeyHierarchy` gives each operation on the key store, the app key, the
secrets and the recovery envelope as a function of the files and the device's
store, with failing stores and failing writes. `KeyFiles` has the same
operations as methods that update a store and a project directory, each proved
equal to its function. `KeyContinuity` proves what holds over runs of all of
them on any number of devices, one operation after another; in `KeyRace` a call
that creates the app key has two steps, and others can come in between.
`KeyOutcomes` says when each operation succeeds on files of any content.

**Backups.** `MemberPaths`, `Trees` and `BackupContainer` are the member names,
the archive of a directory tree and the `.mnb` container; tar and gzip are an
invertible stream codec. `BackupStreams` has the chunked encrypting writer and
the stateful decrypting reader as classes, with short reads and arbitrary read
sizes. `BackupRestore` is create and restore on a project's data directory with
a fault at any step; a ghost trace records the directories at every moment, so
what it says of every moment also covers a crash there. `ContainerText` and
`ContainerOutcomes` give the file's layout and exactly which files the local
reader and the server take. `CloudStorage` is the
server that stores the containers without being able to read them.

**Rollback.** `Snapshots` is create and restore of source snapshots on a tree,
with an I/O error at any point, including half-written files. `SourceNames` says
which files are captured.

**Processes.** `Supervisor` is the supervisor's loop as a class, for any
sequence of observations. `Protocol` is the whole system as an interleaved step
machine: one CLI client making calls in turn, any number of supervisors from
earlier and later starts, their apps, other processes, and an operating system
that recycles pids. `ProtocolSafety` to `ProtocolRuns` prove its invariants and
what they mean for every run; `ProtocolLimits` proves, where a result has a
condition, that without it some run does what the result excludes.
`ProtocolForeign` says when a start returns another supervisor's state, and
`ProtocolCalls` what each call of start and stop does and does not do.
`SupervisorSteps` and `SupervisorRuns` show that what the loop saves, save by save
and run by run, is what the step machine saves. `InstallLock` is the
cross-process lock around the first download, for any number of processes that
may crash anywhere, with a monotonic clock and a wall clock that can be set.
`Runs` is what the two step machines share.

**Schedules and ports.** `AgentSchedule` is the cloud agent's configuration and
loop. `PortRegistry` chooses a port no registered project has; `Deployments` is
`minit deploy` on the saved service specs and the registry of all projects, with
saved, named and chosen ports, and with starts and registrations that fail.

## Where the code does less than one might expect

Each of these is a proved statement with the exact condition:

- A restore can raise although the data is already the backup: the service is
  restarted after the swap, and that restart may be what fails
  (`RaisedKeepsOriginal`, `FailedRestartAfterSwap`).
- Deploying a project again takes its saved port without asking the registry, so
  two directories can come to share a port that Minit chose for both: exactly
  when some saved port is not registered for its own directory
  (`ClashesExactly`, `PlainClashExactly`, `RedeployAfterNamedPort`,
  `RedeployAfterFailedStart`).
- A root file named `_minit_snapshot.json` makes the safety snapshot
  unrestorable, since its entry and the manifest share a name
  (`UndoCompletesExactly`, `ManifestFileBlocksUndo`, `RollbackNotUndone`).
- Two first uses of a project at once can create two app keys: an existing key
  is written over exactly when some call that found none is still to write its
  own and can, and every secret set under the first key is lost
  (`RaceRunKeeps`, `KeyReplacedExactly`, `ReplacedLosesSecrets`, `SecretLost`).
- A stop request can be erased by another supervisor of the same project,
  exactly as long as that one has a clear of the control file still to come; the
  app can then be launched any number of times (`StopIsNotLost`,
  `StopErasedExactly`, `LaunchesBoundedExactly`, `ErasedStopIsLost`).
- A signal can reach a stranger exactly when no create time was recorded
  (`SignalsReachTheRecorded`, `SignalStraysExactly`, `UntimedSignalStrays`).
- A stop can end with the state saved as stopped and an app of that supervisor
  still alive: exactly when such an app is alive while the client waits or the
  supervisor can still launch one, and only if the supervisor died or the system
  refused to terminate the app (`StopLeavesAppExactly`, `AppLeftMeans`,
  `LaunchAfterStop`, `AppOutlivesExactly`).
- A start can return another supervisor's state than that of the one it launched,
  exactly when another that was not recorded before is recorded as running or
  can still come to run (`StartReturnsFresh`, `ReturnsAnotherExactly`,
  `SlowFirstReturned`).
- Removing a stale install lock lets a second process in exactly when the file
  is a living holder's and somebody can still create it (`MutualExclusion`,
  `RemovalBreaksExactly`, `StaleRemovalRaces`).
- An uploaded object whose index row could not be inserted is never indexed,
  because every retry finds that it exists (`UnlistedExactly`,
  `UnlistedForGood`, `UnlistedObject`).

## Model

| member | source | states |
|---|---|---|
| `Base64Url.DecodeEncode` | minit/crypto.py:25-30 | decoding an encoded byte string of any length gives it back |
| `Base64Url.EncodeInjective` | minit/crypto.py:25-30 | no two byte strings share an encoding |
| `Base64Url.RepadStripped` | minit/recovery.py:32-40 | stripping the padding and recomputing it as (4 - len % 4) % 4 restores the encoding, for every length |
| `Base64Url.DigitsAreTheAlphabet` | minit/crypto.py:25-26 | digit d is character d of the URL-safe alphabet, A to Z, a to z, 0 to 9, - and _ |
| `Base64Url.UnpaddedAlphabet` | minit/crypto.py:25-26 | an encoding holds nothing but that alphabet and the padding |
| `Base64Url.EncodingSpells` | minit/crypto.py:25-26 | in base 64 the digits spell the number the bytes spell in base 256, followed by the zero bits that fill the last digit |
| `Base64Url.NoiseIsSkipped` | minit/crypto.py:29-30 | characters that are neither digits nor padding are skipped wherever they stand |
| `Base64Url.PaddingIsNeeded` | minit/recovery.py:39-42 | an encoding without its padding is refused, which is why recovery puts it back |
| `RecoveryText.RecoveryKeyRoundTrip` | minit/recovery.py:29-47 | every 32-byte key survives its text form with any whitespace around the pasted text |
| `RecoveryText.RecoveryTextInjective` | minit/recovery.py:29-32 | no two keys share a text form |
| `RecoveryText.AcceptedTextReprints` | minit/recovery.py:35-47 | any text that is accepted prints back to a text accepted as the same key |
| `RecoveryText.RecoveryTextForm` | minit/recovery.py:29-32 | the text is minit-recovery-v1: and 43 characters of the URL-safe alphabet that spell the key and two zero bits |
| `RecoveryText.OnlyKeysAreIssued` | minit/recovery.py:29-31 | a text is issued exactly for 32 bytes |
| `RecoveryText.StripExactly` | minit/recovery.py:36 | trimming takes spaces off both ends and nothing else |
| `RecoveryText.SpaceCharacters` | minit/recovery.py:36 | the code points that count as spaces |
| `RecoveryText.PrefixIsNeeded` | minit/recovery.py:36-38 | a text is refused for its prefix exactly when it does not start with it once trimmed |
| `Bytes.Utf8RoundTrip` | minit/secrets.py:67-107 | a secret's text survives encode and decode as UTF-8 |
| `Bytes.Utf8Strict` | minit/secrets.py:107 | only what encoding a text gives is decoded: nothing overlong, truncated or surrogate |
| `Bytes.Utf8Samples` | minit/secrets.py:67-107 | the bytes of one text of each encoded length |
| `Bytes.XorAt` | minit/backups.py:91-96 | a bit of a masked byte is set where exactly one of plaintext and keystream has it |
| `Bytes.BigEndian32Spells` | minit/backups.py:223 | the four length bytes spell the length in base 256, most significant first |
| `CanonicalJson.ParsePrint` | minit/backups.py:54-55 | parsing canonical JSON gives back the printed value with its dicts in key order, which JsonText.CanonAscends says is ascending |
| `CanonicalJson.PrintStable` | minit/backups.py:54-55 | printing what was parsed from canonical JSON gives the same text again |
| `CanonicalJson.PrintBytesInjective` | minit/crypto.py:33-39 | two values have the same canonical bytes exactly when they are equal up to the order of dict entries |
| `CanonicalJson.SameDicts` | minit/app_keys.py:55-56 | the equality used in context checks is equality of the entries, whatever their order |
| `JsonText.LessExactly` | minit/crypto.py:39 | keys are ordered by code points: a proper prefix first, else the smaller character at the first difference |
| `JsonText.CanonAscends` | minit/crypto.py:39 | every dict of the printed value, at any depth, lists its keys in ascending order |
| `JsonText.ParsedTextAscends` | minit/backups.py:54-55 | so does the value read back from the text |
| `JsonText.EscapeExactly` | minit/backups.py:54-55 | each character is written as itself, with a short escape, as four lower-case hex digits of its code, or as a surrogate pair |
| `JsonText.PrintedTokens` | minit/backups.py:54-55 | the other tokens and the separators as text |
| `JsonText.NumberText` | minit/backups.py:54-55 | a number is its decimal digits without a leading zero |
| `JsonText.ParseAround` | minit/backups.py:283 | whitespace around a value does not matter, and nothing else may follow it |
| `JsonText.RepeatedKey` | minit/backups.py:283 | a repeated key has its last value |
| `Gcm.MaskAppend` | minit/backups.py:91-96 | encrypting chunk by chunk is encrypting the whole |
| `Gcm.OpenIffSealed` | minit/crypto.py:62-67 | data opens to a plaintext exactly when sealing that plaintext gives the data |
| `Gcm.SealLayout` | minit/crypto.py:62-67 | byte by byte the plaintext XOR the keystream, then the tag over key, nonce, additional data and ciphertext |
| `Envelope.AadInjective` | minit/crypto.py:33-39 | two contexts have the same authenticated data exactly when they are equal dicts |
| `EnvelopeText.AadText` | minit/crypto.py:33-39 | for every purpose, app, name and backup id the additional data is this text: algorithm, context and version in order, the context's names in order inside |
| `EnvelopeText.AadOfToken` | minit/crypto.py:33-39 | one of them in full |
| `EnvelopeText.WrapText` | minit/crypto.py:63-67 | the wrapped key's additional data is the same followed by a bar and wrapped-key |
| `Envelope.SuffixNeverCollides` | minit/crypto.py:62-67 | the authenticated data of a wrapped key is never that of a plaintext |
| `Envelope.EnvelopeRoundTrip` | minit/crypto.py:42-107 | an envelope opens to what was put in, under the key that wrapped it |
| `Envelope.DecryptExactly` | minit/crypto.py:80-107 | whatever dict is presented, it decrypts to a plaintext exactly when the key has 32 bytes, version and algorithm are supported, and its boxes are that plaintext sealed for its own context |
| `Envelope.DecryptCanon` | minit/crypto.py:80-107 | decryption does not depend on the order of the stored JSON fields |
| `Envelope.WrongKeyNeverOpens` | minit/crypto.py:80-107 | no other key of the run opens an envelope |
| `Envelope.ContextInjective` | minit/recovery.py:50-51 | app key, recovery key, secret and backup key contexts never coincide, for any ids and names |
| `Envelope.OpensOnlyAsSealed` | minit/crypto.py:80-107 | whatever envelope is presented, if it opens then its context, wrapping key and plaintext are those of one single encryption; parts never combine |
| `Envelope.OpensOnlyForItsPurpose` | minit/secrets.py:92-107 | a caller that checks the context obtains only a plaintext sealed for that app, name, type or backup id |
| `KeyHierarchy.AppKeyKeeps` | minit/app_keys.py:40-69 | get_or_create_app_key returns the existing app key or raises with the files untouched; it creates one only where there was none |
| `KeyHierarchy.WrapKeeps` | minit/app_keys.py:25-37 | rewrapping the right app key for a device keeps every secret and the recovery envelope valid |
| `KeyHierarchy.NamesExactly` | minit/secrets.py:17 | a secret name is accepted exactly when it has 1 to 128 letters, underscores and numerals and starts with no numeral |
| `KeyOutcomes.ExampleNameIsAccepted` | minit/secrets.py:44-48 | OPENAI_API_KEY, the example of the error message, is accepted |
| `KeyOutcomes.RootKeyExactly` | minit/key_store.py:100-114 | the root key is the stored one of 32 bytes, or a new one exactly when the store gives it back |
| `KeyOutcomes.AppKeyExactly` | minit/app_keys.py:40-69 | for app-key.json of any content: a key is returned exactly when it is bound to this app and opens under the device's root key to 32 bytes, or is new and written |
| `KeyOutcomes.NewAppKeyIsSealed` | minit/app_keys.py:67-69 | a new app key is written sealed for this app under the device's 32-byte root key |
| `KeyOutcomes.StoredAppKeyIsTheApps` | minit/app_keys.py:51-66 | whatever the file holds, a key taken from it was sealed as this app's key under this device's root key |
| `KeyOutcomes.SetSecretExactly` | minit/secrets.py:51-75 | setting succeeds exactly for an accepted name and a value, with an app key, a readable file and a write that works |
| `KeyOutcomes.GetSecretExactly` | minit/secrets.py:78-107 | reading gives a text exactly when the entry of that name is bound to this app and name and opens to it |
| `KeyOutcomes.ReadSecretWasSet` | minit/secrets.py:92-107 | whatever entries the file holds, what is read was set for this very app and name; entries cannot be moved |
| `KeyOutcomes.DeleteSecretExactly` | minit/secrets.py:114-121 | deleting answers whether the name was there, exactly for an accepted name in a readable file and a write that works |
| `KeyOutcomes.RecoverExactly` | minit/recovery.py:83-115 | recovery succeeds exactly when the file is of this app, the text is a recovery key that opens a 32-byte key, and that can be wrapped here |
| `KeyOutcomes.RecoveredFileHoldsKey` | minit/recovery.py:115 | and then app-key.json holds the key it opened, sealed for this device |
| `KeyOutcomes.RecoveredKeyIsTheApps` | minit/recovery.py:101-115 | which was sealed as this app's under the recovery key in the text |
| `KeyFiles.KeyStore.GetOrCreateDeviceRootKey` | minit/key_store.py:100-114 | the method does to the store what the function RootKey says, whether a read or write raises, a write is dropped, raises after storing or is overwritten, or the confirming read raises |
| `KeyFiles.Project.WrapAppKeyForDevice` | minit/app_keys.py:25-37 | the method equals its function on files and store |
| `KeyFiles.Project.GetOrCreateAppKey` | minit/app_keys.py:40-69 | the method equals its function on files and store |
| `KeyFiles.Project.SetSecret` | minit/secrets.py:51-75 | the method equals its function on files and store |
| `KeyFiles.Project.GetSecret` | minit/secrets.py:78-107 | the method equals its function on files and store |
| `KeyFiles.Project.GetAllSecrets` | minit/secrets.py:124-137 | the loop over all names equals its function, stopping at the first error |
| `KeyFiles.Project.DeleteSecret` | minit/secrets.py:114-121 | the method equals its function on files and store |
| `KeyFiles.Project.CreateRecoveryEnvelope` | minit/recovery.py:54-76 | the method equals its function on files and store |
| `KeyFiles.Project.RecoverAppKeyToCurrentDevice` | minit/recovery.py:83-115 | the method equals its function on files and store |
| `KeyContinuity.SetSecretKeeps` | minit/secrets.py:51-75 | setting a secret changes that name's value and nothing else, and never replaces an app key |
| `KeyContinuity.GetSecretKeeps` | minit/secrets.py:78-107 | reading a secret keeps every file valid and never replaces an app key |
| `KeyContinuity.DeleteSecretKeeps` | minit/secrets.py:114-121 | deleting a secret removes that name and nothing else |
| `KeyContinuity.CreateRecoveryKeeps` | minit/recovery.py:54-76 | a recovery key is issued once; a second call raises and keeps the first |
| `KeyContinuity.RecoverKeeps` | minit/recovery.py:83-115 | recovery rewraps the same app key or raises with the files untouched |
| `KeyContinuity.RunKeeps` | minit/app_keys.py:25-69 | over every run of all operations on any devices, with stores lost or replaced in between, an app key and a recovery key once there are never replaced and all files stay valid |
| `KeyContinuity.LiveSecretReads` | minit/secrets.py:78-107 | on a device whose root key wraps the app key, a secret reads as its last set value, or as absent if none is live |
| `KeyContinuity.AllSecretsRead` | minit/secrets.py:124-137 | get_all_secrets there returns exactly the live names with their last values |
| `KeyContinuity.SetThenGet` | minit/secrets.py:51-107 | without faults a secret is set exactly when its name is of 1 to 128 letters, underscores and numerals, not starting with a numeral, and its value not empty, and reading it back gives that value |
| `KeyContinuity.DeleteWorks` | minit/secrets.py:114-121 | without faults delete reports whether the secret was live, and it reads as absent afterwards |
| `KeyContinuity.RecoveryIsIssuedOnce` | minit/recovery.py:54-76 | without faults the first recovery key is issued in its text form and a second is refused |
| `KeyContinuity.RunNamesValid` | minit/secrets.py:44-58 | no run ever makes a name live that is not of this form |
| `KeyContinuity.RecoveryKeyWorks` | minit/recovery.py:83-115 | an issued recovery key gives any device with a working key store access to the app key |
| `KeyContinuity.RecoveredSecretReads` | minit/recovery.py:54-115 | after any run from a new project, recovery on any device followed by a read gives the last value set |
| `KeyRace.HalvesMakeOneCall` | minit/app_keys.py:51-69 | the look and the write of one call, with nothing in between, are that operation |
| `KeyRace.RaceRunKeeps` | minit/app_keys.py:51-69 | over every run in which calls creating the app key overlap with anything, the key stays and all files stay valid until an existing key is written over |
| `KeyRace.KeyReplacedExactly` | minit/app_keys.py:51-69 | from any state with an app key, some run writes over it exactly when a call that found no file is still to write and its write and store reads work |
| `KeyRace.ReplacedLosesSecrets` | minit/app_keys.py:67-69 | with another app key in the file, no secret set before reads again, on any device and whatever its store does |
| `KeyRace.SecretLost` | minit/app_keys.py:51-69 | for any two first uses at once, on one device or two, a run in which a secret is set and lost |
| `MemberPaths.SafeNameStaysInside` | minit/backups.py:67-69 | every member name the backup check accepts leads, from the root of the file system if it is absolute, to a place below the destination, the one restore computes |
| `MemberPaths.SafePathStaysInside` | minit/snapshots.py:172-178 | every name the snapshot check accepts lies strictly below the root and outside its .minit and .git |
| `MemberPaths.PartsOfJoin` | minit/backups.py:434 | the parts of a real path's POSIX name are that path |
| `MemberPaths.SafeNameExactly` | minit/backups.py:67-69 | the backup check accepts exactly the names that are not empty, do not start with a slash and have no component .. |
| `MemberPaths.SafePathExactly` | minit/snapshots.py:172-178 | the snapshot check accepts exactly those that lead somewhere outside .minit and .git, and returns the place |
| `Trees.RefusedExactly` | minit/backups.py:431-433 | a member is refused exactly for such a name, or as a link or a device |
| `Trees.CountsTheFiles` | minit/backups.py:229-239 | the count of an archive is the number of files of the tree |
| `Trees.ArchiveRoundTrip` | minit/backups.py:229-239 | extracting the archive of a tree into an empty directory rebuilds exactly that tree, in any member order |
| `Trees.MembersAccepted` | minit/backups.py:431-433 | no member the writer emits is refused by restore |
| `BackupContainer.ContainerRoundTrip` | minit/backups.py:184-330 | opening a written container recovers key, nonce, authenticated data and archive |
| `ContainerText.HeaderText` | minit/backups.py:202-213 | the header that is stored and authenticated is this text: nine names in order, the key envelope's canonical text inside |
| `ContainerOutcomes.ContainerLayout` | minit/backups.py:213-245 | the file byte by byte: MINITB01, the length, the header, the archive XOR the keystream, the tag over both; a header over 16 MiB is refused |
| `ContainerOutcomes.ReadHeaderExactly` | minit/backups.py:270-281 | header and payload are read exactly from files laid out so |
| `ContainerOutcomes.OpenExactly` | minit/backups.py:262-330 | a file opens exactly when it is laid out so, its header is a dict of this app and format whose envelope is bound to its backup id and opens to a 32-byte key, and a tag fits |
| `ContainerOutcomes.UnlockedKeyIsTheBackups` | minit/backups.py:294-306 | that key was sealed as the key of the backup the header names |
| `ContainerOutcomes.InspectExactly` | cloud_service/app.py:176-201 | the server accepts a file exactly when it is laid out so and its header names the format and the app and backup of the path, with a creation time of at most 64 characters |
| `BackupContainer.AcceptedContainerWasWritten` | minit/backups.py:262-330 | whatever file is presented, if it opens and its tag checks then its archive was encrypted under an equal header, for this app and the claimed backup id |
| `BackupContainer.OpenedPassesInspection` | cloud_service/app.py:176-201 | the server accepts what the local reader opens exactly when its created_at is a string of at most 64 characters |
| `BackupContainer.WrittenPassesInspection` | cloud_service/app.py:176-201 | the server accepts everything the writer emits under its own id |
| `BackupStreams.EncryptingWriter.Write` | minit/backups.py:91-96 | each write appends the encryption of its data, continuing the stream |
| `BackupStreams.WriteBackupStream` | minit/backups.py:184-259 | the file built chunk by chunk is the container of the tree's archive, and the count is of its regular files |
| `BackupStreams.DecryptingReader.Finish` | minit/backups.py:113-122 | finishing succeeds exactly when the tag is right, and only then marks the reader final |
| `BackupStreams.DecryptingReader.Refill` | minit/backups.py:126-136 | the loop ends, never reads the tag as ciphertext, and leaves bytes to deliver or a checked tag |
| `BackupStreams.DecryptingReader.ReadInto` | minit/backups.py:124-143 | the bytes put into the target continue the plaintext and fill it or empty the buffer, which never holds more than one chunk; zero is returned only once all of it is out and the tag has checked |
| `BackupStreams.DecryptingReader.Drain` | minit/backups.py:145-148 | draining terminates, with the whole plaintext out and the tag checked, or fails |
| `BackupStreams.DecryptingReader.DeliveredIsPrefix` | minit/backups.py:102-148 | at every moment the delivered bytes are a prefix of the whole-message decryption and the source stands at or before the tag |
| `BackupStreams.DecryptingReader.FinishedIsWhole` | minit/backups.py:102-148 | a finished reader delivered exactly what opening the whole message gives |
| `BackupStreams.DecryptingReader.FailureIsForgery` | minit/backups.py:102-148 | reading a complete file fails only if opening the whole message fails |
| `BackupStreams.OpenDecryptedReader` | minit/backups.py:262-330 | the reader stands on the container's ciphertext, or the same error is raised |
| `BackupStreams.VerifyBackup` | minit/backups.py:333-369 | verification succeeds exactly on containers whose tag checks and whose members are all safe, and counts their regular files |
| `BackupRestore.WriteVerified` | minit/backups.py:390-399 | what was just written always verifies, with the same file count |
| `BackupRestore.BackupHoldsTree` | minit/backups.py:184-259 | a written container verifies with exactly the tree's members, and they extract to exactly the tree |
| `BackupRestore.Project.CreateBackup` | minit/backups.py:372-415 | every indexed backup is on disk, verifies, and has the recorded size and file count; for every fault exactly what is stored and indexed: the container, and an entry with its id, the header's creation time, its size and the number of files |
| `BackupRestore.Project.ExtractMembers` | minit/backups.py:430-448 | the extraction loop writes only staging, refuses exactly unsafe members, and ends with the whole archive extracted |
| `BackupRestore.Project.Extract` | minit/backups.py:418-453 | extraction touches only staging and succeeds only on a verified archive, extracted whole |
| `BackupRestore.Project.RestoreBackup` | minit/backups.py:456-494 | at every moment, under every fault, the data is the whole original, or absent with the original parked, or the whole backup; nothing is touched unless the backup verifies; it returns exactly when extraction, stop, park, swap and restart worked, and then the data is the extracted tree; otherwise the data is as the step that failed leaves it |
| `BackupRestore.Project.SwapIn` | minit/backups.py:480-488 | every step of the swap and its undo keeps that, and the result is the one SwapOutcome gives |
| `BackupRestore.RaisedKeepsOriginal` | minit/backups.py:478-492 | a restore that raises left the original data exactly when the swap had not happened and no undo failed |
| `BackupRestore.FailedRestartAfterSwap` | minit/backups.py:489-492 | a concrete restore that raises with the backup data in place |
| `BackupRestore.CreateEditRestore` | minit/backups.py:372-494 | create, any edits, then restore, the app running or not at either time, gives exactly the tree the backup found, later files gone |
| `CloudStorage.Server.Receive` | cloud_service/app.py:214-226 | the streaming loop accepts exactly bodies within the limit and returns all their bytes |
| `CloudStorage.Server.Put` | cloud_service/app.py:205-247 | the method equals the function Upload on objects and index |
| `CloudStorage.UploadStoresTheBody` | cloud_service/app.py:205-247 | an accepted upload stores exactly its body, new, within the limit and indexed with its size; any other answer changes no row and no object that was there |
| `CloudStorage.UploadAnswersExactly` | cloud_service/app.py:205-247 | each answer and exactly when it is given |
| `CloudStorage.BackupIdsExactly` | minit/backups.py:58-60 | the ids the server takes are exactly those the client makes |
| `CloudStorage.StoredStays` | cloud_service/app.py:211-238 | whatever is uploaded later, a stored object and its row never change, the index stays exact, and an unindexed object stays unindexed |
| `CloudStorage.UnlistedExactly` | cloud_service/app.py:228-238 | an object not stored before is stored without a row exactly by a valid, accepted upload whose insert fails |
| `CloudStorage.UnlistedForGood` | cloud_service/app.py:204-240 | over any uploads, an object stays unlisted exactly when the first upload to store it lost its row |
| `CloudStorage.UnlistedObject` | cloud_service/app.py:228-240 | a concrete request whose object is stored and never listed, whatever follows |
| `CloudStorage.RowsComeFromUploads` | cloud_service/app.py:230-238 | every index row is of one of the uploads, of its body's exact size, within the limit then in force |
| `CloudStorage.UploadedBackupOpens` | cloud_service/app.py:266-273 | a backup the client wrote and uploaded is accepted, and its later download opens to the archive that was backed up |
| `Snapshots.CapturedNameAccepted` | minit/snapshots.py:59-81 | every name create_snapshot captures passes restore's check as its own path |
| `Snapshots.RestoreIsOverlay` | minit/snapshots.py:217-228 | a restore, complete or aborted anywhere, changes only files the manifest names and makes only directories above them; nothing is deleted and no kind changes |
| `Snapshots.RestoreSparesProtected` | minit/snapshots.py:172-228 | for any manifest, fault and extent of the restore, nothing below the project's .minit or .git is made, changed or removed |
| `Snapshots.ListSources` | minit/snapshots.py:68-81 | the listing names exactly the captured regular files, each once |
| `SourceNames.SourceNameExactly` | minit/snapshots.py:59-65 | a name is source exactly when it is one of fourteen, a requirements file, or has a source extension in any case |
| `SourceNames.CapturedExactly` | minit/snapshots.py:68-81 | a path is captured exactly with a source name and no excluded directory above it, at any depth |
| `SourceNames.SomeSourceNames` | minit/snapshots.py:59-65 | requirements.txt and MAIN.PY are source, notes.txt and .py are not |
| `SourceNames.CompletedRestoreMatches` | minit/snapshots.py:217-228 | for any manifest, a restore that completes has written every file it lists, of the listed digest, unless a later one has its place |
| `Snapshots.RollbackAndUndo` | minit/snapshots.py:193-253 | two calls in a row, the second for the first one's safety snapshot: the second goes through and puts every source file and every unwritten path back |
| `Snapshots.RollbackUndone` | minit/snapshots.py:193-253 | after any rollback, complete or aborted, restoring the safety snapshot completes and gives every source file and every unwritten path its old bytes |
| `Snapshots.RollbackFullyUndone` | minit/snapshots.py:193-253 | when the target was made by create_snapshot, every path that existed before is back as it was |
| `Snapshots.UndoCompletesExactly` | minit/snapshots.py:142-145 | the safety snapshot restores completely exactly when no root file is named like the manifest entry |
| `Snapshots.ManifestFileBlocksUndo` | minit/snapshots.py:217-224 | with that file first the undo stops at once and the rollback stays whole |
| `Snapshots.RollbackNotUndone` | minit/snapshots.py:142-145 | a concrete project of that kind: its code is rolled back, and restoring the safety snapshot changes nothing |
| `Snapshots.Project.CreateSnapshot` | minit/snapshots.py:106-165 | a snapshot of the captured files is stored under its new id, even when the index then fails and the call raises; without source files nothing changes |
| `Snapshots.Project.RestoreSnapshot` | minit/snapshots.py:193-253 | the exact outcome: nothing changes for an unknown id or without source files; otherwise the safety snapshot of the old tree is stored first, the tree stays when its index fails or the app is another, and else tree and result are what RestoreFiles gives |
| `Supervisor.Supervisor.StartApp` | minit/supervisor.py:123-147 | a launch is made only when no leader is left, and its state is saved |
| `Supervisor.Supervisor.ObserveExit` | minit/supervisor.py:159-178 | the exit is saved first; a restart is announced and counted never, always, or for an exit code other than 0, by the policy |
| `Supervisor.Supervisor.CheckHealth` | minit/supervisor.py:184-200 | what is saved says what the port, the grace period and the monitor showed |
| `Supervisor.Supervisor.Finish` | minit/supervisor.py:203-219 | the last save has no app pid and a stop time, no leader is left unless the system refused to terminate it, and the status is failed exactly after a failure |
| `Supervisor.Supervisor.Supervise` | minit/supervisor.py:95-221 | for any observations, every save is in the six-row table with consistent pid fields, launches match restarts at loop heads, relaunches are justified, at most one leader lives, each save follows from the one before, the saves are those of SavesFromLaunch in that order, and the run ends as Fated says |
| `Supervisor.RestartsExactly` | minit/supervisor.py:154-182 | left undisturbed, the app is restarted after every exit up to the first one the policy does not justify, and then supervise returns 0; otherwise it goes on |
| `Supervisor.RestartsAreJustified` | minit/supervisor.py:167-170 | the restarts counted are exactly the leading exits the policy justifies |
| `Supervisor.RestartsByPolicy` | minit/supervisor.py:167-170 | no restart by never, one for every exit by always, and by on-failure one for each exit before the first code 0 |
| `Supervisor.FateExactly` | minit/supervisor.py:154-219 | for any rounds: the run ends in the first with a stop, an exception, an exit that calls for no restart or a restart that fails, with that code, and one launch for each exit before |
| `SupervisorSteps.SaveIsAStep` | minit/supervisor.py:140-219 | whatever the loop saves next, the step machine saves from the same place, with the same status and app identity |
| `SupervisorSteps.BaseSaveIsAStep` | minit/supervisor.py:108-109 | the same for the base state saved before the loop |
| `SupervisorRuns.SuperviseIsARun` | minit/supervisor.py:95-221 | for every run of supervise, with any launches the system could make, a run of the step machine from a project without files records exactly the saves of that run, in order |
| `ProtocolSafety.StepStructure` | minit/runtime.py:113-143 | every step keeps processes distinguishable by pid and start time, live supervisors in the process table, and recorded states naming a published supervisor and apps it launched |
| `ProtocolSafety.EndedStaysEnded` | minit/runtime.py:113-143 | a process that has ended never comes back, whatever its pid is reused for |
| `ProtocolSignals.ForceStepSignals` | minit/runtime.py:169-193 | every step of _force_terminate keeps that a timed signal hits its target or nothing |
| `ProtocolRuns.SignalsReachTheRecorded` | minit/runtime.py:169-301 | in every run, every signal aims at a supervisor of the project or an app it launched and, with a create time recorded, reaches that process or none |
| `ProtocolRuns.UntimedSignalStrays` | minit/runtime.py:125-131 | a run in which a signal without a recorded create time reaches a stranger |
| `ProtocolRuns.OneAppAtATime` | minit/supervisor.py:149-182 | in every run, of all a supervisor launched at most the app it holds is alive |
| `ProtocolRuns.NothingLeftBehind` | minit/supervisor.py:209-219 | a supervisor between two launches, or past its finally block without the system refusing both signals, has left none of its launched app leaders alive, and none comes back |
| `ProtocolStops.WaitsUntilEnded` | minit/runtime.py:292-303 | the client keeps waiting, and leaves the stop on disk, until the supervisor it saw has ended |
| `ProtocolStops.StepStops` | minit/supervisor.py:101-157 | every step keeps what is claimed of pending stops |
| `ProtocolRuns.StopIsNotLost` | minit/runtime.py:269-311 | a stop for a published generation is never erased by that generation's start-up, stays until read, ends its loop at the next read and is followed by at most one launch, unless another supervisor erased it; with no other that has a clear to come, none does |
| `ProtocolLimits.StopErasedExactly` | minit/supervisor.py:101-211 | from every reachable state with a stop on disk, another supervisor can erase it before a new one is written exactly when one has a clear of the control file still to come |
| `ProtocolLimits.LaunchesBoundedExactly` | minit/supervisor.py:154-182 | and more than one launch can follow that stop, then any number, exactly in those states |
| `ProtocolLimits.SignalStraysExactly` | minit/runtime.py:113-193 | from every reachable state of a force with a liveness check still to come, its next signal can reach another process exactly when no create time was recorded |
| `ProtocolLimits.StopLeavesAppExactly` | minit/runtime.py:292-311 | from every reachable state in which the client waits, an app of that supervisor, launched before or after the stop was written, can be alive when the stop is over, with none recorded, exactly when one is alive now or the supervisor can still launch: its next launch comes before its next read, or it still reads, was not signalled, and no stop for it is on disk or another supervisor can still erase it |
| `ProtocolLimits.AppLeftMeans` | minit/runtime.py:292-311 | once the client has waited for a supervisor, an app of it is alive only if the supervisor died or ended after the system refused both signals |
| `ProtocolLimits.LaunchAfterStop` | minit/supervisor.py:154-182 | a run in which no app is alive as the stop is written, one is launched after it, and it is alive when the stop is over |
| `ProtocolLimits.AppOutlivesExactly` | minit/supervisor.py:36-69 | a supervisor about to terminate its app can be done beside a living app it launched exactly when that app is alive now |
| `ProtocolRuns.StopEndsTheSupervisor` | minit/runtime.py:292-303 | in every run, when the client clears the stop and saves the stopped state, the supervisor it asked to stop has ended |
| `ProtocolRuns.ErasedStopIsLost` | minit/supervisor.py:101 | a run in which a slow supervisor erases another's stop and the app is launched twice more |
| `ProtocolRuns.StartReturnsFresh` | minit/runtime.py:157-242 | start returns a published generation other than the one recorded before, running or degraded, and its own one when no supervisor was alive as it began |
| `ProtocolCalls.StartHeedsRunning` | minit/runtime.py:196-227 | in every run, a start whose check finds the recorded supervisor alive launches none, and every supervisor was launched by exactly one start, whose check found none alive |
| `ProtocolCalls.CheckEndsExactly` | minit/runtime.py:201-202 | the check changes nothing, and ends the call exactly when the recorded supervisor is alive |
| `ProtocolCalls.PollEndsExactly` | minit/runtime.py:229-245 | a poll ends the call exactly on a fresh state that is failed, stopped, running or degraded, and returns exactly the last two |
| `ProtocolCalls.RecordedAppIsKilled` | minit/runtime.py:280-301 | in every run, a stop has ended the app it found recorded when it saves an orphan's state, and before it forces the supervisor |
| `ProtocolCalls.KillFollowsTerm` | minit/runtime.py:169-193 | in every run, a SIGKILL comes right after a SIGTERM for the same process |
| `ProtocolCalls.ChecksBeforeKill` | minit/runtime.py:184-193 | and after twenty checks that found it alive |
| `ProtocolCalls.LivesExactly` | minit/runtime.py:113-143 | in every run, a supervisor's pid and start time are among the processes exactly while it has not ended |
| `ProtocolCalls.StopEndsSaved` | minit/runtime.py:280-311 | every stop that found a state ends with it saved as stopped, without an app |
| `ProtocolCalls.StopAsksExactly` | minit/runtime.py:269-292 | a stop without a state does nothing; otherwise it asks exactly when the recorded supervisor is alive, and turns to the orphaned app when not |
| `ProtocolCalls.RemembersRecorded` | minit/runtime.py:204-305 | a start remembers the generation recorded then, and a stop ends with the state recorded then |
| `ProtocolForeign.ReturnsAnotherExactly` | minit/runtime.py:228-256 | from every reachable state in which a start waits, it can return another generation than the one it launched exactly when one is recorded as running or degraded, or can still come to save itself so, that was not recorded as the call began |
| `ProtocolForeign.SlowFirstReturned` | minit/runtime.py:228-256 | a run in which a start returns the slow supervisor of an earlier start that gave up |
| `ProtocolRuns.RunKeeps` | minit/runtime.py:196-311 | all invariants hold after every run |
| `InstallLock.MutualExclusion` | minit/cli.py:193-224 | in any interleaving where no living holder's lock was removed as stale, at most one process is between create and unlink, at most one download succeeds, and whoever returns finds the binary |
| `InstallLock.RemovalBreaksExactly` | minit/cli.py:181-190 | as long as nothing was stolen before, a removal lets two processes hold the lock, without a further one, exactly when the file is a living holder's and another process can still create it |
| `InstallLock.SafeWhileYoung` | minit/cli.py:181-224 | the same whenever the wall clock never shows more than 300 seconds since the lock file's last change |
| `InstallLock.RemovesOnlyOld` | minit/cli.py:181-190 | a process comes to remove the lock file only when it just found it more than 300 seconds old |
| `InstallLock.GivesUpAtDeadline` | minit/cli.py:196-209 | a process gives up exactly at its first failed acquire judged 120 seconds or more, on the monotonic clock, after it entered |
| `InstallLock.StaleRemovalRaces` | minit/cli.py:181-190 | a run in which a late stale removal leads to two holders and two downloads, and the first to finish removes the other's lock file |
| `AgentSchedule.LoadedConfigIsValid` | minit/cloud_agent.py:49-92 | a file loads exactly when it has the supported version and readable values within the limits, and then as those; a saved configuration loads as saved |
| `AgentSchedule.RunAgent` | minit/cloud_agent.py:134-215 | the loop makes exactly the syncs and backups of the functions Syncs and Backups |
| `AgentSchedule.BackoffGrows` | minit/cloud_agent.py:187 | the delay never shrinks with more failures and lies between min(interval, 900) and 900 seconds |
| `AgentSchedule.BackoffDoubles` | minit/cloud_agent.py:187 | the k-th failure in a row asks for the interval times 2^(k-1), at most 32 intervals and 900 seconds |
| `AgentSchedule.SyncsComeFromRounds` | minit/cloud_agent.py:170-190 | each attempt belongs to a round of its own, at its time and with its outcome |
| `AgentSchedule.BackupsComeFromRounds` | minit/cloud_agent.py:192-207 | and so does each backup |
| `AgentSchedule.DelayFollowsFailures` | minit/cloud_agent.py:172-190 | each delay is the interval after a success and the backoff of the number of consecutive failures otherwise |
| `AgentSchedule.SyncsAreSpaced` | minit/cloud_agent.py:171-190 | consecutive attempts are at least the asked delay, and min(interval, 900) >= 30 seconds, apart |
| `AgentSchedule.FewSyncsInAWindow` | minit/cloud_agent.py:171-190 | at most T/30 + 1 attempts fall in any window of T seconds |
| `AgentSchedule.SyncsArePrompt` | minit/cloud_agent.py:170-190 | while rounds come at most a gap apart, each attempt comes at most that gap after it is due |
| `AgentSchedule.BackupsArePrompt` | minit/cloud_agent.py:192-207 | while rounds come at most a gap apart, the next backup begins at most that gap after the interval has passed |
| `AgentSchedule.FirstOnesArePrompt` | minit/cloud_agent.py:166-192 | the first sync is made in the first round, and the first backup begins in the first round at or after one interval |
| `AgentSchedule.BackupsKeepTheInterval` | minit/cloud_agent.py:166-207 | no backup when disabled; otherwise each begins at least one interval (3600 s or more) after the loop began or the one before ended |
| `PortRegistry.ReservedLocalPorts` | minit/ports.py:26-50 | the set is exactly the valid ports of other projects' entries |
| `PortRegistry.ChooseAvailablePort` | minit/ports.py:53-79 | the least unreserved bindable port from the preferred one to min(65535, preferred + scan - 1), and a failure exactly when there is none |
| `PortRegistry.LeastFreeIsLeast` | minit/ports.py:69-79 | the port as a function: Some exactly of the least free port of the window |
| `Deployments.Computer.FindPlan` | minit/detection.py:204-237 | the port is the saved one when none is requested, else the one named or fixed, else a chosen one, with every refusal |
| `Deployments.Computer.DeployProject` | minit/main.py:111-166 | the method equals the function Step: the spec is saved before the start, the registry changed only after it, and what fails changes nothing further |
| `Deployments.PlanExactly` | minit/detection.py:204-237 | when the port is the saved, the chosen or the named one, and when a named one is refused |
| `Deployments.DeployOutcomes` | minit/main.py:111-166 | a refusal changes nothing, a failed start has saved the spec alone, and success has the port saved and registered |
| `Deployments.ClashesExactly` | minit/registry.py:55-77 | a deploy that registers shares its port with another directory exactly when another directory's entry has it; a port chosen in this deploy never is such |
| `Deployments.PlainKeeps` | minit/detection.py:209-216 | a deploy without a named port that starts and registers what it saves keeps saved and registered ports equal and directories apart |
| `Deployments.AutoPortsAreDistinct` | minit/detection.py:57-63 | over every run of such deploys and redeploys, distinct project directories hold distinct registered ports |
| `Deployments.PlainClashExactly` | minit/detection.py:209-216 | such deploys can bring a shared port exactly when some directory's saved port is not registered for it |
| `Deployments.RedeployAfterNamedPort` | minit/detection.py:209-216 | a run in which a redeploy takes its saved port after another project was told to use it |
| `Deployments.RedeployAfterFailedStart` | minit/main.py:158-166 | a run in which Minit chooses one port for two projects, the first not having started |

## Left out

- AES, GHASH, SHA-256 and randomness: keystream, tag and digest are parameters, and freshness of draws is an assumption where a statement needs it.
- gzip, tar and zip bytes: tar with gzip is a codec whose reader recovers what was packed and ignores what follows; a zip is a list of named members.
- JSON floats and lone surrogates: no file of the modelled parts needs them; the parser refuses them.
- BackupContainer.AcceptedContainerWasWritten: a header that holds a float or a lone surrogate does not open in the model, though json.loads reads it, because the canonical text of floats is not modelled; the writer emits no such header.
- Damaged JSON files: a file that does not parse is not represented, one that parses to the wrong shape is.
- Case mapping of characters other than to ASCII letters, in file extensions.
- File modes, times, symbolic links, hard links, special files and case-insensitive file systems.
- The OS keyring beyond its failures, HTTP, SQLite, Pydantic and FastAPI: maps and outcomes chosen by the environment; an app id arrives as str(UUID(...)) or as a refusal.
- Overlap inside the operations on the key files, other than between finding no app key and writing one: each is one step, so lost updates of secrets.json and two first root keys on one device are not covered.
- A SIGTERM before the supervisor has installed its handler: it asks the supervisor to stop, which can also die at any moment.
- Two CLI clients at once: start and stop take no lock, so the protocol has one client making calls in turn.
- Windows: taskkill, AccessDenied, zombies and redirector pids in runtime.py.
- A state save that fails inside the supervisor: every save succeeds.
- The app's process group: only its leader is a process of the model.
- The control file's contents: it holds a stop request or does not exist.
- Service restarts during a snapshot restore: they do not touch source files.
- Overlapping uploads of one backup id, and the order of the server's listing.
- A helper binary that is visible before it is complete: a download installs at once or not at all.
- create_backup's and restore_backup's own use of the app key: the key is given, and KeyContinuity covers its retrieval.
- Project manifests, the commands in service specs, and backup and snapshot listings: they only add lookups.
- Two directories with one app id, as after copying a project: the deployment results take one directory per id.
- CLI commands, autostart units, the tunnel, detection rules, monitoring and the site.
- ProtocolRuns.SignalsReachTheRecorded: assumes, as a property of new processes, that two processes with one pid start more than 0.05 s apart and that no pid is reused between a successful check and the signal after it.
- ProtocolRuns.StartReturnsFresh: does not claim that the returned generation is the one launched by the call when another supervisor was alive, because the code accepts any generation but the previous one; ProtocolForeign.ReturnsAnotherExactly says from which states it can be another.
- InstallLock.SafeWhileYoung: takes the age of the lock file as an assumption on the run, because nothing in the code bounds a download to 300 seconds.
- BackupRestore.Project.RestoreBackup: says nothing of data-before-restore directories that a best-effort removal leaves behind.
