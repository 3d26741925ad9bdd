/** The cloud agent's configuration and its schedule of status syncs, retries
    and backups (minit/cloud_agent.py). The clock is sampled as in the source;
    what each sample and each attempt yields is arbitrary. */
module AgentSchedule {
  import opened Results
  import opened Bytes

  const SCHEMA_VERSION: int := 1
  const DEFAULT_STATUS_INTERVAL: int := 60
  const MIN_STATUS_INTERVAL: int := 30
  const MIN_BACKUP_INTERVAL: int := 3600
  const MAX_BACKOFF: int := 900

  // ----- configuration ------------------------------------------------------

  datatype Config = Config(statusInterval: int, backupInterval: int)

  datatype ConfigError = StatusTooShort | BackupNegative | BackupTooShort | UnsupportedVersion | NotANumber

  /** A field of the file: absent, a value int() reads as n, or one it raises on. */
  datatype Setting = Absent | Reads(n: int) | Unreadable

  /** cloud-agent-config.json, whoever wrote it. */
  datatype ConfigFile = ConfigFile(version: Option<int>, statusInterval: Setting, backupInterval: Setting)

  function BuildConfig(status: int, backup: int): Result<Config, ConfigError> {
    if status < MIN_STATUS_INTERVAL then Err(StatusTooShort)
    else if backup < 0 then Err(BackupNegative)
    else if 0 < backup < MIN_BACKUP_INTERVAL then Err(BackupTooShort)
    else Ok(Config(status, backup))
  }

  /** int(payload.get(name, otherwise)). */
  function ReadSetting(field: Setting, otherwise: int): Result<int, ConfigError> {
    match field
    case Absent => Ok(otherwise)
    case Reads(n) => Ok(n)
    case Unreadable => Err(NotANumber)
  }

  function ReadConfig(status: Setting, backup: Setting): Result<Config, ConfigError> {
    var s :- ReadSetting(status, DEFAULT_STATUS_INTERVAL);
    var b :- ReadSetting(backup, 0);
    BuildConfig(s, b)
  }

  /** save_config: the file it writes. */
  function SaveConfig(status: Setting, backup: Setting): Result<ConfigFile, ConfigError> {
    var c :- ReadConfig(status, backup);
    Ok(ConfigFile(Some(SCHEMA_VERSION), Reads(c.statusInterval), Reads(c.backupInterval)))
  }

  function LoadConfig(file: Option<ConfigFile>): Result<Config, ConfigError> {
    match file
    case None => BuildConfig(DEFAULT_STATUS_INTERVAL, 0)
    case Some(f) =>
      if f.version != Some(SCHEMA_VERSION) then Err(UnsupportedVersion)
      else ReadConfig(f.statusInterval, f.backupInterval)
  }

  predicate IsConfig(c: Config) {
    c.statusInterval >= 30 && (c.backupInterval == 0 || c.backupInterval >= 3600)
  }

  /** The configuration two settings stand for, if int() reads them. */
  predicate StandFor(status: Setting, backup: Setting, c: Config) {
    && c.statusInterval == (if status.Reads? then status.n else 60) && !status.Unreadable?
    && c.backupInterval == (if backup.Reads? then backup.n else 0) && !backup.Unreadable?
  }

  /** Whatever the file says, it loads exactly when it has the supported version
      and readable values within the limits, and then as those; without a file
      the defaults hold; and a saved configuration loads as what was saved. */
  lemma LoadedConfigIsValid(file: ConfigFile, status: Setting, backup: Setting, c: Config)
    ensures LoadConfig(Some(file)) == Ok(c)
       <==> file.version == Some(1) && StandFor(file.statusInterval, file.backupInterval, c) && IsConfig(c)
    ensures LoadConfig(None) == Ok(Config(60, 0))
    ensures SaveConfig(status, backup).Ok? && LoadConfig(Some(SaveConfig(status, backup).value)) == Ok(c)
       <==> StandFor(status, backup, c) && IsConfig(c)
  {}

  // ----- schedule -----------------------------------------------------------

  function Doublings(n: nat): int {
    if n == 0 then 1 else 2 * Doublings(n - 1)
  }

  function Min(a: int, b: int): int {
    if a <= b then a else b
  }

  /** The delay after the given number of consecutive failures. */
  function Backoff(interval: int, failures: nat): int
    requires failures > 0
  {
    Min(interval * Doublings(Min(failures - 1, 5)), MAX_BACKOFF)
  }

  /** One round of the loop: the clock, whether a sync and a backup attempted in
      it succeed, and the clock after the backup. */
  datatype Tick = Tick(now: real, synced: bool, uploaded: bool, after: real)

  datatype Sync = Sync(at: real, ok: bool, failures: nat, delay: int)

  datatype Backup = Backup(began: real, ended: real, ok: bool)

  /** A monotonic clock, never behind `start`. */
  predicate Clock(start: real, ticks: seq<Tick>)
    decreases |ticks|
  {
    ticks == [] || (start <= ticks[0].now <= ticks[0].after && Clock(ticks[0].after, ticks[1..]))
  }

  function Attempt(c: Config, failures: nat, t: Tick): Sync {
    if t.synced then Sync(t.now, true, 0, c.statusInterval)
    else Sync(t.now, false, failures + 1, Backoff(c.statusInterval, failures + 1))
  }

  /** The syncs a run makes: one in each round whose clock has reached the due time. */
  function Syncs(c: Config, due: real, failures: nat, ticks: seq<Tick>): (r: seq<Sync>)
    decreases |ticks|
  {
    if ticks == [] then []
    else if ticks[0].now < due then Syncs(c, due, failures, ticks[1..])
    else
      var s := Attempt(c, failures, ticks[0]);
      [s] + Syncs(c, s.at + s.delay as real, s.failures, ticks[1..])
  }

  function Backups(c: Config, due: Option<real>, ticks: seq<Tick>): (r: seq<Backup>)
    decreases |ticks|
  {
    if ticks == [] || due.None? then []
    else if ticks[0].now < due.value then Backups(c, due, ticks[1..])
    else
      [Backup(ticks[0].now, ticks[0].after, ticks[0].uploaded)]
      + Backups(c, Some(ticks[0].after + c.backupInterval as real), ticks[1..])
  }

  function FirstBackup(c: Config, armed: real): Option<real> {
    if c.backupInterval == 0 then None else Some(armed + c.backupInterval as real)
  }

  lemma Regroup<T>(done: seq<T>, one: T, rest: seq<T>)
    ensures done + ([one] + rest) == done + [one] + rest
  {}

  /** run_agent: `armed` and `armedBackup` are the samples taken before the loop;
      the stop request comes after the last round. */
  method RunAgent(c: Config, armed: real, armedBackup: real, ticks: seq<Tick>)
    returns (syncs: seq<Sync>, backups: seq<Backup>)
    requires IsConfig(c) && armed <= armedBackup && Clock(armedBackup, ticks)
    ensures syncs == Syncs(c, armed, 0, ticks)
    ensures backups == Backups(c, FirstBackup(c, armedBackup), ticks)
  {
    hide Backoff, Clock, IsConfig;
    syncs, backups := [], [];
    var failures: nat := 0;
    var nextStatus := armed;
    var nextBackup: Option<real> := None;
    if c.backupInterval != 0 { nextBackup := Some(armedBackup + c.backupInterval as real); }
    var i := 0;
    while i < |ticks|
      invariant i <= |ticks|
      invariant syncs + Syncs(c, nextStatus, failures, ticks[i..]) == Syncs(c, armed, 0, ticks)
      invariant backups + Backups(c, nextBackup, ticks[i..]) == Backups(c, FirstBackup(c, armedBackup), ticks)
    {
      var now := ticks[i].now;
      ghost var rest := ticks[i + 1..];
      assert ticks[i..] == [ticks[i]] + rest && ticks[i..][1..] == rest;
      if now >= nextStatus {
        if ticks[i].synced {
          failures := 0;
          nextStatus := now + c.statusInterval as real;
          Regroup(syncs, Sync(now, true, 0, c.statusInterval), Syncs(c, nextStatus, 0, rest));
          syncs := syncs + [Sync(now, true, 0, c.statusInterval)];
        } else {
          failures := failures + 1;
          var backoff := Backoff(c.statusInterval, failures);
          nextStatus := now + backoff as real;
          Regroup(syncs, Sync(now, false, failures, backoff), Syncs(c, nextStatus, failures, rest));
          syncs := syncs + [Sync(now, false, failures, backoff)];
        }
      }
      if nextBackup.Some? && now >= nextBackup.value {
        nextBackup := Some(ticks[i].after + c.backupInterval as real);
        Regroup(backups, Backup(now, ticks[i].after, ticks[i].uploaded), Backups(c, nextBackup, rest));
        backups := backups + [Backup(now, ticks[i].after, ticks[i].uploaded)];
      }
      i := i + 1;
    }
  }

  // ----- delays -------------------------------------------------------------

  /** More failures in a row never shorten the delay, which stays between the
      interval and 15 minutes, or at 15 minutes when the interval is longer. */
  lemma BackoffGrows(interval: int, a: nat, b: nat)
    requires interval >= 30 && 0 < a <= b
    ensures Min(interval, 900) <= Backoff(interval, a) <= Backoff(interval, b) <= 900
    ensures Backoff(interval, 1) == Min(interval, 900)
  {}

  /** The k-th failure in a row asks for the interval doubled k - 1 times, but for
      no more than 32 intervals and no more than 15 minutes. */
  lemma BackoffDoubles(interval: int, k: nat)
    requires k > 0
    ensures k <= 6 ==> Backoff(interval, k) == Min(interval * Pow2(k - 1), 900)
    ensures k >= 6 ==> Backoff(interval, k) == Min(interval * 32, 900)
  {
    DoublingsArePowers(if k <= 6 then k - 1 else 5);
    assert Pow2(5) == 32;
  }

  lemma {:induction false} DoublingsArePowers(n: nat)
    ensures Doublings(n) == Pow2(n)
  {
    if n > 0 { DoublingsArePowers(n - 1); }
  }

  // ----- where syncs and backups come from ----------------------------------

  /** Sync i is the attempt made in round rounds[i], with the outcome it had. */
  predicate FromRounds(syncs: seq<Sync>, rounds: seq<nat>, ticks: seq<Tick>) {
    && |rounds| == |syncs|
    && (forall i | 0 <= i < |rounds| :: rounds[i] < |ticks|)
    && (forall i, j | 0 <= i < j < |rounds| :: rounds[i] < rounds[j])
    && (forall i | 0 <= i < |rounds| :: syncs[i].at == ticks[rounds[i]].now && syncs[i].ok == ticks[rounds[i]].synced)
  }

  function Shifted(rounds: seq<nat>): (r: seq<nat>)
    ensures |r| == |rounds| && forall i | 0 <= i < |r| :: r[i] == rounds[i] + 1
  {
    seq(|rounds|, i requires 0 <= i < |rounds| => rounds[i] + 1)
  }

  /** Every attempt belongs to a round of its own, in order, at the time and with
      the outcome of that round. */
  lemma {:induction false} SyncsComeFromRounds(c: Config, due: real, failures: nat, ticks: seq<Tick>)
    returns (rounds: seq<nat>)
    ensures FromRounds(Syncs(c, due, failures, ticks), rounds, ticks)
    decreases |ticks|
  {
    rounds := [];
    if ticks != [] {
      if ticks[0].now < due {
        rounds := SyncsComeFromRounds(c, due, failures, ticks[1..]);
        rounds := Shifted(rounds);
      } else {
        var s := Attempt(c, failures, ticks[0]);
        rounds := SyncsComeFromRounds(c, s.at + s.delay as real, s.failures, ticks[1..]);
        rounds := [0] + Shifted(rounds);
      }
    }
  }

  predicate BackupsFromRounds(backups: seq<Backup>, rounds: seq<nat>, ticks: seq<Tick>) {
    && |rounds| == |backups|
    && (forall i | 0 <= i < |rounds| :: rounds[i] < |ticks|)
    && (forall i, j | 0 <= i < j < |rounds| :: rounds[i] < rounds[j])
    && (forall i | 0 <= i < |rounds| ::
          var t := ticks[rounds[i]]; backups[i] == Backup(t.now, t.after, t.uploaded))
  }

  lemma {:induction false} BackupsComeFromRounds(c: Config, due: Option<real>, ticks: seq<Tick>)
    returns (rounds: seq<nat>)
    ensures BackupsFromRounds(Backups(c, due, ticks), rounds, ticks)
    decreases |ticks|
  {
    rounds := [];
    if ticks != [] && due.Some? {
      if ticks[0].now < due.value {
        rounds := BackupsComeFromRounds(c, due, ticks[1..]);
        rounds := Shifted(rounds);
      } else {
        rounds := BackupsComeFromRounds(c, Some(ticks[0].after + c.backupInterval as real), ticks[1..]);
        rounds := [0] + Shifted(rounds);
      }
    }
  }

  // ----- syncs --------------------------------------------------------------

  ghost predicate GapsOk(c: Config, due: real, syncs: seq<Sync>)
    decreases |syncs|
  {
    syncs == [] || (syncs[0].at >= due && syncs[0].delay >= Min(c.statusInterval, 900) >= 30
                    && GapsOk(c, syncs[0].at + syncs[0].delay as real, syncs[1..]))
  }

  lemma {:induction false} SyncsHaveGaps(c: Config, due: real, failures: nat, ticks: seq<Tick>)
    requires IsConfig(c)
    ensures GapsOk(c, due, Syncs(c, due, failures, ticks))
    decreases |ticks|
  {
    if ticks == [] {
    } else if ticks[0].now < due {
      SyncsHaveGaps(c, due, failures, ticks[1..]);
    } else {
      var s := Attempt(c, failures, ticks[0]);
      BackoffGrows(c.statusInterval, failures + 1, failures + 1);
      SyncsHaveGaps(c, s.at + s.delay as real, s.failures, ticks[1..]);
      assert Syncs(c, due, failures, ticks)[1..] == Syncs(c, s.at + s.delay as real, s.failures, ticks[1..]);
    }
  }

  lemma {:induction false} GapsAt(c: Config, due: real, syncs: seq<Sync>, i: nat)
    requires GapsOk(c, due, syncs) && i < |syncs|
    ensures syncs[i].delay >= Min(c.statusInterval, 900) >= 30 && (i == 0 ==> syncs[0].at >= due)
    ensures i + 1 < |syncs| ==> syncs[i + 1].at >= syncs[i].at + syncs[i].delay as real
    decreases |syncs|
  {
    if i > 0 {
      assert syncs[i] == syncs[1..][i - 1] && (i + 1 < |syncs| ==> syncs[i + 1] == syncs[1..][i]);
      GapsAt(c, syncs[0].at + syncs[0].delay as real, syncs[1..], i - 1);
    } else if |syncs| > 1 {
      GapsAt(c, syncs[0].at + syncs[0].delay as real, syncs[1..], 0);
    }
  }

  /** Consecutive attempts are at least min(interval, 900) >= 30 seconds apart,
      and at least the delay the earlier one asked for. */
  lemma SyncsAreSpaced(c: Config, armed: real, ticks: seq<Tick>, i: nat)
    requires IsConfig(c) && i + 1 < |Syncs(c, armed, 0, ticks)|
    ensures var r := Syncs(c, armed, 0, ticks);
            r[i + 1].at - r[i].at >= r[i].delay as real && r[i].delay >= Min(c.statusInterval, 900) >= 30
  {
    SyncsHaveGaps(c, armed, 0, ticks);
    GapsAt(c, armed, Syncs(c, armed, 0, ticks), i);
  }

  lemma {:induction false} SyncsSpread(c: Config, armed: real, ticks: seq<Tick>, i: nat, j: nat)
    requires IsConfig(c) && i <= j < |Syncs(c, armed, 0, ticks)|
    ensures Syncs(c, armed, 0, ticks)[j].at - Syncs(c, armed, 0, ticks)[i].at >= 30.0 * (j - i) as real
    decreases j - i
  {
    hide Syncs;
    if i < j {
      SyncsSpread(c, armed, ticks, i, j - 1);
      SyncsAreSpaced(c, armed, ticks, j - 1);
    }
  }

  /** At most T/30 + 1 attempts fall in any window of T seconds. */
  lemma FewSyncsInAWindow(c: Config, armed: real, ticks: seq<Tick>, i: nat, j: nat, from: real, length: real)
    requires IsConfig(c) && i <= j < |Syncs(c, armed, 0, ticks)|
    requires from <= Syncs(c, armed, 0, ticks)[i].at && Syncs(c, armed, 0, ticks)[j].at <= from + length
    ensures (j - i + 1) as real <= length / 30.0 + 1.0
    ensures forall k | 0 <= k < |Syncs(c, armed, 0, ticks)| ::
              from <= Syncs(c, armed, 0, ticks)[k].at <= from + length || k < i || k > j
  {
    hide Syncs;
    SyncsSpread(c, armed, ticks, i, j);
    forall k | i <= k <= j ensures from <= Syncs(c, armed, 0, ticks)[k].at <= from + length {
      SyncsSpread(c, armed, ticks, i, k);
      SyncsSpread(c, armed, ticks, k, j);
    }
  }

  /** The number of failures at the end of a row of outcomes. */
  function Trailing(syncs: seq<Sync>): nat {
    if syncs == [] || syncs[|syncs| - 1].ok then 0 else 1 + Trailing(syncs[..|syncs| - 1])
  }

  /** Every attempt's count is its number of consecutive failures, carried in
      from before when all failed, and its delay follows from it alone. */
  ghost predicate CountsOk(c: Config, failures: nat, syncs: seq<Sync>)
    decreases |syncs|
  {
    syncs == []
    || (syncs[0].failures == (if syncs[0].ok then 0 else failures + 1)
        && syncs[0].delay == (if syncs[0].ok then c.statusInterval else Backoff(c.statusInterval, syncs[0].failures))
        && CountsOk(c, syncs[0].failures, syncs[1..]))
  }

  lemma {:induction false} SyncsCount(c: Config, due: real, failures: nat, ticks: seq<Tick>)
    ensures CountsOk(c, failures, Syncs(c, due, failures, ticks))
    decreases |ticks|
  {
    if ticks == [] {
    } else if ticks[0].now < due {
      SyncsCount(c, due, failures, ticks[1..]);
    } else {
      var s := Attempt(c, failures, ticks[0]);
      SyncsCount(c, s.at + s.delay as real, s.failures, ticks[1..]);
      assert Syncs(c, due, failures, ticks)[1..] == Syncs(c, s.at + s.delay as real, s.failures, ticks[1..]);
    }
  }

  lemma {:induction false} CountsAt(c: Config, failures: nat, syncs: seq<Sync>, i: nat)
    requires CountsOk(c, failures, syncs) && i < |syncs|
    ensures syncs[i].failures == (if syncs[i].ok then 0 else 1 + (if i == 0 then failures else syncs[i - 1].failures))
    ensures syncs[i].delay == (if syncs[i].ok then c.statusInterval else Backoff(c.statusInterval, syncs[i].failures))
    decreases |syncs|
  {
    if i > 0 {
      assert syncs[i] == syncs[1..][i - 1] && (i > 1 ==> syncs[i - 1] == syncs[1..][i - 2]);
      CountsAt(c, syncs[0].failures, syncs[1..], i - 1);
    }
  }

  /** After a success the configured interval; after the k-th failure in a row
      the k-th backoff. */
  lemma {:induction false} DelayFollowsFailures(c: Config, armed: real, ticks: seq<Tick>, i: nat)
    requires i < |Syncs(c, armed, 0, ticks)|
    ensures var r := Syncs(c, armed, 0, ticks);
            && r[i].failures == Trailing(r[..i + 1])
            && r[i].delay == (if r[i].ok then c.statusInterval else Backoff(c.statusInterval, r[i].failures))
    decreases i
  {
    hide Syncs;
    var r := Syncs(c, armed, 0, ticks);
    SyncsCount(c, armed, 0, ticks);
    CountsAt(c, 0, r, i);
    assert r[..i + 1][..i] == r[..i];
    if i > 0 { DelayFollowsFailures(c, armed, ticks, i - 1); }
  }

  // ----- no sync is put off -------------------------------------------------

  /** Rounds no further apart than `gap`. */
  predicate Dense(start: real, gap: real, ticks: seq<Tick>)
    decreases |ticks|
  {
    ticks == [] || (ticks[0].now <= start + gap && Dense(ticks[0].now, gap, ticks[1..]))
  }

  /** The first sync of a run comes within one round of its due time. */
  lemma {:induction false} FirstSyncIsPrompt(c: Config, due: real, failures: nat, ticks: seq<Tick>, start: real,
                                             gap: real)
    requires Clock(start, ticks) && Dense(start, gap, ticks) && start <= due
    ensures Syncs(c, due, failures, ticks) != [] ==> Syncs(c, due, failures, ticks)[0].at <= due + gap
    ensures Syncs(c, due, failures, ticks) == [] ==> forall k | 0 <= k < |ticks| :: ticks[k].now < due
    decreases |ticks|
  {
    if ticks != [] && ticks[0].now < due {
      ClockFrom(ticks[0].now, ticks[0].after, ticks[1..]);
      FirstSyncIsPrompt(c, due, failures, ticks[1..], ticks[0].now, gap);
      assert forall k | 0 < k < |ticks| :: ticks[k] == ticks[1..][k - 1];
    }
  }

  lemma ClockFrom(start: real, later: real, ticks: seq<Tick>)
    requires start <= later && Clock(later, ticks)
    ensures Clock(start, ticks)
  {}

  /** While rounds come no further apart than `gap`, the next attempt comes no
      later than that after it is due. */
  lemma {:induction false} SyncsArePrompt(c: Config, due: real, failures: nat, ticks: seq<Tick>, start: real,
                                          gap: real, i: nat)
    requires IsConfig(c) && Clock(start, ticks) && Dense(start, gap, ticks) && i + 1 < |Syncs(c, due, failures, ticks)|
    ensures var r := Syncs(c, due, failures, ticks); r[i + 1].at <= r[i].at + r[i].delay as real + gap
    decreases |ticks|
  {
    ClockFrom(ticks[0].now, ticks[0].after, ticks[1..]);
    if ticks[0].now < due {
      SyncsArePrompt(c, due, failures, ticks[1..], ticks[0].now, gap, i);
    } else {
      var s := Attempt(c, failures, ticks[0]);
      BackoffGrows(c.statusInterval, failures + 1, failures + 1);
      var rest := Syncs(c, s.at + s.delay as real, s.failures, ticks[1..]);
      assert Syncs(c, due, failures, ticks) == [s] + rest;
      if i == 0 {
        FirstSyncIsPrompt(c, s.at + s.delay as real, s.failures, ticks[1..], ticks[0].now, gap);
      } else {
        SyncsArePrompt(c, s.at + s.delay as real, s.failures, ticks[1..], ticks[0].now, gap, i - 1);
      }
    }
  }

  // ----- backups ------------------------------------------------------------

  ghost predicate BackupsOk(c: Config, due: real, backups: seq<Backup>)
    decreases |backups|
  {
    backups == [] || (due <= backups[0].began <= backups[0].ended
                      && BackupsOk(c, backups[0].ended + c.backupInterval as real, backups[1..]))
  }

  lemma {:induction false} BackupsHaveGaps(c: Config, due: real, ticks: seq<Tick>, start: real)
    requires Clock(start, ticks)
    ensures BackupsOk(c, due, Backups(c, Some(due), ticks))
    decreases |ticks|
  {
    if ticks == [] {
    } else if ticks[0].now < due {
      BackupsHaveGaps(c, due, ticks[1..], ticks[0].after);
    } else {
      var next := ticks[0].after + c.backupInterval as real;
      BackupsHaveGaps(c, next, ticks[1..], ticks[0].after);
      assert Backups(c, Some(due), ticks)[1..] == Backups(c, Some(next), ticks[1..]);
    }
  }

  lemma {:induction false} BackupsAt(c: Config, due: real, backups: seq<Backup>, i: nat)
    requires BackupsOk(c, due, backups) && i < |backups|
    ensures backups[i].began <= backups[i].ended
    ensures backups[i].began >= (if i == 0 then due else backups[i - 1].ended + c.backupInterval as real)
    decreases |backups|
  {
    if i > 0 {
      assert backups[i] == backups[1..][i - 1] && (i > 1 ==> backups[i - 1] == backups[1..][i - 2]);
      BackupsAt(c, backups[0].ended + c.backupInterval as real, backups[1..], i - 1);
    }
  }

  /** A backup that is due comes in the first round at or after that time. */
  lemma {:induction false} FirstBackupIsPrompt(c: Config, due: real, ticks: seq<Tick>, start: real, gap: real)
    requires Clock(start, ticks) && Dense(start, gap, ticks) && start <= due
    ensures Backups(c, Some(due), ticks) != [] ==> Backups(c, Some(due), ticks)[0].began <= due + gap
    ensures Backups(c, Some(due), ticks) == [] ==> forall k | 0 <= k < |ticks| :: ticks[k].now < due
    decreases |ticks|
  {
    if ticks != [] && ticks[0].now < due {
      ClockFrom(ticks[0].now, ticks[0].after, ticks[1..]);
      FirstBackupIsPrompt(c, due, ticks[1..], ticks[0].now, gap);
      assert forall k | 0 < k < |ticks| :: ticks[k] == ticks[1..][k - 1];
    }
  }

  /** Nor is a backup put off: while rounds come no further apart than `gap`, the
      next one begins no later than that after the interval has passed. */
  lemma {:induction false} BackupsArePrompt(c: Config, due: real, ticks: seq<Tick>, start: real, gap: real, i: nat)
    requires c.backupInterval >= 0 && Clock(start, ticks) && Dense(start, gap, ticks)
             && i + 1 < |Backups(c, Some(due), ticks)|
    ensures var r := Backups(c, Some(due), ticks); r[i + 1].began <= r[i].ended + c.backupInterval as real + gap
    decreases |ticks|
  {
    ClockFrom(ticks[0].now, ticks[0].after, ticks[1..]);
    if ticks[0].now < due {
      BackupsArePrompt(c, due, ticks[1..], ticks[0].now, gap, i);
    } else {
      var next := ticks[0].after + c.backupInterval as real;
      assert Backups(c, Some(due), ticks)
          == [Backup(ticks[0].now, ticks[0].after, ticks[0].uploaded)] + Backups(c, Some(next), ticks[1..]);
      if i == 0 {
        FirstBackupIsPrompt(c, next, ticks[1..], ticks[0].now, gap);
      } else {
        BackupsArePrompt(c, next, ticks[1..], ticks[0].now, gap, i - 1);
      }
    }
  }

  /** Backups never happen when they are disabled; otherwise each begins at least
      one interval, an hour or more, after the loop began or the one before ended,
      whether that one succeeded or not. */
  lemma BackupsKeepTheInterval(c: Config, armed: real, ticks: seq<Tick>, i: nat)
    requires IsConfig(c) && Clock(armed, ticks)
    ensures var r := Backups(c, FirstBackup(c, armed), ticks);
            && (c.backupInterval == 0 ==> r == [])
            && (i < |r| ==> c.backupInterval >= 3600 && r[i].ended >= r[i].began)
            && (i < |r| ==> r[i].began - (if i == 0 then armed else r[i - 1].ended) >= c.backupInterval as real)
  {
    if c.backupInterval != 0 {
      var due := armed + c.backupInterval as real;
      BackupsHaveGaps(c, due, ticks, armed);
      if i < |Backups(c, Some(due), ticks)| { BackupsAt(c, due, Backups(c, Some(due), ticks), i); }
    }
  }

  /** Nothing is put off at the start either: the first sync is made in the first
      round, and the first backup begins in the first round at or after one
      interval from when the loop began. */
  lemma FirstOnesArePrompt(c: Config, armed: real, armedBackup: real, ticks: seq<Tick>, gap: real)
    requires IsConfig(c) && armed <= armedBackup && Clock(armedBackup, ticks) && Dense(armedBackup, gap, ticks)
    requires ticks != []
    ensures Syncs(c, armed, 0, ticks) != [] && Syncs(c, armed, 0, ticks)[0].at == ticks[0].now
    ensures c.backupInterval > 0 ==>
              var r, due := Backups(c, FirstBackup(c, armedBackup), ticks), armedBackup + c.backupInterval as real;
              && (r == [] <==> forall k | 0 <= k < |ticks| :: ticks[k].now < due)
              && (r != [] ==> due <= r[0].began <= due + gap)
  {
    if c.backupInterval > 0 {
      var due := armedBackup + c.backupInterval as real;
      FirstBackupIsPrompt(c, due, ticks, armedBackup, gap);
      BackupsHaveGaps(c, due, ticks, armedBackup);
      var rounds := BackupsComeFromRounds(c, Some(due), ticks);
      var r := Backups(c, Some(due), ticks);
      if r != [] { assert r[0].began == ticks[rounds[0]].now && due <= r[0].began; }
    }
  }
}
