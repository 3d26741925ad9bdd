/** The cross-process lock around the first download of the networking helper
    (minit/cli.py): any number of processes, each step of a process atomic,
    crashes at any point, and two clocks in milliseconds: `clock`, which only goes
    forward, for deadlines, and `wall`, which can be set, for the age of files. */
module InstallLock {
  import opened Results
  import opened Runs

  const TIMEOUT: int := 120_000
  const STALE: int := 300_000

  /** Where a process stands in _install_cloudflared_once. */
  datatype Pc =
    | Look       // about to look for the cached binary
    | Create     // about to create the lock file exclusively
    | Stat       // the lock file existed; about to read its age
    | Unlink     // the lock file was too old; about to remove it
    | Judge      // about to compare the time with the deadline
    | WritePid   // holds the lock; about to write its pid into the file
    | Recheck    // about to look for the cached binary again
    | Download
    | Release(ok: bool)  // about to remove the lock file
    | Returned | TimedOut | Failed | Crashed

  /** `entered` is when the process began, `tries` are the times at which failed
      acquires were judged. */
  datatype Process = Process(pc: Pc, entered: int, deadline: int, tries: seq<int>)

  datatype Lock = Lock(owner: nat, touched: int)

  /** `installs` counts downloads that succeeded; `stolen` says that a process
      removed the lock file of a living holder as stale. */
  datatype Sys = Sys(procs: seq<Process>, lock: Option<Lock>, cached: bool, clock: int, wall: int, installs: nat,
                     stolen: bool)

  datatype Event =
    | Tick(ms: nat, now: int) | Enter | Move(p: nat) | WriteFails(p: nat) | DownloadFails(p: nat) | Crash(p: nat)

  predicate Holds(pc: Pc) {
    pc.WritePid? || pc.Recheck? || pc.Download? || pc.Release?
  }

  predicate Ended(pc: Pc) {
    pc.Returned? || pc.TimedOut? || pc.Failed? || pc.Crashed?
  }

  predicate Holding(s: Sys, p: nat) {
    p < |s.procs| && Holds(s.procs[p].pc)
  }

  /** A lock file made by a process that still holds it. */
  predicate LivingLock(s: Sys) {
    s.lock.Some? && Holding(s, s.lock.value.owner)
  }

  function At(s: Sys, p: nat, pc: Pc): Sys
    requires p < |s.procs|
  {
    s.(procs := s.procs[p := s.procs[p].(pc := pc)])
  }

  function JudgeTry(s: Sys, p: nat): Sys
    requires p < |s.procs|
  {
    var me := s.procs[p];
    var next := if s.clock >= me.deadline then TimedOut else Look;
    s.(procs := s.procs[p := me.(pc := next, tries := me.tries + [s.clock])])
  }

  /** One step of process p. */
  function MoveStep(s: Sys, p: nat): Option<Sys>
    requires p < |s.procs|
  {
    match s.procs[p].pc
    case Look => Some(At(s, p, if s.cached then Returned else Create))
    case Create => Some(if s.lock.None? then At(s, p, WritePid).(lock := Some(Lock(p, s.wall))) else At(s, p, Stat))
    case Stat => Some(At(s, p, if s.lock.Some? && s.wall - s.lock.value.touched > STALE then Unlink else Judge))
    case Unlink => Some(At(s, p, Judge).(lock := None, stolen := s.stolen || LivingLock(s)))
    case Judge => Some(JudgeTry(s, p))
    case WritePid =>
      var own := s.lock.Some? && s.lock.value.owner == p;
      Some(At(s, p, Recheck).(lock := if own then Some(Lock(p, s.wall)) else s.lock))
    case Recheck => Some(At(s, p, if s.cached then Release(true) else Download))
    case Download => Some(At(s, p, Release(true)).(cached := true, installs := s.installs + 1))
    case Release(ok) => Some(At(s, p, if ok then Returned else Failed).(lock := None))
    case _ => None
  }

  function Step(s: Sys, e: Event): Option<Sys> {
    match e
    case Tick(ms, now) => Some(s.(clock := s.clock + ms, wall := now))
    case Enter => Some(s.(procs := s.procs + [Process(Look, s.clock, s.clock + TIMEOUT, [])]))
    case Move(p) => if p < |s.procs| then MoveStep(s, p) else None
    case WriteFails(p) => if p < |s.procs| && s.procs[p].pc.WritePid? then Some(At(s, p, Release(false))) else None
    case DownloadFails(p) => if p < |s.procs| && s.procs[p].pc.Download? then Some(At(s, p, Release(false))) else None
    case Crash(p) => if p < |s.procs| && !Ended(s.procs[p].pc) then Some(At(s, p, Crashed)) else None
  }

  function Run(s: Sys, events: seq<Event>): Option<Sys>
    decreases |events|
  {
    if events == [] then Some(s)
    else
      var next :- Step(s, events[0]);
      Run(next, events[1..])
  }

  function Initial(cached: bool, clock: int, wall: int): Sys {
    Sys([], None, cached, clock, wall, 0, false)
  }

  // ----- at most one holder, at most one install ----------------------------

  /** Every living holder owns the lock file. */
  ghost predicate HoldersOwn(s: Sys) {
    forall p | Holding(s, p) :: s.lock.Some? && s.lock.value.owner == p
  }

  /** One install at most, none while the binary is missing or before it, and a
      process that saw the binary missing under the lock still finds it so. */
  ghost predicate InstallsOk(s: Sys, atStart: bool) {
    && (atStart ==> s.cached) && s.installs == (if s.cached && !atStart then 1 else 0)
    && (forall p | 0 <= p < |s.procs| && s.procs[p].pc.Download? :: !s.cached)
    && (forall p | 0 <= p < |s.procs| && (s.procs[p].pc == Release(true) || s.procs[p].pc.Returned?) :: s.cached)
  }

  /** Waiting ends at the first failed acquire judged at or after the deadline. */
  ghost predicate TriesOk(me: Process) {
    && me.deadline == me.entered + TIMEOUT
    && (forall i | 0 <= i < |me.tries| - 1 :: me.tries[i] < me.deadline)
    && (me.pc.TimedOut? ==> me.tries != [])
    && (me.tries != [] && me.tries[|me.tries| - 1] >= me.deadline <==> me.pc.TimedOut?)
  }

  ghost predicate Invariant(s: Sys, atStart: bool) {
    && (!s.stolen ==> HoldersOwn(s) && InstallsOk(s, atStart))
    && forall p | 0 <= p < |s.procs| :: TriesOk(s.procs[p])
  }

  lemma MoveHolders(s: Sys, p: nat)
    requires p < |s.procs| && MoveStep(s, p).Some? && HoldersOwn(s)
    ensures !MoveStep(s, p).value.stolen ==> HoldersOwn(MoveStep(s, p).value)
  {
    var s' := MoveStep(s, p).value;
    forall q | !s'.stolen && Holding(s', q) ensures s'.lock.Some? && s'.lock.value.owner == q {
      assert q != p ==> Holding(s, q);
      assert Holding(s', p) && !s.procs[p].pc.Create? ==> Holding(s, p);
      assert s.procs[p].pc.Release? ==> Holding(s, p);
    }
  }

  lemma MoveInstalls(s: Sys, p: nat, atStart: bool)
    requires p < |s.procs| && MoveStep(s, p).Some? && HoldersOwn(s) && InstallsOk(s, atStart)
    ensures InstallsOk(MoveStep(s, p).value, atStart)
  {
    hide HoldersOwn;
    if s.procs[p].pc.Download? {
      forall q | 0 <= q < |s.procs| && q != p ensures !s.procs[q].pc.Download? {
        if s.procs[q].pc.Download? { OneHolder(s, p, q); }
      }
    }
  }

  lemma OneHolder(s: Sys, p: nat, q: nat)
    requires HoldersOwn(s) && Holding(s, p) && Holding(s, q)
    ensures p == q
  {}

  lemma MoveTries(s: Sys, p: nat)
    requires p < |s.procs| && MoveStep(s, p).Some? && TriesOk(s.procs[p])
    ensures TriesOk(MoveStep(s, p).value.procs[p])
  {}

  lemma StepKeeps(s: Sys, e: Event, atStart: bool)
    requires Invariant(s, atStart) && Step(s, e).Some?
    ensures Invariant(Step(s, e).value, atStart)
  {
    hide MoveStep, InstallsOk, HoldersOwn, TriesOk;
    var s' := Step(s, e).value;
    match e
    case Move(p) =>
      MoveFrame(s, p);
      MoveTries(s, p);
      if !s.stolen { MoveHolders(s, p); MoveInstalls(s, p, atStart); }
    case _ => OthersKeep(s, e, atStart);
  }

  /** Everything but a process's own move leaves the lock and the binary alone, and
      takes a process at most out of its place. */
  lemma OthersKeep(s: Sys, e: Event, atStart: bool)
    requires Invariant(s, atStart) && Step(s, e).Some? && !e.Move?
    ensures Invariant(Step(s, e).value, atStart)
  {
    hide MoveStep, TriesOk;
    var s' := Step(s, e).value;
    OthersFrame(s, e);
    forall q | 0 <= q < |s'.procs| ensures TriesOk(s'.procs[q]) { TriesKept(s, e, q); }
    forall q | Holding(s', q) ensures Holding(s, q) {}
  }

  lemma OthersFrame(s: Sys, e: Event)
    requires Step(s, e).Some? && !e.Move?
    ensures var s' := Step(s, e).value;
            && s' == s.(procs := s'.procs, clock := s'.clock, wall := s'.wall) && |s.procs| <= |s'.procs|
            && (forall q | 0 <= q < |s.procs| :: s'.procs[q].pc == s.procs[q].pc
                  || s'.procs[q].pc in {Release(false), Crashed})
            && (forall q | 0 <= q < |s.procs| :: Holds(s'.procs[q].pc) ==> Holds(s.procs[q].pc))
            && forall q | |s.procs| <= q < |s'.procs| :: s'.procs[q].pc.Look?
  {}

  lemma TriesKept(s: Sys, e: Event, q: nat)
    requires Step(s, e).Some? && !e.Move? && q < |Step(s, e).value.procs|
    requires q < |s.procs| ==> TriesOk(s.procs[q])
    ensures TriesOk(Step(s, e).value.procs[q])
  {}

  lemma MoveFrame(s: Sys, p: nat)
    requires p < |s.procs| && MoveStep(s, p).Some?
    ensures var s' := MoveStep(s, p).value;
            && |s'.procs| == |s.procs| && (s.stolen ==> s'.stolen)
            && forall q | 0 <= q < |s.procs| && q != p :: s'.procs[q] == s.procs[q]
  {}

  lemma {:induction false} RunKeeps(s: Sys, events: seq<Event>, atStart: bool)
    requires Invariant(s, atStart) && Run(s, events).Some?
    ensures Invariant(Run(s, events).value, atStart)
    decreases |events|
  {
    hide Invariant, Step;
    if events != [] {
      StepKeeps(s, events[0], atStart);
      RunKeeps(Step(s, events[0]).value, events[1..], atStart);
    }
  }

  lemma InitialInvariant(cached: bool, clock: int, wall: int)
    ensures Invariant(Initial(cached, clock, wall), cached)
  {}

  /** While no living holder's lock file has been removed as stale, at most one
      process is between creating and removing the lock file, and at most one
      download succeeds, none if the binary was there from the start. */
  lemma MutualExclusion(cached: bool, clock: int, wall: int, events: seq<Event>, p: nat, q: nat)
    requires Run(Initial(cached, clock, wall), events).Some? && !Run(Initial(cached, clock, wall), events).value.stolen
    ensures var s := Run(Initial(cached, clock, wall), events).value;
            && (Holding(s, p) && Holding(s, q) ==> p == q)
            && s.installs <= (if cached then 0 else 1) && (s.cached <==> cached || s.installs == 1)
            && (p < |s.procs| && s.procs[p].pc.Returned? ==> s.cached)
  {
    hide Run;
    InitialInvariant(cached, clock, wall);
    RunKeeps(Initial(cached, clock, wall), events, cached);
  }

  /** In every run, a process gives up exactly when a failed acquire is judged
      120 seconds or more after it entered, and judges no other after that. */
  lemma GivesUpAtDeadline(cached: bool, clock: int, wall: int, events: seq<Event>, p: nat)
    requires Run(Initial(cached, clock, wall), events).Some?
             && p < |Run(Initial(cached, clock, wall), events).value.procs|
    ensures var me := Run(Initial(cached, clock, wall), events).value.procs[p];
            && (me.pc.TimedOut? <==> exists i :: 0 <= i < |me.tries| && me.tries[i] >= me.entered + 120_000)
            && (forall i | 0 <= i < |me.tries| - 1 :: me.tries[i] < me.entered + 120_000)
  {
    hide Run, HoldersOwn, InstallsOk;
    InitialInvariant(cached, clock, wall);
    RunKeeps(Initial(cached, clock, wall), events, cached);
    var me := Run(Initial(cached, clock, wall), events).value.procs[p];
    assert TriesOk(me);
    if me.pc.TimedOut? { assert me.tries[|me.tries| - 1] >= me.deadline; }
  }

  // ----- when a stale removal breaks the lock -------------------------------

  ghost predicate TwoHolders(s: Sys) {
    exists p, q :: Holding(s, p) && Holding(s, q) && p != q
  }

  predicate Removes(s: Sys, e: Event) {
    e.Move? && e.p < |s.procs| && s.procs[e.p].pc.Unlink?
  }

  /** No lock file is removed as stale on the way. */
  predicate NoRemovals(s: Sys, events: seq<Event>)
    decreases |events|
  {
    || events == []
    || (!Removes(s, events[0]) && (Step(s, events[0]).Some? ==> NoRemovals(Step(s, events[0]).value, events[1..])))
  }

  /** Some process can still come to hold the lock. */
  ghost predicate CanAcquire(s: Sys) {
    !s.cached || exists q :: 0 <= q < |s.procs| && s.procs[q].pc.Create?
  }

  lemma OnlyRemovalsSteal(s: Sys, e: Event)
    requires Step(s, e).Some? && !Removes(s, e)
    ensures Step(s, e).value.stolen == s.stolen
  {}

  lemma {:induction false} RemovalFreeRun(s: Sys, events: seq<Event>)
    requires Run(s, events).Some? && NoRemovals(s, events)
    ensures Run(s, events).value.stolen == s.stolen
    decreases |events|
  {
    hide Step, Removes;
    if events != [] {
      OnlyRemovalsSteal(s, events[0]);
      RemovalFreeRun(Step(s, events[0]).value, events[1..]);
    }
  }

  /** The binary is there, nobody is about to create the lock file, and at most
      one process holds the lock: so it stays. */
  ghost predicate Settled(s: Sys) {
    !CanAcquire(s) && !TwoHolders(s)
  }

  lemma SettledStep(s: Sys, e: Event)
    requires Settled(s) && Step(s, e).Some?
    ensures Settled(Step(s, e).value)
  {
    var s' := Step(s, e).value;
    assert forall q | 0 <= q < |s'.procs| && (Holding(s', q) || s'.procs[q].pc.Create?) :: q < |s.procs|;
    forall q: nat | Holding(s', q) ensures Holding(s, q) {
      if q < |s.procs| { assert !s.procs[q].pc.Create?; }
    }
  }

  lemma {:induction false} SettledRun(s: Sys, events: seq<Event>)
    requires Settled(s) && Run(s, events).Some?
    ensures Settled(Run(s, events).value)
    decreases |events|
  {
    hide Step, Settled;
    if events != [] {
      SettledStep(s, events[0]);
      SettledRun(Step(s, events[0]).value, events[1..]);
    }
  }

  /** The removal of a living holder's file lets another process in. */
  lemma SecondHolder(s: Sys, p: nat) returns (events: seq<Event>)
    requires p < |s.procs| && s.procs[p].pc.Unlink? && LivingLock(s) && CanAcquire(s)
    ensures var s' := MoveStep(s, p).value;
            NoRemovals(s', events) && Run(s', events).Some? && TwoHolders(Run(s', events).value)
  {
    var s', o := MoveStep(s, p).value, s.lock.value.owner;
    if !s.cached {
      var n := |s.procs|;
      var s1 := Step(s', Enter).value;
      var s2 := Step(s1, Move(n)).value;
      var s3 := Step(s2, Move(n)).value;
      events := [Enter, Move(n), Move(n)];
      assert !Removes(s', Enter);
      NotAtUnlink(s1, n);
      NotAtUnlink(s2, n);
      ThreeSteps(s', Enter, Move(n), Move(n));
      assert Holding(s3, o) && Holding(s3, n);
    } else {
      var q :| 0 <= q < |s.procs| && s.procs[q].pc.Create?;
      var s1 := Step(s', Move(q)).value;
      events := [Move(q)];
      assert events[1..] == [] && Run(s', events) == Some(s1) by { assert Run(s1, []) == Some(s1); }
      assert NoRemovals(s1, []) && !Removes(s', Move(q)) by { NotAtUnlink(s', q); }
      assert Holding(s1, o) && Holding(s1, q);
    }
  }

  lemma NotAtUnlink(s: Sys, q: nat)
    requires q < |s.procs| ==> !s.procs[q].pc.Unlink?
    ensures !Removes(s, Move(q))
  {}

  lemma ThreeSteps(s: Sys, a: Event, b: Event, c: Event)
    requires Step(s, a).Some? && Step(Step(s, a).value, b).Some? && Step(Step(Step(s, a).value, b).value, c).Some?
    ensures Run(s, [a, b, c]) == Step(Step(Step(s, a).value, b).value, c)
    ensures !Removes(s, a) && !Removes(Step(s, a).value, b) && !Removes(Step(Step(s, a).value, b).value, c) ==>
              NoRemovals(s, [a, b, c])
  {
    hide Step, Removes;
    assert [a, b, c][1..] == [b, c] && [b, c][1..] == [c] && [c][1..] == [];
    var s1 := Step(s, a).value;
    var s2 := Step(s1, b).value;
    assert Run(s2, [c]) == Step(s2, c) by { assert Run(Step(s2, c).value, []) == Step(s2, c); }
    assert Run(s1, [b, c]) == Run(s2, [c]);
    assert NoRemovals(Step(s2, c).value, []);
    assert !Removes(s2, c) ==> NoRemovals(s2, [c]);
    assert !Removes(s1, b) && !Removes(s2, c) ==> NoRemovals(s1, [b, c]);
  }

  /** As long as nothing was stolen before: after a process removes a lock file
      it found stale, and without any further removal, two processes can hold
      the lock exactly when the file was a living holder's and another process
      can still come to create it. */
  lemma RemovalBreaksExactly(cached: bool, clock: int, wall: int, before: seq<Event>, s: Sys, p: nat)
    requires Run(Initial(cached, clock, wall), before) == Some(s) && !s.stolen && p < |s.procs| && s.procs[p].pc.Unlink?
    ensures var s' := MoveStep(s, p).value;
            (exists events :: NoRemovals(s', events) && Run(s', events).Some? && TwoHolders(Run(s', events).value))
            <==> LivingLock(s) && CanAcquire(s)
  {
    hide Run, Step, NoRemovals, InstallsOk;
    InitialInvariant(cached, clock, wall);
    RunKeeps(Initial(cached, clock, wall), before, cached);
    var s' := MoveStep(s, p).value;
    if LivingLock(s) && CanAcquire(s) {
      var events := SecondHolder(s, p);
    } else {
      forall events | NoRemovals(s', events) && Run(s', events).Some? ensures !TwoHolders(Run(s', events).value) {
        MoveKeeps(s, p, cached);
        if !LivingLock(s) {
          RunKeeps(s', events, cached);
          RemovalFreeRun(s', events);
        } else {
          SettledAfter(s, p);
          SettledRun(s', events);
        }
      }
    }
  }

  lemma MoveKeeps(s: Sys, p: nat, atStart: bool)
    requires Invariant(s, atStart) && p < |s.procs| && MoveStep(s, p).Some?
    ensures Invariant(MoveStep(s, p).value, atStart)
  {
    hide Invariant, MoveStep;
    StepKeeps(s, Move(p), atStart);
  }

  lemma SettledAfter(s: Sys, p: nat)
    requires HoldersOwn(s) && p < |s.procs| && s.procs[p].pc.Unlink? && !CanAcquire(s)
    ensures Settled(MoveStep(s, p).value)
  {
    var s' := MoveStep(s, p).value;
    assert forall q | Holding(s', q) :: Holding(s, q);
    assert forall q | 0 <= q < |s'.procs| && s'.procs[q].pc.Create? :: s.procs[q].pc.Create?;
  }

  /** A process comes to remove the lock file only when it has just found it more
      than 300 seconds old. */
  lemma RemovesOnlyOld(s: Sys, e: Event, p: nat)
    requires Step(s, e).Some? && p < |Step(s, e).value.procs| && Step(s, e).value.procs[p].pc.Unlink?
    ensures (p < |s.procs| && s.procs[p].pc.Unlink?)
            || (e == Move(p) && s.lock.Some? && s.wall - s.lock.value.touched > 300_000)
  {
    hide MoveStep;
    if e.Move? {
      MoveFrame(s, e.p);
      if e.p == p { FoundOld(s, p); }
    }
  }

  lemma FoundOld(s: Sys, p: nat)
    requires p < |s.procs| && MoveStep(s, p).Some? && p < |MoveStep(s, p).value.procs|
    requires MoveStep(s, p).value.procs[p].pc.Unlink?
    ensures s.lock.Some? && s.wall - s.lock.value.touched > 300_000
  {}

  // ----- when nothing is stolen ---------------------------------------------

  /** The wall clock never shows more than 300 seconds since the lock file's last
      change. */
  predicate YoungLock(s: Sys) {
    s.lock.Some? ==> s.wall - s.lock.value.touched <= 300_000
  }

  ghost predicate NeverStale(s: Sys, events: seq<Event>)
    decreases |events|
  {
    YoungLock(s) && (events != [] && Step(s, events[0]).Some? ==> NeverStale(Step(s, events[0]).value, events[1..]))
  }

  ghost predicate NoneRemoving(s: Sys) {
    !s.stolen && forall p | 0 <= p < |s.procs| :: !s.procs[p].pc.Unlink?
  }

  lemma YoungStep(s: Sys, e: Event)
    requires YoungLock(s) && NoneRemoving(s) && Step(s, e).Some?
    ensures NoneRemoving(Step(s, e).value)
  {}

  lemma NotStolen(s: Sys)
    requires NoneRemoving(s)
    ensures !s.stolen
  {}

  lemma {:induction false} NothingStolen(s: Sys, events: seq<Event>)
    requires NeverStale(s, events) && Run(s, events).Some? && NoneRemoving(s)
    ensures !Run(s, events).value.stolen
    decreases |events|
  {
    hide Step, NoneRemoving, YoungLock;
    if events == [] {
      assert !s.stolen by { NotStolen(s); }
    } else {
      YoungStep(s, events[0]);
      NothingStolen(Step(s, events[0]).value, events[1..]);
    }
  }

  /** Provided no lock file outlives 300 seconds, the lock is safe. */
  lemma SafeWhileYoung(cached: bool, clock: int, wall: int, events: seq<Event>, p: nat, q: nat)
    requires Run(Initial(cached, clock, wall), events).Some? && NeverStale(Initial(cached, clock, wall), events)
    ensures var s := Run(Initial(cached, clock, wall), events).value;
            (Holding(s, p) && Holding(s, q) ==> p == q) && s.installs <= (if cached then 0 else 1)
  {
    hide Run, NeverStale;
    NothingStolen(Initial(cached, clock, wall), events);
    MutualExclusion(cached, clock, wall, events, p, q);
  }

  // ----- how it fails otherwise ---------------------------------------------

  lemma RunsAreRuns()
    ensures IsRun(Step, Run)
  {
    hide Step;
    forall s, events ensures TakesFirst(Step, Run, s, events) {}
  }

  ghost predicate Reachable(s: Sys) {
    exists events :: Run(Initial(false, 0, 0), events) == Some(s)
  }

  lemma Reach(s: Sys, e: Event) returns (s': Sys)
    requires Reachable(s) && Step(s, e).Some?
    ensures s' == Step(s, e).value && Reachable(s')
  {
    hide Step;
    s' := Step(s, e).value;
    var events :| Run(Initial(false, 0, 0), events) == Some(s);
    RunsAreRuns();
    Append(Step, Run, Initial(false, 0, 0), events, [e]);
    assert [e][1..] == [];
    assert Run(s', []) == Some(s');
    assert Run(Initial(false, 0, 0), events + [e]) == Some(s');
  }

  function Waiter(pc: Pc): Process {
    Process(pc, 0, TIMEOUT, [])
  }

  /** Process 0 crashed with the lock; 1 and 2 both found its file too old. */
  lemma TwoSawStale() returns (s: Sys)
    ensures Reachable(s)
            && s == Sys([Waiter(Crashed), Waiter(Unlink), Waiter(Unlink)], Some(Lock(0, 0)), false, 300_001, 300_001,
                        0, false)
  {
    hide Reachable;
    s := Initial(false, 0, 0);
    assert Reachable(s) by { InitialReachable(); }
    s := Reach(s, Enter);
    s := Reach(s, Enter);
    s := Reach(s, Enter);
    assert s.procs == [Waiter(Look), Waiter(Look), Waiter(Look)];
    s := Reach(s, Move(0));
    s := Reach(s, Move(1));
    s := Reach(s, Move(2));
    s := Reach(s, Move(0));
    s := Reach(s, Crash(0));
    s := SeeStale(s);
  }

  lemma InitialReachable()
    ensures Reachable(Initial(false, 0, 0))
  {
    assert Run(Initial(false, 0, 0), []) == Some(Initial(false, 0, 0));
  }

  lemma SeeStale(s: Sys) returns (s': Sys)
    requires Reachable(s)
             && s == Sys([Waiter(Crashed), Waiter(Create), Waiter(Create)], Some(Lock(0, 0)), false, 0, 0, 0, false)
    ensures Reachable(s')
    ensures s' == Sys([Waiter(Crashed), Waiter(Unlink), Waiter(Unlink)], Some(Lock(0, 0)), false, 300_001, 300_001, 0,
                      false)
  {
    hide Reachable;
    s' := Reach(s, Move(1));
    s' := Reach(s', Move(2));
    s' := Reach(s', Tick(300_001, 300_001));
    s' := Reach(s', Move(1));
    s' := Reach(s', Move(2));
  }

  /** A process that enters when the lock file is gone takes the lock. */
  lemma NewcomerTakes(s: Sys) returns (s': Sys)
    requires Reachable(s) && s.lock.None? && !s.cached
    ensures Reachable(s') && s'.procs == s.procs + [Process(Download, s.clock, s.clock + TIMEOUT, [])]
    ensures s' == s.(procs := s'.procs, lock := Some(Lock(|s.procs|, s.wall)))
  {
    hide Reachable;
    s' := Reach(s, Enter);
    s' := Reach(s', Move(|s.procs|));
    s' := Reach(s', Move(|s.procs|));
    s' := Reach(s', Move(|s.procs|));
    s' := Reach(s', Move(|s.procs|));
  }

  /** A late removal hits the next holder's file: two holders, two installs; and
      the first to finish removes the file of the other. */
  lemma StaleRemovalRaces() returns (s: Sys)
    ensures Reachable(s) && s.stolen && s.installs == 2
    ensures Holding(s, 4) && s.procs[3].pc.Returned? && s.lock.None?
  {
    hide Reachable;
    s := TwoSawStale();
    s := Reach(s, Move(1));
    s := NewcomerTakes(s);
    s := Reach(s, Move(2));
    s := NewcomerTakes(s);
    assert Holding(s, 3) && Holding(s, 4);
    s := Reach(s, Move(3));
    s := Reach(s, Move(4));
    s := Reach(s, Move(3));
  }
}
