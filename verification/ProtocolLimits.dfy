/** The other halves of the conditional results about the protocol: where their
    conditions fail, some run does what they exclude. */
module ProtocolLimits {
  import opened Results
  import opened Runs
  import opened Protocol
  import opened ProtocolSafety
  import opened ProtocolSignals
  import opened ProtocolLeaders
  import opened ProtocolStops
  import opened ProtocolStarts
  import opened ProtocolRuns

  // ----- runs from a state --------------------------------------------------

  /** Some run leads from s to t without a stop being written on the way. */
  ghost predicate Leads(s: Sys, t: Sys) {
    exists events :: NoWrites(events) && Run(s, events) == Some(t)
  }

  predicate NoWrites(events: seq<Event>) {
    forall i | 0 <= i < |events| :: !events[i].DoStopWrite?
  }

  lemma Here(s: Sys)
    ensures Leads(s, s)
  {
    assert NoWrites([]) && Run(s, []) == Some(s);
  }

  lemma Go(s0: Sys, s: Sys, e: Event) returns (s': Sys)
    requires Leads(s0, s) && Step(s, e).Some? && !e.DoStopWrite?
    ensures s' == Step(s, e).value && Leads(s0, s')
  {
    hide Step;
    s' := Step(s, e).value;
    var events :| NoWrites(events) && Run(s0, events) == Some(s);
    RunsAreRuns();
    Append(Step, Run, s0, events, [e]);
    OneStep(s, e);
    assert NoWrites(events + [e]) && Run(s0, events + [e]) == Some(s');
  }

  lemma SupGo(s0: Sys, s: Sys, e: Event) returns (s': Sys)
    requires Leads(s0, s) && IsSupEvent(e) && e.g < |s.sups| && SupStep(s, e, e.g).Some?
    ensures s' == SupStep(s, e, e.g).value && Leads(s0, s')
  {
    s' := Go(s0, s, e);
  }

  lemma ClientGo(s0: Sys, s: Sys, e: Event) returns (s': Sys)
    requires Leads(s0, s) && !IsSupEvent(e) && !e.EnvSpawn? && !e.EnvExit? && !e.DoStopWrite? && ClientStep(s, e).Some?
    ensures s' == ClientStep(s, e).value && Leads(s0, s')
  {
    s' := Go(s0, s, e);
  }

  lemma EnvGo(s0: Sys, s: Sys, e: Event) returns (s': Sys)
    requires Leads(s0, s) && EnvStep(s, e).Some?
    ensures s' == EnvStep(s, e).value && Leads(s0, s')
  {
    s' := Go(s0, s, e);
  }

  lemma LeadsKeeps(s: Sys, t: Sys)
    requires Invariant(s) && Leads(s, t)
    ensures Invariant(t)
  {
    hide Invariant, Run;
    var events :| NoWrites(events) && Run(s, events) == Some(t);
    RunKeeps(s, events);
  }

  /** A live supervisor's pid is not that of any app. */
  lemma AppPidIsApart(s: Sys, g: nat, q: Proc, h: nat)
    requires Structure(s) && g < |s.sups| && h < |s.sups| && q in s.sups[g].launched && InOs(s.os, q) && Live(s.sups[h])
    ensures s.sups[h].self.pid != q.pid
  {
    OneSup(s, h);
    assert s.sups[h].self !in s.sups[g].launched;
  }

  // ----- fresh processes ----------------------------------------------------

  lemma {:induction false} BeyondPids(known: set<Proc>) returns (n: nat)
    ensures n > 0 && forall q | q in known :: q.pid < n
    decreases |known|
  {
    if known == {} { return 1; }
    var q :| q in known;
    var m := BeyondPids(known - {q});
    n := if q.pid < m then m else q.pid + 1;
    assert forall r | r in known :: r == q || r in known - {q};
  }

  lemma {:induction false} BeyondBirths(known: set<Proc>) returns (b: int)
    ensures forall q | q in known :: b - q.born > TOLERANCE
    decreases |known|
  {
    if known == {} { return 0; }
    var q :| q in known;
    var m := BeyondBirths(known - {q});
    b := if m - q.born > TOLERANCE then m else q.born + TOLERANCE + 1;
    assert forall r | r in known :: r == q || r in known - {q};
  }

  /** The system can always start a process on a pid nobody has used. */
  lemma NewProcess(s: Sys) returns (p: Proc)
    requires OsKnown(s)
    ensures IsNew(s, p)
  {
    var n := BeyondPids(s.known);
    var pid := if Held(s.client).Some? then n + Held(s.client).value + 1 else n;
    p := Proc(pid, 0);
    assert forall taken | taken in s.os :: Proc(taken, s.os[taken]) in s.known;
  }

  /** Nor is a free pid that the client does not hold ever closed to newcomers. */
  lemma Newcomer(s: Sys, pid: nat) returns (p: Proc)
    requires OsKnown(s) && pid > 0 && pid !in s.os && Held(s.client) != Some(pid)
    ensures IsNew(s, p) && p.pid == pid && p !in s.known
  {
    var b := BeyondBirths(s.known);
    p := Proc(pid, b);
    assert forall q | q in s.known :: b - q.born > TOLERANCE;
  }

  // ----- a stop that is erased ----------------------------------------------

  /** How far a supervisor is from its next clear_control, when it fails on the
      way. */
  function ToClear(pc: SupPc): nat {
    match pc
    case Boot => 0
    case Terminated => 0
    case Leaving => 1
    case Cleared => 3
    case Spawned => 3
    case Announcing => 3
    case _ => 2
  }

  function TowardClear(pc: SupPc, h: nat): Event {
    match pc
    case Boot => SupClear(h)
    case Terminated => SupFinalClear(h)
    case Leaving => SupTerminate(h, false)
    case Cleared => SupPublish(h)
    case Spawned => SupSaveApp(h, true)
    case Announcing => SupAnnounce(h)
    case Published => SupSpawnFails(h)
    case Relaunching => SupSpawnFails(h)
    case _ => SupRaises(h)
  }

  lemma NearerClear(s: Sys, h: nat)
    requires h < |s.sups| && WillClear(s.sups[h])
    ensures var pc := s.sups[h].pc;
            var r := SupStep(s, TowardClear(pc, h), h);
            && IsSupEvent(TowardClear(pc, h)) && TowardClear(pc, h).g == h && r.Some? && |r.value.sups| == |s.sups|
            && (ToClear(pc) == 0 ==> r.value == SupErases(SetSup(s, h, r.value.sups[h]), h))
            && (ToClear(pc) > 0 ==> WillClear(r.value.sups[h]) && ToClear(r.value.sups[h].pc) < ToClear(pc))
            && (ToClear(pc) > 0 ==> r.value.control == s.control)
  {
    hide IsNew, InOs, SupRecord;
  }

  /** A supervisor with a clear to come can erase the stop of another, whose own
      place it leaves alone. */
  lemma {:induction false} EraseStop(s0: Sys, s: Sys, g: nat, h: nat) returns (t: Sys)
    requires Leads(s0, s) && s.control == Some(g) && g != h && h < |s.sups| && WillClear(s.sups[h])
    ensures Leads(s0, t) && t.control.None? && g in t.hist.erased && t.hist.marks == s.hist.marks
            && t.client == s.client
    ensures |t.sups| == |s.sups| && (g < |s.sups| ==> t.sups[g] == s.sups[g])
    decreases ToClear(s.sups[h].pc)
  {
    hide SupStep, Leads;
    NearerClear(s, h);
    SupStepGrows(s, TowardClear(s.sups[h].pc, h), h);
    SupStepControl(s, TowardClear(s.sups[h].pc, h), h);
    t := SupGo(s0, s, TowardClear(s.sups[h].pc, h));
    if ToClear(s.sups[h].pc) > 0 { t := EraseStop(s0, t, g, h); }
  }

  /** No supervisor can erase this stop any more. */
  ghost predicate StopSafe(s: Sys, g: nat) {
    g !in s.hist.erased && (s.control == Some(g) ==> NoOtherClears(s, g))
  }

  lemma SafeStep(s: Sys, e: Event, g: nat)
    requires Invariant(s) && StopSafe(s, g) && Step(s, e).Some? && !e.DoStopWrite?
    ensures StopSafe(Step(s, e).value, g)
  {
    hide Structure, SignalsOk, Leaders, Starts, SupStep, ClientStep, MarkOk, AloneOk;
    if IsSupEvent(e) { SupStepControl(s, e, e.g); SupStepGrows(s, e, e.g); }
    else if !e.EnvSpawn? && !e.EnvExit? { ClientHistory(s, e); ClientTouches(s, e); ClientWaits(s, e); }
  }

  lemma {:induction false} SafeRun(s: Sys, events: seq<Event>, g: nat)
    requires Invariant(s) && StopSafe(s, g) && Run(s, events).Some? && NoWrites(events)
    ensures StopSafe(Run(s, events).value, g)
    decreases |events|
  {
    hide Invariant, StopSafe, Step;
    if events != [] {
      StepKeeps(s, events[0]);
      SafeStep(s, events[0], g);
      assert forall i | 0 <= i < |events| - 1 :: events[1..][i] == events[i + 1];
      SafeRun(Step(s, events[0]).value, events[1..], g);
    }
  }

  /** A stop on disk can be erased by another supervisor, before a new one is
      written, exactly when another supervisor has a clear still to come. */
  lemma StopErasedExactly(s: Sys, g: nat)
    requires Reachable(s) && s.control == Some(g)
    ensures (exists t :: Leads(s, t) && g in t.hist.erased) <==> !NoOtherClears(s, g)
  {
    hide Reachable, Structure, SignalsOk, Leaders, Starts;
    ReachableInvariant(s);
    if NoOtherClears(s, g) {
      forall t | Leads(s, t) ensures g !in t.hist.erased {
        var events :| NoWrites(events) && Run(s, events) == Some(t);
        SafeRun(s, events, g);
      }
    } else {
      var h :| 0 <= h < |s.sups| && h != g && WillClear(s.sups[h]);
      Here(s);
      var t := EraseStop(s, s, g, h);
    }
  }

  /** How far a supervisor that sees no stop is from its next launch. */
  function ToLaunch(pc: SupPc): nat {
    match pc
    case Spawned => 4
    case LoopHead => 3
    case Checked => 2
    case Announcing => 1
    case _ => 0
  }

  /** The places a run of launches goes through. */
  predicate RunsOn(s: Sys, g: nat) {
    s.control.None? && g < |s.sups| && WillRead(s.sups[g].pc) && !s.sups[g].term
  }

  /** An app that supervisor g launched is alive. */
  ghost predicate AppAlive(s: Sys, g: nat) {
    g < |s.sups| && exists q :: q in s.sups[g].launched && InOs(s.os, q)
  }

  /** What changes for supervisor g on its way to a launch, and what does not. */
  predicate Onward(s: Sys, t: Sys, g: nat)
    requires g < |s.sups|
  {
    && |t.sups| == |s.sups| && t.control == s.control && t.client == s.client && t.hist == s.hist
    && t.sups[g].term == s.sups[g].term && t.sups[g].self == s.sups[g].self
  }

  /** The app has exited, or is made to exit. */
  lemma AppExits(s0: Sys, s: Sys, g: nat) returns (t: Sys)
    requires Invariant(s) && Leads(s0, s) && g < |s.sups| && s.sups[g].pc.Checked?
    ensures Leads(s0, t) && Onward(s, t, g) && t.sups[g].pc.Announcing? && t.sups[g].launches == s.sups[g].launches
  {
    hide Leads, Structure, SignalsOk, Stops, Starts;
    assert LeaderOk(s, s.sups[g]);
    OneSup(s, g);
    t := s;
    var q := s.sups[g].leader.value;
    if InOs(s.os, q) {
      forall h | 0 <= h < |s.sups| && Live(s.sups[h]) ensures s.sups[h].self.pid != q.pid { AppPidIsApart(s, g, q, h); }
      t := EnvGo(s0, s, EnvExit(q.pid));
    }
    t := SupGo(s0, t, SupSeesExit(g, true));
  }

  /** From a place before a launch the launch comes, stop or no stop. */
  lemma {:induction false} NextLaunch(s0: Sys, s: Sys, g: nat) returns (t: Sys)
    requires Invariant(s0) && Leads(s0, s) && g < |s.sups| && WillLaunch(s.sups[g].pc)
    ensures Leads(s0, t) && Onward(s, t, g) && t.sups[g].pc.Spawned? && t.sups[g].launches == s.sups[g].launches + 1
    ensures AppAlive(t, g)
    decreases ToLaunch(s.sups[g].pc)
  {
    hide Leads, Invariant, AppAlive;
    LeadsKeeps(s0, s);
    if s.sups[g].pc.Checked? {
      t := AppExits(s0, s, g);
      t := NextLaunch(s0, t, g);
    } else if s.sups[g].pc.Announcing? {
      t := SupGo(s0, s, SupAnnounce(g));
      t := NextLaunch(s0, t, g);
    } else {
      t := LaunchNow(s0, s, g);
    }
  }

  lemma LaunchNow(s0: Sys, s: Sys, g: nat) returns (t: Sys)
    requires Invariant(s) && Leads(s0, s) && g < |s.sups| && (s.sups[g].pc.Published? || s.sups[g].pc.Relaunching?)
    ensures Leads(s0, t) && Onward(s, t, g) && t.sups[g].pc.Spawned? && t.sups[g].launches == s.sups[g].launches + 1
    ensures AppAlive(t, g)
  {
    hide Leads, Invariant, OsKnown, IsNew;
    ProcessesKnown(s);
    var p := NewProcess(s);
    t := SupGo(s0, s, SupSpawn(g, p));
    assert p in t.sups[g].launched && InOs(t.os, p);
  }

  /** While no stop is to be read, a supervisor that will read comes to its next
      launch. */
  lemma {:induction false} OneMoreLaunch(s0: Sys, s: Sys, g: nat) returns (t: Sys)
    requires Invariant(s0) && Leads(s0, s) && RunsOn(s, g)
    ensures Leads(s0, t) && RunsOn(t, g) && Onward(s, t, g) && t.sups[g].launches == s.sups[g].launches + 1
    ensures AppAlive(t, g) && t.sups[g].pc.Spawned?
    decreases ToLaunch(s.sups[g].pc)
  {
    hide Leads, Invariant, AppAlive;
    match s.sups[g].pc
    case Spawned =>
      t := SupGo(s0, s, SupSaveApp(g, true));
      t := OneMoreLaunch(s0, t, g);
    case LoopHead =>
      t := SupGo(s0, s, SupReadControl(g));
      t := OneMoreLaunch(s0, t, g);
    case _ => t := NextLaunch(s0, s, g);
  }

  lemma ProcessesKnown(s: Sys)
    requires Invariant(s)
    ensures OsKnown(s)
  {}

  lemma {:induction false} ManyLaunches(s0: Sys, s: Sys, g: nat, n: nat) returns (t: Sys)
    requires Invariant(s0) && Leads(s0, s) && RunsOn(s, g)
    ensures Leads(s0, t) && RunsOn(t, g) && t.sups[g].launches == s.sups[g].launches + n && t.hist == s.hist
    decreases n
  {
    hide Leads, Invariant, RunsOn, AppAlive;
    t := s;
    if n > 0 {
      t := OneMoreLaunch(s0, s, g);
      t := ManyLaunches(s0, t, g, n - 1);
    }
  }

  /** While a stop is on disk for a supervisor that will still read, more than
      one launch after it can happen exactly when another supervisor has a clear
      still to come; and then any number can. */
  lemma LaunchesBoundedExactly(s: Sys, g: nat, n: nat)
    requires Reachable(s) && s.control == Some(g) && g < |s.sups| && WillRead(s.sups[g].pc) && !s.sups[g].term && n > 1
    ensures g in s.hist.marks
    ensures (exists t :: Leads(s, t) && MoreLaunches(t, g, s.hist.marks[g] + n)) <==> !NoOtherClears(s, g)
  {
    hide Reachable, Structure, SignalsOk, Leaders, Starts;
    ReachableInvariant(s);
    if NoOtherClears(s, g) {
      forall t | Leads(s, t) ensures !MoreLaunches(t, g, s.hist.marks[g] + n) { BoundKept(s, t, g); }
    } else {
      var h :| 0 <= h < |s.sups| && h != g && WillClear(s.sups[h]);
      Here(s);
      var t := EraseStop(s, s, g, h);
      t := ManyLaunches(s, t, g, s.hist.marks[g] + n);
      assert MoreLaunches(t, g, s.hist.marks[g] + n);
    }
  }

  predicate MoreLaunches(t: Sys, g: nat, n: nat) {
    g < |t.sups| && t.sups[g].launches >= n
  }

  lemma BoundKept(s: Sys, t: Sys, g: nat)
    requires Invariant(s) && s.control == Some(g) && NoOtherClears(s, g) && Leads(s, t)
    ensures g in s.hist.marks && g < |t.sups| && t.sups[g].launches <= s.hist.marks[g] + 1
  {
    hide Structure, SignalsOk, Leaders, Starts;
    var events :| NoWrites(events) && Run(s, events) == Some(t);
    SafeRun(s, events, g);
    RunKeeps(s, events);
    MarksStay(s, events);
    assert MarkOk(t, g);
  }

  lemma {:induction false} MarksStay(s: Sys, events: seq<Event>)
    requires Run(s, events).Some? && NoWrites(events)
    ensures Run(s, events).value.hist.marks == s.hist.marks
    decreases |events|
  {
    if events != [] {
      MarksStep(s, events[0]);
      assert forall i | 0 <= i < |events| - 1 :: events[1..][i] == events[i + 1];
      MarksStay(Step(s, events[0]).value, events[1..]);
    }
  }

  lemma MarksStep(s: Sys, e: Event)
    requires Step(s, e).Some? && !e.DoStopWrite?
    ensures Step(s, e).value.hist.marks == s.hist.marks
  {
    hide SupStep, ClientStep;
    if IsSupEvent(e) { SupStepControl(s, e, e.g); }
    else if !e.EnvSpawn? && !e.EnvExit? { ClientHistory(s, e); }
  }

  // ----- a signal that strays -----------------------------------------------

  /** Whatever holds a pid can end. */
  lemma FreePid(s0: Sys, s: Sys, pid: nat) returns (t: Sys)
    requires Invariant(s0) && Leads(s0, s)
    ensures Leads(s0, t) && t.os == s.os - {pid} && t.known == s.known && t.client == s.client && t.hist == s.hist
    ensures |t.sups| == |s.sups| && t.runtime == s.runtime
    ensures forall h | 0 <= h < |s.sups| :: t.sups[h].launched == s.sups[h].launched
                                           && t.sups[h].self == s.sups[h].self
                                           && (Live(t.sups[h]) ==> t.sups[h].self.pid != pid)
  {
    hide Leads, SignalsOk, Leaders, Stops, Starts, RecordsOk, Spaced;
    LeadsKeeps(s0, s);
    t := s;
    if h :| 0 <= h < |s.sups| && Live(s.sups[h]) && s.sups[h].self.pid == pid {
      forall k | 0 <= k < |s.sups| && k != h && Live(s.sups[k]) ensures s.sups[k].self.pid != pid {
        OneSup(s, h);
        OneSup(s, k);
      }
      t := SupGo(s0, s, SupCrash(h));
    } else if pid in s.os {
      t := EnvGo(s0, s, EnvExit(pid));
    }
  }

  /** A stranger can come to hold any pid the client is not about to signal. */
  lemma StrangerTakes(s0: Sys, s: Sys, pid: nat) returns (t: Sys, p: Proc)
    requires Invariant(s0) && Leads(s0, s) && pid > 0 && Held(s.client) != Some(pid)
    ensures Leads(s0, t) && InOs(t.os, p) && p.pid == pid && p !in s.known && t.client == s.client && t.hist == s.hist
  {
    hide Leads, Invariant, OsKnown;
    t := FreePid(s0, s, pid);
    LeadsKeeps(s0, t);
    ProcessesKnown(t);
    p := Newcomer(t, pid);
    t := EnvGo(s0, t, EnvSpawn(p));
  }

  /** The client carries out one step of _force_terminate. */
  lemma ForceGo(s0: Sys, s: Sys, f: Force) returns (t: Sys)
    requires Leads(s0, s) && ClientForce(s.client) == Some(f)
    ensures Leads(s0, t) && t == ForceStep(s, f).0.(client := t.client)
    ensures ForceStep(s, f).1.Some? ==> ClientForce(t.client) == ForceStep(s, f).1
  {
    hide ForceStep, Leads;
    t := ClientGo(s0, s, DoForce);
  }

  /** An untimed check of a pid in use never fails, so the rounds run out. */
  lemma {:induction false} PollsRunOut(s0: Sys, s: Sys, f: Force, n: nat) returns (t: Sys)
    requires Leads(s0, s) && ClientForce(s.client) == Some(f) && f.stage == Poll(n)
    requires !f.timed && f.target.pid > 0 && f.target.pid in s.os
    ensures Leads(s0, t) && ClientForce(t.client) == Some(f.(stage := SendKill)) && t == s.(client := t.client)
    decreases n
  {
    hide Leads;
    t := ForceGo(s0, s, f);
    if n > 1 { t := PollsRunOut(s0, t, f.(stage := Poll(n - 1)), n - 1); }
  }

  /** The next signal in t after s is the one force f was about, on process x. */
  predicate NextHits(s: Sys, t: Sys, f: Force, x: Proc) {
    exists kill :: t.hist.signals == s.hist.signals + [Signal(f.target, f.timed, Some(x), kill)]
  }

  /** With a check still to come, the next signal of a force can reach another
      process than its target exactly when no create time was recorded. */
  lemma SignalStraysExactly(s: Sys, f: Force)
    requires Reachable(s) && ClientForce(s.client) == Some(f) && (f.stage.Check? || f.stage.Poll?)
    ensures (exists t, x :: Leads(s, t) && NextHits(s, t, f, x) && x != f.target) <==> !f.timed
  {
    hide Reachable, Leads, Invariant, ForceStep, Ours;
    ReachableInvariant(s);
    if f.timed {
      forall t, x | Leads(s, t) && NextHits(s, t, f, x) ensures x == f.target { TimedHits(s, t, f, x); }
    } else {
      TargetIsOurs(s, f);
      Here(s);
      var t, x := Strays(s, f);
    }
  }

  lemma TimedHits(s: Sys, t: Sys, f: Force, x: Proc)
    requires Invariant(s) && Leads(s, t) && NextHits(s, t, f, x) && f.timed
    ensures x == f.target
  {
    hide Structure, Stops, Starts, Leaders, Ours, Leads;
    LeadsKeeps(s, t);
    assert SignalOk(t, t.hist.signals[|s.hist.signals|]);
  }

  lemma TargetIsOurs(s: Sys, f: Force)
    requires Invariant(s) && ClientForce(s.client) == Some(f)
    ensures f.target.pid > 0 && f.target in s.known
  {
    hide Stops, Starts;
    assert ForceOk(s, f);
    var g :| 0 <= g < |s.sups| && OwnedBy(s.sups[g], f.target);
    assert LeaderOk(s, s.sups[g]);
    OneSup(s, g);
  }

  lemma Strays(s: Sys, f: Force) returns (t: Sys, x: Proc)
    requires Invariant(s) && Leads(s, s) && ClientForce(s.client) == Some(f) && (f.stage.Check? || f.stage.Poll?)
    requires !f.timed && f.target.pid > 0 && f.target in s.known
    ensures Leads(s, t) && NextHits(s, t, f, x) && x != f.target
  {
    hide Leads, Invariant;
    t, x := StrangerTakes(s, s, f.target.pid);
    var now := f;
    if f.stage.Check? {
      t := ForceGo(s, t, f);
      now := f.(stage := SendTerm);
    } else {
      t := PollsRunOut(s, t, f, f.stage.n);
      now := f.(stage := SendKill);
    }
    t := ForceGo(s, t, now);
  }

  // ----- an app a stop leaves behind ----------------------------------------

  /** The stop is over: the state is saved as stopped, without an app. */
  predicate StopOver(t: Sys) {
    t.client.Idle? && t.runtime.Some? && t.runtime.value.status.Stopped? && t.runtime.value.app.None?
  }

  lemma {:induction false} EndedRun(s: Sys, events: seq<Event>, q: Proc)
    requires Run(s, events).Some? && q in s.known && !InOs(s.os, q)
    ensures !InOs(Run(s, events).value.os, q)
    decreases |events|
  {
    hide Step, InOs;
    if events != [] {
      EndedStaysEnded(s, events[0], q);
      EndedRun(Step(s, events[0]).value, events[1..], q);
    }
  }

  /** Another launch can still come, although a stop was written: it is next
      anyway, or the stop is erased or can be before it is read. */
  predicate CanLaunch(s: Sys, g: nat) {
    && g < |s.sups|
    && (|| WillLaunch(s.sups[g].pc)
        || (WillRead(s.sups[g].pc) && !s.sups[g].term && (s.control != Some(g) || !NoOtherClears(s, g))))
  }

  /** No app of supervisor g is alive, and none will be. */
  ghost predicate Barren(s: Sys, g: nat) {
    g < |s.sups| && !BeforePublishing(s.sups[g].pc) && !AppAlive(s, g) && !CanLaunch(s, g)
  }

  lemma OwnBarren(s: Sys, e: Event, g: nat)
    requires Barren(s, g) && IsSupEvent(e) && e.g == g && SupStep(s, e, g).Some?
    ensures !CanLaunch(SupStep(s, e, g).value, g) && !BeforePublishing(SupStep(s, e, g).value.sups[g].pc)
    ensures SupStep(s, e, g).value.sups[g].launched == s.sups[g].launched
  {
    hide AppAlive, IsNew, InOs, SupRecord;
  }

  lemma OtherBarren(s: Sys, e: Event, g: nat)
    requires Barren(s, g) && Stops(s) && IsSupEvent(e) && e.g != g && e.g < |s.sups| && SupStep(s, e, e.g).Some?
    ensures !CanLaunch(SupStep(s, e, e.g).value, g)
  {
    hide AppAlive, SupStep, MarkOk, AloneOk;
    SupStepControl(s, e, e.g);
    SupStepGrows(s, e, e.g);
  }

  /** The client is not where it starts a supervisor or clears the control file
      while one that will read a stop is alive. */
  lemma ClientBarren(s: Sys, e: Event, s': Sys, g: nat)
    requires Invariant(s) && Barren(s, g) && ClientStep(s, e) == Some(s') && g < |s'.sups| && !e.DoStopWrite?
    ensures !CanLaunch(s', g) && !BeforePublishing(s'.sups[g].pc) && s'.sups[g].launched == s.sups[g].launched
  {
    hide AppAlive, ClientStep, Structure, SignalsOk, Leaders, Starts, MarkOk, AloneOk;
    ClientTouches(s, e);
    ClientWaits(s, e);
    if s.control == Some(g) && WillRead(s'.sups[g].pc) {
      assert MarkOk(s, g);
      StillWaiting(s, g);
      WaitsUntilEnded(s, e, g);
    }
  }

  lemma StillWaiting(s: Sys, g: nat)
    requires g in s.hist.marks && MarkOk(s, g) && Live(s.sups[g])
    ensures Waiting(s.client) == Some(g) && !s.client.StopClear?
  {}

  lemma BarrenStep(s: Sys, e: Event, g: nat)
    requires Invariant(s) && Barren(s, g) && Step(s, e).Some? && !e.DoStopWrite?
    ensures Barren(Step(s, e).value, g)
  {
    hide Structure, SignalsOk, Leaders, Stops, Starts, SupStep, ClientStep, CanLaunch, InOs;
    var s' := Step(s, e).value;
    OneSup(s, g);
    if IsSupEvent(e) {
      SupStepGrows(s, e, e.g);
      if e.g == g { OwnBarren(s, e, g); } else { OtherBarren(s, e, g); }
    } else if e.EnvSpawn? || e.EnvExit? {
      EnvBarren(s, e, g);
    } else {
      ClientTouches(s, e);
      ClientBarren(s, e, s', g);
    }
    forall q | q in s.sups[g].launched ensures !InOs(s'.os, q) { EndedStaysEnded(s, e, q); }
  }

  lemma EnvBarren(s: Sys, e: Event, g: nat)
    requires !CanLaunch(s, g) && EnvStep(s, e).Some?
    ensures !CanLaunch(EnvStep(s, e).value, g) && EnvStep(s, e).value.sups == s.sups
  {}

  lemma {:induction false} BarrenRun(s: Sys, events: seq<Event>, g: nat)
    requires Invariant(s) && Barren(s, g) && Run(s, events).Some? && NoWrites(events)
    ensures Barren(Run(s, events).value, g)
    decreases |events|
  {
    hide Invariant, Barren, Step;
    if events != [] {
      StepKeeps(s, events[0]);
      BarrenStep(s, events[0], g);
      assert forall i | 0 <= i < |events| - 1 :: events[1..][i] == events[i + 1];
      BarrenRun(Step(s, events[0]).value, events[1..], g);
    }
  }

  /** While the client waits for its stop, an app of that supervisor can be alive
      when the stop is over, with none recorded, exactly when one is alive now or
      the supervisor can still launch one. */
  lemma StopLeavesAppExactly(s: Sys)
    requires Reachable(s) && s.client.StopPoll?
    ensures var g := s.client.rec.gen;
            (exists t :: Leads(s, t) && StopOver(t) && AppAlive(t, g)) <==> AppAlive(s, g) || CanLaunch(s, g)
  {
    hide Reachable, Structure, SignalsOk, Leaders, Stops, Starts, AppAlive, CanLaunch, StopOver;
    ReachableInvariant(s);
    var g := s.client.rec.gen;
    Here(s);
    StopNames(s);
    if AppAlive(s, g) {
      var t := LeavesApp(s, s);
    } else if CanLaunch(s, g) {
      var t := LaunchesStill(s);
      t := LeavesApp(s, t);
    } else {
      forall t | Leads(s, t) ensures !AppAlive(t, g) {
        var events :| NoWrites(events) && Run(s, events) == Some(t);
        BarrenRun(s, events, g);
      }
    }
  }

  lemma StopNames(s: Sys)
    requires Structure(s) && s.client.StopPoll?
    ensures var r := s.client.rec;
            r.gen < |s.sups| && r.sup == s.sups[r.gen].self && !BeforePublishing(s.sups[r.gen].pc)
  {}

  lemma LaunchesStill(s: Sys) returns (t: Sys)
    requires Invariant(s) && Leads(s, s) && s.client.StopPoll? && CanLaunch(s, s.client.rec.gen)
    ensures Leads(s, t) && t.client == s.client && AppAlive(t, s.client.rec.gen)
  {
    hide Leads, Structure, SignalsOk, Leaders, Starts, AppAlive, MarkOk, AloneOk;
    var g := s.client.rec.gen;
    if WillLaunch(s.sups[g].pc) {
      t := NextLaunch(s, s, g);
    } else {
      t := s;
      if s.control == Some(g) {
        var h :| 0 <= h < |s.sups| && h != g && WillClear(s.sups[h]);
        t := EraseStop(s, s, g, h);
      }
      t := OneMoreLaunch(s, t, g);
    }
  }

  lemma LeavesApp(s0: Sys, s: Sys) returns (t: Sys)
    requires Invariant(s0) && Leads(s0, s) && s.client.StopPoll? && AppAlive(s, s.client.rec.gen)
    ensures Leads(s0, t) && StopOver(t) && AppAlive(t, s.client.rec.gen)
  {
    hide Leads, Structure, SignalsOk, Stops, Starts;
    LeadsKeeps(s0, s);
    var r := s.client.rec;
    var q :| q in s.sups[r.gen].launched && InOs(s.os, q);
    assert LeaderOk(s, s.sups[r.gen]);
    StopNames(s);
    t := FreePid(s0, s, r.sup.pid);
    assert q in t.sups[r.gen].launched && InOs(t.os, q);
    t := StopFinishes(s0, t);
    assert q in t.sups[r.gen].launched && InOs(t.os, q);
  }

  /** The rest of stop_local_service once nothing has the supervisor's pid. */
  lemma StopFinishes(s0: Sys, s: Sys) returns (t: Sys)
    requires Leads(s0, s) && s.client.StopPoll? && s.client.rec.sup.pid !in s.os
    ensures Leads(s0, t) && StopOver(t) && t.os == s.os && t.sups == s.sups
  {
    hide Leads;
    t := ClientGo(s0, s, DoStopPoll(true));
    t := ClientGo(s0, t, DoStopFinal);
    t := ClientGo(s0, t, DoStopClear);
    t := ClientGo(s0, t, DoStopReload);
    t := ClientGo(s0, t, DoStopSave);
  }

  /** Once the client has waited for a supervisor, an app of it is alive only if
      the supervisor died or the system refused to terminate the app. */
  lemma AppLeftMeans(s: Sys, g: nat, q: Proc)
    requires Reachable(s) && g in s.hist.marks && (Waiting(s.client) != Some(g) || s.client.StopClear?)
    requires g < |s.sups| && q in s.sups[g].launched && InOs(s.os, q)
    ensures s.sups[g].pc.Dead? || (s.sups[g].pc.Done? && s.sups[g].refused)
  {
    hide Reachable, Structure, SignalsOk, Starts;
    ReachableInvariant(s);
    assert MarkOk(s, g) && LeaderOk(s, s.sups[g]);
  }

  /** It happens even to an app launched after the stop was written: the
      supervisor is about to launch again when the client writes, and dies. */
  lemma LaunchAfterStop() returns (s: Sys, t: Sys)
    ensures Reachable(s) && s.client.StopPoll? && s.client.rec.gen == 0 && s.control == Some(0) && !AppAlive(s, 0)
    ensures Leads(s, t) && StopOver(t) && AppAlive(t, 0)
  {
    hide Reachable, Leads, Invariant;
    InitialReachable(map[]);
    s := StartAndGiveUp(Initial(map[]), Proc(1, 0));
    s := Launch(s, 0, Proc(2, 0), true);
    s := ExitSeen(s, 0, Proc(2, 0));
    assert s.os == map[1 := 0] && s.sups[0].launched == {Proc(2, 0)};
    s := StopWritten(s, s.runtime.value);
    ReachableInvariant(s);
    Here(s);
    t := LaunchesStill(s);
    t := LeavesApp(s, t);
  }

  /** A supervisor about to terminate its app can be done while an app it launched
      lives exactly when that app is alive now: the system may refuse both
      signals. */
  lemma AppOutlivesExactly(s: Sys, g: nat, q: Proc)
    requires Reachable(s) && g < |s.sups| && s.sups[g].pc.Leaving? && q in s.sups[g].launched
    ensures (exists t :: Leads(s, t) && DoneBeside(t, g, q)) <==> InOs(s.os, q)
  {
    hide Reachable, Structure, SignalsOk, Stops, Starts;
    ReachableInvariant(s);
    OneSup(s, g);
    if InOs(s.os, q) {
      assert LeaderOk(s, s.sups[g]);
      Here(s);
      var t := LeaveRefused(s, g, q);
    } else {
      forall t | Leads(s, t) ensures !InOs(t.os, q) {
        var events :| NoWrites(events) && Run(s, events) == Some(t);
        EndedRun(s, events, q);
      }
    }
  }

  lemma LeaveRefused(s: Sys, g: nat, q: Proc) returns (t: Sys)
    requires Leads(s, s) && g < |s.sups| && s.sups[g].pc.Leaving? && InOs(s.os, q) && q.pid != s.sups[g].self.pid
    ensures Leads(s, t) && DoneBeside(t, g, q)
  {
    hide Leads;
    t := SupGo(s, s, SupTerminate(g, true));
    t := SupGo(s, t, SupFinalClear(g));
    t := SupGo(s, t, SupFinalSave(g));
    t := SupGo(s, t, SupExit(g));
  }

  predicate DoneBeside(t: Sys, g: nat, q: Proc) {
    g < |t.sups| && t.sups[g].pc.Done? && InOs(t.os, q)
  }
}
