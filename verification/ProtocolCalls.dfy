/** What the calls of start and stop do and do not do, over every run: no start
    launches beside a recorded supervisor that is alive, a stop kills the app it
    finds recorded, and SIGKILL comes only after SIGTERM. */
module ProtocolCalls {
  import opened Results
  import opened Protocol
  import opened ProtocolSafety
  import opened ProtocolSignals
  import opened ProtocolStops
  import opened ProtocolStarts
  import opened ProtocolLeaders
  import opened ProtocolRuns
  import opened ProtocolLimits

  // ----- start --------------------------------------------------------------

  /** The check of this call found the recorded supervisor alive: its pid in use
      and, where a create time was recorded, started within 0.05 seconds of it. */
  predicate FoundRunning(c: StartCall) {
    && c.runtime.Some?
    && var r := c.runtime.value;
       && r.sup.pid > 0 && r.sup.pid in c.os
       && (r.supTimed ==> -50 <= c.os[r.sup.pid] - r.sup.born <= 50)
  }

  predicate Starting(c: Client) {
    c.StartPrev? || c.StartClear? || c.StartSpawn?
  }

  ghost predicate LaunchedBy(s: Sys, g: nat, i: int) {
    0 <= i < |s.hist.starts| && s.hist.starts[i].launched == Some(g)
  }

  ghost predicate WasLaunched(s: Sys, g: nat) {
    exists i :: LaunchedBy(s, g, i) && !FoundRunning(s.hist.starts[i])
  }

  /** A call that found its supervisor running launched none; every supervisor was
      launched by one call; and a call about to launch is the last one. */
  ghost predicate CallsOk(s: Sys) {
    && (forall i | 0 <= i < |s.hist.starts| && FoundRunning(s.hist.starts[i]) :: s.hist.starts[i].launched.None?)
    && (forall i | 0 <= i < |s.hist.starts| && s.hist.starts[i].launched.Some? ::
          s.hist.starts[i].launched.value < |s.sups|)
    && (forall g: nat | g < |s.sups| :: WasLaunched(s, g))
    && (forall g: nat, i, j | LaunchedBy(s, g, i) && LaunchedBy(s, g, j) :: i == j)
    && (Starting(s.client) ==>
          && s.hist.starts != [] && s.hist.starts[|s.hist.starts| - 1].launched.None?
          && !FoundRunning(s.hist.starts[|s.hist.starts| - 1]))
  }

  /** All a step does to the calls: a check is added, a launch is noted, or none. */
  ghost predicate CallsMove(s: Sys, e: Event, s': Sys) {
    || (s'.hist.starts == s.hist.starts && |s'.sups| == |s.sups| && (Starting(s'.client) ==> Starting(s.client)))
    || (s'.hist.starts == s.hist.starts + [StartCall(s.os, s.runtime, None)] && s'.sups == s.sups
        && (Starting(s'.client) ==> !FoundRunning(StartCall(s.os, s.runtime, None))))
    || (Starting(s.client) && !Starting(s'.client) && |s'.sups| == |s.sups| + 1
        && s'.hist.starts == Launched(s.hist.starts, |s.sups|))
  }

  lemma ClientCalls(s: Sys, e: Event)
    requires ClientStep(s, e).Some?
    ensures CallsMove(s, e, ClientStep(s, e).value)
  {
    hide ForceStep;
    if e.DoForce? { ForceTouches(s, ClientForce(s.client).value); }
  }

  lemma StepCalls(s: Sys, e: Event)
    requires Step(s, e).Some?
    ensures CallsMove(s, e, Step(s, e).value)
  {
    hide SupStep, ClientStep;
    if IsSupEvent(e) {
      SupStepGrows(s, e, e.g);
      SupStepHistory(s, e, e.g);
    } else if !e.EnvSpawn? && !e.EnvExit? {
      ClientCalls(s, e);
    }
  }

  lemma StepKeepsCalls(s: Sys, e: Event)
    requires CallsOk(s) && Step(s, e).Some?
    ensures CallsOk(Step(s, e).value)
  {
    hide Step, FoundRunning;
    var s' := Step(s, e).value;
    StepCalls(s, e);
    var n := |s.hist.starts|;
    if s'.hist.starts == s.hist.starts && |s'.sups| == |s.sups| {
      forall g: nat, i ensures LaunchedBy(s', g, i) <==> LaunchedBy(s, g, i) {}
    } else if |s'.hist.starts| == n + 1 {
      forall g: nat, i ensures LaunchedBy(s', g, i) <==> LaunchedBy(s, g, i) {}
    } else {
      forall g: nat, i ensures LaunchedBy(s', g, i) <==> if i == n - 1 then g == |s.sups| else LaunchedBy(s, g, i) {}
      SameFound(s.hist.starts[n - 1], |s.sups|);
      assert LaunchedBy(s', |s.sups|, n - 1);
    }
    forall g: nat | g < |s.sups| ensures WasLaunched(s', g) {
      assert WasLaunched(s, g);
      var i :| LaunchedBy(s, g, i) && !FoundRunning(s.hist.starts[i]);
      assert LaunchedBy(s', g, i) && s'.hist.starts[i] == s.hist.starts[i];
    }
  }

  /** What the check found does not change when the launch is noted. */
  lemma SameFound(c: StartCall, g: nat)
    ensures FoundRunning(c.(launched := Some(g))) <==> FoundRunning(c)
  {}

  lemma {:induction false} RunKeepsCalls(s: Sys, events: seq<Event>)
    requires CallsOk(s) && Run(s, events).Some?
    ensures CallsOk(Run(s, events).value)
    decreases |events|
  {
    hide CallsOk, Step;
    if events != [] {
      StepKeepsCalls(s, events[0]);
      RunKeepsCalls(Step(s, events[0]).value, events[1..]);
    }
  }

  /** In every run, a start whose check finds the recorded supervisor alive
      launches none, and every supervisor was launched by exactly one start, whose
      check found none alive. */
  lemma StartHeedsRunning(s: Sys)
    requires Reachable(s)
    ensures forall i | 0 <= i < |s.hist.starts| && FoundRunning(s.hist.starts[i]) :: s.hist.starts[i].launched.None?
    ensures forall g: nat | g < |s.sups| :: WasLaunched(s, g)
    ensures forall g: nat, i, j | LaunchedBy(s, g, i) && LaunchedBy(s, g, j) :: i == j
  {
    hide Run, FoundRunning;
    var os, events :| Run(Initial(os), events) == Some(s);
    RunKeepsCalls(Initial(os), events);
  }

  /** The check is recorded as it was made, and changes nothing else; the call ends
      there exactly when the recorded supervisor is alive. */
  lemma CheckEndsExactly(s: Sys)
    requires s.client.StartCheck?
    ensures var r := Step(s, DoStartCheck);
            && r.Some? && r.value == s.(client := r.value.client, hist := r.value.hist)
            && r.value.hist == s.hist.(starts := s.hist.starts + [StartCall(s.os, s.runtime, None)])
            && (r.value.client.Idle? <==> FoundRunning(StartCall(s.os, s.runtime, None)))
            && (!r.value.client.Idle? ==> r.value.client.StartPrev?)
  {}

  /** A poll ends the call exactly on a state of another generation than the one
      recorded before that is failed, stopped, running or degraded, and returns
      exactly the last two. */
  lemma PollEndsExactly(s: Sys)
    requires s.client.StartPoll?
    ensures var r := Step(s, DoStartPoll);
            && r.Some?
            && (r.value.client.Idle? <==>
                 s.runtime.Some? && Some(s.runtime.value.gen) != s.client.prev
                 && s.runtime.value.status in {Failed, Stopped, Running, Degraded})
            && (|r.value.hist.returned| > |s.hist.returned| <==>
                 s.runtime.Some? && Some(s.runtime.value.gen) != s.client.prev
                 && s.runtime.value.status in {Running, Degraded})
            && (r.value.client.Idle? || r.value == s)
  {}

  // ----- stop ---------------------------------------------------------------

  /** The record this call of stop is still to force an app of. */
  predicate ForcesApp(c: Client) {
    match c
    case OrphanForce(r, f) => Some(f.target) == r.app
    case ForceApp(r, f) => Some(f.target) == r.app
    case _ => true
  }

  /** Past forcing the app, the recorded app has ended. */
  predicate AppForced(s: Sys) {
    match s.client
    case OrphanSave(r) => r.app.Some? ==> !InOs(s.os, r.app.value)
    case ForceSup(r, _) => r.app.Some? ==> !InOs(s.os, r.app.value)
    case _ => true
  }

  ghost predicate KillsOk(s: Sys) {
    ForcesApp(s.client) && AppForced(s) && TermsOk(s)
  }

  /** A SIGKILL comes right after a SIGTERM for the same process. */
  predicate KillAfterTerm(signals: seq<Signal>, i: nat)
    requires i < |signals|
  {
    signals[i].kill ==> i > 0 && !signals[i - 1].kill && signals[i - 1].target == signals[i].target
  }

  predicate TermSent(signals: seq<Signal>, target: Proc) {
    signals != [] && !signals[|signals| - 1].kill && signals[|signals| - 1].target == target
  }

  ghost predicate TermsOk(s: Sys) {
    && (forall i: nat | i < |s.hist.signals| :: KillAfterTerm(s.hist.signals, i))
    && (match ClientForce(s.client)
        case Some(f) => f.stage.Poll? || f.stage.SendKill? ==> TermSent(s.hist.signals, f.target)
        case None => true)
  }

  /** _force_terminate is done with a process only when that has ended. */
  lemma ForceDone(s: Sys, f: Force)
    requires f.target.pid > 0 && ForceStep(s, f).1.None?
    ensures !InOs(ForceStep(s, f).0.os, f.target)
  {
    assert Distance(f.target.born, f.target.born) == 0;
  }

  lemma ForceKeepsKills(s: Sys, e: Event)
    requires Invariant(s) && KillsOk(s) && ClientStep(s, e).Some? && e.DoForce?
    ensures KillsOk(ClientStep(s, e).value)
  {
    hide Invariant, TermsOk, ForceStep, InOs;
    var f := ClientForce(s.client).value;
    if s.client.ForceSup? && s.client.rec.app.Some? {
      RecordedAppKnown(s, s.client.rec);
      EndedKept(s, e, s.client.rec.app.value);
    }
    ForceTerms(s, e);
    ForceKeepsTarget(s, f);
    TargetIsOurs(s, f);
    if ForceStep(s, f).1.None? { ForceDone(s, f); }
  }

  lemma ForceTerms(s: Sys, e: Event)
    requires TermsOk(s) && ClientStep(s, e).Some? && e.DoForce?
    ensures TermsOk(ClientStep(s, e).value)
  {
    hide DeliverTerm, DeliverKill, PidIsAlive, HitBy;
    var f := ClientForce(s.client).value;
    DeliverKeepsHistory(LogSignal(s, f), f.target.pid);
    var signals, signals' := s.hist.signals, ClientStep(s, e).value.hist.signals;
    forall i: nat | i < |signals'| ensures KillAfterTerm(signals', i) {
      if i < |signals| { assert KillAfterTerm(signals, i); }
    }
  }

  lemma DeliverKeepsHistory(s: Sys, pid: nat)
    ensures DeliverTerm(s, pid).hist == s.hist && DeliverKill(s, pid).hist == s.hist
    ensures DeliverTerm(s, pid).client == s.client && DeliverKill(s, pid).client == s.client
  {}

  lemma PlainKeepsKills(s: Sys, e: Event)
    requires KillsOk(s) && ClientStep(s, e).Some? && !e.DoForce?
    ensures KillsOk(ClientStep(s, e).value)
  {
    hide KillAfterTerm, InOs, PidIsAlive, IsNew;
  }

  /** Nothing that is not a step of the client touches the signals, and an app that
      has ended stays so. */
  lemma OthersKeepKills(s: Sys, e: Event, s': Sys)
    requires Invariant(s) && KillsOk(s) && Step(s, e) == Some(s') && s'.client == s.client
    requires s'.hist.signals == s.hist.signals
    ensures KillsOk(s')
  {
    hide Invariant, Step, TermsOk, InOs;
    SameTerms(s, s');
    match s.client
    case OrphanSave(r) => if r.app.Some? { RecordedAppKnown(s, r); EndedKept(s, e, r.app.value); }
    case ForceSup(r, _) => if r.app.Some? { RecordedAppKnown(s, r); EndedKept(s, e, r.app.value); }
    case _ =>
  }

  lemma SameTerms(s: Sys, s': Sys)
    requires TermsOk(s) && s'.hist.signals == s.hist.signals && s'.client == s.client
    ensures TermsOk(s')
  {}

  lemma EndedKept(s: Sys, e: Event, q: Proc)
    requires Step(s, e).Some? && q in s.known
    ensures !InOs(s.os, q) ==> !InOs(Step(s, e).value.os, q)
  {
    hide Step, InOs;
    if !InOs(s.os, q) { EndedStaysEnded(s, e, q); }
  }

  lemma RecordedAppKnown(s: Sys, r: Record)
    requires Invariant(s) && ClientRecord(s.client) == Some(r) && r.app.Some?
    ensures r.app.value in s.known
  {
    hide SignalsOk, Stops, Starts;
    assert RecOk(s, r);
    OneSup(s, r.gen);
  }

  lemma StepKeepsKills(s: Sys, e: Event)
    requires Invariant(s) && KillsOk(s) && Step(s, e).Some?
    ensures KillsOk(Step(s, e).value)
  {
    hide Invariant, KillsOk, SupStep, ClientStep;
    if IsSupEvent(e) {
      SupStepGrows(s, e, e.g);
      SupStepHistory(s, e, e.g);
      OthersKeepKills(s, e, Step(s, e).value);
    } else if e.EnvSpawn? || e.EnvExit? {
      OthersKeepKills(s, e, Step(s, e).value);
    } else if e.DoForce? {
      ForceKeepsKills(s, e);
    } else {
      PlainKeepsKills(s, e);
    }
  }

  lemma {:induction false} RunKeepsKills(s: Sys, events: seq<Event>)
    requires Invariant(s) && KillsOk(s) && Run(s, events).Some?
    ensures KillsOk(Run(s, events).value)
    decreases |events|
  {
    hide Invariant, KillsOk, Step;
    if events != [] {
      StepKeepsKills(s, events[0]);
      StepKeeps(s, events[0]);
      RunKeepsKills(Step(s, events[0]).value, events[1..]);
    }
  }

  lemma ReachableKills(s: Sys)
    requires Reachable(s)
    ensures KillsOk(s)
  {
    hide Run, Invariant;
    var os, events :| Run(Initial(os), events) == Some(s);
    InitialInvariant(os);
    RunKeepsKills(Initial(os), events);
  }

  /** In every run, a stop has ended the app it found recorded when it saves the
      state of an orphan, and before it turns to a supervisor that did not stop. */
  lemma RecordedAppIsKilled(s: Sys, q: Proc)
    requires Reachable(s) && (s.client.OrphanSave? || s.client.ForceSup?) && s.client.rec.app == Some(q)
    ensures !InOs(s.os, q)
  {
    hide Reachable, TermsOk;
    ReachableKills(s);
  }

  /** In every run, a SIGKILL comes right after a SIGTERM for the same process. */
  lemma KillFollowsTerm(s: Sys, i: nat)
    requires Reachable(s) && i < |s.hist.signals| && s.hist.signals[i].kill
    ensures i > 0 && !s.hist.signals[i - 1].kill && s.hist.signals[i - 1].target == s.hist.signals[i].target
  {
    hide Reachable;
    ReachableKills(s);
    assert KillAfterTerm(s.hist.signals, i);
  }

  /** And only after twenty checks that found the process alive: each takes one of
      the rounds left, and any that finds it gone ends the force. */
  lemma ChecksBeforeKill(s: Sys, f: Force)
    ensures f.stage.SendTerm? && ForceStep(s, f).1.Some? ==> ForceStep(s, f).1.value.stage == Poll(20)
    ensures f.stage.Poll? && ForceStep(s, f).1.Some? ==>
              PidIsAlive(s.os, f.target, f.timed)
              && (ForceStep(s, f).1.value.stage.SendKill? ==> f.stage.n <= 1)
              && (ForceStep(s, f).1.value.stage.Poll? ==> ForceStep(s, f).1.value.stage.n == f.stage.n - 1)
    ensures ForceStep(s, f).1.Some? && ForceStep(s, f).1.value.stage.SendKill? ==> f.stage.Poll?
  {}

  // ----- supervisors that have ended ----------------------------------------

  ghost predicate EndedAreGone(s: Sys) {
    forall g | 0 <= g < |s.sups| && !Live(s.sups[g]) :: !InOs(s.os, s.sups[g].self)
  }

  lemma SupEnds(s: Sys, e: Event, g: nat)
    requires g < |s.sups| && SupStep(s, e, g).Some?
    ensures !Live(SupStep(s, e, g).value.sups[g]) ==> !InOs(SupStep(s, e, g).value.os, s.sups[g].self)
  {}

  lemma ForceEndsSups(s: Sys, f: Force, h: nat)
    requires h < |s.sups| && Live(s.sups[h]) && !Live(ForceStep(s, f).0.sups[h])
    ensures !InOs(ForceStep(s, f).0.os, s.sups[h].self)
  {}

  lemma ClientEnds(s: Sys, e: Event, h: nat)
    requires ClientStep(s, e).Some? && h < |s.sups| && Live(s.sups[h]) && h < |ClientStep(s, e).value.sups|
    requires !Live(ClientStep(s, e).value.sups[h])
    ensures !InOs(ClientStep(s, e).value.os, s.sups[h].self)
  {
    hide ForceStep, InOs;
    if e.DoForce? { ForceEndsSups(s, ClientForce(s.client).value, h); }
  }

  lemma StartedIsLive(s: Sys, e: Event, h: nat)
    requires Step(s, e).Some? && |s.sups| <= h < |Step(s, e).value.sups|
    ensures Live(Step(s, e).value.sups[h])
  {
    hide SupStep, ForceStep;
    if IsSupEvent(e) { SupStepGrows(s, e, e.g); }
    if e.DoForce? { ForceTouches(s, ClientForce(s.client).value); }
  }

  lemma StepKeepsGone(s: Sys, e: Event)
    requires Structure(s) && EndedAreGone(s) && Step(s, e).Some?
    ensures EndedAreGone(Step(s, e).value)
  {
    hide Structure, SupStep, ClientStep, InOs, SupOk;
    var s' := Step(s, e).value;
    if IsSupEvent(e) { SupStepGrows(s, e, e.g); }
    else if !e.EnvSpawn? && !e.EnvExit? { ClientTouches(s, e); }
    forall h | 0 <= h < |s'.sups| && !Live(s'.sups[h]) ensures !InOs(s'.os, s'.sups[h].self) {
      if h >= |s.sups| {
        StartedIsLive(s, e, h);
      } else {
        SelfIsKnown(s, h);
        if !Live(s.sups[h]) { EndedKept(s, e, s.sups[h].self); }
        else if IsSupEvent(e) { SupEnds(s, e, e.g); }
        else { ClientEnds(s, e, h); }
      }
    }
  }

  lemma SelfIsKnown(s: Sys, h: nat)
    requires Structure(s) && h < |s.sups|
    ensures s.sups[h].self in s.known
  {
    OneSup(s, h);
  }

  lemma {:induction false} RunKeepsGone(s: Sys, events: seq<Event>)
    requires Structure(s) && EndedAreGone(s) && Run(s, events).Some?
    ensures EndedAreGone(Run(s, events).value)
    decreases |events|
  {
    hide Structure, EndedAreGone, Step;
    if events != [] {
      StepKeepsGone(s, events[0]);
      StepStructure(s, events[0]);
      RunKeepsGone(Step(s, events[0]).value, events[1..]);
    }
  }

  /** In every run, a supervisor is among the processes exactly while it has not
      ended: waiting for its pid and start time is waiting for it. */
  lemma LivesExactly(s: Sys, g: nat)
    requires Reachable(s) && g < |s.sups|
    ensures InOs(s.os, s.sups[g].self) <==> Live(s.sups[g])
  {
    hide Run, SignalsOk, Leaders, Stops, Starts;
    ReachableInvariant(s);
    OneSup(s, g);
    var os, events :| Run(Initial(os), events) == Some(s);
    InitialInvariant(os);
    RunKeepsGone(Initial(os), events);
  }

  // ----- what a stop leaves saved -------------------------------------------

  /** Every stop that found a state ends with it saved as stopped, without an app
      and for the same supervisor. */
  lemma StopEndsSaved(s: Sys, e: Event)
    requires ClientStep(s, e).Some? && ClientRecord(s.client).Some? && ClientStep(s, e).value.client.Idle?
    ensures var s', r := ClientStep(s, e).value, ClientRecord(s.client).value;
            && s'.runtime == Some(r.(app := None, appTimed := false, status := Stopped))
            && s'.os == s.os && s'.sups == s.sups && s'.control == s.control
  {
    hide ForceStep;
  }

  /** What a call remembers of the recorded state is what is recorded then: the
      generation before a start, and the state a stop ends with. */
  lemma RemembersRecorded(s: Sys)
    ensures s.client.StartPrev? ==>
              var c := ClientStep(s, DoStartPrev).value.client;
              c.StartClear? && c.prev == (if s.runtime.Some? then Some(s.runtime.value.gen) else None)
              && (c.quiet <==> forall g | 0 <= g < |s.sups| :: s.sups[g].pc in {Done, Dead})
    ensures s.client.StopReload? ==>
              ClientStep(s, DoStopReload)
              == Some(s.(client := StopSave(if s.runtime.Some? then s.runtime.value else s.client.rec)))
  {}

  /** A stop without a recorded state changes nothing; with one it looks first
      whether that supervisor is alive, and asks exactly then. */
  lemma StopAsksExactly(s: Sys)
    ensures s.client.Idle? && s.runtime.None? ==> ClientStep(s, CallStop) == Some(s)
    ensures s.client.Idle? && s.runtime.Some? ==>
              ClientStep(s, CallStop) == Some(s.(client := StopCheck(s.runtime.value)))
    ensures s.client.StopCheck? ==>
              var r, c := s.client.rec, ClientStep(s, DoStopCheck).value.client;
              && (c.StopWrite? <==> FoundRunning(StartCall(s.os, Some(r), None)))
              && (!c.StopWrite? ==> if r.app.None? then c == OrphanSave(r)
                                    else c == OrphanForce(r, Force(r.app.value, r.appTimed, Check)))
  {}
}
