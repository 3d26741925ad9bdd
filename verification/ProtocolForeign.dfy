/** start_local_service can return the state of another supervisor than the one
    it launched: exactly from which states, and a run that does. */
module ProtocolForeign {
  import opened Results
  import opened Protocol
  import opened ProtocolSafety
  import opened ProtocolLeaders
  import opened ProtocolSignals
  import opened ProtocolStops
  import opened ProtocolStarts
  import opened ProtocolRuns
  import opened ProtocolLimits

  predicate Up(status: Status) {
    status.Running? || status.Degraded?
  }

  /** A supervisor that can still save itself as running or degraded while no stop
      is on disk. */
  predicate CanRun(s: Sys, p: Sup) {
    || (p.pc.Checked? && (!p.term || Up(p.status) || (p.leader.Some? && InOs(s.os, p.leader.value))))
    || ((BeforePublishing(p.pc) || (WillRead(p.pc) && !p.pc.Checked?)) && !p.term)
  }

  /** Neither the generation a start launched nor the one it found recorded. */
  predicate Another(k: nat, prev: Option<nat>, mine: nat) {
    k != mine && Some(k) != prev
  }

  /** Another generation is recorded as running, or can come to be. */
  predicate Foreign(s: Sys, prev: Option<nat>, mine: nat) {
    || (s.runtime.Some? && Another(s.runtime.value.gen, prev, mine) && Up(s.runtime.value.status))
    || (exists k :: 0 <= k < |s.sups| && Another(k, prev, mine) && CanRun(s, s.sups[k]))
  }

  /** The first call to return after s is the one that launched `mine`, and it
      returned another generation. */
  predicate ReturnsAnother(s: Sys, t: Sys, mine: nat) {
    && |t.hist.returned| > |s.hist.returned|
    && t.hist.returned[|s.hist.returned|].mine == mine && t.hist.returned[|s.hist.returned|].rec.gen != mine
  }

  // ----- no other generation can run ----------------------------------------

  /** The call waits and can return only its own generation, or it is over and
      has not returned another. */
  ghost predicate OnlyMine(s: Sys, t: Sys, prev: Option<nat>, quiet: bool, mine: nat) {
    if t.client == StartPoll(prev, quiet, mine) then
      t.control.None? && t.hist.returned == s.hist.returned && !Foreign(t, prev, mine)
    else
      && mine < |t.sups| && (t.client.StartPoll? ==> t.client.mine > mine)
      && |t.hist.returned| >= |s.hist.returned| && !ReturnsAnother(s, t, mine)
  }

  /** A supervisor that cannot come to run saves nothing that says it does. */
  lemma CannotRunStep(s: Sys, e: Event, g: nat)
    requires g < |s.sups| && !CanRun(s, s.sups[g]) && s.control.None? && SupStep(s, e, g).Some?
    requires BeforePublishing(s.sups[g].pc) ==> s.sups[g].status.Starting?
    requires s.sups[g].leader.Some? && !InOs(s.os, s.sups[g].leader.value) ==>
               !InOs(SupStep(s, e, g).value.os, s.sups[g].leader.value)
    ensures var s' := SupStep(s, e, g).value;
            g < |s'.sups| && !CanRun(s', s'.sups[g])
            && (s'.runtime == s.runtime || (s'.runtime.Some? && !Up(s'.runtime.value.status)))
  {
    hide IsNew, InOs;
  }

  /** Of a supervisor that takes no step itself, an app does not come back. */
  lemma CannotRunStays(s: Sys, e: Event, p: Sup, p': Sup)
    requires Step(s, e).Some? && SupOk(s, p) && Touched(p, p') && !CanRun(s, p)
    ensures !CanRun(Step(s, e).value, p')
  {
    hide Step;
    if p.leader.Some? && !InOs(s.os, p.leader.value) { EndedStaysEnded(s, e, p.leader.value); }
  }

  lemma SupForeign(s: Sys, e: Event, prev: Option<nat>, mine: nat)
    requires Structure(s) && Leaders(s) && s.control.None? && !Foreign(s, prev, mine)
    requires IsSupEvent(e) && e.g < |s.sups| && SupStep(s, e, e.g).Some?
    ensures !Foreign(SupStep(s, e, e.g).value, prev, mine)
  {
    hide Structure, SupStep, CanRun, LeaderOk;
    var s' := SupStep(s, e, e.g).value;
    SupStepGrows(s, e, e.g);
    SupStepSaves(s, e, e.g);
    forall k | 0 <= k < |s.sups| && Another(k, prev, mine) ensures !CanRun(s', s'.sups[k]) {
      OneSup(s, k);
      if k != e.g { CannotRunStays(s, e, s.sups[k], s.sups[k]); } else { OwnForeign(s, e); }
    }
    if Another(e.g, prev, mine) { OneSup(s, e.g); OwnForeign(s, e); }
  }

  lemma OwnForeign(s: Sys, e: Event)
    requires IsSupEvent(e) && e.g < |s.sups| && SupOk(s, s.sups[e.g]) && LeaderOk(s, s.sups[e.g])
    requires !CanRun(s, s.sups[e.g]) && s.control.None? && SupStep(s, e, e.g).Some?
    ensures var s' := SupStep(s, e, e.g).value;
            e.g < |s'.sups| && !CanRun(s', s'.sups[e.g])
            && (s'.runtime == s.runtime || (s'.runtime.Some? && !Up(s'.runtime.value.status)))
  {
    hide SupStep, CanRun;
    var leader := s.sups[e.g].leader;
    if leader.Some? && !InOs(s.os, leader.value) { EndedStaysEnded(s, e, leader.value); }
    CannotRunStep(s, e, e.g);
  }

  lemma EnvForeign(s: Sys, e: Event, prev: Option<nat>, mine: nat)
    requires Structure(s) && !Foreign(s, prev, mine) && EnvStep(s, e).Some?
    ensures !Foreign(EnvStep(s, e).value, prev, mine)
  {
    hide Structure, CanRun;
    var s' := EnvStep(s, e).value;
    forall k | 0 <= k < |s.sups| && Another(k, prev, mine) ensures !CanRun(s', s'.sups[k]) {
      OneSup(s, k);
      CannotRunStays(s, e, s.sups[k], s.sups[k]);
    }
  }

  /** A waiting call polls, returns its own generation, or gives up. */
  lemma WaitingPolls(s: Sys, t: Sys, e: Event, prev: Option<nat>, quiet: bool, mine: nat)
    requires OnlyMine(s, t, prev, quiet, mine) && t.client == StartPoll(prev, quiet, mine) && mine < |t.sups|
    requires ClientStep(t, e).Some?
    ensures OnlyMine(s, ClientStep(t, e).value, prev, quiet, mine)
  {
    hide CanRun;
  }

  /** A later start launches a later generation. */
  lemma LaterStarts(t: Sys, e: Event, mine: nat)
    requires mine < |t.sups| && (t.client.StartPoll? ==> t.client.mine > mine) && ClientStep(t, e).Some?
    ensures var t' := ClientStep(t, e).value;
            && mine < |t'.sups| && (t'.client.StartPoll? ==> t'.client.mine > mine)
            && (t'.hist.returned == t.hist.returned
                || (exists x: Return :: t'.hist.returned == t.hist.returned + [x] && x.mine > mine))
  {
    hide ForceStep;
    if e.DoForce? { ForceTouches(t, ClientForce(t.client).value); }
  }

  lemma OverStays(s: Sys, t: Sys, e: Event, prev: Option<nat>, quiet: bool, mine: nat)
    requires OnlyMine(s, t, prev, quiet, mine) && t.client != StartPoll(prev, quiet, mine) && ClientStep(t, e).Some?
    ensures OnlyMine(s, ClientStep(t, e).value, prev, quiet, mine)
  {
    hide ClientStep, Foreign;
    LaterStarts(t, e, mine);
  }

  lemma OnlyMineStep(s: Sys, t: Sys, e: Event, prev: Option<nat>, quiet: bool, mine: nat)
    requires Invariant(t) && OnlyMine(s, t, prev, quiet, mine) && Step(t, e).Some?
    ensures OnlyMine(s, Step(t, e).value, prev, quiet, mine)
  {
    hide Structure, SignalsOk, Leaders, Stops, SupStep, ClientStep, Foreign;
    if IsSupEvent(e) {
      SupStepGrows(t, e, e.g);
      SupStepControl(t, e, e.g);
      SupStepWrites(t, e, e.g);
      if t.client == StartPoll(prev, quiet, mine) { SupForeign(t, e, prev, mine); }
    } else if e.EnvSpawn? || e.EnvExit? {
      if t.client == StartPoll(prev, quiet, mine) { EnvForeign(t, e, prev, mine); }
    } else if t.client == StartPoll(prev, quiet, mine) {
      WaitingPolls(s, t, e, prev, quiet, mine);
    } else {
      OverStays(s, t, e, prev, quiet, mine);
    }
  }

  lemma {:induction false} OnlyMineRun(s: Sys, t: Sys, events: seq<Event>, prev: Option<nat>, quiet: bool, mine: nat)
    requires Invariant(t) && OnlyMine(s, t, prev, quiet, mine) && Run(t, events).Some?
    ensures OnlyMine(s, Run(t, events).value, prev, quiet, mine)
    decreases |events|
  {
    hide Invariant, OnlyMine, Step;
    if events != [] {
      OnlyMineStep(s, t, events[0], prev, quiet, mine);
      StepKeeps(t, events[0]);
      OnlyMineRun(s, Step(t, events[0]).value, events[1..], prev, quiet, mine);
    }
  }

  // ----- another generation can run -----------------------------------------

  /** Supervisor k saves itself as running or degraded. */
  ghost predicate ShowsUp(s: Sys, t: Sys, k: nat) {
    && t.client == s.client && t.hist == s.hist && t.runtime.Some? && t.runtime.value.gen == k
    && Up(t.runtime.value.status)
  }

  /** Past the read the leader is looked at, alive or not. */
  lemma CheckedShows(s0: Sys, s: Sys, k: nat) returns (t: Sys)
    requires Leads(s0, s) && k < |s.sups| && s.sups[k].pc.Checked? && s.sups[k].leader.Some?
    requires InOs(s.os, s.sups[k].leader.value) || Up(s.sups[k].status)
    ensures Leads(s0, t) && ShowsUp(s, t, k)
  {
    hide Leads, InOs;
    if InOs(s.os, s.sups[k].leader.value) {
      t := SupGo(s0, s, SupHealth(k, Running));
    } else {
      t := SupGo(s0, s, SupSeesExit(k, true));
    }
  }

  lemma LaunchedShows(s0: Sys, s: Sys, k: nat) returns (t: Sys)
    requires Invariant(s0) && Leads(s0, s) && RunsOn(s, k)
    ensures Leads(s0, t) && ShowsUp(s, t, k)
  {
    hide Leads, Structure, SignalsOk, Stops, Starts;
    t := OneMoreLaunch(s0, s, k);
    LeadsKeeps(s0, t);
    assert LeaderOk(t, t.sups[k]);
    t := SpawnedShows(s0, t, k);
  }

  lemma SpawnedShows(s0: Sys, s: Sys, k: nat) returns (t: Sys)
    requires Leads(s0, s) && RunsOn(s, k) && s.sups[k].pc.Spawned? && s.sups[k].leader.Some?
    requires InOs(s.os, s.sups[k].leader.value)
    ensures Leads(s0, t) && ShowsUp(s, t, k)
  {
    hide Leads, InOs;
    t := SupGo(s0, s, SupSaveApp(k, true));
    t := SupGo(s0, t, SupReadControl(k));
    t := CheckedShows(s0, t, k);
  }

  lemma CanRunShows(s0: Sys, s: Sys, k: nat) returns (t: Sys)
    requires Invariant(s0) && Leads(s0, s) && s.control.None? && k < |s.sups| && CanRun(s, s.sups[k])
    ensures Leads(s0, t) && ShowsUp(s, t, k)
  {
    hide Leads, Structure, SignalsOk, Stops, Starts;
    LeadsKeeps(s0, s);
    assert LeaderOk(s, s.sups[k]);
    if s.sups[k].pc.Checked? && (InOs(s.os, s.sups[k].leader.value) || Up(s.sups[k].status)) {
      t := CheckedShows(s0, s, k);
    } else {
      t := s;
      if t.sups[k].pc.Boot? { t := SupGo(s0, t, SupClear(k)); }
      if t.sups[k].pc.Cleared? { t := SupGo(s0, t, SupPublish(k)); }
      t := LaunchedShows(s0, t, k);
    }
  }

  lemma ForeignReturned(s: Sys) returns (t: Sys)
    requires Invariant(s) && Leads(s, s) && s.client.StartPoll? && s.control.None?
    requires Foreign(s, s.client.prev, s.client.mine)
    ensures Leads(s, t) && ReturnsAnother(s, t, s.client.mine)
  {
    hide Leads, Invariant, CanRun;
    var prev, mine := s.client.prev, s.client.mine;
    t := s;
    if s.runtime.None? || !Another(s.runtime.value.gen, prev, mine) || !Up(s.runtime.value.status) {
      var k :| 0 <= k < |s.sups| && Another(k, prev, mine) && CanRun(s, s.sups[k]);
      t := CanRunShows(s, s, k);
    }
    t := ClientGo(s, t, DoStartPoll);
  }

  // ----- the main results ---------------------------------------------------

  lemma NoStopWhileStarting(s: Sys)
    requires Stops(s) && s.client.StartPoll?
    ensures s.control.None?
  {}

  /** A waiting start can return another generation than the one it launched
      exactly when one is recorded as running, or can still come to run, that was
      not recorded when the call began. */
  lemma ReturnsAnotherExactly(s: Sys)
    requires Reachable(s) && s.client.StartPoll?
    ensures var mine := s.client.mine;
            (exists t :: Leads(s, t) && ReturnsAnother(s, t, mine)) <==> Foreign(s, s.client.prev, mine)
  {
    hide Reachable, Structure, SignalsOk, Leaders, Stops, Starts, Foreign, Leads;
    ReachableInvariant(s);
    NoStopWhileStarting(s);
    if Foreign(s, s.client.prev, s.client.mine) {
      Here(s);
      var t := ForeignReturned(s);
    } else {
      forall t | Leads(s, t) ensures !ReturnsAnother(s, t, s.client.mine) { ReturnsMine(s, t); }
    }
  }

  lemma ReturnsMine(s: Sys, t: Sys)
    requires Invariant(s) && s.client.StartPoll? && s.control.None? && !Foreign(s, s.client.prev, s.client.mine)
    requires Leads(s, t)
    ensures !ReturnsAnother(s, t, s.client.mine)
  {
    hide Invariant, Foreign, Run;
    var events :| NoWrites(events) && Run(s, events) == Some(t);
    OnlyMineRun(s, s, events, s.client.prev, s.client.quiet, s.client.mine);
  }

  /** It happens: a first start gives up, a second launches its own supervisor,
      and the first supervisor, slow to begin, is the one it returns. */
  lemma SlowFirstReturned() returns (s: Sys, t: Sys)
    ensures Reachable(s) && s.client.StartPoll? && s.client.prev.None? && s.client.mine == 1 && s.hist.returned == []
    ensures Leads(s, t) && |t.hist.returned| > 0 && t.hist.returned[0].mine == 1 && t.hist.returned[0].rec.gen != 1
  {
    hide Reachable, Leads, Invariant, CanRun;
    InitialReachable(map[]);
    s := StartAndGiveUp(Initial(map[]), Proc(1, 0));
    s := SecondStart(s);
    ReachableInvariant(s);
    Here(s);
    assert CanRun(s, s.sups[0]) by { FreshCanRun(s, 0); }
    t := ForeignReturned(s);
  }

  lemma SecondStart(s: Sys) returns (s': Sys)
    requires Reachable(s)
    requires s == AddProc(Initial(map[]), Proc(1, 0)).(sups := [NewSup(Proc(1, 0), true)], hist := s.hist)
    requires s.hist.returned == []
    ensures Reachable(s') && s'.client.StartPoll? && s'.client.prev.None? && s'.client.mine == 1
            && s'.hist.returned == [] && s'.control.None?
    ensures |s'.sups| == 2 && s'.sups[0] == s.sups[0]
  {
    hide Reachable;
    s' := StartSpawning(s);
    s' := ClientReach(s', DoStartSpawn(Proc(2, 0), true));
  }

  lemma FreshCanRun(s: Sys, k: nat)
    requires k < |s.sups| && s.sups[k].pc.Boot? && !s.sups[k].term
    ensures CanRun(s, s.sups[k])
  {}
}
