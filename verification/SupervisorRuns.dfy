/** The supervisor's loop and the step machine agree over whole runs: whatever
    the loop saves from its start to its end, some run of the step machine
    records, one save after another. */
module SupervisorRuns {
  import opened Results
  import opened Protocol
  import opened SupervisorSteps
  import S = Supervisor

  predicate IsSave(e: Event) {
    || e.SupPublish? || e.SupSpawnFails? || e.SupSaveApp? || e.SupHealth? || e.SupSeesExit? || e.SupAnnounce?
    || e.SupRaises? || e.SupFinalSave?
  }

  /** What the supervisors save in the course of a run. */
  function Recorded(s: Sys, events: seq<Event>): seq<Option<Record>>
    requires Run(s, events).Some?
    decreases |events|
  {
    if events == [] then []
    else
      var s' := Step(s, events[0]).value;
      (if IsSave(events[0]) then [s'.runtime] else []) + Recorded(s', events[1..])
  }

  predicate ShowAll(states: seq<S.RuntimeState>, records: seq<Option<Record>>) {
    && |states| == |records|
    && forall i | 0 <= i < |states| :: records[i].Some? && Shows(states[i], records[i].value)
  }

  /** Some run from s records these states and no others, in this order. */
  ghost predicate CanSave(s: Sys, states: seq<S.RuntimeState>) {
    exists events :: Run(s, events).Some? && ShowAll(states, Recorded(s, events))
  }

  lemma NothingSaved(s: Sys)
    ensures CanSave(s, [])
  {
    assert Run(s, []).Some? && ShowAll([], Recorded(s, []));
  }

  lemma Quietly(s: Sys, e: Event, s': Sys, states: seq<S.RuntimeState>)
    requires Step(s, e) == Some(s') && !IsSave(e) && CanSave(s', states)
    ensures CanSave(s, states)
  {
    hide Step, Shows;
    var events :| Run(s', events).Some? && ShowAll(states, Recorded(s', events));
    assert ([e] + events)[1..] == events;
    assert Recorded(s, [e] + events) == Recorded(s', events);
  }

  lemma SupQuietly(s: Sys, e: Event, s': Sys, states: seq<S.RuntimeState>)
    requires IsSupEvent(e) && e.g < |s.sups| && SupStep(s, e, e.g) == Some(s') && !IsSave(e) && CanSave(s', states)
    ensures CanSave(s, states)
  {
    hide CanSave, SupStep;
    Quietly(s, e, s', states);
  }

  lemma ClientQuietly(s: Sys, e: Event, s': Sys, states: seq<S.RuntimeState>)
    requires !IsSupEvent(e) && !e.EnvSpawn? && !e.EnvExit? && ClientStep(s, e) == Some(s') && CanSave(s', states)
    ensures CanSave(s, states)
  {
    hide CanSave, ClientStep;
    Quietly(s, e, s', states);
  }

  lemma Saving(s: Sys, e: Event, s': Sys, st: S.RuntimeState, states: seq<S.RuntimeState>)
    requires Step(s, e) == Some(s') && IsSave(e) && CanSave(s', states)
    requires s'.runtime.Some? && Shows(st, s'.runtime.value)
    ensures CanSave(s, [st] + states)
  {
    hide Step, Shows;
    var events :| Run(s', events).Some? && ShowAll(states, Recorded(s', events));
    assert ([e] + events)[1..] == events;
    assert Recorded(s, [e] + events) == [s'.runtime] + Recorded(s', events);
  }

  /** A save of the loop, by the step that makes it. */
  lemma ActSaving(s: Sys, act: S.Act, again: bool, st: S.RuntimeState, states: seq<S.RuntimeState>)
    requires |s.sups| == 1 && Shows(st, SupRecord(s.sups[0], 0)) && ComesNext(s, 0, act)
    requires SupStep(s, SavingStep(s, 0, act, again), 0).Some? ==>
               CanSave(SupStep(s, SavingStep(s, 0, act, again), 0).value, states)
    ensures CanSave(s, [S.After(st, act)] + states)
  {
    hide CanSave, Shows, SupStep, ComesNext, S.After;
    SaveIsAStep(st, act, again, s, 0);
    Saving(s, SavingStep(s, 0, act, again), SupStep(s, SavingStep(s, 0, act, again), 0).value, S.After(st, act),
           states);
  }

  // ----- the places the loop goes through -----------------------------------

  /** One supervisor is alive, its state dict is this state, and the client is
      between two calls. */
  ghost predicate Alone(s: Sys, st: S.RuntimeState) {
    && |s.sups| == 1 && s.client.Idle? && s.control.None? && !s.sups[0].term && Live(s.sups[0])
    && s.sups[0].self.pid > 0 && InOs(s.os, s.sups[0].self) && Shows(st, SupRecord(s.sups[0], 0))
  }

  /** At the head of the loop its app is alive. */
  ghost predicate AtHead(s: Sys, st: S.RuntimeState) {
    && Alone(s, st) && s.sups[0].pc.LoopHead? && s.runtime == Some(SupRecord(s.sups[0], 0))
    && s.sups[0].leader.Some? && InOs(s.os, s.sups[0].leader.value)
    && s.sups[0].leader.value.pid != s.sups[0].self.pid
  }

  ghost predicate AtLaunch(s: Sys, st: S.RuntimeState) {
    Alone(s, st) && (s.sups[0].pc.Published? || s.sups[0].pc.Relaunching?)
  }

  /** The process of a launch, with some start time where none could be read. */
  function Started(l: S.Launch): Proc
    requires l.Launched?
  {
    Proc(l.pid, if l.createTime.Some? then l.createTime.value else 0)
  }

  /** What the system promises of the processes it starts: a free pid, and a
      start time of its own among those that had that pid. */
  ghost predicate Startable(os: map<nat, int>, known: set<Proc>, p: Proc) {
    && p.pid > 0 && p.pid !in os
    && forall q | q in known :: q.pid == p.pid ==> Distance(q.born, p.born) > TOLERANCE
  }

  ghost predicate StartableAll(os: map<nat, int>, known: set<Proc>, rounds: seq<S.Round>)
    decreases |rounds|
  {
    rounds != [] ==>
      if rounds[0].exit.Some? && rounds[0].relaunch.Launched? then
        && Startable(os, known, Started(rounds[0].relaunch))
        && StartableAll(os, known + {Started(rounds[0].relaunch)}, rounds[1..])
      else StartableAll(os, known, rounds[1..])
  }

  /** The processes beside the app. */
  function Others(s: Sys): map<nat, int>
    requires |s.sups| == 1
  {
    if s.sups[0].leader.Some? then s.os - {s.sups[0].leader.value.pid} else s.os
  }

  // ----- from place to place ------------------------------------------------

  lemma EndSaves(s: Sys, st: S.RuntimeState, refused: bool, now: nat)
    requires |s.sups| == 1 && s.sups[0].pc.Leaving? && Shows(st, SupRecord(s.sups[0], 0))
    ensures CanSave(s, [S.After(st, S.Ending(now))])
  {
    hide CanSave, Shows;
    var s1 := SupStep(s, SupTerminate(0, refused), 0).value;
    var s2 := SupStep(s1, SupFinalClear(0), 0).value;
    assert SupRecord(s2.sups[0], 0) == SupRecord(s.sups[0], 0);
    NothingSaved(SupStep(s2, SupFinalSave(0), 0).value);
    ActSaving(s2, S.Ending(now), false, st, []);
    assert [S.After(st, S.Ending(now))] + [] == [S.After(st, S.Ending(now))];
    SupQuietly(s1, SupFinalClear(0), s2, [S.After(st, S.Ending(now))]);
    SupQuietly(s, SupTerminate(0, refused), s1, [S.After(st, S.Ending(now))]);
  }

  /** An exception, or a launch that fails. */
  lemma FailSaves(s: Sys, st: S.RuntimeState, refused: bool, now: nat)
    requires |s.sups| == 1 && ComesNext(s, 0, S.Failing) && Shows(st, SupRecord(s.sups[0], 0))
    ensures CanSave(s, S.LastSaves(st, true, now))
  {
    hide CanSave, Shows, S.After, SupStep;
    FailLeaves(s, st);
    var s1 := SupStep(s, SavingStep(s, 0, S.Failing, false), 0).value;
    EndSaves(s1, S.After(st, S.Failing), refused, now);
    ActSaving(s, S.Failing, false, st, [S.After(S.After(st, S.Failing), S.Ending(now))]);
    assert S.LastSaves(st, true, now)
        == [S.After(st, S.Failing)] + [S.After(S.After(st, S.Failing), S.Ending(now))];
  }

  lemma FailLeaves(s: Sys, st: S.RuntimeState)
    requires |s.sups| == 1 && ComesNext(s, 0, S.Failing) && Shows(st, SupRecord(s.sups[0], 0))
    ensures var r := SupStep(s, SavingStep(s, 0, S.Failing, false), 0);
            r.Some? && |r.value.sups| == 1 && r.value.sups[0].pc.Leaving?
            && Shows(S.After(st, S.Failing), SupRecord(r.value.sups[0], 0))
  {}

  /** A stop request is written and read. */
  lemma StopSaves(s: Sys, st: S.RuntimeState, refused: bool, now: nat)
    requires AtHead(s, st)
    ensures CanSave(s, S.LastSaves(st, false, now))
  {
    hide CanSave, Shows, S.After;
    var s1 := s.(client := StopWrite(s.runtime.value));
    var s2 := ClientStep(s1, DoStopWrite).value;
    var s3 := SupStep(s2, SupReadControl(0), 0).value;
    EndSaves(s3, st, refused, now);
    SupQuietly(s2, SupReadControl(0), s3, S.LastSaves(st, false, now));
    ClientQuietly(s1, DoStopWrite, s2, S.LastSaves(st, false, now));
    StopChecks(s, s.runtime.value, S.LastSaves(st, false, now));
  }

  lemma StopChecks(s: Sys, r: Record, states: seq<S.RuntimeState>)
    requires s.client.Idle? && s.runtime == Some(r) && PidIsAlive(s.os, r.sup, r.supTimed)
    requires CanSave(s.(client := StopWrite(r)), states)
    ensures CanSave(s, states)
  {
    hide CanSave, PidIsAlive;
    var s1 := s.(client := StopCheck(r));
    ClientQuietly(s1, DoStopCheck, s.(client := StopWrite(r)), states);
    ClientQuietly(s, CallStop, s1, states);
  }

  /** Without one the loop goes on. */
  function Read(s: Sys): Sys
    requires |s.sups| == 1
  {
    s.(sups := [s.sups[0].(pc := Checked)])
  }

  lemma ReadsOn(s: Sys, st: S.RuntimeState, states: seq<S.RuntimeState>)
    requires AtHead(s, st) && CanSave(Read(s), states)
    ensures CanSave(s, states)
  {
    hide CanSave, Shows;
    assert s.sups[0 := s.sups[0].(pc := Checked)] == [s.sups[0].(pc := Checked)];
    SupQuietly(s, SupReadControl(0), Read(s), states);
  }

  lemma RaiseSaves(s: Sys, st: S.RuntimeState, refused: bool, now: nat)
    requires AtHead(s, st)
    ensures CanSave(s, S.LastSaves(st, true, now))
  {
    hide CanSave, Shows, S.LastSaves;
    assert SupRecord(Read(s).sups[0], 0) == SupRecord(s.sups[0], 0);
    FailSaves(Read(s), st, refused, now);
    ReadsOn(s, st, S.LastSaves(st, true, now));
  }

  lemma CheckStep(s: Sys, st: S.RuntimeState, m: bool, r: S.Round) returns (s': Sys)
    requires AtHead(s, st)
    ensures AtHead(s', S.CheckedFrom(st, m, r)) && Others(s') == Others(s) && s'.known == s.known
    ensures forall states | CanSave(s', states) :: CanSave(s, [S.CheckedFrom(st, m, r)] + states)
  {
    hide CanSave;
    var act := S.Checking(r.portOpen, r.graceOver, if m then Some(r.sampled) else None);
    s' := SupStep(Read(s), SavingStep(Read(s), 0, act, false), 0).value;
    forall states | CanSave(s', states) ensures CanSave(s, [S.CheckedFrom(st, m, r)] + states) {
      ActSaving(Read(s), act, false, st, states);
      ReadsOn(s, st, [S.CheckedFrom(st, m, r)] + states);
    }
  }

  /** The app exits and the supervisor sees it. */
  lemma ExitStep(s: Sys, st: S.RuntimeState, code: int, again: bool) returns (s': Sys)
    requires AtHead(s, st)
    ensures Alone(s', S.After(st, S.Exiting(code))) && s'.os == Others(s) && Others(s') == Others(s)
    ensures s'.known == s.known && s'.sups[0].pc == if again then Announcing else Leaving
    ensures forall states | CanSave(s', states) :: CanSave(s, [S.After(st, S.Exiting(code))] + states)
  {
    hide CanSave;
    var pid := s.sups[0].leader.value.pid;
    var gone := Read(s).(os := s.os - {pid});
    assert EnvStep(Read(s), EnvExit(pid)) == Some(gone);
    s' := SupStep(gone, SupSeesExit(0, again), 0).value;
    forall states | CanSave(s', states) ensures CanSave(s, [S.After(st, S.Exiting(code))] + states) {
      ActSaving(gone, S.Exiting(code), again, st, states);
      Quietly(Read(s), EnvExit(pid), gone, [S.After(st, S.Exiting(code))] + states);
      ReadsOn(s, st, [S.After(st, S.Exiting(code))] + states);
    }
  }

  lemma AnnounceStep(s: Sys, st: S.RuntimeState) returns (s': Sys)
    requires Alone(s, st) && s.sups[0].pc.Announcing?
    ensures AtLaunch(s', S.After(st, S.Announcing)) && s'.os == s.os && Others(s') == Others(s) && s'.known == s.known
    ensures forall states | CanSave(s', states) :: CanSave(s, [S.After(st, S.Announcing)] + states)
  {
    hide CanSave;
    s' := SupStep(s, SupAnnounce(0), 0).value;
    forall states | CanSave(s', states) ensures CanSave(s, [S.After(st, S.Announcing)] + states) {
      ActSaving(s, S.Announcing, false, st, states);
    }
  }

  lemma LaunchStep(s: Sys, st: S.RuntimeState, l: S.Launch) returns (s': Sys)
    requires AtLaunch(s, st) && l.Launched? && Startable(s.os, s.known, Started(l))
    ensures AtHead(s', S.LaunchedFrom(st, l)) && Others(s') == s.os && s'.known == s.known + {Started(l)}
    ensures forall states | CanSave(s', states) :: CanSave(s, [S.LaunchedFrom(st, l)] + states)
  {
    hide CanSave;
    var p := Started(l);
    var spawned := SupStep(s, SupSpawn(0, p), 0).value;
    var act := S.Launching(l.pid, l.createTime, l.monitored);
    s' := SupStep(spawned, SavingStep(spawned, 0, act, false), 0).value;
    forall states | CanSave(s', states) ensures CanSave(s, [S.LaunchedFrom(st, l)] + states) {
      ActSaving(spawned, act, false, st, states);
      SupQuietly(s, SupSpawn(0, p), spawned, [S.LaunchedFrom(st, l)] + states);
    }
  }

  // ----- whole runs ---------------------------------------------------------

  lemma {:induction false} LoopSaves(s: Sys, policy: S.Policy, m: bool, st: S.RuntimeState, rounds: seq<S.Round>,
                                     refused: bool, now: nat)
    requires AtHead(s, st) && StartableAll(Others(s), s.known, rounds)
    ensures CanSave(s, S.Saves(policy, m, st, rounds, now))
    decreases |rounds|, 0
  {
    hide CanSave, AtHead, Alone, AtLaunch, S.After, S.LastSaves, S.CheckedFrom, Startable, Others;
    if rounds == [] {
      NothingSaved(s);
    } else if rounds[0].stop {
      StopSaves(s, st, refused, now);
    } else if rounds[0].exit.Some? {
      ExitSaves(s, policy, m, st, rounds, refused, now);
    } else if rounds[0].probeRaises {
      RaiseSaves(s, st, refused, now);
    } else {
      var s' := CheckStep(s, st, m, rounds[0]);
      LoopSaves(s', policy, m, S.CheckedFrom(st, m, rounds[0]), rounds[1..], refused, now);
    }
  }

  lemma {:induction false} ExitSaves(s: Sys, policy: S.Policy, m: bool, st: S.RuntimeState, rounds: seq<S.Round>,
                                     refused: bool, now: nat)
    requires AtHead(s, st) && StartableAll(Others(s), s.known, rounds)
    requires rounds != [] && !rounds[0].stop && rounds[0].exit.Some?
    ensures CanSave(s, S.Saves(policy, m, st, rounds, now))
    decreases |rounds|, -1
  {
    hide CanSave, AtHead, AtLaunch, S.After, S.Justified, S.SavesFromLaunch;
    var code := rounds[0].exit.value;
    var ended := S.After(st, S.Exiting(code));
    var s1 := ExitStep(s, st, code, S.Justified(policy, code));
    if S.Justified(policy, code) {
      var s2 := AnnounceStep(s1, ended);
      var announced := S.After(ended, S.Announcing);
      LaunchSaves(s2, policy, announced, rounds[0].relaunch, rounds[1..], refused, now);
      var rest := S.SavesFromLaunch(policy, announced, rounds[0].relaunch, rounds[1..], now);
      assert [ended] + ([announced] + rest) == [ended, announced] + rest;
    } else {
      EndSaves(s1, ended, refused, now);
    }
  }

  lemma {:induction false} LaunchSaves(s: Sys, policy: S.Policy, st: S.RuntimeState, l: S.Launch,
                                       rounds: seq<S.Round>, refused: bool, now: nat)
    requires AtLaunch(s, st)
    requires if l.Launched? then Startable(s.os, s.known, Started(l))
                                 && StartableAll(s.os, s.known + {Started(l)}, rounds)
             else true
    ensures CanSave(s, S.SavesFromLaunch(policy, st, l, rounds, now))
    decreases |rounds|, 1
  {
    hide CanSave, AtHead, S.After, S.LaunchedFrom, S.LastSaves, Startable, StartableAll, S.Saves;
    if l.Launched? {
      var s' := LaunchStep(s, st, l);
      LoopSaves(s', policy, l.monitored, S.LaunchedFrom(st, l), rounds, refused, now);
    } else {
      FailSaves(s, st, refused, now);
    }
  }

  const BASE: S.RuntimeState := S.RuntimeState(None, None, S.Starting, S.Starting, false, 0, None, None)

  ghost predicate StartableRun(os: map<nat, int>, known: set<Proc>, first: S.Launch, rounds: seq<S.Round>) {
    first.Launched? ==> Startable(os, known, Started(first)) && StartableAll(os, known + {Started(first)}, rounds)
  }

  /** For every run of Supervise, a run of the step machine from a project without
      files saves the same states in the same order, as long as the system
      starts processes as it should. */
  lemma SuperviseIsARun(os: map<nat, int>, self: Proc, policy: S.Policy, first: S.Launch, rounds: seq<S.Round>,
                        refused: bool, now: nat)
    requires IsNew(Initial(os), self)
    requires StartableRun(os[self.pid := self.born], Initial(os).known + {self}, first, rounds)
    ensures CanSave(Initial(os), [BASE] + S.SavesFromLaunch(policy, BASE, first, rounds, now))
  {
    hide CanSave, S.SavesFromLaunch, StartableAll;
    var states := S.SavesFromLaunch(policy, BASE, first, rounds, now);
    var s0 := Initial(os);
    var s1 := AddProc(s0, self).(sups := [NewSup(self, true)],
                                 hist := s0.hist.(starts := [StartCall(os, None, Some(0))]));
    var s2 := s1.(sups := [s1.sups[0].(pc := Cleared)]);
    var s3 := SupStep(s2, SupPublish(0), 0).value;
    assert AtLaunch(s3, BASE);
    LaunchSaves(s3, policy, BASE, first, rounds, refused, now);
    Saving(s2, SupPublish(0), s3, BASE, states);
    assert SetSup(s1, 0, s2.sups[0]) == s2 && SupErases(s2, 0) == s2 by { NothingErased(s2); }
    SupQuietly(s1, SupClear(0), s2, [BASE] + states);
    StartsUp(s0, self, s1, [BASE] + states);
  }

  lemma NothingErased(s: Sys)
    requires s.control.None?
    ensures SupErases(s, 0) == s
  {
    assert s.hist.erased + {} == s.hist.erased;
  }

  lemma StartsUp(s: Sys, self: Proc, s': Sys, states: seq<S.RuntimeState>)
    requires s.client.Idle? && s.runtime.None? && s.control.None? && s.sups == [] && IsNew(s, self)
    requires s.hist.starts == [] && CanSave(s', states)
    requires s' == AddProc(s, self).(sups := [NewSup(self, true)],
                                     hist := s.hist.(starts := [StartCall(s.os, None, Some(0))]))
    ensures CanSave(s, states)
  {
    hide CanSave, IsNew, ClientStep;
    var checked := s.hist.(starts := [StartCall(s.os, None, None)]);
    var s4 := s.(client := StartSpawn(None, true), hist := checked);
    SameNew(s, s4, self);
    SpawnsAndGivesUp(s4, self, s', states);
    StartCalls(s, checked, states);
  }

  lemma SpawnsAndGivesUp(s: Sys, self: Proc, s': Sys, states: seq<S.RuntimeState>)
    requires s.client == StartSpawn(None, true) && s.sups == [] && IsNew(s, self) && CanSave(s', states)
    requires s' == AddProc(s, self).(sups := [NewSup(self, true)], client := Idle,
                                     hist := s.hist.(starts := Launched(s.hist.starts, 0)))
    ensures CanSave(s, states)
  {
    hide CanSave, IsNew, Launched;
    var s5 := s'.(client := StartPoll(None, true, 0));
    assert s.sups + [NewSup(self, true)] == [NewSup(self, true)];
    ClientQuietly(s5, StartGivesUp, s', states);
    ClientQuietly(s, DoStartSpawn(self, true), s5, states);
  }

  lemma StartCalls(s: Sys, checked: History, states: seq<S.RuntimeState>)
    requires s.client.Idle? && s.runtime.None? && s.control.None? && s.sups == [] && s.hist.starts == []
    requires checked == s.hist.(starts := [StartCall(s.os, None, None)])
    requires CanSave(s.(client := StartSpawn(None, true), hist := checked), states)
    ensures CanSave(s, states)
  {
    hide CanSave;
    var s2 := s.(client := StartPrev, hist := checked);
    var s3 := s.(client := StartClear(None, true), hist := checked);
    ClientQuietly(s3, DoStartClear, s.(client := StartSpawn(None, true), hist := checked), states);
    ClientQuietly(s2, DoStartPrev, s3, states);
    StartChecks(s, checked, states);
  }

  lemma StartChecks(s: Sys, checked: History, states: seq<S.RuntimeState>)
    requires s.client.Idle? && s.runtime.None? && s.hist.starts == []
    requires checked == s.hist.(starts := [StartCall(s.os, None, None)])
    requires CanSave(s.(client := StartPrev, hist := checked), states)
    ensures CanSave(s, states)
  {
    hide CanSave;
    var s1 := s.(client := StartCheck);
    assert s.hist.starts + [StartCall(s.os, None, None)] == [StartCall(s.os, None, None)];
    ClientQuietly(s1, DoStartCheck, s.(client := StartPrev, hist := checked), states);
    ClientQuietly(s, CallStart, s1, states);
  }

  lemma SameNew(s: Sys, s': Sys, p: Proc)
    requires IsNew(s, p) && s'.os == s.os && s'.known == s.known && Held(s'.client).None?
    ensures IsNew(s', p)
  {}
}
