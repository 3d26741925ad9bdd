/** The supervisor loop (minit/supervisor.py): one object that owns the runtime
    state, launches the app, watches it, restarts it by policy and saves the
    state after each change. What it observes in each round is arbitrary. */
module Supervisor {
  import opened Results

  datatype Policy = Never | OnFailure | Always

  /** The values of the status and health fields. */
  datatype Word = Starting | Running | Healthy | Degraded | PortUnreachable | Restarting | Stopped | Failed

  /** runtime.json, as far as the supervisor decides it. */
  datatype RuntimeState = RuntimeState(
    appPid: Option<nat>, appCreateTime: Option<int>, status: Word, health: Word, metricsAvailable: bool,
    restartCount: nat, lastExitCode: Option<int>, stoppedAt: Option<nat>)

  /** What subprocess.Popen and ProcessMonitor do for one launch. */
  datatype Launch = LaunchFails | Launched(pid: nat, createTime: Option<int>, monitored: bool)

  /** What one round of the loop observes: a stop request, the exit code poll
      returns, the port, the grace period, the metrics sample, an exception
      from a probe, and the outcome of a relaunch. */
  datatype Round = Round(
    stop: bool, exit: Option<int>, portOpen: bool, graceOver: bool, sampled: bool, probeRaises: bool, relaunch: Launch)

  /** How a run ends: returning 0 or 1, or killed between two rounds. */
  datatype Ending = Returned(code: nat) | Killed

  /** The six pairs of status and health a reader can find. */
  predicate InTable(s: RuntimeState) {
    || (s.status == Starting && s.health == Starting)
    || (s.status == Running && s.health == Healthy)
    || (s.status == Degraded && s.health == PortUnreachable)
    || (s.status == Restarting && s.health == Restarting)
    || (s.status == Stopped && s.health == Stopped)
    || (s.status == Failed && s.health == Failed)
  }

  /** Without an app process nothing about a process is reported. */
  predicate PidConsistent(s: RuntimeState) {
    s.appPid.None? ==> s.appCreateTime.None? && !s.metricsAvailable
  }

  predicate Justified(policy: Policy, exit: int) {
    policy == Always || (policy == OnFailure && exit != 0)
  }

  /** What a run comes to: how it ends, how often it launched, and the exit codes
      it observed. */
  datatype Fate = Fate(ending: Ending, launches: nat, exits: seq<int>)

  /** The rounds after a launch, by the policy. */
  function Fated(policy: Policy, rounds: seq<Round>, launches: nat, exits: seq<int>): Fate
    decreases |rounds|
  {
    if rounds == [] then Fate(Killed, launches, exits)
    else if rounds[0].stop then Fate(Returned(0), launches, exits)
    else match rounds[0].exit
      case Some(code) =>
        if !Justified(policy, code) then Fate(Returned(0), launches, exits + [code])
        else if rounds[0].relaunch.LaunchFails? then Fate(Returned(1), launches, exits + [code])
        else Fated(policy, rounds[1..], launches + 1, exits + [code])
      case None =>
        if rounds[0].probeRaises then Fate(Returned(1), launches, exits)
        else Fated(policy, rounds[1..], launches, exits)
  }

  /** The exit codes of the rounds, in order. */
  function ExitsOf(rounds: seq<Round>): seq<int> {
    if rounds == [] then [] else (if rounds[0].exit.Some? then [rounds[0].exit.value] else []) + ExitsOf(rounds[1..])
  }

  /** No stop request, no exception and no failed launch. */
  predicate Undisturbed(rounds: seq<Round>) {
    forall i | 0 <= i < |rounds| :: !rounds[i].stop && !rounds[i].probeRaises && rounds[i].relaunch.Launched?
  }

  /** How many exit codes from the front the policy answers with a restart. */
  function Restarts(policy: Policy, codes: seq<int>): (n: nat)
    ensures n <= |codes|
  {
    if codes == [] || !Justified(policy, codes[0]) then 0 else 1 + Restarts(policy, codes[1..])
  }

  lemma {:induction false} RestartsAreJustified(policy: Policy, codes: seq<int>, i: nat)
    requires i < |codes|
    ensures i < Restarts(policy, codes) ==> Justified(policy, codes[i])
    ensures i == Restarts(policy, codes) ==> !Justified(policy, codes[i])
  {
    if Justified(policy, codes[0]) && i > 0 { RestartsAreJustified(policy, codes[1..], i - 1); }
  }

  /** The fate that these exit codes and the policy alone decide. */
  function FateOf(policy: Policy, codes: seq<int>, launches: nat, exits: seq<int>): Fate {
    var n := Restarts(policy, codes);
    if n == |codes| then Fate(Killed, launches + n, exits + codes)
    else Fate(Returned(0), launches + n, exits + codes[..n + 1])
  }

  lemma AppendShifts(exits: seq<int>, code: int, rest: seq<int>, n: nat)
    requires n <= |rest|
    ensures exits + [code] + rest == exits + ([code] + rest)
    ensures n < |rest| ==> exits + [code] + rest[..n + 1] == exits + ([code] + rest)[..n + 2]
  {
    if n < |rest| { assert ([code] + rest)[..n + 2] == [code] + rest[..n + 1]; }
  }

  lemma NoExits(policy: Policy, launches: nat, exits: seq<int>)
    ensures FateOf(policy, [], launches, exits) == Fate(Killed, launches, exits)
  {
    assert exits + [] == exits;
  }

  lemma OneExit(policy: Policy, code: int, rest: seq<int>, launches: nat, exits: seq<int>)
    ensures FateOf(policy, [code] + rest, launches, exits)
         == if Justified(policy, code) then FateOf(policy, rest, launches + 1, exits + [code])
            else Fate(Returned(0), launches, exits + [code])
  {
    assert ([code] + rest)[1..] == rest && ([code] + rest)[..1] == [code];
    AppendShifts(exits, code, rest, Restarts(policy, rest));
  }

  lemma Undisturbance(rounds: seq<Round>)
    requires Undisturbed(rounds) && rounds != []
    ensures !rounds[0].stop && !rounds[0].probeRaises && rounds[0].relaunch.Launched? && Undisturbed(rounds[1..])
  {}

  /** Left undisturbed, the supervisor restarts the app after every exit up to
      the first one the policy does not justify, and then returns 0; when the
      policy justifies them all it goes on. */
  lemma {:induction false} RestartsExactly(policy: Policy, rounds: seq<Round>, launches: nat, exits: seq<int>)
    requires Undisturbed(rounds)
    ensures Fated(policy, rounds, launches, exits) == FateOf(policy, ExitsOf(rounds), launches, exits)
    decreases |rounds|
  {
    hide Justified, FateOf, Undisturbed;
    if rounds == [] {
      NoExits(policy, launches, exits);
    } else {
      Undisturbance(rounds);
      match rounds[0].exit
      case None =>
        assert ExitsOf(rounds) == ExitsOf(rounds[1..]);
        RestartsExactly(policy, rounds[1..], launches, exits);
      case Some(code) =>
        OneExit(policy, code, ExitsOf(rounds[1..]), launches, exits);
        if Justified(policy, code) { RestartsExactly(policy, rounds[1..], launches + 1, exits + [code]); }
    }
  }

  /** How many restarts that makes: none by the policy never, all by always, and by
      on-failure those before the first exit code 0. */
  lemma {:induction false} RestartsByPolicy(policy: Policy, codes: seq<int>)
    ensures policy.Never? ==> Restarts(policy, codes) == 0
    ensures policy.Always? ==> Restarts(policy, codes) == |codes|
    ensures policy.OnFailure? ==>
              var n := Restarts(policy, codes);
              (forall i | 0 <= i < n :: codes[i] != 0) && (n < |codes| ==> codes[n] == 0)
  {
    if codes != [] { RestartsByPolicy(policy, codes[1..]); }
  }

  // ----- the fate of any run ------------------------------------------------

  /** The run ends in this round: a stop request, an exception, an exit that calls
      for no restart, or a restart that fails. */
  predicate EndsRun(policy: Policy, r: Round) {
    || r.stop
    || (r.exit.None? && r.probeRaises)
    || (r.exit.Some? && (policy.Never? || (policy.OnFailure? && r.exit.value == 0) || r.relaunch.LaunchFails?))
  }

  /** What supervise returns then: 1 after an exception, which a failed launch is. */
  function CodeAfter(policy: Policy, r: Round): nat {
    if r.stop then 0
    else if r.exit.None? then 1
    else if policy.Always? || (policy.OnFailure? && r.exit.value != 0) then 1 else 0
  }

  /** The exit code of the round that ends the run, if it was looked at. */
  function LastExit(r: Round): seq<int> {
    if !r.stop && r.exit.Some? then [r.exit.value] else []
  }

  /** Whatever the rounds bring: the run goes on through round n, with one launch
      for each exit, and ends in it, or is killed after all rounds. */
  lemma {:induction false} FateExactly(policy: Policy, rounds: seq<Round>, launches: nat, exits: seq<int>, n: nat)
    requires n <= |rounds| && (forall i | 0 <= i < n :: !EndsRun(policy, rounds[i]))
    requires n < |rounds| ==> EndsRun(policy, rounds[n])
    ensures var before := ExitsOf(rounds[..n]);
            Fated(policy, rounds, launches, exits)
            == if n == |rounds| then Fate(Killed, launches + |before|, exits + before)
               else Fate(Returned(CodeAfter(policy, rounds[n])), launches + |before|,
                         exits + before + LastExit(rounds[n]))
    decreases n
  {
    if n == 0 {
      assert rounds[..0] == [] && exits + [] == exits;
    } else {
      var rest, more := rounds[1..], LastExit(rounds[0]);
      assert !EndsRun(policy, rounds[0]);
      assert rounds[..n][1..] == rest[..n - 1] && rounds[..n][0] == rounds[0];
      FateExactly(policy, rest, launches + |more|, exits + more, n - 1);
      assert exits + more + ExitsOf(rest[..n - 1]) == exits + (more + ExitsOf(rest[..n - 1]));
      assert exits + [] == exits;
    }
  }

  // ----- what is saved ------------------------------------------------------

  /** What lies between one save and the next. */
  datatype Act =
    | Launching(pid: nat, createTime: Option<int>, monitored: bool) | Exiting(code: int) | Announcing
    | Checking(portOpen: bool, graceOver: bool, sample: Option<bool>) | Failing | Ending(now: nat)

  /** The state saved after that, from the one saved before. */
  function After(s: RuntimeState, act: Act): RuntimeState {
    match act
    case Launching(pid, createTime, m) =>
      s.(appPid := Some(pid), appCreateTime := createTime, status := Starting, health := Starting,
         metricsAvailable := m)
    case Exiting(code) => s.(lastExitCode := Some(code), appPid := None, appCreateTime := None,
                             metricsAvailable := false)
    case Announcing => s.(restartCount := s.restartCount + 1, status := Restarting, health := Restarting)
    case Checking(portOpen, graceOver, sample) =>
      s.(status := if portOpen then Running else if graceOver then Degraded else Starting,
         health := if portOpen then Healthy else if graceOver then PortUnreachable else Starting,
         metricsAvailable := if sample.Some? then sample.value else s.metricsAvailable)
    case Failing => s.(status := Failed, health := Failed)
    case Ending(now) =>
      s.(appPid := None, appCreateTime := None, metricsAvailable := false, stoppedAt := Some(now),
         status := if s.status == Failed then Failed else Stopped,
         health := if s.status == Failed then s.health else Stopped)
  }

  /** The last saves of a run that ends from this saved state. */
  function LastSaves(s: RuntimeState, failed: bool, now: nat): seq<RuntimeState> {
    if failed then [After(s, Failing), After(After(s, Failing), Ending(now))] else [After(s, Ending(now))]
  }

  function LaunchedFrom(s: RuntimeState, l: Launch): RuntimeState
    requires l.Launched?
  {
    After(s, Launching(l.pid, l.createTime, l.monitored))
  }

  function CheckedFrom(s: RuntimeState, m: bool, r: Round): RuntimeState {
    After(s, Checking(r.portOpen, r.graceOver, if m then Some(r.sampled) else None))
  }

  /** What is saved after a launch, round by round; `m` says whether the running
      app is monitored. */
  function Saves(policy: Policy, m: bool, s: RuntimeState, rounds: seq<Round>, now: nat): seq<RuntimeState>
    decreases |rounds|, 0
  {
    if rounds == [] then []
    else if rounds[0].stop then LastSaves(s, false, now)
    else match rounds[0].exit
      case Some(code) =>
        var ended := After(s, Exiting(code));
        if !Justified(policy, code) then [ended] + LastSaves(ended, false, now)
        else [ended, After(ended, Announcing)]
             + SavesFromLaunch(policy, After(ended, Announcing), rounds[0].relaunch, rounds[1..], now)
      case None =>
        if rounds[0].probeRaises then LastSaves(s, true, now)
        else [CheckedFrom(s, m, rounds[0])] + Saves(policy, m, CheckedFrom(s, m, rounds[0]), rounds[1..], now)
  }

  function SavesFromLaunch(policy: Policy, s: RuntimeState, l: Launch, rounds: seq<Round>, now: nat): seq<RuntimeState>
    decreases |rounds|, 1
  {
    match l
    case LaunchFails => LastSaves(s, true, now)
    case Launched(_, _, m) => [LaunchedFrom(s, l)] + Saves(policy, m, LaunchedFrom(s, l), rounds, now)
  }

  /** What has been saved and what is still to come. */
  function Total(saved: seq<RuntimeState>, rest: seq<RuntimeState>): seq<RuntimeState> {
    saved + rest
  }

  lemma Shift(saved: seq<RuntimeState>, more: seq<RuntimeState>, rest: seq<RuntimeState>)
    ensures Total(saved, more + rest) == Total(saved + more, rest)
  {}

  lemma AllSaved(saved: seq<RuntimeState>, last: seq<RuntimeState>)
    ensures Total(saved, last) == saved + last
  {}

  lemma NoRounds(policy: Policy, m: bool, s: RuntimeState, now: nat, launches: nat, exits: seq<int>)
    ensures Saves(policy, m, s, [], now) == [] && Fated(policy, [], launches, exits) == Fate(Killed, launches, exits)
  {}

  lemma EndingRound(policy: Policy, rounds: seq<Round>, launches: nat, exits: seq<int>)
    requires rounds != []
    ensures var r, fate := rounds[0], Fated(policy, rounds, launches, exits);
            && (r.stop ==> fate == Fate(Returned(0), launches, exits))
            && (!r.stop && r.exit.None? ==>
                 fate == if r.probeRaises then Fate(Returned(1), launches, exits)
                         else Fated(policy, rounds[1..], launches, exits))
  {}

  lemma ExitFate(policy: Policy, rounds: seq<Round>, code: int, launches: nat, exits: seq<int>)
    requires rounds != [] && !rounds[0].stop && rounds[0].exit == Some(code)
    ensures Fated(policy, rounds, launches, exits)
         == if !Justified(policy, code) then Fate(Returned(0), launches, exits + [code])
            else if rounds[0].relaunch.LaunchFails? then Fate(Returned(1), launches, exits + [code])
            else Fated(policy, rounds[1..], launches + 1, exits + [code])
  {}

  lemma LaunchSaves(policy: Policy, s: RuntimeState, l: Launch, rounds: seq<Round>, now: nat)
    ensures SavesFromLaunch(policy, s, l, rounds, now)
         == if l.LaunchFails? then LastSaves(s, true, now)
            else [LaunchedFrom(s, l)] + Saves(policy, l.monitored, LaunchedFrom(s, l), rounds, now)
  {}

  lemma StopRound(policy: Policy, m: bool, s: RuntimeState, rounds: seq<Round>, now: nat)
    requires rounds != [] && rounds[0].stop
    ensures Saves(policy, m, s, rounds, now) == LastSaves(s, false, now)
  {}

  lemma RaiseRound(policy: Policy, m: bool, s: RuntimeState, rounds: seq<Round>, now: nat)
    requires rounds != [] && !rounds[0].stop && rounds[0].exit.None? && rounds[0].probeRaises
    ensures Saves(policy, m, s, rounds, now) == LastSaves(s, true, now)
  {}

  lemma CheckRound(policy: Policy, m: bool, s: RuntimeState, rounds: seq<Round>, now: nat)
    requires rounds != [] && !rounds[0].stop && rounds[0].exit.None? && !rounds[0].probeRaises
    ensures Saves(policy, m, s, rounds, now)
         == [CheckedFrom(s, m, rounds[0])] + Saves(policy, m, CheckedFrom(s, m, rounds[0]), rounds[1..], now)
  {}

  lemma ExitRound(policy: Policy, m: bool, s: RuntimeState, rounds: seq<Round>, now: nat)
    requires rounds != [] && !rounds[0].stop && rounds[0].exit.Some?
    ensures var ended := After(s, Exiting(rounds[0].exit.value));
            Saves(policy, m, s, rounds, now)
            == if !Justified(policy, rounds[0].exit.value) then [ended] + LastSaves(ended, false, now)
               else [ended, After(ended, Announcing)]
                    + SavesFromLaunch(policy, After(ended, Announcing), rounds[0].relaunch, rounds[1..], now)
  {}

  /** The status an exit that ends the loop gives the state is saved anyway. */
  lemma StoppedEnds(s: RuntimeState, now: nat)
    requires s.status != Failed
    ensures LastSaves(s.(status := Stopped, health := Stopped), false, now) == LastSaves(s, false, now)
  {}

  ghost predicate Follows(a: RuntimeState, b: RuntimeState) {
    exists act :: b == After(a, act)
  }

  ghost predicate Consistent(saves: seq<RuntimeState>) {
    forall i | 0 <= i < |saves| :: InTable(saves[i]) && PidConsistent(saves[i])
  }

  /** Every save comes from the one before it. */
  ghost predicate Linked(saves: seq<RuntimeState>) {
    forall i | 0 < i < |saves| :: Follows(saves[i - 1], saves[i])
  }

  class Supervisor {
    const policy: Policy
    var state: RuntimeState
    var monitored: bool
    /** The app leaders that were launched and have not been seen to exit. */
    var leaders: set<nat>
    /** Every state saved so far, every exit code observed, and the number of
        launches. */
    var saves: seq<RuntimeState>
    var exits: seq<int>
    var launches: nat

    /** Holds between any two steps. */
    ghost predicate Valid()
      reads this
    {
      && InTable(state) && PidConsistent(state)
      && saves != [] && Consistent(saves)
      && |leaders| <= 1
      && launches <= |exits| + 1 && |exits| <= launches
      && (forall i | 0 <= i < launches - 1 :: Justified(policy, exits[i]))
      && (policy == Never ==> launches <= 1)
      && Linked(saves) && Saved()
    }

    /** The state is the one saved last, but for the status an exit that ends the
        loop gives it. */
    ghost predicate Saved()
      requires saves != []
      reads this
    {
      || state == saves[|saves| - 1]
      || (state == saves[|saves| - 1].(status := Stopped, health := Stopped) && saves[|saves| - 1].status != Failed)
    }

    /** Holds at the head of the loop: one leader runs, and every launch but the
        first is counted as a restart. */
    ghost predicate AtLoopHead()
      reads this
    {
      && Valid() && |leaders| == 1 && state.appPid.Some? && state == saves[|saves| - 1] && state.status != Failed
      && launches == state.restartCount + 1 && |exits| == state.restartCount
    }

    /** Start-up: the base state is saved before anything is launched. */
    constructor (policy: Policy)
      ensures Valid() && this.policy == policy && leaders == {} && launches == 0 && exits == []
      ensures state == RuntimeState(None, None, Starting, Starting, false, 0, None, None) && saves == [state]
    {
      this.policy := policy;
      monitored, leaders, exits, launches := false, {}, [], 0;
      state := RuntimeState(None, None, Starting, Starting, false, 0, None, None);
      saves := [RuntimeState(None, None, Starting, Starting, false, 0, None, None)];
    }

    method Save(ghost act: Act)
      requires saves != [] && Linked(saves) && state == After(saves[|saves| - 1], act)
      modifies this`saves
      ensures saves == old(saves) + [state] && Linked(saves)
    {
      hide After;
      saves := saves + [state];
    }

    /** start_app. A launch is only made when no leader is left. */
    method StartApp(l: Launch) returns (ok: bool)
      requires Valid() && leaders == {} && launches == |exits| && state == saves[|saves| - 1]
      requires forall i | 0 <= i < |exits| :: Justified(policy, exits[i])
      modifies this
      ensures Valid() && exits == old(exits) && old(saves) <= saves
      ensures ok <==> l.Launched?
      ensures ok ==> leaders == {l.pid} && launches == old(launches) + 1 && saves == old(saves) + [state]
      ensures ok ==> state == LaunchedFrom(old(state), l) && monitored == l.monitored
      ensures ok ==> state == old(state).(appPid := Some(l.pid), appCreateTime := l.createTime, status := Starting,
                                          health := Starting, metricsAvailable := l.monitored)
      ensures !ok ==> leaders == {} && launches == old(launches) && state == old(state) && saves == old(saves)
    {
      hide Linked;
      match l {
        case LaunchFails => return false;
        case Launched(pid, createTime, m) =>
          assert exits != [] ==> Justified(policy, exits[0]);
          leaders, launches, monitored := leaders + {pid}, launches + 1, m;
          state := state.(appPid := Some(pid), appCreateTime := createTime, status := Starting, health := Starting,
                          metricsAvailable := m);
          Save(Launching(pid, createTime, m));
          return true;
      }
    }

    /** The branch taken when poll returns an exit code; `again` says whether
        the policy asks for a restart. */
    method ObserveExit(code: int) returns (again: bool)
      requires AtLoopHead()
      modifies this
      ensures Valid() && leaders == {} && exits == old(exits) + [code] && launches == old(launches) == |exits|
      ensures policy.Never? ==> !again
      ensures policy.Always? ==> again
      ensures policy.OnFailure? ==> (again <==> code != 0)
      ensures again <==> Justified(policy, code)
      ensures again ==> state == old(state).(appPid := None, appCreateTime := None, metricsAvailable := false,
                          lastExitCode := Some(code), restartCount := old(state.restartCount) + 1,
                          status := Restarting, health := Restarting)
      ensures !again ==> state == old(state).(appPid := None, appCreateTime := None, metricsAvailable := false,
                          lastExitCode := Some(code), status := Stopped, health := Stopped)
      ensures saves == old(saves) + (if again then [After(old(state), Exiting(code)), state]
                                     else [After(old(state), Exiting(code))])
      ensures again ==> state == After(After(old(state), Exiting(code)), Announcing)
      ensures !again ==> state == After(old(state), Exiting(code)).(status := Stopped, health := Stopped)
      ensures After(old(state), Exiting(code)).status != Failed
    {
      hide Linked;
      leaders, exits := {}, exits + [code];
      state := state.(lastExitCode := Some(code), appPid := None, appCreateTime := None, metricsAvailable := false);
      Save(Exiting(code));
      again := policy == Always || (policy == OnFailure && code != 0);
      if !again {
        state := state.(status := Stopped, health := Stopped);
      } else {
        state := state.(restartCount := state.restartCount + 1, status := Restarting, health := Restarting);
        Save(Announcing);
      }
    }

    /** The health branch: what is saved says what the port showed. */
    method CheckHealth(round: Round)
      requires AtLoopHead()
      modifies this`state, this`saves
      ensures AtLoopHead() && saves == old(saves) + [state] && state == CheckedFrom(old(state), monitored, round)
      ensures state.status == Running <==> round.portOpen
      ensures state.status == Degraded <==> !round.portOpen && round.graceOver
      ensures state.status == Starting <==> !round.portOpen && !round.graceOver
      ensures state.appPid == old(state.appPid) && state.appCreateTime == old(state.appCreateTime)
      ensures state.restartCount == old(state.restartCount) && state.lastExitCode == old(state.lastExitCode)
      ensures state.metricsAvailable == if monitored then round.sampled else old(state.metricsAvailable)
    {
      hide Linked;
      if round.portOpen {
        state := state.(status := Running, health := Healthy);
      } else if round.graceOver {
        state := state.(status := Degraded, health := PortUnreachable);
      } else {
        state := state.(status := Starting, health := Starting);
      }
      if monitored { state := state.(metricsAvailable := round.sampled); }
      Save(Checking(round.portOpen, round.graceOver, if monitored then Some(round.sampled) else None));
    }

    /** The finally block, after the except block when an exception came. The
        system may refuse to terminate the app. */
    method Finish(failed: bool, refused: bool, now: nat) returns (code: nat)
      requires Valid() && (failed ==> state == saves[|saves| - 1])
      modifies this
      ensures Valid() && leaders == (if refused then old(leaders) else {}) && exits == old(exits)
              && launches == old(launches)
      ensures saves == old(saves) + LastSaves(old(state), failed, now) && saves[|saves| - 1] == state
      ensures state.appPid == None && state.stoppedAt == Some(now) && state.restartCount == old(state.restartCount)
      ensures state.status == (if failed || old(state.status) == Failed then Failed else Stopped)
      ensures code == if failed then 1 else 0
    {
      hide Linked;
      if failed {
        state := state.(status := Failed, health := Failed);
        Save(Failing);
      }
      if !refused { leaders := {}; }
      state := state.(appPid := None, appCreateTime := None, metricsAvailable := false);
      if state.status != Failed { state := state.(status := Stopped, health := Stopped); }
      state := state.(stoppedAt := Some(now));
      Save(Ending(now));
      code := if failed then 1 else 0;
    }

    /** supervise, over any sequence of observations. Whatever happens: every
        saved state is consistent, launches match restarts, every relaunch is
        justified by the policy and the exit code before it, at most one leader
        lives at a time, and unless the supervisor is killed its last save shows
        no app, a stop time, and no leader is left unless the system refused to
        terminate it. */
    method Supervise(first: Launch, rounds: seq<Round>, refused: bool, now: nat) returns (ending: Ending)
      requires Valid() && leaders == {} && launches == 0 && exits == [] && |saves| == 1
      requires state.restartCount == 0 && state.status == Starting && state == saves[0]
      modifies this
      ensures Valid()
      ensures saves == old(saves) + SavesFromLaunch(policy, old(state), first, rounds, now)
      ensures launches <= state.restartCount + 1 && state.restartCount <= |exits|
      ensures ending.Returned? ==> (leaders == {} || refused) && state == saves[|saves| - 1]
      ensures ending.Returned? ==> state.appPid == None && state.stoppedAt == Some(now)
      ensures ending.Returned? ==> state.status == (if ending.code == 0 then Stopped else Failed)
      ensures ending.Killed? ==> AtLoopHead()
      ensures policy == Never ==> launches <= 1
      ensures first == LaunchFails ==> ending == Returned(1) && launches == 0
      ensures first != LaunchFails ==> Fate(ending, launches, exits) == Fated(policy, rounds, 1, [])
    {
      hide InTable, PidConsistent, Consistent, Justified, Linked, After, LastSaves, LaunchedFrom, CheckedFrom, Saves;
      hide Total, Saved, Restarts, SavesFromLaunch, Fated;
      AllSaved(saves, SavesFromLaunch(policy, state, first, rounds, now));
      ghost var all := old(saves) + SavesFromLaunch(policy, old(state), first, rounds, now);
      LaunchSaves(policy, state, first, rounds, now);
      var ok := StartApp(first);
      if ok { Shift(old(saves), [state], Saves(policy, monitored, state, rounds, now)); }
      var over, failed, i := !ok, !ok, 0;
      while !over && i < |rounds|
        invariant 0 <= i <= |rounds| && Valid() && launches <= state.restartCount + 1 && state.restartCount <= |exits|
        invariant !over ==> !failed && AtLoopHead()
        invariant !over ==> Total(saves, Saves(policy, monitored, state, rounds[i..], now)) == all
        invariant !over ==> Fated(policy, rounds, 1, []) == Fated(policy, rounds[i..], launches, exits)
        invariant over ==> Total(saves, LastSaves(state, failed, now)) == all && state.status != Failed
        invariant over && failed ==> state == saves[|saves| - 1]
        invariant over && first.Launched? ==>
                    Fated(policy, rounds, 1, []) == Fate(Returned(if failed then 1 else 0), launches, exits)
        invariant first.LaunchFails? ==> over && failed && launches == 0
      {
        var round := rounds[i];
        assert rounds[i..][0] == round && rounds[i..][1..] == rounds[i + 1..];
        ghost var left, before := rounds[i..], saves;
        EndingRound(policy, left, launches, exits);
        i := i + 1;
        if round.stop {
          StopRound(policy, monitored, state, left, now);
          over := true;
        } else if round.exit.Some? {
          ExitRound(policy, monitored, state, left, now);
          ExitFate(policy, left, round.exit.value, launches, exits);
          ghost var ended := After(state, Exiting(round.exit.value));
          var again := ObserveExit(round.exit.value);
          if !again {
            StoppedEnds(ended, now);
            Shift(before, [ended], LastSaves(ended, false, now));
            over := true;
          } else {
            Shift(before, [ended, state], SavesFromLaunch(policy, state, round.relaunch, rounds[i..], now));
            LaunchSaves(policy, state, round.relaunch, rounds[i..], now);
            before := saves;
            ok := StartApp(round.relaunch);
            if ok { Shift(before, [state], Saves(policy, monitored, state, rounds[i..], now)); }
            over, failed := !ok, !ok;
          }
        } else if round.probeRaises {
          RaiseRound(policy, monitored, state, left, now);
          over, failed := true, true;
        } else {
          CheckRound(policy, monitored, state, left, now);
          CheckHealth(round);
          Shift(before, [state], Saves(policy, monitored, state, rounds[i..], now));
        }
      }
      if !over {
        NoRounds(policy, monitored, state, now, launches, exits);
        AllSaved(saves, []);
        return Killed;
      }
      AllSaved(saves, LastSaves(state, failed, now));
      var code := Finish(failed, refused, now);
      ending := Returned(code);
    }
  }
}
