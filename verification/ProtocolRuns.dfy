/** The properties of the client-supervisor protocol, over every run from a
    project without files. */
module ProtocolRuns {
  import opened Results
  import opened Runs
  import opened Protocol
  import opened ProtocolSafety
  import opened ProtocolSignals
  import opened ProtocolLeaders
  import opened ProtocolStops
  import opened ProtocolStarts

  ghost predicate Invariant(s: Sys) {
    Structure(s) && SignalsOk(s) && Leaders(s) && Stops(s) && ForceAims(s.client) && Starts(s)
  }

  lemma InitialInvariant(os: map<nat, int>)
    ensures Invariant(Initial(os))
  {}

  lemma StepKeeps(s: Sys, e: Event)
    requires Invariant(s) && Step(s, e).Some?
    ensures Invariant(Step(s, e).value)
  {
    hide Step, Structure, SignalsOk, Leaders, Stops, ForceAims, Starts;
    StepStructure(s, e);
    StepSignals(s, e);
    StepLeaders(s, e);
    StepStops(s, e);
    StepStarts(s, e);
  }

  lemma {:induction false} RunKeeps(s: Sys, events: seq<Event>)
    requires Invariant(s) && Run(s, events).Some?
    ensures Invariant(Run(s, events).value)
    decreases |events|
  {
    hide Invariant, Step;
    if events != [] {
      StepKeeps(s, events[0]);
      RunKeeps(Step(s, events[0]).value, events[1..]);
    }
  }

  ghost predicate Reachable(s: Sys) {
    exists os, events :: Run(Initial(os), events) == Some(s)
  }

  lemma ReachableInvariant(s: Sys)
    requires Reachable(s)
    ensures Invariant(s)
  {
    hide Invariant;
    var os, events :| Run(Initial(os), events) == Some(s);
    InitialInvariant(os);
    RunKeeps(Initial(os), events);
  }

  /** Every signal aims at a supervisor of this project or an app one of them
      launched; where a create time was recorded it reaches that process or none. */
  lemma SignalsReachTheRecorded(s: Sys, i: nat)
    requires Reachable(s) && i < |s.hist.signals|
    ensures Ours(s, s.hist.signals[i].target)
    ensures s.hist.signals[i].timed ==>
              s.hist.signals[i].hit.None? || s.hist.signals[i].hit == Some(s.hist.signals[i].target)
  {
    hide Reachable, Ours;
    ReachableInvariant(s);
    assert SignalOk(s, s.hist.signals[i]);
  }

  /** Of all a supervisor launched, at most the app it holds is alive. */
  lemma OneAppAtATime(s: Sys, g: nat, p: Proc, q: Proc)
    requires Reachable(s) && g < |s.sups| && p in s.sups[g].launched && q in s.sups[g].launched
    requires InOs(s.os, p) && InOs(s.os, q)
    ensures p == q && s.sups[g].leader == Some(p)
  {
    hide Reachable, Structure, Stops, SignalsOk, Starts;
    ReachableInvariant(s);
    assert LeaderOk(s, s.sups[g]);
  }

  /** A supervisor between two launches, or past its finally block without the
      system refusing both signals, has left no app process alive, and none
      comes back later. */
  lemma NothingLeftBehind(s: Sys, g: nat, q: Proc)
    requires Reachable(s) && g < |s.sups| && HoldsNone(s.sups[g].pc) && q in s.sups[g].launched && !s.sups[g].refused
    ensures !InOs(s.os, q)
    ensures forall e :: Step(s, e).Some? ==> !InOs(Step(s, e).value.os, q)
  {
    hide Reachable, Structure, Stops, SignalsOk, Starts, Step, InOs;
    ReachableInvariant(s);
    assert LeaderOk(s, s.sups[g]);
    OneSup(s, g);
    forall e | Step(s, e).Some? ensures !InOs(Step(s, e).value.os, q) { EndedStaysEnded(s, e, q); }
  }

  /** The last stop written for generation g: its supervisor's start-up clear is
      already behind it, the stop is still on disk while the supervisor runs on,
      the next read ends the loop, and at most one launch follows. All but the
      first can fail only when another supervisor erased the stop, which cannot
      happen when no other had a clear to come as it was written. */
  lemma StopIsNotLost(s: Sys, g: nat)
    requires Reachable(s) && g in s.hist.marks
    ensures g < |s.sups| && Step(s, SupClear(g)).None?
    ensures g !in s.hist.erased ==> s.sups[g].launches <= s.hist.marks[g] + 1
    ensures g !in s.hist.erased && WillRead(s.sups[g].pc) ==> s.control == Some(g)
    ensures g !in s.hist.erased && s.sups[g].pc.LoopHead? ==> Step(s, SupReadControl(g)).value.sups[g].pc.Leaving?
    ensures g in s.hist.alone ==> g !in s.hist.erased
  {
    hide Reachable, Structure, SignalsOk, Leaders, Starts;
    ReachableInvariant(s);
    assert MarkOk(s, g);
  }

  /** When the client comes to clear control.json and save the stopped state, the
      supervisor it asked to stop has ended. */
  lemma StopEndsTheSupervisor(s: Sys)
    requires Reachable(s) && s.client.StopClear?
    ensures s.client.rec.gen < |s.sups| && !Live(s.sups[s.client.rec.gen])
  {
    hide Reachable, Structure, SignalsOk, Leaders, Starts;
    ReachableInvariant(s);
    assert MarkOk(s, s.client.rec.gen);
  }

  /** start_local_service returns a published generation other than the one
      recorded when the call began, running or degraded; and the one it launched
      itself when no supervisor was alive as it read the old state. */
  lemma StartReturnsFresh(s: Sys, i: nat)
    requires Reachable(s) && i < |s.hist.returned|
    ensures Some(s.hist.returned[i].rec.gen) != s.hist.returned[i].prev
    ensures s.hist.returned[i].rec.status in {Running, Degraded}
    ensures RecOk(s, s.hist.returned[i].rec)
    ensures s.hist.returned[i].quiet ==> s.hist.returned[i].rec.gen == s.hist.returned[i].mine
  {
    hide Reachable, Structure, SignalsOk, Leaders, Stops;
    ReachableInvariant(s);
    assert ReturnOk(s, s.hist.returned[i]);
  }

  // ----- the stop another supervisor erases ---------------------------------

  lemma RunsAreRuns()
    ensures IsRun(Step, Run)
  {
    hide Step;
    forall s, events ensures TakesFirst(Step, Run, s, events) {}
  }

  lemma OneStep(s: Sys, e: Event)
    ensures Run(s, [e]) == Step(s, e)
  {}

  lemma ReachStep(s: Sys, e: Event) returns (s': Sys)
    requires Reachable(s) && Step(s, e).Some?
    ensures s' == Step(s, e).value && Reachable(s')
  {
    hide Step;
    s' := Step(s, e).value;
    var os, events :| Run(Initial(os), events) == Some(s);
    RunsAreRuns();
    Append(Step, Run, Initial(os), events, [e]);
    OneStep(s, e);
    assert Run(Initial(os), events + [e]) == Some(s');
  }

  lemma SupReach(s: Sys, e: Event) returns (s': Sys)
    requires Reachable(s) && IsSupEvent(e) && e.g < |s.sups| && SupStep(s, e, e.g).Some?
    ensures s' == SupStep(s, e, e.g).value && Reachable(s')
  {
    s' := ReachStep(s, e);
  }

  lemma ClientReach(s: Sys, e: Event) returns (s': Sys)
    requires Reachable(s) && !IsSupEvent(e) && !e.EnvSpawn? && !e.EnvExit? && ClientStep(s, e).Some?
    ensures s' == ClientStep(s, e).value && Reachable(s')
  {
    s' := ReachStep(s, e);
  }

  lemma EnvReach(s: Sys, e: Event) returns (s': Sys)
    requires Reachable(s) && EnvStep(s, e).Some?
    ensures s' == EnvStep(s, e).value && Reachable(s')
  {
    s' := ReachStep(s, e);
  }

  lemma InitialReachable(os: map<nat, int>)
    ensures Reachable(Initial(os))
  {
    assert Run(Initial(os), []) == Some(Initial(os));
  }

  /** A first start that gave up leaves supervisor 0 at its very beginning; a
      second start launched supervisor 1, whose app is saved as running. */
  ghost predicate SlowFirst(s: Sys) {
    && |s.sups| == 2 && s.sups[0].pc.Boot? && s.sups[0].self == Proc(1, 0) && s.client.Idle? && s.control.None?
    && s.hist.marks == map[] && s.hist.erased == {}
    && s.sups[1].pc.LoopHead? && s.sups[1].self == Proc(2, 0) && !s.sups[1].term && s.sups[1].leader == Some(Proc(3, 0))
    && s.sups[1].launches == 1
    && s.os == map[1 := 0, 2 := 0, 3 := 0] && s.known == {Proc(1, 0), Proc(2, 0), Proc(3, 0)}
    && s.runtime.Some? && s.runtime.value.gen == 1 && s.runtime.value.sup == Proc(2, 0) && s.runtime.value.supTimed
  }

  lemma StartSpawning(s: Sys) returns (s': Sys)
    requires Reachable(s) && s.client.Idle? && s.runtime.None? && s.control.None?
    ensures Reachable(s') && s'.client.StartSpawn? && s'.client.prev.None?
    ensures s' == s.(client := s'.client, hist := s.hist.(starts := s'.hist.starts))
  {
    hide Reachable, NoneLive;
    s' := ClientReach(s, CallStart);
    s' := ClientReach(s', DoStartCheck);
    s' := ClientReach(s', DoStartPrev);
    s' := ClientReach(s', DoStartClear);
  }

  /** One start that gives up at once, from a project nothing has published in. */
  lemma StartAndGiveUp(s: Sys, p: Proc) returns (s': Sys)
    requires Reachable(s) && s.client.Idle? && s.runtime.None? && s.control.None? && IsNew(s, p)
    ensures Reachable(s')
    ensures s' == AddProc(s, p).(sups := s.sups + [NewSup(p, true)], hist := s.hist.(starts := s'.hist.starts))
  {
    hide Reachable, NoneLive;
    s' := StartSpawning(s);
    s' := ClientReach(s', DoStartSpawn(p, true));
    s' := ClientReach(s', StartGivesUp);
  }

  /** Supervisor g starts up, launches q and saves it. */
  lemma Launch(s: Sys, g: nat, q: Proc, timed: bool) returns (s': Sys)
    requires Reachable(s) && g < |s.sups| && s.sups[g].pc.Boot? && s.control.None? && IsNew(s, q)
    ensures Reachable(s') && s'.client == s.client && s'.control.None? && s'.hist == s.hist
    ensures s'.os == s.os[q.pid := q.born] && s'.known == s.known + {q}
    ensures s'.sups == s.sups[g := s.sups[g].(pc := LoopHead, leader := Some(q), app := Some(q), appTimed := timed,
                                              status := Starting, launched := s.sups[g].launched + {q},
                                              launches := s.sups[g].launches + 1)]
    ensures s'.runtime == Some(SupRecord(s'.sups[g], g))
  {
    hide Reachable;
    s' := SupReach(s, SupClear(g));
    s' := SupReach(s', SupPublish(g));
    s' := SupReach(s', SupSpawn(g, q));
    s' := SupReach(s', SupSaveApp(g, timed));
  }

  lemma SlowFirstReachable() returns (s: Sys)
    ensures Reachable(s) && SlowFirst(s)
  {
    hide Reachable;
    InitialReachable(map[]);
    s := StartAndGiveUp(Initial(map[]), Proc(1, 0));
    s := StartAndGiveUp(s, Proc(2, 0));
    assert s.sups == [NewSup(Proc(1, 0), true), NewSup(Proc(2, 0), true)];
    s := Launch(s, 1, Proc(3, 0), true);
  }

  /** The client asks the recorded supervisor to stop. */
  lemma StopWritten(s: Sys, r: Record) returns (s': Sys)
    requires Reachable(s) && s.client.Idle? && s.runtime == Some(r) && r.gen < |s.sups|
             && PidIsAlive(s.os, r.sup, r.supTimed)
    ensures Reachable(s')
    ensures s'.hist.marks == s.hist.marks[r.gen := s.sups[r.gen].launches] && s'.hist.erased == s.hist.erased - {r.gen}
    ensures s' == s.(control := Some(r.gen), client := StopPoll(r), hist := s'.hist)
  {
    hide Reachable, NoOtherLive, PidIsAlive;
    s' := ClientReach(s, CallStop);
    s' := ClientReach(s', DoStopCheck);
    s' := ClientReach(s', DoStopWrite);
  }

  /** Supervisor 0 wakes up and erases the stop meant for supervisor 1. */
  lemma StopErased(s: Sys) returns (s': Sys)
    requires Reachable(s) && SlowFirst(s)
    ensures Reachable(s') && s'.control.None? && s'.hist.marks == map[1 := 1] && 1 in s'.hist.erased
    ensures |s'.sups| == 2 && s'.sups[1] == s.sups[1] && s'.os == s.os && s'.known == s.known
    ensures Held(s'.client).None? && s'.sups[0].self == s.sups[0].self
  {
    hide Reachable;
    s' := StopWritten(s, s.runtime.value);
    s' := SupReach(s', SupClear(0));
  }

  /** A supervisor that reads no stop sees its app's exit and announces a relaunch. */
  lemma ExitSeen(s: Sys, g: nat, was: Proc) returns (s': Sys)
    requires Reachable(s) && g < |s.sups| && s.control.None? && s.sups[g].pc.LoopHead? && !s.sups[g].term
    requires s.sups[g].leader == Some(was) && InOs(s.os, was)
    requires forall h | 0 <= h < |s.sups| && Live(s.sups[h]) :: s.sups[h].self.pid != was.pid
    ensures Reachable(s') && s'.client == s.client && s'.hist == s.hist && s'.control.None? && s'.known == s.known
    ensures s'.os == s.os - {was.pid}
    ensures s'.sups == s.sups[g := s.sups[g].(pc := Relaunching, app := None, appTimed := false, status := Restarting)]
    ensures s'.runtime == Some(SupRecord(s'.sups[g], g))
  {
    hide Reachable;
    s' := SupReach(s, SupReadControl(g));
    s' := EnvReach(s', EnvExit(was.pid));
    s' := SupReach(s', SupSeesExit(g, true));
    s' := SupReach(s', SupAnnounce(g));
  }

  /** The app of supervisor 1 exits and is launched again. */
  lemma Relaunch(s: Sys, was: Proc, young: Proc) returns (s': Sys)
    requires Reachable(s) && |s.sups| == 2 && s.control.None? && Held(s.client).None? && IsNew(s, young)
    requires s.sups[1].pc.LoopHead? && !s.sups[1].term && s.sups[1].leader == Some(was) && InOs(s.os, was)
    requires s.sups[0].self.pid != was.pid && s.sups[1].self.pid != was.pid
    ensures Reachable(s') && |s'.sups| == 2 && s'.control.None? && s'.client == s.client && s'.hist == s.hist
    ensures s'.sups[0] == s.sups[0] && s'.os == (s.os - {was.pid})[young.pid := young.born]
            && s'.known == s.known + {young}
    ensures s'.sups[1].launches == s.sups[1].launches + 1 && s'.sups[1].leader == Some(young) && !s'.sups[1].term
    ensures s'.sups[1].pc.LoopHead? && s'.sups[1].self == s.sups[1].self
  {
    hide Reachable;
    s' := ExitSeen(s, 1, was);
    s' := SupReach(s', SupSpawn(1, young));
    s' := SupReach(s', SupSaveApp(1, true));
  }

  /** Without that condition the bound fails: a stop a late supervisor erased is
      followed by a second launch, and a third could follow in the same way. */
  lemma ErasedStopIsLost() returns (s: Sys)
    ensures Reachable(s) && 1 in s.hist.marks && 1 in s.hist.erased && |s.sups| == 2
    ensures s.sups[1].launches == s.hist.marks[1] + 2 && s.sups[1].pc.LoopHead? && s.control.None?
  {
    hide Reachable;
    s := SlowFirstReachable();
    s := StopErased(s);
    s := Relaunch(s, Proc(3, 0), Proc(4, 0));
    s := Relaunch(s, Proc(4, 0), Proc(5, 0));
  }

  // ----- the signal that strays ---------------------------------------------

  /** The supervisor crashed, its app was saved without a create time and ended,
      and a stranger got the app's pid. */
  ghost predicate StrangerHoldsPid(s: Sys) {
    && s.client.Idle? && s.hist.signals == [] && |s.sups| == 1 && s.sups[0].pc.Dead?
    && s.os == map[2 := 1000]
    && s.runtime == Some(Record(0, Proc(1, 0), true, Some(Proc(2, 0)), false, Starting))
  }

  /** A supervisor crashes; its app ends later and a stranger gets the pid. */
  lemma StrangerComes(s: Sys, q: Proc, stranger: Proc) returns (s': Sys)
    requires Reachable(s) && |s.sups| == 1 && Live(s.sups[0]) && s.sups[0].self.pid != q.pid && q.pid in s.os
    requires IsNew(s.(os := s.os - {s.sups[0].self.pid, q.pid}), stranger)
    ensures Reachable(s') && s'.sups == [s.sups[0].(pc := Dead)]
            && s'.os == (s.os - {s.sups[0].self.pid, q.pid})[stranger.pid := stranger.born]
    ensures s'.client == s.client && s'.runtime == s.runtime && s'.hist == s.hist
  {
    hide Reachable;
    s' := SupReach(s, SupCrash(0));
    s' := EnvReach(s', EnvExit(q.pid));
    assert s'.os == s.os - {s.sups[0].self.pid, q.pid};
    s' := EnvReach(s', EnvSpawn(stranger));
  }

  lemma StrangerReachable() returns (s: Sys)
    ensures Reachable(s) && StrangerHoldsPid(s)
  {
    hide Reachable;
    InitialReachable(map[]);
    s := StartAndGiveUp(Initial(map[]), Proc(1, 0));
    s := Launch(s, 0, Proc(2, 0), false);
    s := StrangerComes(s, Proc(2, 0), Proc(2, 1000));
  }

  /** Without a recorded create time a signal can reach another process. */
  lemma UntimedSignalStrays() returns (s: Sys)
    ensures Reachable(s) && |s.hist.signals| == 1 && !s.hist.signals[0].timed
    ensures s.hist.signals[0].hit.Some? && s.hist.signals[0].hit != Some(s.hist.signals[0].target)
  {
    hide Reachable;
    s := StrangerReachable();
    s := ClientReach(s, CallStop);
    s := ClientReach(s, DoStopCheck);
    s := ClientReach(s, DoForce);
    s := ClientReach(s, DoForce);
  }
}
