/** The CLI and the supervisors of one project (minit/runtime.py,
    minit/supervisor.py) as an interleaved step machine. They share only
    runtime.json and control.json, on an operating system that recycles pids.
    One client makes calls one after another; any number of supervisors, from
    earlier and later starts, may be alive; every file operation, liveness
    check and signal is one atomic step. */
module Protocol {
  import opened Results

  /** 0.05 seconds, in milliseconds. */
  const TOLERANCE: int := 50

  /** A process is a pid and a start time; the pid alone may be reused. */
  datatype Proc = Proc(pid: nat, born: int)

  datatype Status = Starting | Running | Degraded | Restarting | Stopped | Failed

  /** runtime.json. `gen` stands for started_at, which differs for every
      supervisor; a create time is recorded only where `timed` says so. */
  datatype Record = Record(gen: nat, sup: Proc, supTimed: bool, app: Option<Proc>, appTimed: bool, status: Status)

  /** Where a supervisor stands in supervise. */
  datatype SupPc =
    | Boot        // about to clear control.json
    | Cleared     // about to save the base state
    | Published   // about to launch the app for the first time
    | Spawned     // launched, about to save the app's pid
    | LoopHead    // about to read control.json
    | Checked     // no stop request seen; about to poll the app
    | Announcing  // exit saved, about to save "restarting"
    | Relaunching // about to launch again
    | Leaving     // in the finally block, about to terminate the app
    | Terminated  // about to clear control.json
    | LastSave    // about to save the final state
    | Exiting     // the final state saved, the process about to end
    | Done
    | Dead        // killed

  /** A supervisor: its own process, the app process object it holds, the
      fields of its state dict (`timed`, `app`, `appTimed`, `status`), whether a
      signal asked it to stop, whether the system refused to terminate its app,
      and what it has launched so far. */
  datatype Sup = Sup(self: Proc, timed: bool, pc: SupPc, leader: Option<Proc>, app: Option<Proc>, appTimed: bool,
                     status: Status, term: bool, refused: bool, launched: set<Proc>, launches: nat)

  function NewSup(self: Proc, timed: bool): Sup {
    Sup(self, timed, Boot, None, None, false, Starting, false, false, {}, 0)
  }

  /** _force_terminate: about to check, to send SIGTERM, to check with `n`
      rounds left, or to send SIGKILL. */
  datatype Stage = Check | SendTerm | Poll(n: nat) | SendKill
  datatype Force = Force(target: Proc, timed: bool, stage: Stage)

  /** Where the client stands in start_local_service or stop_local_service.
      `quiet` remembers whether no supervisor was alive when the previous state
      was read, and `mine` the generation this call launched. */
  datatype Client =
    | Idle
    | StartCheck | StartPrev | StartClear(prev: Option<nat>, quiet: bool) | StartSpawn(prev: Option<nat>, quiet: bool)
    | StartPoll(prev: Option<nat>, quiet: bool, mine: nat)
    | StopCheck(rec: Record)
    | OrphanForce(rec: Record, force: Force) | OrphanSave(rec: Record)
    | StopWrite(rec: Record) | StopPoll(rec: Record) | StopFinal(rec: Record)
    | ForceApp(rec: Record, force: Force) | ForceSup(rec: Record, force: Force)
    | StopClear(rec: Record) | StopReload(rec: Record) | StopSave(rec: Record)

  /** A signal the client sent: where it aimed, which process it reached, and
      whether it was SIGKILL. */
  datatype Signal = Signal(target: Proc, timed: bool, hit: Option<Proc>, kill: bool)

  /** What start_local_service returned, and the generation recorded before. */
  datatype Return = Return(prev: Option<nat>, quiet: bool, mine: nat, rec: Record)

  /** A call of start_local_service: the processes and the recorded state its
      check found, and the supervisor it launched. */
  datatype StartCall = StartCall(os: map<nat, int>, runtime: Option<Record>, launched: Option<nat>)

  /** What has happened, for stating properties: signals, returns, the number of
      launches a supervisor had made when a stop for it was last written,
      generations whose last stop another supervisor erased, and those whose
      last stop was written when no other supervisor had a clear to come; and the
      calls of start. */
  datatype History = History(signals: seq<Signal>, returned: seq<Return>, marks: map<nat, nat>, erased: set<nat>,
                             alone: set<nat>, starts: seq<StartCall>)

  /** control.json holds a stop request or does not exist; the generation the
      writer meant is remembered with it. */
  datatype Sys = Sys(os: map<nat, int>, known: set<Proc>, sups: seq<Sup>, runtime: Option<Record>, control: Option<nat>,
                     client: Client, hist: History)

  // ----- processes ----------------------------------------------------------

  predicate InOs(os: map<nat, int>, p: Proc) {
    p.pid in os && os[p.pid] == p.born
  }

  function Distance(a: int, b: int): nat {
    if a < b then b - a else a - b
  }

  /** pid_is_alive, where queries are permitted. */
  predicate PidIsAlive(os: map<nat, int>, p: Proc, timed: bool) {
    p.pid > 0 && p.pid in os && (timed ==> Distance(os[p.pid], p.born) <= TOLERANCE)
  }

  /** The pid a signal is about to be sent to, after a successful check. */
  function Held(c: Client): Option<nat> {
    match c
    case OrphanForce(_, f) => HeldBy(f)
    case ForceApp(_, f) => HeldBy(f)
    case ForceSup(_, f) => HeldBy(f)
    case _ => None
  }

  function HeldBy(f: Force): Option<nat> {
    if f.stage.SendTerm? || f.stage.SendKill? then Some(f.target.pid) else None
  }

  /** A new process: a free pid, not one held by the client, and more than the
      tolerance away from every earlier process with that pid. */
  predicate IsNew(s: Sys, p: Proc) {
    && p.pid > 0 && p.pid !in s.os && Held(s.client) != Some(p.pid)
    && forall q | q in s.known :: q.pid == p.pid ==> Distance(q.born, p.born) > TOLERANCE
  }

  function AddProc(s: Sys, p: Proc): Sys {
    s.(os := s.os[p.pid := p.born], known := s.known + {p})
  }

  predicate Live(p: Sup) {
    !p.pc.Done? && !p.pc.Dead?
  }

  // ----- supervisor steps ---------------------------------------------------

  datatype Event =
    | EnvSpawn(p: Proc) | EnvExit(pid: nat)
    | SupClear(g: nat) | SupPublish(g: nat) | SupSpawn(g: nat, p: Proc) | SupSpawnFails(g: nat)
    | SupSaveApp(g: nat, timed: bool) | SupReadControl(g: nat) | SupHealth(g: nat, status: Status)
    | SupSeesExit(g: nat, again: bool) | SupAnnounce(g: nat) | SupRaises(g: nat)
    | SupTerminate(g: nat, refused: bool) | SupFinalClear(g: nat) | SupFinalSave(g: nat)
    | SupExit(g: nat) | SupCrash(g: nat)
    | CallStart | DoStartCheck | DoStartPrev | DoStartClear | DoStartSpawn(p: Proc, timed: bool) | DoStartPoll
    | StartGivesUp
    | CallStop | DoStopCheck | DoStopWrite | DoStopPoll(timeout: bool) | DoStopFinal | DoForce
    | DoOrphanSave | DoStopClear | DoStopReload | DoStopSave

  function SetSup(s: Sys, g: nat, p: Sup): Sys
    requires g < |s.sups|
  {
    s.(sups := s.sups[g := p])
  }

  /** clear_control by supervisor g: a stop meant for another is erased. */
  function SupErases(s: Sys, g: nat): Sys {
    var anothers := if s.control.Some? && s.control.value != g then {s.control.value} else {};
    s.(control := None, hist := s.hist.(erased := s.hist.erased + anothers))
  }

  function SupRecord(p: Sup, g: nat): Record {
    Record(g, p.self, p.timed, p.app, p.appTimed, p.status)
  }

  /** Supervisor g becomes p and saves its state dict. */
  function Save(s: Sys, g: nat, p: Sup): Sys
    requires g < |s.sups|
  {
    SetSup(s, g, p).(runtime := Some(SupRecord(p, g)))
  }

  function SupStep(s: Sys, e: Event, g: nat): Option<Sys>
    requires g < |s.sups|
  {
    var p := s.sups[g];
    match e
    case SupClear(_) =>
      if p.pc.Boot? then Some(SupErases(SetSup(s, g, p.(pc := Cleared)), g)) else None
    case SupPublish(_) =>
      if p.pc.Cleared? then Some(Save(s, g, p.(pc := Published))) else None
    case SupSpawn(_, q) =>
      if (p.pc.Published? || p.pc.Relaunching?) && IsNew(s, q) then
        Some(SetSup(AddProc(s, q), g,
                    p.(pc := Spawned, leader := Some(q), launched := p.launched + {q}, launches := p.launches + 1)))
      else None
    case SupSpawnFails(_) =>
      if p.pc.Published? || p.pc.Relaunching? then Some(Save(s, g, p.(pc := Leaving, status := Failed))) else None
    case SupSaveApp(_, timed) =>
      if p.pc.Spawned? then
        Some(Save(s, g, p.(pc := LoopHead, app := p.leader, appTimed := timed, status := Starting)))
      else None
    case SupReadControl(_) =>
      if p.pc.LoopHead? then
        Some(SetSup(s, g, p.(pc := if s.control.Some? || p.term then Leaving else Checked)))
      else None
    case SupHealth(_, status) =>
      if p.pc.Checked? && p.leader.Some? && InOs(s.os, p.leader.value)
         && (status.Running? || status.Degraded? || status.Starting?) then
        Some(Save(s, g, p.(pc := LoopHead, status := status)))
      else None
    case SupSeesExit(_, again) =>
      if p.pc.Checked? && p.leader.Some? && !InOs(s.os, p.leader.value) then
        Some(Save(s, g, p.(pc := if again then Announcing else Leaving, app := None, appTimed := false)))
      else None
    case SupAnnounce(_) =>
      if p.pc.Announcing? then Some(Save(s, g, p.(pc := Relaunching, status := Restarting))) else None
    case SupRaises(_) =>
      if p.pc.LoopHead? || p.pc.Checked? then Some(Save(s, g, p.(pc := Leaving, status := Failed))) else None
    case SupTerminate(_, refused) =>
      if p.pc.Leaving? then
        var ends := !refused && p.leader.Some? && InOs(s.os, p.leader.value);
        Some(SetSup(if ends then s.(os := s.os - {p.leader.value.pid}) else s,
                    g, p.(pc := Terminated, refused := refused)))
      else None
    case SupFinalClear(_) =>
      if p.pc.Terminated? then Some(SupErases(SetSup(s, g, p.(pc := LastSave)), g)) else None
    case SupFinalSave(_) =>
      if p.pc.LastSave? then
        var last := if p.status.Failed? then Failed else Stopped;
        Some(Save(s, g, p.(pc := Exiting, app := None, appTimed := false, status := last)))
      else None
    case SupExit(_) =>
      if p.pc.Exiting? then Some(SetSup(s, g, p.(pc := Done)).(os := s.os - {p.self.pid})) else None
    case SupCrash(_) =>
      if Live(p) then Some(SetSup(s, g, p.(pc := Dead)).(os := s.os - {p.self.pid})) else None
    case _ => None
  }

  // ----- client steps -------------------------------------------------------

  function HitBy(s: Sys, pid: nat): Option<Proc> {
    if pid in s.os then Some(Proc(pid, s.os[pid])) else None
  }

  function SignalOf(s: Sys, f: Force): Signal {
    Signal(f.target, f.timed, HitBy(s, f.target.pid), f.stage.SendKill?)
  }

  function LogSignal(s: Sys, f: Force): Sys {
    s.(hist := s.hist.(signals := s.hist.signals + [SignalOf(s, f)]))
  }

  /** SIGTERM asks a supervisor to stop; an app may exit on its own. */
  function DeliverTerm(s: Sys, pid: nat): Sys {
    s.(sups := seq(|s.sups|, i requires 0 <= i < |s.sups| =>
      if Live(s.sups[i]) && s.sups[i].self.pid == pid then s.sups[i].(term := true) else s.sups[i]))
  }

  function DeliverKill(s: Sys, pid: nat): Sys {
    s.(os := s.os - {pid},
       sups := seq(|s.sups|, i requires 0 <= i < |s.sups| =>
         if Live(s.sups[i]) && s.sups[i].self.pid == pid then s.sups[i].(pc := Dead) else s.sups[i]))
  }

  /** One step of _force_terminate: the new system and what is left to do. */
  function ForceStep(s: Sys, f: Force): (Sys, Option<Force>) {
    match f.stage
    case Check => (s, if PidIsAlive(s.os, f.target, f.timed) then Some(f.(stage := SendTerm)) else None)
    case SendTerm =>
      (DeliverTerm(LogSignal(s, f), f.target.pid), if f.target.pid in s.os then Some(f.(stage := Poll(20))) else None)
    case Poll(n) =>
      (s, if !PidIsAlive(s.os, f.target, f.timed) then None
          else if n <= 1 then Some(f.(stage := SendKill)) else Some(f.(stage := Poll(n - 1))))
    case SendKill => (DeliverKill(LogSignal(s, f), f.target.pid), None)
  }

  function ForceOfApp(rec: Record): Option<Force> {
    match rec.app case None => None case Some(p) => Some(Force(p, rec.appTimed, Check))
  }

  function Blank(rec: Record): Record {
    rec.(app := None, appTimed := false, status := Stopped)
  }

  predicate NoOtherLive(s: Sys, g: nat) {
    forall h | 0 <= h < |s.sups| && h != g :: !Live(s.sups[h])
  }

  /** A supervisor that has a clear_control still to come. */
  predicate WillClear(p: Sup) {
    Live(p) && !p.pc.LastSave? && !p.pc.Exiting?
  }

  predicate NoOtherClears(s: Sys, g: nat) {
    forall h | 0 <= h < |s.sups| && h != g :: !WillClear(s.sups[h])
  }

  predicate NoneLive(s: Sys) {
    forall h | 0 <= h < |s.sups| :: !Live(s.sups[h])
  }

  function RecordedGen(s: Sys): Option<nat> {
    match s.runtime case None => None case Some(r) => Some(r.gen)
  }

  /** The call in progress launched supervisor g. */
  function Launched(starts: seq<StartCall>, g: nat): seq<StartCall> {
    if starts == [] then [] else starts[|starts| - 1 := starts[|starts| - 1].(launched := Some(g))]
  }

  function ClientStep(s: Sys, e: Event): Option<Sys> {
    match (e, s.client)
    case (CallStart, Idle) => Some(s.(client := StartCheck))
    case (DoStartCheck, StartCheck) =>
      var running := s.runtime.Some? && PidIsAlive(s.os, s.runtime.value.sup, s.runtime.value.supTimed);
      Some(s.(client := if running then Idle else StartPrev,
              hist := s.hist.(starts := s.hist.starts + [StartCall(s.os, s.runtime, None)])))
    case (DoStartPrev, StartPrev) =>
      Some(s.(client := StartClear(RecordedGen(s), NoneLive(s))))
    case (DoStartClear, StartClear(prev, quiet)) => Some(s.(control := None, client := StartSpawn(prev, quiet)))
    case (DoStartSpawn(p, timed), StartSpawn(prev, quiet)) =>
      if !IsNew(s, p) then None
      else Some(AddProc(s, p).(sups := s.sups + [NewSup(p, timed)], client := StartPoll(prev, quiet, |s.sups|),
                               hist := s.hist.(starts := Launched(s.hist.starts, |s.sups|))))
    case (DoStartPoll, StartPoll(prev, quiet, mine)) =>
      if s.runtime.None? || Some(s.runtime.value.gen) == prev then Some(s)
      else if s.runtime.value.status.Failed? || s.runtime.value.status.Stopped? then Some(s.(client := Idle))
      else if s.runtime.value.status.Running? || s.runtime.value.status.Degraded? then
        Some(s.(client := Idle,
                hist := s.hist.(returned := s.hist.returned + [Return(prev, quiet, mine, s.runtime.value)])))
      else Some(s)
    case (StartGivesUp, StartPoll(_, _, _)) => Some(s.(client := Idle))
    case (CallStop, Idle) => Some(match s.runtime case None => s case Some(r) => s.(client := StopCheck(r)))
    case (DoStopCheck, StopCheck(r)) =>
      if PidIsAlive(s.os, r.sup, r.supTimed) then Some(s.(client := StopWrite(r)))
      else Some(s.(client := match ForceOfApp(r) case None => OrphanSave(r) case Some(f) => OrphanForce(r, f)))
    case (DoForce, OrphanForce(r, f)) =>
      var (s', rest) := ForceStep(s, f);
      Some(s'.(client := match rest case None => OrphanSave(r) case Some(f') => OrphanForce(r, f')))
    case (DoOrphanSave, OrphanSave(r)) => Some(s.(runtime := Some(Blank(r)), client := Idle))
    case (DoStopWrite, StopWrite(r)) =>
      if r.gen >= |s.sups| then None
      else
        var alone := if NoOtherClears(s, r.gen) then {r.gen} else {};
        Some(s.(control := Some(r.gen), client := StopPoll(r),
                hist := s.hist.(marks := s.hist.marks[r.gen := s.sups[r.gen].launches],
                                erased := s.hist.erased - {r.gen},
                                alone := s.hist.alone - {r.gen} + alone)))
    case (DoStopPoll(timeout), StopPoll(r)) =>
      Some(s.(client := if timeout || !PidIsAlive(s.os, r.sup, r.supTimed) then StopFinal(r) else StopPoll(r)))
    case (DoStopFinal, StopFinal(r)) =>
      Some(s.(client := if !PidIsAlive(s.os, r.sup, r.supTimed) then StopClear(r)
                        else match ForceOfApp(r) case None => ForceSup(r, Force(r.sup, r.supTimed, Check))
                                                case Some(f) => ForceApp(r, f)))
    case (DoForce, ForceApp(r, f)) =>
      var (s', rest) := ForceStep(s, f);
      Some(s'.(client := match rest
                         case None => ForceSup(r, Force(r.sup, r.supTimed, Check))
                         case Some(f') => ForceApp(r, f')))
    case (DoForce, ForceSup(r, f)) =>
      var (s', rest) := ForceStep(s, f);
      Some(s'.(client := match rest case None => StopClear(r) case Some(f') => ForceSup(r, f')))
    case (DoStopClear, StopClear(r)) => Some(s.(control := None, client := StopReload(r)))
    case (DoStopReload, StopReload(r)) =>
      Some(s.(client := StopSave(match s.runtime case None => r case Some(r') => r')))
    case (DoStopSave, StopSave(r)) => Some(s.(runtime := Some(Blank(r)), client := Idle))
    case (_, _) => None
  }

  function EnvStep(s: Sys, e: Event): Option<Sys> {
    match e
    case EnvSpawn(p) => if IsNew(s, p) then Some(AddProc(s, p)) else None
    case EnvExit(pid) =>
      if pid in s.os && forall g | 0 <= g < |s.sups| :: Live(s.sups[g]) ==> s.sups[g].self.pid != pid then
        Some(s.(os := s.os - {pid}))
      else None
    case _ => None
  }

  predicate IsSupEvent(e: Event) {
    || e.SupClear? || e.SupPublish? || e.SupSpawn? || e.SupSpawnFails? || e.SupSaveApp? || e.SupReadControl?
    || e.SupHealth? || e.SupSeesExit? || e.SupAnnounce? || e.SupRaises? || e.SupTerminate? || e.SupFinalClear?
    || e.SupFinalSave? || e.SupExit? || e.SupCrash?
  }

  /** One step of the system; None where the event cannot happen. */
  function Step(s: Sys, e: Event): Option<Sys> {
    if IsSupEvent(e) then (if e.g < |s.sups| then SupStep(s, e, e.g) else None)
    else if e.EnvSpawn? || e.EnvExit? then EnvStep(s, e)
    else ClientStep(s, e)
  }

  function Run(s: Sys, events: seq<Event>): Option<Sys>
    decreases |events|
  {
    if events == [] then Some(s)
    else
      var next :- Step(s, events[0]);
      Run(next, events[1..])
  }

  /** Before the first call: other processes, and no files of this project. */
  function Initial(os: map<nat, int>): Sys {
    Sys(os, set pid | pid in os :: Proc(pid, os[pid]), [], None, None, Idle, History([], [], map[], {}, {}, []))
  }
}
