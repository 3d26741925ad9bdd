/** What `minit deploy` does with ports (minit/main.py, minit/detection.py,
    minit/service.py, minit/registry.py): the port is the saved one, or named by
    the user or the source, or chosen; the spec is saved before the app starts;
    and the project is registered only after it has started. */
module Deployments {
  import opened Results
  import opened PortRegistry

  /** service.json of every project directory, and registry.json. */
  datatype Machine = Machine(specs: map<string, int>, apps: map<string, Entry>)

  /** What the source says of the port. */
  datatype Found = FixedPort(port: int) | AnyPort(preferred: int) | NotFound

  /** No command: the project is examined. A command: its port may be inferred. */
  datatype Command = Detected(found: Found) | Given(inferred: Option<int>)

  /** One call of deploy, with what it finds: whether this project runs, which
      ports can be bound and which are in use, whether the command is accepted,
      and whether the start and the registration work. */
  datatype Deploy = Deploy(
    dir: string, command: Command, requested: Option<int>, running: bool,
    bindable: set<int>, inUse: set<int>, accepted: bool, starts: bool, registers: bool)

  datatype DeployError =
    | NotDetected | PortFixed | BadPort | NoPort | Unavailable(error: PortError) | PortInUse | NotConfigured
    | NotStarted

  /** Where the port comes from: service.json, the user or the source, or Minit. */
  datatype Origin = Saved | Named | Chosen
  datatype Plan = Plan(port: int, origin: Origin)

  /** The app id of a directory's manifest. */
  type Ids = string -> string

  ghost predicate OneDirectoryPerId(ids: Ids) {
    forall a, b :: ids(a) == ids(b) ==> a == b
  }

  /** _auto_port. */
  ghost function AutoPort(m: Machine, d: Deploy, preferred: int): Result<Plan, DeployError> {
    match d.requested
    case Some(p) => Ok(Plan(p, Named))
    case None =>
      match Choice(m.apps, d.dir, preferred, 100, d.bindable)
      case Err(e) => Err(Unavailable(e))
      case Ok(p) => Ok(Plan(p, Chosen))
  }

  /** detect_deploy_plan, or the port of a given command. */
  ghost function PlanOf(m: Machine, d: Deploy): Result<Plan, DeployError> {
    match d.command
    case Given(inferred) =>
      (match (d.requested, inferred)
       case (Some(p), _) => Ok(Plan(p, Named))
       case (None, Some(p)) => Ok(Plan(p, Named))
       case (None, None) => Err(NoPort))
    case Detected(found) =>
      if d.requested.Some? && !IsPort(d.requested.value) then Err(BadPort)
      else if d.requested.None? && d.dir in m.specs then Ok(Plan(m.specs[d.dir], Saved))
      else match found
        case NotFound => Err(NotDetected)
        case FixedPort(p) => if d.requested.Some? && d.requested.value != p then Err(PortFixed) else Ok(Plan(p, Named))
        case AnyPort(preferred) => AutoPort(m, d, preferred)
  }

  /** register_project, which may fail without the deploy failing. */
  function Register(ids: Ids, m: Machine, d: Deploy, port: int): Machine {
    if d.registers then m.(apps := m.apps[ids(d.dir) := Entry(d.dir, Some(port))]) else m
  }

  ghost function Step(ids: Ids, m: Machine, d: Deploy): (Machine, Result<int, DeployError>) {
    match PlanOf(m, d)
    case Err(e) => (m, Err(e))
    case Ok(Plan(port, origin)) =>
      if origin.Saved? && d.running then (Register(ids, m, d, port), Ok(port))
      else if port in d.inUse then (m, Err(PortInUse))
      else if !d.accepted || !IsPort(port) then (m, Err(NotConfigured))
      else
        var saved := m.(specs := m.specs[d.dir := port]);
        if !d.starts then (saved, Err(NotStarted)) else (Register(ids, saved, d, port), Ok(port))
  }

  /** The files of one user, as deploy changes them. */
  class Computer {
    const ids: Ids
    var specs: map<string, int>
    var apps: map<string, Entry>

    constructor (ids: Ids)
      ensures this.ids == ids && State() == Machine(map[], map[])
    {
      this.ids, specs, apps := ids, map[], map[];
    }

    function State(): Machine
      reads this
    {
      Machine(specs, apps)
    }

    method FindPlan(d: Deploy) returns (r: Result<Plan, DeployError>)
      ensures r == PlanOf(State(), d)
    {
      match d.command {
        case Given(inferred) =>
          var port := if d.requested.Some? then d.requested else inferred;
          if port.None? { return Err(NoPort); }
          return Ok(Plan(port.value, Named));
        case Detected(found) =>
          if d.requested.Some? && !IsPort(d.requested.value) { return Err(BadPort); }
          if d.requested.None? && d.dir in specs { return Ok(Plan(specs[d.dir], Saved)); }
          match found {
            case NotFound => return Err(NotDetected);
            case FixedPort(p) =>
              if d.requested.Some? && d.requested.value != p { return Err(PortFixed); }
              return Ok(Plan(p, Named));
            case AnyPort(preferred) =>
              if d.requested.Some? { return Ok(Plan(d.requested.value, Named)); }
              var chosen := ChooseAvailablePort(apps, d.dir, preferred, 100, d.bindable);
              if chosen.Err? { return Err(Unavailable(chosen.error)); }
              return Ok(Plan(chosen.value, Chosen));
          }
      }
    }

    method RegisterBestEffort(d: Deploy, port: int)
      modifies this`apps
      ensures State() == Register(ids, old(State()), d, port)
    {
      if d.registers { apps := apps[ids(d.dir) := Entry(d.dir, Some(port))]; }
    }

    method DeployProject(d: Deploy) returns (r: Result<int, DeployError>)
      modifies this
      ensures (State(), r) == Step(ids, old(State()), d)
    {
      var plan := FindPlan(d);
      if plan.Err? { return Err(plan.error); }
      var port := plan.value.port;
      if plan.value.origin.Saved? && d.running {
        RegisterBestEffort(d, port);
        return Ok(port);
      }
      if port in d.inUse { return Err(PortInUse); }
      if !d.accepted || !IsPort(port) { return Err(NotConfigured); }
      specs := specs[d.dir := port];
      if !d.starts { return Err(NotStarted); }
      RegisterBestEffort(d, port);
      r := Ok(port);
    }
  }

  // ----- what a deploy answers ----------------------------------------------

  /** Where the port comes from, case by case. */
  lemma PlanExactly(m: Machine, d: Deploy, p: int)
    ensures PlanOf(m, d) == Ok(Plan(p, Saved))
       <==> d.command.Detected? && d.requested.None? && d.dir in m.specs && p == m.specs[d.dir]
    ensures PlanOf(m, d) == Ok(Plan(p, Chosen))
       <==> d.command.Detected? && d.requested.None? && d.dir !in m.specs && d.command.found.AnyPort?
            && 1 <= d.command.found.preferred <= 65535 && d.command.found.preferred <= p <= 65535
            && p <= d.command.found.preferred + 99 && Free(m.apps, d.dir, d.bindable, p)
            && forall q | d.command.found.preferred <= q < p :: !Free(m.apps, d.dir, d.bindable, q)
    ensures d.requested == Some(p) && (d.command.Given? || (1 <= p <= 65535 && d.command.found.AnyPort?)) ==>
              PlanOf(m, d) == Ok(Plan(p, Named))
    ensures d.requested.Some? && d.command.Detected? ==>
              (PlanOf(m, d) == Err(BadPort) <==> !(1 <= d.requested.value <= 65535))
    ensures d.requested.Some? && d.command == Detected(FixedPort(p)) && 1 <= d.requested.value <= 65535 ==>
              (PlanOf(m, d) == Err(PortFixed) <==> d.requested.value != p)
  {
    hide Free;
    if d.command.Detected? && d.command.found.AnyPort? {
      var preferred := d.command.found.preferred;
      LeastFreeIsLeast(m.apps, d.dir, d.bindable, preferred, Upper(preferred, 100));
    }
  }

  /** A refusal before the spec is saved changes nothing, a start that fails has
      saved the spec alone, and success has the port saved and, where that works,
      registered. */
  lemma DeployOutcomes(ids: Ids, m: Machine, d: Deploy)
    ensures var (m', r) := Step(ids, m, d);
            && (r.Err? && r != Err(NotStarted) ==> m' == m)
            && (r == Err(NotStarted) ==> !d.starts && m'.apps == m.apps && PlanOf(m, d).Ok?
                                         && m'.specs == m.specs[d.dir := PlanOf(m, d).value.port])
            && (r.Ok? ==>
                 && PlanOf(m, d).Ok? && PlanOf(m, d).value.port == r.value
                 && d.dir in m'.specs && m'.specs == m.specs[d.dir := r.value]
                 && m'.apps == if d.registers then m.apps[ids(d.dir) := Entry(d.dir, Some(r.value))] else m.apps)
            && (PlanOf(m, d).Ok? && !(PlanOf(m, d).value.origin.Saved? && d.running) ==>
                 (r == Err(PortInUse) <==> PlanOf(m, d).value.port in d.inUse))
  {
    hide Choice;
  }

  // ----- when two directories share a port ----------------------------------

  predicate Clash(e: Entry, f: Entry) {
    e.projectDir != f.projectDir && e.port == f.port && e.port.Some?
  }

  ghost predicate HasClash(m: Machine) {
    exists a, b :: a in m.apps && b in m.apps && Clash(m.apps[a], m.apps[b])
  }

  /** Entries stand under the id of their directory, which has a spec; saved
      ports are ports. */
  ghost predicate Ordered(ids: Ids, m: Machine) {
    && (forall a | a in m.apps :: a == ids(m.apps[a].projectDir) && m.apps[a].projectDir in m.specs)
    && (forall dir | dir in m.specs :: IsPort(m.specs[dir]))
  }

  lemma StepOrdered(ids: Ids, m: Machine, d: Deploy)
    requires Ordered(ids, m)
    ensures Ordered(ids, Step(ids, m, d).0)
  {
    hide Choice;
  }

  /** A deploy that registers makes its directory share a port with another one
      exactly when an entry of another directory has that port. A port Minit
      chooses in this deploy is never such a one; the saved port may be. */
  lemma ClashesExactly(ids: Ids, m: Machine, d: Deploy)
    requires OneDirectoryPerId(ids) && Ordered(ids, m) && Step(ids, m, d).1.Ok? && d.registers
    ensures var (m', r) := Step(ids, m, d);
            && ids(d.dir) in m'.apps && m'.apps[ids(d.dir)] == Entry(d.dir, Some(r.value))
            && ((exists b :: b in m'.apps && Clash(m'.apps[ids(d.dir)], m'.apps[b]))
               <==> Reserved(m.apps, d.dir, r.value))
    ensures PlanOf(m, d).value.origin.Chosen? ==> !Reserved(m.apps, d.dir, Step(ids, m, d).1.value)
  {
    hide Choice;
    var (m', r) := Step(ids, m, d);
    if PlanOf(m, d).value.origin.Chosen? { ChosenIsFree(m, d); }
    if Reserved(m.apps, d.dir, r.value) {
      var b :| b in m.apps && Reserves(m.apps[b], d.dir, r.value);
      assert b in m'.apps && Clash(m'.apps[ids(d.dir)], m'.apps[b]);
    } else {
      forall b | b in m'.apps ensures !Clash(m'.apps[ids(d.dir)], m'.apps[b]) {
        if b in m.apps { assert !Reserves(m.apps[b], d.dir, r.value); }
      }
    }
  }

  lemma ChosenIsFree(m: Machine, d: Deploy)
    requires PlanOf(m, d).Ok? && PlanOf(m, d).value.origin.Chosen?
    ensures !Reserved(m.apps, d.dir, PlanOf(m, d).value.port) && IsPort(PlanOf(m, d).value.port)
    ensures PlanOf(m, d).value.port in d.bindable && d.dir !in m.specs
  {
    hide Reserved;
    var preferred := d.command.found.preferred;
    LeastFreeIsLeast(m.apps, d.dir, d.bindable, preferred, Upper(preferred, 100));
  }

  // ----- runs of plain deploys ----------------------------------------------

  /** No port is named by the user or the source, and whatever is saved is also
      started and registered. */
  predicate Plain(d: Deploy) {
    d.requested.None? && d.command.Detected? && !d.command.found.FixedPort? && d.starts && d.registers
  }

  predicate AllPlain(ds: seq<Deploy>) {
    forall i | 0 <= i < |ds| :: Plain(ds[i])
  }

  ghost function Run(ids: Ids, m: Machine, ds: seq<Deploy>): Machine
    decreases |ds|
  {
    if ds == [] then m else Run(ids, Step(ids, m, ds[0]).0, ds[1..])
  }

  /** This directory's saved port is the one registered for it. */
  predicate Registered(ids: Ids, m: Machine, dir: string)
    requires dir in m.specs
  {
    ids(dir) in m.apps && m.apps[ids(dir)] == Entry(dir, Some(m.specs[dir]))
  }

  ghost predicate AllRegistered(ids: Ids, m: Machine) {
    forall dir | dir in m.specs :: Registered(ids, m, dir)
  }

  lemma PlainKeeps(ids: Ids, m: Machine, d: Deploy)
    requires OneDirectoryPerId(ids) && Ordered(ids, m) && AllRegistered(ids, m) && !HasClash(m) && Plain(d)
    ensures var m' := Step(ids, m, d).0; Ordered(ids, m') && AllRegistered(ids, m') && !HasClash(m')
  {
    hide Choice;
    StepOrdered(ids, m, d);
    var (m', r) := Step(ids, m, d);
    if r.Ok? {
      if d.dir in m.specs {
        assert Registered(ids, m, d.dir);
        assert m'.apps == m.apps && m'.specs == m.specs;
      } else {
        ChosenIsFree(m, d);
        forall a, b | a in m'.apps && b in m'.apps ensures !Clash(m'.apps[a], m'.apps[b]) {
          assert a in m.apps && b in m.apps ==> !Clash(m.apps[a], m.apps[b]);
          assert a in m.apps ==> !Reserves(m.apps[a], d.dir, r.value);
          assert b in m.apps ==> !Reserves(m.apps[b], d.dir, r.value);
        }
        forall dir | dir in m'.specs ensures Registered(ids, m', dir) {
          assert dir in m.specs ==> Registered(ids, m, dir);
        }
      }
    }
  }

  lemma {:induction false} PlainRunKeeps(ids: Ids, m: Machine, ds: seq<Deploy>)
    requires OneDirectoryPerId(ids) && Ordered(ids, m) && AllRegistered(ids, m) && !HasClash(m) && AllPlain(ds)
    ensures var m' := Run(ids, m, ds); Ordered(ids, m') && AllRegistered(ids, m') && !HasClash(m')
    decreases |ds|
  {
    hide Step, Ordered, AllRegistered, HasClash, OneDirectoryPerId;
    if ds != [] {
      PlainKeeps(ids, m, ds[0]);
      PlainRunKeeps(ids, Step(ids, m, ds[0]).0, ds[1..]);
    }
  }

  /** Over every run of plain deploys and redeploys from a new machine, distinct
      project directories hold distinct registered ports. */
  lemma AutoPortsAreDistinct(ids: Ids, ds: seq<Deploy>, a: string, b: string)
    requires OneDirectoryPerId(ids) && AllPlain(ds)
    requires var apps := Run(ids, Machine(map[], map[]), ds).apps;
             a in apps && b in apps && apps[a].projectDir != apps[b].projectDir
    ensures var apps := Run(ids, Machine(map[], map[]), ds).apps; apps[a].port.Some? && apps[a].port != apps[b].port
  {
    hide Run;
    PlainRunKeeps(ids, Machine(map[], map[]), ds);
    var m := Run(ids, Machine(map[], map[]), ds);
    assert Registered(ids, m, m.apps[a].projectDir) && !Clash(m.apps[a], m.apps[b]);
  }

  // ----- and when a plain deploy can bring a clash ---------------------------

  lemma {:induction false} FreshDirectory(taken: set<string>) returns (dir: string)
    ensures forall t | t in taken :: |t| < |dir|
    decreases |taken|
  {
    if taken == {} { return "/"; }
    var t :| t in taken;
    var d := FreshDirectory(taken - {t});
    dir := if |t| < |d| then d else t + "/";
    assert forall u | u in taken :: u == t || u in taken - {t};
  }

  /** A plain deploy that meets no obstacle; `p` is the port it may choose. */
  function PlainDeploy(dir: string, p: int): Deploy {
    Deploy(dir, Detected(AnyPort(p)), None, false, {p}, {}, true, true, true)
  }

  lemma RedeployRegisters(ids: Ids, m: Machine, dir: string)
    requires dir in m.specs && IsPort(m.specs[dir])
    ensures Step(ids, m, PlainDeploy(dir, 1))
         == (m.(specs := m.specs[dir := m.specs[dir]], apps := m.apps[ids(dir) := Entry(dir, Some(m.specs[dir]))]),
             Ok(m.specs[dir]))
  {}

  lemma NewDeployChooses(ids: Ids, m: Machine, dir: string, p: int)
    requires dir !in m.specs && IsPort(p) && !Reserved(m.apps, dir, p)
    ensures Step(ids, m, PlainDeploy(dir, p))
            == (Machine(m.specs[dir := p], m.apps[ids(dir) := Entry(dir, Some(p))]), Ok(p))
  {
    hide Reserved;
    assert LeastFree(m.apps, dir, {p}, p, Upper(p, 100)) == Some(p) by { assert Free(m.apps, dir, {p}, p); }
  }

  lemma RunTwo(ids: Ids, m: Machine, d: Deploy, e: Deploy)
    ensures Run(ids, m, [d]) == Step(ids, m, d).0 && Run(ids, m, [d, e]) == Step(ids, Step(ids, m, d).0, e).0
  {
    hide Step;
    var m1 := Step(ids, m, d).0;
    assert [d][1..] == [] && [e][1..] == [] && [d, e][1..] == [e];
    assert Run(ids, m1, []) == m1 && Run(ids, Step(ids, m1, e).0, []) == Step(ids, m1, e).0;
    assert Run(ids, m1, [e]) == Step(ids, m1, e).0;
  }

  /** As long as no two directories share a port: plain deploys alone can make
      two share one exactly when some directory has saved a port that is not
      registered for it. */
  lemma PlainClashExactly(ids: Ids, m: Machine)
    requires OneDirectoryPerId(ids) && Ordered(ids, m) && !HasClash(m)
    ensures (exists ds :: AllPlain(ds) && HasClash(Run(ids, m, ds))) <==> !AllRegistered(ids, m)
  {
    hide Run, Step, HasClash;
    if AllRegistered(ids, m) {
      forall ds | AllPlain(ds) ensures !HasClash(Run(ids, m, ds)) { PlainRunKeeps(ids, m, ds); }
    } else {
      var dir :| dir in m.specs && !Registered(ids, m, dir);
      var ds := BringClash(ids, m, dir);
    }
  }

  lemma BringClash(ids: Ids, m: Machine, dir: string) returns (ds: seq<Deploy>)
    requires OneDirectoryPerId(ids) && Ordered(ids, m) && dir in m.specs && !Registered(ids, m, dir)
    ensures AllPlain(ds) && HasClash(Run(ids, m, ds))
  {
    hide Run, Step, Reserved;
    var p := m.specs[dir];
    var again := PlainDeploy(dir, 1);
    if Reserved(m.apps, dir, p) {
      ds := [again];
      RunTwo(ids, m, again, again);
      SharesWithOther(ids, m, dir);
    } else {
      var other := FreshDirectory(m.specs.Keys);
      UnreservedForOther(ids, m, dir, other);
      NewDeployChooses(ids, m, other, p);
      var m1 := Step(ids, m, PlainDeploy(other, p)).0;
      OtherReserves(ids, m, dir, other);
      ds := [PlainDeploy(other, p), again];
      RunTwo(ids, m, PlainDeploy(other, p), again);
      SharesWithOther(ids, m1, dir);
    }
  }

  lemma SharesWithOther(ids: Ids, m: Machine, dir: string)
    requires OneDirectoryPerId(ids) && Ordered(ids, m) && dir in m.specs && Reserved(m.apps, dir, m.specs[dir])
    ensures HasClash(Step(ids, m, PlainDeploy(dir, 1)).0)
  {
    hide Step;
    RedeployRegisters(ids, m, dir);
    var m' := Step(ids, m, PlainDeploy(dir, 1)).0;
    var b :| b in m.apps && Reserves(m.apps[b], dir, m.specs[dir]);
    assert b in m'.apps && ids(dir) in m'.apps && Clash(m'.apps[ids(dir)], m'.apps[b]);
  }

  /** Nobody but `dir` can hold the port, and its own entry has another one. */
  lemma UnreservedForOther(ids: Ids, m: Machine, dir: string, other: string)
    requires Ordered(ids, m) && dir in m.specs && !Registered(ids, m, dir) && !Reserved(m.apps, dir, m.specs[dir])
    ensures !Reserved(m.apps, other, m.specs[dir])
  {
    forall b | b in m.apps ensures !Reserves(m.apps[b], other, m.specs[dir]) {
      assert !Reserves(m.apps[b], dir, m.specs[dir]);
    }
  }

  lemma OtherReserves(ids: Ids, m: Machine, dir: string, other: string)
    requires OneDirectoryPerId(ids) && Ordered(ids, m) && dir in m.specs && other !in m.specs
    ensures var m1 := Machine(m.specs[other := m.specs[dir]], m.apps[ids(other) := Entry(other, Some(m.specs[dir]))]);
            Ordered(ids, m1) && m1.specs[dir] == m.specs[dir] && Reserved(m1.apps, dir, m.specs[dir])
  {
    var apps := m.apps[ids(other) := Entry(other, Some(m.specs[dir]))];
    assert Reserves(apps[ids(other)], dir, m.specs[dir]);
  }

  // ----- two runs that end with a shared port -------------------------------

  /** A chooses 8000; B is told to use 8000 while A is stopped; A is deployed
      again, without anyone naming a port, and takes its saved one. */
  lemma RedeployAfterNamedPort(ids: Ids) returns (m: Machine)
    requires OneDirectoryPerId(ids)
    ensures var b := PlainDeploy("/b", 8000).(requested := Some(8000));
            m == Run(ids, Machine(map[], map[]), [PlainDeploy("/a", 8000), b, PlainDeploy("/a", 1)])
    ensures ids("/a") in m.apps && ids("/b") in m.apps && Clash(m.apps[ids("/a")], m.apps[ids("/b")])
  {
    hide Reserved, Run;
    var b := PlainDeploy("/b", 8000).(requested := Some(8000));
    assert "/a" != "/b" by { assert "/a"[1] != "/b"[1]; }
    NothingReserved("/a", 8000);
    NewDeployChooses(ids, Machine(map[], map[]), "/a", 8000);
    var m1 := Step(ids, Machine(map[], map[]), PlainDeploy("/a", 8000)).0;
    var m2 := Step(ids, m1, b).0;
    assert m2 == Machine(m1.specs["/b" := 8000], m1.apps[ids("/b") := Entry("/b", Some(8000))]);
    RedeployRegisters(ids, m2, "/a");
    m := Step(ids, m2, PlainDeploy("/a", 1)).0;
    RunThree(ids, Machine(map[], map[]), PlainDeploy("/a", 8000), b, PlainDeploy("/a", 1));
  }

  /** A chooses 8000 and saves it but does not start; B chooses 8000, which no
      entry has; A is deployed again. Minit chose both ports. */
  lemma RedeployAfterFailedStart(ids: Ids) returns (m: Machine)
    requires OneDirectoryPerId(ids)
    ensures var a := PlainDeploy("/a", 8000).(starts := false);
            m == Run(ids, Machine(map[], map[]), [a, PlainDeploy("/b", 8000), PlainDeploy("/a", 1)])
    ensures ids("/a") in m.apps && ids("/b") in m.apps && Clash(m.apps[ids("/a")], m.apps[ids("/b")])
  {
    hide Reserved, Run;
    var m0, a := Machine(map[], map[]), PlainDeploy("/a", 8000).(starts := false);
    assert "/a" != "/b" by { assert "/a"[1] != "/b"[1]; }
    NothingReserved("/a", 8000);
    NothingReserved("/b", 8000);
    assert Free(m0.apps, "/a", {8000}, 8000);
    assert LeastFree(m0.apps, "/a", {8000}, 8000, Upper(8000, 100)) == Some(8000);
    var m1 := Step(ids, m0, a).0;
    assert m1 == Machine(map["/a" := 8000], map[]);
    NewDeployChooses(ids, m1, "/b", 8000);
    var m2 := Step(ids, m1, PlainDeploy("/b", 8000)).0;
    RedeployRegisters(ids, m2, "/a");
    m := Step(ids, m2, PlainDeploy("/a", 1)).0;
    RunThree(ids, m0, a, PlainDeploy("/b", 8000), PlainDeploy("/a", 1));
  }

  lemma NothingReserved(dir: string, p: int)
    ensures !Reserved(map[], dir, p)
  {}

  lemma RunThree(ids: Ids, m: Machine, c: Deploy, d: Deploy, e: Deploy)
    ensures Run(ids, m, [c, d, e]) == Step(ids, Step(ids, Step(ids, m, c).0, d).0, e).0
  {
    hide Step;
    assert [c, d, e][1..] == [d, e];
    RunTwo(ids, Step(ids, m, c).0, d, e);
  }
}
