/** What holds in every reachable state of the client-supervisor protocol:
    signals reach only the recorded generation, a stop is not lost, supervisors
    that leave their loop leave no leader behind, and start returns a fresh
    generation. */
module ProtocolSafety {
  import opened Results
  import opened Protocol

  // ----- structure ----------------------------------------------------------

  ghost predicate OsKnown(s: Sys) {
    forall pid | pid in s.os :: Proc(pid, s.os[pid]) in s.known
  }

  ghost predicate Spaced(known: set<Proc>) {
    forall p, q | p in known && q in known && p != q && p.pid == q.pid :: Distance(p.born, q.born) > TOLERANCE
  }

  predicate SupOk(s: Sys, p: Sup) {
    && p.self in s.known && p.self.pid > 0 && p.launched <= s.known
    && (Live(p) ==> InOs(s.os, p.self))
    && (p.leader.Some? ==> p.leader.value in p.launched)
    && (p.app.Some? ==> p.app.value in p.launched)
  }

  predicate SupsApart(s: Sys) {
    forall g, h | 0 <= g < |s.sups| && 0 <= h < |s.sups| ::
      s.sups[g].self !in s.sups[h].launched && (g != h ==> s.sups[g].self != s.sups[h].self)
  }

  /** A record names a supervisor that has published, and apps it launched. */
  predicate RecOk(s: Sys, r: Record) {
    && r.gen < |s.sups| && r.sup == s.sups[r.gen].self && !s.sups[r.gen].pc.Boot? && !s.sups[r.gen].pc.Cleared?
    && (r.app.Some? ==> r.app.value in s.sups[r.gen].launched)
  }

  function ClientRecord(c: Client): Option<Record> {
    match c
    case StopCheck(r) => Some(r)
    case OrphanForce(r, _) => Some(r)
    case OrphanSave(r) => Some(r)
    case StopWrite(r) => Some(r)
    case StopPoll(r) => Some(r)
    case StopFinal(r) => Some(r)
    case ForceApp(r, _) => Some(r)
    case ForceSup(r, _) => Some(r)
    case StopClear(r) => Some(r)
    case StopReload(r) => Some(r)
    case StopSave(r) => Some(r)
    case _ => None
  }

  function ClientForce(c: Client): Option<Force> {
    match c
    case OrphanForce(_, f) => Some(f)
    case ForceApp(_, f) => Some(f)
    case ForceSup(_, f) => Some(f)
    case _ => None
  }

  predicate RecordsOk(s: Sys) {
    && (s.runtime.Some? ==> RecOk(s, s.runtime.value))
    && (ClientRecord(s.client).Some? ==> RecOk(s, ClientRecord(s.client).value))
  }

  ghost predicate Structure(s: Sys) {
    && OsKnown(s) && Spaced(s.known) && SupsApart(s) && RecordsOk(s)
    && forall g | 0 <= g < |s.sups| :: SupOk(s, s.sups[g])
  }

  /** Supervisors keep their identity, their launches only grow, and what was
      published stays published. */
  predicate SupGrows(a: Sup, b: Sup) {
    && b.self == a.self && a.launched <= b.launched
    && (b.pc.Boot? || b.pc.Cleared? ==> a.pc.Boot? || a.pc.Cleared?)
  }

  lemma RecOkGrows(s: Sys, s': Sys, r: Record)
    requires RecOk(s, r) && |s.sups| <= |s'.sups|
    requires forall g | 0 <= g < |s.sups| :: SupGrows(s.sups[g], s'.sups[g])
    ensures RecOk(s', r)
  {}

  lemma NewProcKeeps(s: Sys, p: Proc)
    requires OsKnown(s) && Spaced(s.known) && IsNew(s, p)
    ensures OsKnown(AddProc(s, p)) && Spaced(AddProc(s, p).known) && p !in s.known
  {}

  lemma SupStepGrows(s: Sys, e: Event, g: nat)
    requires g < |s.sups| && SupStep(s, e, g).Some?
    ensures var s' := SupStep(s, e, g).value;
            && |s'.sups| == |s.sups| && s'.client == s.client
            && (forall h | 0 <= h < |s.sups| && h != g :: s'.sups[h] == s.sups[h])
            && SupGrows(s.sups[g], s'.sups[g]) && s.known <= s'.known
  {}

  lemma SupStepProcesses(s: Sys, e: Event, g: nat)
    requires OsKnown(s) && Spaced(s.known) && g < |s.sups| && SupStep(s, e, g).Some?
    ensures OsKnown(SupStep(s, e, g).value) && Spaced(SupStep(s, e, g).value.known)
  {
    if e.SupSpawn? { NewProcKeeps(s, e.p); }
  }

  /** A launch, and what every other step of the supervisor leaves alone. */
  lemma SpawnStep(s: Sys, e: Event, g: nat)
    requires g < |s.sups| && SupStep(s, e, g).Some? && e.SupSpawn?
    ensures var p := s.sups[g];
            && (p.pc.Published? || p.pc.Relaunching?) && IsNew(s, e.p)
            && SupStep(s, e, g).value
               == SetSup(AddProc(s, e.p), g, p.(pc := Spawned, leader := Some(e.p), launched := p.launched + {e.p},
                                                launches := p.launches + 1))
  {
    hide IsNew;
  }

  lemma OtherStep(s: Sys, e: Event, g: nat)
    requires g < |s.sups| && SupStep(s, e, g).Some? && !e.SupSpawn?
    ensures var s' := SupStep(s, e, g).value;
            |s'.sups| == |s.sups| && s'.sups[g].launched == s.sups[g].launched && s'.sups[g].self == s.sups[g].self
            && s'.sups[g].launches == s.sups[g].launches
  {
    hide IsNew, InOs, SupRecord;
  }

  lemma SupStepLaunches(s: Sys, e: Event, g: nat)
    requires g < |s.sups| && SupStep(s, e, g).Some?
    ensures |SupStep(s, e, g).value.sups| == |s.sups|
    ensures var p := SupStep(s, e, g).value.sups[g];
            p.launched == s.sups[g].launched
            || (e.SupSpawn? && IsNew(s, e.p) && p.launched == s.sups[g].launched + {e.p})
  {
    hide SupStep, IsNew;
    if e.SupSpawn? { SpawnStep(s, e, g); } else { OtherStep(s, e, g); }
  }

  lemma SupStepApart(s: Sys, e: Event, g: nat)
    requires Structure(s) && g < |s.sups| && SupStep(s, e, g).Some?
    ensures SupsApart(SupStep(s, e, g).value)
  {
    hide SupStep, RecordsOk, IsNew;
    SupStepGrows(s, e, g);
    SupStepLaunches(s, e, g);
    if e.SupSpawn? && SupStep(s, e, g).value.sups[g].launched != s.sups[g].launched {
      NewProcKeeps(s, e.p);
      forall h | 0 <= h < |s.sups| ensures s.sups[h].self != e.p { assert SupOk(s, s.sups[h]); }
    }
  }

  /** What a step of supervisor g can do to the process of supervisor h. */
  lemma SupStepOs(s: Sys, e: Event, g: nat, q: Proc)
    requires g < |s.sups| && SupStep(s, e, g).Some? && InOs(s.os, q)
    requires s.sups[g].leader != Some(q) && (q == s.sups[g].self ==> Live(SupStep(s, e, g).value.sups[g]))
    requires Live(s.sups[g]) ==> InOs(s.os, s.sups[g].self)
    ensures InOs(SupStep(s, e, g).value.os, q)
  {}

  lemma SupStepOk(s: Sys, e: Event, g: nat, h: nat)
    requires Structure(s) && g < |s.sups| && h < |s.sups| && SupStep(s, e, g).Some?
    ensures SupOk(SupStep(s, e, g).value, SupStep(s, e, g).value.sups[h])
  {
    hide SupStep, OsKnown, Spaced, RecordsOk;
    var s' := SupStep(s, e, g).value;
    SupStepGrows(s, e, g);
    SupStepLeader(s, e, g);
    var q := s.sups[h].self;
    assert SupOk(s, s.sups[h]) && SupOk(s, s.sups[g]);
    assert s.sups[g].leader != Some(q) by { assert q !in s.sups[g].launched; }
    if Live(s'.sups[h]) {
      SupStepLive(s, e, g);
      SupStepOs(s, e, g, q);
    }
  }

  lemma SupStepLive(s: Sys, e: Event, g: nat)
    requires g < |s.sups| && SupStep(s, e, g).Some?
    ensures Live(SupStep(s, e, g).value.sups[g]) ==> Live(s.sups[g])
  {}

  lemma SupStepLeader(s: Sys, e: Event, g: nat)
    requires g < |s.sups| && SupStep(s, e, g).Some? && SupOk(s, s.sups[g])
    ensures var p := SupStep(s, e, g).value.sups[g];
            p.launched <= SupStep(s, e, g).value.known && (p.leader.Some? ==> p.leader.value in p.launched)
            && (p.app.Some? ==> p.app.value in p.launched)
  {}

  /** A supervisor writes its own state dict, and only once it has published. */
  lemma SupStepSaves(s: Sys, e: Event, g: nat)
    requires g < |s.sups| && SupStep(s, e, g).Some?
    ensures var s' := SupStep(s, e, g).value;
            s'.runtime == s.runtime
            || (s'.runtime == Some(SupRecord(s'.sups[g], g)) && !s'.sups[g].pc.Boot? && !s'.sups[g].pc.Cleared?)
  {}

  lemma SupStepRecords(s: Sys, e: Event, g: nat)
    requires Structure(s) && g < |s.sups| && SupStep(s, e, g).Some?
    ensures RecordsOk(SupStep(s, e, g).value)
  {
    hide SupStep, OsKnown, Spaced, SupsApart;
    var s' := SupStep(s, e, g).value;
    SupStepGrows(s, e, g);
    SupStepSaves(s, e, g);
    assert SupOk(s, s.sups[g]);
    SupStepLeader(s, e, g);
    if s.runtime.Some? { RecOkGrows(s, s', s.runtime.value); }
    if ClientRecord(s.client).Some? { RecOkGrows(s, s', ClientRecord(s.client).value); }
  }

  lemma SupStepStructure(s: Sys, e: Event, g: nat)
    requires Structure(s) && g < |s.sups| && SupStep(s, e, g).Some?
    ensures Structure(SupStep(s, e, g).value)
  {
    hide SupStep, OsKnown, Spaced, RecordsOk, SupsApart, SupOk;
    SupStepProcesses(s, e, g);
    SupStepApart(s, e, g);
    SupStepRecords(s, e, g);
    SupStepGrows(s, e, g);
    forall h | 0 <= h < |s.sups| ensures SupOk(SupStep(s, e, g).value, SupStep(s, e, g).value.sups[h]) {
      SupStepOk(s, e, g, h);
    }
  }

  lemma EnvStepStructure(s: Sys, e: Event)
    requires Structure(s) && EnvStep(s, e).Some?
    ensures Structure(EnvStep(s, e).value)
  {
    var s' := EnvStep(s, e).value;
    if e.EnvSpawn? { NewProcKeeps(s, e.p); }
    forall h | 0 <= h < |s.sups| ensures SupOk(s', s'.sups[h]) { assert SupOk(s, s.sups[h]); }
  }

  /** A signal can ask a supervisor to stop or kill it, and nothing else. */
  predicate Touched(a: Sup, b: Sup) {
    (b == a.(term := b.term) && (a.term ==> b.term)) || b == a.(pc := Dead)
  }

  lemma TouchedStructure(s: Sys, s': Sys)
    requires Structure(s) && s'.known == s.known && OsKnown(s') && |s'.sups| == |s.sups|
    requires s'.runtime == s.runtime && s'.client == s.client
    requires forall g | 0 <= g < |s.sups| :: Touched(s.sups[g], s'.sups[g])
    requires forall g | 0 <= g < |s.sups| && Live(s'.sups[g]) && InOs(s.os, s.sups[g].self) ::
               InOs(s'.os, s.sups[g].self)
    ensures Structure(s')
  {
    hide OsKnown, Spaced;
    forall g | 0 <= g < |s.sups| ensures SupOk(s', s'.sups[g]) { assert SupOk(s, s.sups[g]); }
    if s.runtime.Some? { RecOkGrows(s, s', s.runtime.value); }
    if ClientRecord(s.client).Some? { RecOkGrows(s, s', ClientRecord(s.client).value); }
  }

  lemma TermStructure(s: Sys, pid: nat)
    requires Structure(s)
    ensures Structure(DeliverTerm(s, pid))
  {
    hide SupsApart, SupOk, RecordsOk;
    TouchedStructure(s, DeliverTerm(s, pid));
  }

  lemma KillStructure(s: Sys, pid: nat)
    requires Structure(s)
    ensures Structure(DeliverKill(s, pid))
  {
    hide SupsApart, SupOk, RecordsOk;
    TouchedStructure(s, DeliverKill(s, pid));
  }

  lemma ForceStructure(s: Sys, f: Force)
    requires Structure(s)
    ensures Structure(ForceStep(s, f).0) && ForceStep(s, f).0.client == s.client
  {
    hide OsKnown, Spaced, RecordsOk, SupsApart, SupOk, DeliverTerm, DeliverKill;
    match f.stage
    case SendTerm =>
      LogStructure(s, f);
      TermStructure(LogSignal(s, f), f.target.pid);
      DeliverKeepsClient(LogSignal(s, f), f.target.pid);
    case SendKill =>
      LogStructure(s, f);
      KillStructure(LogSignal(s, f), f.target.pid);
      DeliverKeepsClient(LogSignal(s, f), f.target.pid);
    case _ =>
  }

  lemma DeliverKeepsClient(s: Sys, pid: nat)
    ensures DeliverTerm(s, pid).client == s.client && DeliverKill(s, pid).client == s.client
  {}

  lemma LogStructure(s: Sys, f: Force)
    requires Structure(s)
    ensures Structure(LogSignal(s, f)) && LogSignal(s, f).client == s.client
  {}

  /** Changing the files, the history and the client's place needs only that
      the records named are in order. */
  lemma PlainStructure(s: Sys, s': Sys)
    requires Structure(s) && s'.os == s.os && s'.known == s.known && s'.sups == s.sups && RecordsOk(s')
    ensures Structure(s')
  {}

  lemma SpawnStructure(s: Sys, e: Event)
    requires Structure(s) && e.DoStartSpawn? && ClientStep(s, e).Some?
    ensures Structure(ClientStep(s, e).value)
  {
    hide RecOk, IsNew, OsKnown, Spaced;
    var s' := ClientStep(s, e).value;
    NewProcKeeps(s, e.p);
    SpawnOk(s, e);
    if s.runtime.Some? { RecOkGrows(s, s', s.runtime.value); }
  }

  lemma SpawnOk(s: Sys, e: Event)
    requires Structure(s) && e.DoStartSpawn? && ClientStep(s, e).Some?
    ensures var s' := ClientStep(s, e).value;
            OsKnown(s') && Spaced(s'.known) && SupsApart(s') && forall g | 0 <= g < |s'.sups| :: SupOk(s', s'.sups[g])
  {
    hide RecordsOk, Spaced, OsKnown;
    var s' := ClientStep(s, e).value;
    assert s' == AddProc(s, e.p).(sups := s.sups + [NewSup(e.p, e.timed)], client := s'.client, hist := s'.hist);
    NewProcKeeps(s, e.p);
    OsKnownIs(AddProc(s, e.p), s');
    forall g | 0 <= g < |s'.sups|
      ensures SupOk(s', s'.sups[g]) && (g < |s.sups| ==> e.p !in s.sups[g].launched && e.p != s.sups[g].self)
    {
      if g < |s.sups| { assert SupOk(s, s.sups[g]); }
    }
  }

  lemma OsKnownIs(s: Sys, s': Sys)
    requires OsKnown(s) && s'.os == s.os && s'.known == s.known
    ensures OsKnown(s')
  {}

  /** The client's own moves carry the record it read, or read the file again. */
  lemma PlainClientMoves(s: Sys, e: Event)
    requires ClientStep(s, e).Some? && !e.DoForce? && !e.DoStartSpawn?
    ensures var s' := ClientStep(s, e).value;
            && s'.os == s.os && s'.known == s.known && s'.sups == s.sups
            && (ClientRecord(s'.client) in {None, ClientRecord(s.client), s.runtime})
            && (s'.runtime == s.runtime
                || (ClientRecord(s.client).Some? && s'.runtime == Some(Blank(ClientRecord(s.client).value))))
  {}

  lemma PlainClientStep(s: Sys, e: Event)
    requires RecordsOk(s) && ClientStep(s, e).Some? && !e.DoForce? && !e.DoStartSpawn?
    ensures var s' := ClientStep(s, e).value;
            s'.os == s.os && s'.known == s.known && s'.sups == s.sups && RecordsOk(s')
  {
    hide ClientStep;
    PlainClientMoves(s, e);
  }

  lemma ForceClientStep(s: Sys, e: Event)
    requires ClientStep(s, e).Some? && e.DoForce?
    ensures ClientForce(s.client).Some?
    ensures var s', t := ClientStep(s, e).value, ForceStep(s, ClientForce(s.client).value).0;
            s' == t.(client := s'.client) && ClientRecord(s'.client) == ClientRecord(s.client)
  {
    hide ForceStep;
  }

  lemma ClientStepStructure(s: Sys, e: Event)
    requires Structure(s) && ClientStep(s, e).Some?
    ensures Structure(ClientStep(s, e).value)
  {
    hide OsKnown, Spaced, SupsApart, SupOk, ForceStep, ClientStep;
    var s' := ClientStep(s, e).value;
    if e.DoForce? {
      ForceClientStep(s, e);
      ForceStructure(s, ClientForce(s.client).value);
      PlainStructure(ForceStep(s, ClientForce(s.client).value).0, s');
    } else if e.DoStartSpawn? {
      SpawnStructure(s, e);
    } else {
      PlainClientStep(s, e);
      PlainStructure(s, s');
    }
  }

  lemma StepStructure(s: Sys, e: Event)
    requires Structure(s) && Step(s, e).Some?
    ensures Structure(Step(s, e).value)
  {
    hide Structure, SupStep, EnvStep, ClientStep;
    if IsSupEvent(e) { SupStepStructure(s, e, e.g); }
    else if e.EnvSpawn? || e.EnvExit? { EnvStepStructure(s, e); }
    else { ClientStepStructure(s, e); }
  }

  // ----- frames -------------------------------------------------------------

  lemma TermTouches(s: Sys, pid: nat)
    ensures var s' := DeliverTerm(s, pid);
            && s' == s.(sups := s'.sups) && |s'.sups| == |s.sups|
            && forall g | 0 <= g < |s.sups| :: Touched(s.sups[g], s'.sups[g])
  {}

  lemma KillTouches(s: Sys, pid: nat)
    ensures var s' := DeliverKill(s, pid);
            && s' == s.(sups := s'.sups, os := s.os - {pid}) && |s'.sups| == |s.sups|
            && forall g | 0 <= g < |s.sups| :: Touched(s.sups[g], s'.sups[g])
  {}

  lemma Untouched(s: Sys)
    ensures forall g | 0 <= g < |s.sups| :: Touched(s.sups[g], s.sups[g])
  {}

  lemma ForceTouches(s: Sys, f: Force)
    ensures var s' := ForceStep(s, f).0;
            && |s'.sups| == |s.sups| && s'.runtime == s.runtime && s'.control == s.control && s'.known == s.known
            && s'.client == s.client && s'.hist == s.hist.(signals := s'.hist.signals)
            && forall g | 0 <= g < |s.sups| :: Touched(s.sups[g], s'.sups[g])
  {
    hide DeliverTerm, DeliverKill, Touched, PidIsAlive, SignalOf;
    Untouched(s);
    TermTouches(LogSignal(s, f), f.target.pid);
    KillTouches(LogSignal(s, f), f.target.pid);
  }

  lemma ClientTouches(s: Sys, e: Event)
    requires ClientStep(s, e).Some?
    ensures var s' := ClientStep(s, e).value;
            |s.sups| <= |s'.sups| && forall g | 0 <= g < |s.sups| :: Touched(s.sups[g], s'.sups[g])
  {
    hide ForceStep;
    if e.DoForce? { ForceTouches(s, ClientForce(s.client).value); }
  }

  /** A step ends processes, or starts one that is new. */
  ghost predicate OsMoves(s: Sys, s': Sys) {
    && s.known <= s'.known
    && forall pid | pid in s'.os :: (pid in s.os && s'.os[pid] == s.os[pid]) || IsNew(s, Proc(pid, s'.os[pid]))
  }

  lemma SupStepOsMoves(s: Sys, e: Event, g: nat)
    requires g < |s.sups| && SupStep(s, e, g).Some?
    ensures OsMoves(s, SupStep(s, e, g).value)
  {
    hide IsNew;
  }

  lemma ForceOsMoves(s: Sys, f: Force)
    ensures OsMoves(s, ForceStep(s, f).0)
  {
    hide IsNew;
  }

  lemma ClientOsMoves(s: Sys, e: Event)
    requires ClientStep(s, e).Some?
    ensures OsMoves(s, ClientStep(s, e).value)
  {
    hide ForceStep, IsNew;
    if e.DoForce? { ForceOsMoves(s, ClientForce(s.client).value); }
  }

  /** A process that has ended never comes back, whatever its pid is reused for. */
  lemma EndedStaysEnded(s: Sys, e: Event, q: Proc)
    requires Step(s, e).Some? && q in s.known && !InOs(s.os, q)
    ensures !InOs(Step(s, e).value.os, q) && q in Step(s, e).value.known
  {
    hide SupStep, ClientStep;
    if IsSupEvent(e) { SupStepOsMoves(s, e, e.g); }
    else if !e.EnvSpawn? && !e.EnvExit? { ClientOsMoves(s, e); }
    assert Distance(q.born, q.born) == 0;
  }
}
