/** A stop request, once written for a generation that has published its state,
    stays until that generation has seen it, unless another supervisor of the
    project erases it. */
module ProtocolStops {
  import opened Results
  import opened Protocol
  import opened ProtocolSafety

  /** The generation whose end the client is waiting for. */
  function Waiting(c: Client): Option<nat> {
    match c
    case StopPoll(r) => Some(r.gen)
    case StopFinal(r) => Some(r.gen)
    case ForceApp(r, _) => Some(r.gen)
    case ForceSup(r, _) => Some(r.gen)
    case StopClear(r) => Some(r.gen)
    case _ => None
  }

  predicate BeforePublishing(pc: SupPc) {
    pc.Boot? || pc.Cleared?
  }

  /** Places from which the supervisor still comes back to read control.json. */
  predicate WillRead(pc: SupPc) {
    pc.Published? || pc.Spawned? || pc.LoopHead? || pc.Checked? || pc.Announcing? || pc.Relaunching?
  }

  /** Places from which one more launch comes before the next read. */
  predicate WillLaunch(pc: SupPc) {
    pc.Published? || pc.Checked? || pc.Announcing? || pc.Relaunching?
  }

  /** A stop on disk is one the client has not finished waiting for. */
  predicate ControlOk(s: Sys) {
    && (s.control.Some? ==> Waiting(s.client) == s.control)
    && (Waiting(s.client).Some? ==> Waiting(s.client).value in s.hist.marks)
  }

  ghost predicate MarkOk(s: Sys, g: nat)
    requires g in s.hist.marks
  {
    && g < |s.sups| && !BeforePublishing(s.sups[g].pc)
    && (Live(s.sups[g]) ==> Waiting(s.client) == Some(g) && !s.client.StopClear?)
    && (g !in s.hist.erased && WillRead(s.sups[g].pc) ==> s.control == Some(g))
    && (g !in s.hist.erased ==> s.sups[g].launches <= s.hist.marks[g] + (if WillLaunch(s.sups[g].pc) then 0 else 1))
  }

  ghost predicate AloneOk(s: Sys) {
    forall g | g in s.hist.alone :: g !in s.hist.erased && (Waiting(s.client) == Some(g) ==> NoOtherClears(s, g))
  }

  ghost predicate Stops(s: Sys) {
    && ControlOk(s) && AloneOk(s)
    && (forall g | g in s.hist.erased || g in s.hist.alone :: g in s.hist.marks)
    && (s.control.Some? ==> s.control.value !in s.hist.erased)
    && forall g | g in s.hist.marks :: MarkOk(s, g)
  }

  // ----- supervisor steps ---------------------------------------------------

  lemma SupStepControl(s: Sys, e: Event, g: nat)
    requires g < |s.sups| && SupStep(s, e, g).Some?
    ensures var s' := SupStep(s, e, g).value;
            && s'.hist == s.hist.(erased := s'.hist.erased) && s.hist.erased <= s'.hist.erased
            && s'.hist.erased <= s.hist.erased
                 + (if s.control.Some? && s.control.value != g then {s.control.value} else {})
            && (s'.control == s.control || s'.control.None?)
            && (s'.control != s.control ==> s.control.value == g || s.control.value in s'.hist.erased)
            && (s'.control != s.control ==> BeforePublishing(s.sups[g].pc) || s.sups[g].pc.Terminated?)
            && Live(s.sups[g]) && (s'.hist.erased != s.hist.erased ==> WillClear(s.sups[g]) && s'.control.None?)
            && (WillClear(s'.sups[g]) ==> WillClear(s.sups[g]))
  {}

  lemma SupStepMark(s: Sys, e: Event, g: nat, k: nat)
    requires Structure(s) && g < |s.sups| && SupStep(s, e, g).Some? && k in s.hist.marks && MarkOk(s, k)
    ensures k in SupStep(s, e, g).value.hist.marks && MarkOk(SupStep(s, e, g).value, k)
  {
    hide Structure;
    SupStepControl(s, e, g);
    SupStepGrows(s, e, g);
    if k == g { OwnMark(s, e, g); }
    else { hide SupStep; }
  }

  /** Only a launch counts. */
  lemma OwnStepLaunches(s: Sys, e: Event, g: nat)
    requires g < |s.sups| && SupStep(s, e, g).Some?
    ensures var p, p' := s.sups[g], SupStep(s, e, g).value.sups[g];
            && p'.launches == p.launches + (if e.SupSpawn? then 1 else 0)
            && (e.SupSpawn? ==> WillLaunch(p.pc) && !WillLaunch(p'.pc))
  {
    hide SupStep;
    if e.SupSpawn? { SpawnStep(s, e, g); } else { OtherStep(s, e, g); }
  }

  /** Only a read without a stop leads back to a launch. */
  lemma OwnStepReturns(s: Sys, e: Event, g: nat)
    requires g < |s.sups| && SupStep(s, e, g).Some?
    ensures var p, p' := s.sups[g], SupStep(s, e, g).value.sups[g];
            (WillLaunch(p'.pc) ==> WillLaunch(p.pc) || BeforePublishing(p.pc) || s.control.None?)
            && (WillRead(p'.pc) ==> WillRead(p.pc) || BeforePublishing(p.pc))
  {
    hide IsNew, InOs, SupRecord;
  }

  lemma OwnMark(s: Sys, e: Event, g: nat)
    requires g < |s.sups| && SupStep(s, e, g).Some? && g in s.hist.marks && MarkOk(s, g)
    ensures g in SupStep(s, e, g).value.hist.marks && MarkOk(SupStep(s, e, g).value, g)
  {
    hide SupStep;
    SupStepControl(s, e, g);
    SupStepGrows(s, e, g);
    SupStepLive(s, e, g);
    OwnStepLaunches(s, e, g);
    OwnStepReturns(s, e, g);
  }

  lemma SupStepStops(s: Sys, e: Event, g: nat)
    requires Structure(s) && Stops(s) && g < |s.sups| && SupStep(s, e, g).Some?
    ensures Stops(SupStep(s, e, g).value)
  {
    hide Structure, SupStep, MarkOk;
    var s' := SupStep(s, e, g).value;
    SupStepControl(s, e, g);
    SupStepGrows(s, e, g);
    SupStepLive(s, e, g);
    forall k | k in s'.hist.marks ensures MarkOk(s', k) { SupStepMark(s, e, g, k); }
  }

  // ----- client steps -------------------------------------------------------

  /** Signals and the client's own moves keep what holds of a stop, as long as
      the client keeps waiting for a live generation. */
  lemma TouchedMark(s: Sys, s': Sys, k: nat)
    requires k in s.hist.marks && MarkOk(s, k) && |s.sups| <= |s'.sups| && Touched(s.sups[k], s'.sups[k])
    requires k in s'.hist.marks && s'.hist.marks[k] == s.hist.marks[k] && (k in s.hist.erased ==> k in s'.hist.erased)
    requires Live(s'.sups[k]) ==> Waiting(s'.client) == Some(k) && !s'.client.StopClear? && s'.control == s.control
    ensures MarkOk(s', k)
  {}

  /** _force_terminate comes back from the supervisor only when it has ended. */
  lemma ForceEnds(s: Sys, f: Force, g: nat)
    requires Structure(s) && g < |s.sups| && f.target == s.sups[g].self && ForceStep(s, f).1.None?
    ensures !Live(ForceStep(s, f).0.sups[g])
  {}

  /** What the client's place says about the record's supervisor. */
  predicate ForceAims(c: Client) {
    c.ForceSup? ==> c.force.target == c.rec.sup
  }

  lemma ForceKeepsTarget(s: Sys, f: Force)
    ensures ForceStep(s, f).1.Some? ==> ForceStep(s, f).1.value.target == f.target
  {}

  lemma ClientAims(s: Sys, e: Event)
    requires ForceAims(s.client) && ClientStep(s, e).Some?
    ensures ForceAims(ClientStep(s, e).value.client)
  {
    hide ForceStep;
    if e.DoForce? { ForceKeepsTarget(s, ClientForce(s.client).value); ForceTouches(s, ClientForce(s.client).value); }
  }

  /** The client stops waiting, or only clears, when the supervisor has ended. */
  lemma WaitsUntilEnded(s: Sys, e: Event, g: nat)
    requires Structure(s) && ForceAims(s.client) && g < |s.sups| && ClientStep(s, e).Some?
    requires Waiting(s.client) == Some(g) && !s.client.StopClear? && Live(ClientStep(s, e).value.sups[g])
    ensures Waiting(ClientStep(s, e).value.client) == Some(g) && !ClientStep(s, e).value.client.StopClear?
    ensures ClientStep(s, e).value.control == s.control
  {
    hide ForceStep, OsKnown, Spaced, SupsApart;
    assert SupOk(s, s.sups[g]) && RecOk(s, ClientRecord(s.client).value);
    if e.DoForce? {
      var f := ClientForce(s.client).value;
      ForceTouches(s, f);
      if s.client.ForceSup? && ForceStep(s, f).1.None? { ForceEnds(s, f, g); }
    }
  }

  lemma ClientHistory(s: Sys, e: Event)
    requires ClientStep(s, e).Some? && !e.DoStopWrite?
    ensures var h, h' := s.hist, ClientStep(s, e).value.hist;
            h' == h.(signals := h'.signals, returned := h'.returned, starts := h'.starts)
  {
    hide ForceStep;
    if e.DoForce? { ForceTouches(s, ClientForce(s.client).value); }
  }

  lemma ClientMark(s: Sys, e: Event, k: nat)
    requires Structure(s) && Stops(s) && ForceAims(s.client) && ClientStep(s, e).Some? && !e.DoStopWrite?
             && k in s.hist.marks
    ensures k in ClientStep(s, e).value.hist.marks && MarkOk(ClientStep(s, e).value, k)
  {
    hide Structure, ClientStep, AloneOk;
    ClientHistory(s, e);
    ClientTouches(s, e);
    assert MarkOk(s, k);
    if Live(ClientStep(s, e).value.sups[k]) { WaitsUntilEnded(s, e, k); }
    TouchedMark(s, ClientStep(s, e).value, k);
  }

  lemma ClientWaits(s: Sys, e: Event)
    requires ControlOk(s) && ClientStep(s, e).Some? && !e.DoStopWrite?
    ensures var s' := ClientStep(s, e).value;
            && ControlOk(s') && s'.control in {None, s.control}
            && (Waiting(s'.client).Some? ==> Waiting(s'.client) == Waiting(s.client) && |s'.sups| == |s.sups|)
  {
    hide ForceStep;
    if e.DoForce? { ForceTouches(s, ClientForce(s.client).value); }
  }

  lemma WriteStops(s: Sys, e: Event)
    requires Structure(s) && Stops(s) && ClientStep(s, e).Some? && e.DoStopWrite?
    ensures Stops(ClientStep(s, e).value)
  {
    var s' := ClientStep(s, e).value;
    assert RecOk(s, s.client.rec);
    forall k | k in s'.hist.marks ensures MarkOk(s', k) {
      if k in s.hist.marks { assert MarkOk(s, k); }
    }
  }

  lemma ClientStepStops(s: Sys, e: Event)
    requires Structure(s) && Stops(s) && ForceAims(s.client) && ClientStep(s, e).Some?
    ensures Stops(ClientStep(s, e).value)
  {
    hide Structure, ClientStep, MarkOk;
    var s' := ClientStep(s, e).value;
    if e.DoStopWrite? { WriteStops(s, e); }
    else {
      ClientHistory(s, e);
      ClientTouches(s, e);
      ClientWaits(s, e);
      forall k | k in s'.hist.marks ensures MarkOk(s', k) { ClientMark(s, e, k); }
    }
  }

  lemma StepStops(s: Sys, e: Event)
    requires Structure(s) && Stops(s) && ForceAims(s.client) && Step(s, e).Some?
    ensures Stops(Step(s, e).value) && ForceAims(Step(s, e).value.client)
  {
    hide Structure, Stops, SupStep, ClientStep;
    if IsSupEvent(e) { SupStepStops(s, e, e.g); SupStepGrows(s, e, e.g); }
    else if e.EnvSpawn? || e.EnvExit? { EnvStops(s, e); }
    else { ClientStepStops(s, e); ClientAims(s, e); }
  }

  lemma EnvStops(s: Sys, e: Event)
    requires Stops(s) && EnvStep(s, e).Some?
    ensures Stops(EnvStep(s, e).value)
  {}
}
