/** start_local_service returns the state of the supervisor it launched when no
    other was alive, and never the generation recorded before. */
module ProtocolStarts {
  import opened Results
  import opened Protocol
  import opened ProtocolSafety

  ghost predicate ReturnOk(s: Sys, x: Return) {
    && RecOk(s, x.rec) && Some(x.rec.gen) != x.prev
    && (x.rec.status.Running? || x.rec.status.Degraded?)
    && (x.quiet ==> x.rec.gen == x.mine)
  }

  /** While a quiet start waits, only its own supervisor is alive and writing. */
  predicate StartOk(s: Sys) {
    match s.client
    case StartClear(prev, quiet) => quiet ==> NoneLive(s) && RecordedGen(s) == prev
    case StartSpawn(prev, quiet) => quiet ==> NoneLive(s) && RecordedGen(s) == prev
    case StartPoll(prev, quiet, mine) =>
      && mine < |s.sups|
      && (quiet ==> NoOtherLive(s, mine) && (RecordedGen(s) == prev || RecordedGen(s) == Some(mine)))
    case _ => true
  }

  ghost predicate Starts(s: Sys) {
    StartOk(s) && forall i | 0 <= i < |s.hist.returned| :: ReturnOk(s, s.hist.returned[i])
  }

  lemma SupStepWrites(s: Sys, e: Event, g: nat)
    requires g < |s.sups| && SupStep(s, e, g).Some?
    ensures var s' := SupStep(s, e, g).value;
            && s'.hist.returned == s.hist.returned && (RecordedGen(s') == RecordedGen(s) || RecordedGen(s') == Some(g))
            && Live(s.sups[g])
  {}

  lemma ReturnsGrow(s: Sys, s': Sys)
    requires |s.sups| <= |s'.sups| && |s.hist.returned| <= |s'.hist.returned|
             && s.hist.returned == s'.hist.returned[..|s.hist.returned|]
    requires forall g | 0 <= g < |s.sups| :: SupGrows(s.sups[g], s'.sups[g])
    requires forall i | 0 <= i < |s.hist.returned| :: ReturnOk(s, s.hist.returned[i])
    ensures forall i | 0 <= i < |s.hist.returned| :: ReturnOk(s', s'.hist.returned[i])
  {}

  lemma SupStepStarts(s: Sys, e: Event, g: nat)
    requires Structure(s) && Starts(s) && g < |s.sups| && SupStep(s, e, g).Some?
    ensures Starts(SupStep(s, e, g).value)
  {
    hide SupStep, Structure, ReturnOk;
    SupStepGrows(s, e, g);
    SupStepWrites(s, e, g);
    ReturnsGrow(s, SupStep(s, e, g).value);
  }

  lemma EnvStepStarts(s: Sys, e: Event)
    requires Starts(s) && EnvStep(s, e).Some?
    ensures Starts(EnvStep(s, e).value)
  {}

  lemma ClientStartOk(s: Sys, e: Event)
    requires StartOk(s) && ClientStep(s, e).Some?
    ensures StartOk(ClientStep(s, e).value)
  {
    hide ForceStep;
    if e.DoForce? { ForceTouches(s, ClientForce(s.client).value); }
  }

  lemma ClientReturns(s: Sys, e: Event)
    requires Structure(s) && StartOk(s) && ClientStep(s, e).Some?
    ensures var s', before := ClientStep(s, e).value, s.hist.returned;
            (s'.hist.returned == before
             || (s'.sups == s.sups && |s'.hist.returned| == |before| + 1 && before == s'.hist.returned[..|before|]
                 && ReturnOk(s', s'.hist.returned[|before|])))
  {
    hide ForceStep;
    if e.DoForce? { ForceTouches(s, ClientForce(s.client).value); }
  }

  lemma ClientStepStarts(s: Sys, e: Event)
    requires Structure(s) && Starts(s) && ClientStep(s, e).Some?
    ensures Starts(ClientStep(s, e).value)
  {
    hide ClientStep, Structure, ReturnOk, StartOk;
    ClientStartOk(s, e);
    ClientReturns(s, e);
    ClientTouches(s, e);
    ReturnsGrow(s, ClientStep(s, e).value);
  }

  lemma StepStarts(s: Sys, e: Event)
    requires Structure(s) && Starts(s) && Step(s, e).Some?
    ensures Starts(Step(s, e).value)
  {
    hide Structure, Starts, SupStep, EnvStep, ClientStep;
    if IsSupEvent(e) { SupStepStarts(s, e, e.g); }
    else if e.EnvSpawn? || e.EnvExit? { EnvStepStarts(s, e); }
    else { ClientStepStarts(s, e); }
  }
}
