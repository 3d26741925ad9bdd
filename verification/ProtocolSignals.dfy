/** Every SIGTERM and SIGKILL the client sends aims at a process a supervisor
    recorded and, where a create time was recorded, reaches that process or
    none, even when its pid is recycled in between. */
module ProtocolSignals {
  import opened Results
  import opened Protocol
  import opened ProtocolSafety

  /** A supervisor of this project, or an app one of them launched. */
  ghost predicate Ours(s: Sys, p: Proc) {
    exists g | 0 <= g < |s.sups| :: OwnedBy(s.sups[g], p)
  }

  predicate OwnedBy(sup: Sup, p: Proc) {
    sup.self == p || p in sup.launched
  }

  ghost predicate SignalOk(s: Sys, x: Signal) {
    Ours(s, x.target) && (x.timed ==> x.hit.None? || x.hit == Some(x.target))
  }

  /** After a successful check with a create time, the pid is the target's or free. */
  ghost predicate ForceOk(s: Sys, f: Force) {
    && Ours(s, f.target)
    && (f.timed && HeldBy(f).Some? && f.target.pid in s.os ==> s.os[f.target.pid] == f.target.born)
  }

  ghost predicate SignalsOk(s: Sys) {
    && (forall i | 0 <= i < |s.hist.signals| :: SignalOk(s, s.hist.signals[i]))
    && (ClientForce(s.client).Some? ==> ForceOk(s, ClientForce(s.client).value))
  }

  lemma OursGrows(s: Sys, s': Sys, p: Proc)
    requires Ours(s, p) && |s.sups| <= |s'.sups|
    requires forall g | 0 <= g < |s.sups| :: SupGrows(s.sups[g], s'.sups[g])
    ensures Ours(s', p)
  {}

  lemma SignalsGrow(s: Sys, s': Sys)
    requires |s.sups| <= |s'.sups| && s'.hist.signals == s.hist.signals
    requires forall g | 0 <= g < |s.sups| :: SupGrows(s.sups[g], s'.sups[g])
    requires forall i | 0 <= i < |s.hist.signals| :: SignalOk(s, s.hist.signals[i])
    ensures forall i | 0 <= i < |s'.hist.signals| :: SignalOk(s', s'.hist.signals[i])
  {}

  lemma ForceGrows(s: Sys, s': Sys, f: Force)
    requires ForceOk(s, f) && |s.sups| <= |s'.sups|
    requires forall g | 0 <= g < |s.sups| :: SupGrows(s.sups[g], s'.sups[g])
    requires HeldBy(f).Some? && f.target.pid in s'.os ==>
               f.target.pid in s.os && s'.os[f.target.pid] == s.os[f.target.pid]
    ensures ForceOk(s', f)
  {}

  /** No process starts on a pid the client is about to signal. */
  lemma SupStepHeld(s: Sys, e: Event, g: nat, pid: nat)
    requires g < |s.sups| && SupStep(s, e, g).Some? && Held(s.client) == Some(pid) && pid in SupStep(s, e, g).value.os
    ensures pid in s.os && SupStep(s, e, g).value.os[pid] == s.os[pid]
  {}

  lemma SupStepSignals(s: Sys, e: Event, g: nat)
    requires Structure(s) && SignalsOk(s) && g < |s.sups| && SupStep(s, e, g).Some?
    ensures SignalsOk(SupStep(s, e, g).value)
  {
    hide SupStep, Structure, ForceOk, SignalOk;
    var s' := SupStep(s, e, g).value;
    SupStepGrows(s, e, g);
    SupStepHistory(s, e, g);
    SignalsGrow(s, s');
    if ClientForce(s.client).Some? {
      var f := ClientForce(s.client).value;
      if HeldBy(f).Some? && f.target.pid in s'.os { SupStepHeld(s, e, g, f.target.pid); }
      ForceGrows(s, s', f);
    }
  }

  lemma SupStepHistory(s: Sys, e: Event, g: nat)
    requires g < |s.sups| && SupStep(s, e, g).Some?
    ensures SupStep(s, e, g).value.hist == s.hist.(erased := SupStep(s, e, g).value.hist.erased)
  {}

  lemma EnvStepSignals(s: Sys, e: Event)
    requires SignalsOk(s) && EnvStep(s, e).Some?
    ensures SignalsOk(EnvStep(s, e).value)
  {}

  lemma RecordedIsOurs(s: Sys, r: Record)
    requires RecOk(s, r)
    ensures Ours(s, r.sup) && (r.app.Some? ==> Ours(s, r.app.value))
  {}

  /** A live pid within the tolerance of a process we know is that process. */
  lemma CheckIdentifies(s: Sys, p: Proc)
    requires OsKnown(s) && Spaced(s.known) && p in s.known && PidIsAlive(s.os, p, true)
    ensures InOs(s.os, p)
  {}

  lemma OursIsKnown(s: Sys, p: Proc)
    requires Structure(s) && Ours(s, p)
    ensures p in s.known
  {}

  lemma ForceStepSignals(s: Sys, f: Force)
    requires Structure(s) && ForceOk(s, f)
    requires forall i | 0 <= i < |s.hist.signals| :: SignalOk(s, s.hist.signals[i])
    ensures var (s', rest) := ForceStep(s, f);
            && (forall i | 0 <= i < |s'.hist.signals| :: SignalOk(s', s'.hist.signals[i]))
            && (rest.Some? ==> ForceOk(s', rest.value))
  {
    hide Structure, SignalOk, OsKnown, Spaced;
    var (s', rest) := ForceStep(s, f);
    ForceTouches(s, f);
    OursIsKnown(s, f.target);
    OursGrows(s, s', f.target);
    if PidIsAlive(s.os, f.target, true) { KnownAndSpaced(s); CheckIdentifies(s, f.target); }
    forall i | 0 <= i < |s'.hist.signals| ensures SignalOk(s', s'.hist.signals[i]) {
      if i < |s.hist.signals| {
        StillOk(s, s', s.hist.signals[i]);
      } else {
        NewSignalOk(s, s', f);
      }
    }
  }

  lemma KnownAndSpaced(s: Sys)
    requires Structure(s)
    ensures OsKnown(s) && Spaced(s.known)
  {}

  lemma StillOk(s: Sys, s': Sys, x: Signal)
    requires SignalOk(s, x) && |s.sups| <= |s'.sups|
    requires forall g | 0 <= g < |s.sups| :: SupGrows(s.sups[g], s'.sups[g])
    ensures SignalOk(s', x)
  {}

  lemma NewSignalOk(s: Sys, s': Sys, f: Force)
    requires ForceOk(s, f) && HeldBy(f).Some? && Ours(s', f.target)
    ensures SignalOk(s', SignalOf(s, f))
  {}

  lemma ForceClientSignals(s: Sys, e: Event)
    requires Structure(s) && SignalsOk(s) && ClientStep(s, e).Some? && e.DoForce?
    ensures SignalsOk(ClientStep(s, e).value)
  {
    hide Structure, ForceStep, SignalOk, RecOk, Ours;
    var s', f := ClientStep(s, e).value, ClientForce(s.client).value;
    ForceClientStep(s, e);
    ClientRecordOk(s);
    RecordedIsOurs(s, ClientRecord(s.client).value);
    ForceStepSignals(s, f);
    ForceTouches(s, f);
    OursGrows(s, s', ClientRecord(s.client).value.sup);
    SameSups(ForceStep(s, f).0, s');
  }

  predicate FirstCheck(r: Record, f: Force) {
    f.stage.Check? && (f.target == r.sup || Some(f.target) == r.app)
  }

  /** A new force starts with a check, at the process of the client's record. */
  lemma NewForce(s: Sys, e: Event)
    requires ClientStep(s, e).Some? && !e.DoForce?
    ensures ClientStep(s, e).value.hist.signals == s.hist.signals
    ensures var c := ClientStep(s, e).value.client;
            ClientForce(c).Some? ==>
              ClientRecord(c) == ClientRecord(s.client) && FirstCheck(ClientRecord(c).value, ClientForce(c).value)
  {}

  lemma ClientStepSignals(s: Sys, e: Event)
    requires Structure(s) && SignalsOk(s) && ClientStep(s, e).Some?
    ensures SignalsOk(ClientStep(s, e).value)
  {
    hide Structure, ClientStep, SignalOk, RecOk, Ours;
    if e.DoForce? {
      ForceClientSignals(s, e);
    } else {
      ClientTouches(s, e);
      NewForce(s, e);
      SignalsGrow(s, ClientStep(s, e).value);
      if ClientRecord(s.client).Some? {
        ClientRecordOk(s);
        RecordedIsOurs(s, ClientRecord(s.client).value);
        OursMoves(s, ClientStep(s, e).value, ClientRecord(s.client).value);
      }
    }
  }

  lemma ClientRecordOk(s: Sys)
    requires Structure(s) && ClientRecord(s.client).Some?
    ensures RecOk(s, ClientRecord(s.client).value)
  {}

  lemma SameSups(s: Sys, s': Sys)
    requires s'.sups == s.sups && s'.os == s.os
    ensures forall x :: SignalOk(s, x) ==> SignalOk(s', x)
    ensures forall f :: ForceOk(s, f) ==> ForceOk(s', f)
  {}

  lemma OursMoves(s: Sys, s': Sys, r: Record)
    requires Ours(s, r.sup) && (r.app.Some? ==> Ours(s, r.app.value)) && |s.sups| <= |s'.sups|
    requires forall g | 0 <= g < |s.sups| :: SupGrows(s.sups[g], s'.sups[g])
    ensures Ours(s', r.sup) && (r.app.Some? ==> Ours(s', r.app.value))
  {}

  lemma StepSignals(s: Sys, e: Event)
    requires Structure(s) && SignalsOk(s) && Step(s, e).Some?
    ensures SignalsOk(Step(s, e).value)
  {
    hide Structure, SignalsOk, SupStep, EnvStep, ClientStep;
    if IsSupEvent(e) { SupStepSignals(s, e, e.g); }
    else if e.EnvSpawn? || e.EnvExit? { EnvStepSignals(s, e); }
    else { ClientStepSignals(s, e); }
  }
}
