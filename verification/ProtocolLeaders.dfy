/** A supervisor has at most one app process alive, and none once it has left
    through its own finally block. */
module ProtocolLeaders {
  import opened Results
  import opened Protocol
  import opened ProtocolSafety

  /** Places where the supervisor holds no running app. */
  predicate HoldsNone(pc: SupPc) {
    || pc.Boot? || pc.Cleared? || pc.Published? || pc.Announcing? || pc.Relaunching?
    || pc.Terminated? || pc.LastSave? || pc.Exiting? || pc.Done?
  }

  /** Everything this supervisor launched has ended, except perhaps the leader,
      which outlives the finally block only if the system refused both signals. */
  ghost predicate LeaderOk(s: Sys, p: Sup) {
    && (forall q | q in p.launched && InOs(s.os, q) :: p.leader == Some(q) && (HoldsNone(p.pc) ==> p.refused))
    && (forall q | q in p.launched :: q.pid > 0 && q.pid != p.self.pid)
    && (p.refused ==> p.pc.Terminated? || p.pc.LastSave? || p.pc.Exiting? || p.pc.Done? || p.pc.Dead?)
    && (p.pc.Boot? || p.pc.Cleared? || p.pc.Published? ==>
          p.leader.None? && p.app.None? && p.launches == 0 && p.status.Starting?)
    && (p.pc.Spawned? || p.pc.LoopHead? || p.pc.Checked? || p.pc.Announcing? || p.pc.Relaunching? ==> p.leader.Some?)
  }

  ghost predicate Leaders(s: Sys) {
    forall g | 0 <= g < |s.sups| :: LeaderOk(s, s.sups[g])
  }

  /** A step of another process, which can at most signal this supervisor. */
  lemma OthersKeep(s: Sys, e: Event, p: Sup, p': Sup)
    requires Structure(s) && SupOk(s, p) && LeaderOk(s, p) && Step(s, e).Some? && Touched(p, p')
    ensures LeaderOk(Step(s, e).value, p')
  {
    hide Structure, Step;
    forall q | q in p'.launched && InOs(Step(s, e).value.os, q)
      ensures p'.leader == Some(q) && (HoldsNone(p'.pc) ==> p'.refused) {
      if !InOs(s.os, q) { EndedStaysEnded(s, e, q); }
    }
  }

  /** A supervisor's own step. Only a launch brings a process to life. */
  lemma OwnStepMoves(s: Sys, e: Event, g: nat)
    requires g < |s.sups| && SupStep(s, e, g).Some?
    ensures var s', p, p' := SupStep(s, e, g).value, s.sups[g], SupStep(s, e, g).value.sups[g];
            && (e.SupSpawn? ==>
                 HoldsNone(p.pc) && p'.leader == Some(e.p) && p'.launched == p.launched + {e.p} && p'.pc.Spawned?
                 && e.p.pid > 0)
            && (!e.SupSpawn? ==> p'.leader == p.leader && p'.launched == p.launched)
            && (HoldsNone(p'.pc) ==> HoldsNone(p.pc) || p'.refused || (p.leader.Some? ==> !InOs(s'.os, p.leader.value)))
            && (p.refused ==> p'.refused || p.pc.Leaving?)
  {}

  lemma OwnLaunchIsApart(s: Sys, e: Event, g: nat)
    requires g < |s.sups| && SupOk(s, s.sups[g]) && SupStep(s, e, g).Some?
    ensures SupStep(s, e, g).value.sups[g].self == s.sups[g].self
    ensures e.SupSpawn? ==> e.p.pid != s.sups[g].self.pid
  {
    hide SupStep;
    if e.SupSpawn? { SpawnStep(s, e, g); } else { OtherStep(s, e, g); }
  }

  lemma OwnStepPlaces(s: Sys, e: Event, g: nat)
    requires g < |s.sups| && LeaderOk(s, s.sups[g]) && SupStep(s, e, g).Some?
    ensures var p := SupStep(s, e, g).value.sups[g];
            && (p.refused ==> p.pc.Terminated? || p.pc.LastSave? || p.pc.Exiting? || p.pc.Done? || p.pc.Dead?)
            && (p.pc.Boot? || p.pc.Cleared? || p.pc.Published? ==>
                  p.leader.None? && p.app.None? && p.launches == 0 && p.status.Starting?)
            && (p.pc.Spawned? || p.pc.LoopHead? || p.pc.Checked? || p.pc.Announcing? || p.pc.Relaunching? ==>
                 p.leader.Some?)
  {}

  lemma OwnStepKeeps(s: Sys, e: Event)
    requires Structure(s) && IsSupEvent(e) && e.g < |s.sups| && LeaderOk(s, s.sups[e.g]) && SupStep(s, e, e.g).Some?
    ensures LeaderOk(SupStep(s, e, e.g).value, SupStep(s, e, e.g).value.sups[e.g])
  {
    hide Structure, SupStep;
    var s' := SupStep(s, e, e.g).value;
    OneSup(s, e.g);
    OwnStepMoves(s, e, e.g);
    OwnStepPlaces(s, e, e.g);
    SupStepLive(s, e, e.g);
    OwnLaunchIsApart(s, e, e.g);
    forall q | q in s.sups[e.g].launched && !InOs(s.os, q) ensures !InOs(s'.os, q) { EndedStaysEnded(s, e, q); }
  }

  lemma OneSup(s: Sys, g: nat)
    requires Structure(s) && g < |s.sups|
    ensures SupOk(s, s.sups[g])
  {}

  lemma StepLeaders(s: Sys, e: Event)
    requires Structure(s) && Leaders(s) && Step(s, e).Some?
    ensures Leaders(Step(s, e).value)
  {
    hide Structure, SupStep, ClientStep, LeaderOk, SupOk;
    var s' := Step(s, e).value;
    if IsSupEvent(e) { SupStepGrows(s, e, e.g); OwnStepKeeps(s, e); }
    else if !e.EnvSpawn? && !e.EnvExit? { ClientTouches(s, e); }
    forall g | 0 <= g < |s'.sups| ensures LeaderOk(s', s'.sups[g]) {
      if g >= |s.sups| { StartedLeader(s, e, g); }
      else if !IsSupEvent(e) || g != e.g { OneSup(s, g); OthersKeep(s, e, s.sups[g], s'.sups[g]); }
    }
  }

  lemma StartedLeader(s: Sys, e: Event, g: nat)
    requires Step(s, e).Some? && |s.sups| <= g < |Step(s, e).value.sups|
    ensures LeaderOk(Step(s, e).value, Step(s, e).value.sups[g])
  {
    hide SupStep, ForceStep;
    if IsSupEvent(e) { SupStepGrows(s, e, e.g); }
    if e.DoForce? { ForceTouches(s, ClientForce(s.client).value); }
  }
}
