/** The supervisor's loop and the step machine agree: whatever the loop saves
    next, the step machine can save from the same place, and what it records is
    what the loop saved. */
module SupervisorSteps {
  import opened Results
  import opened Protocol
  import S = Supervisor

  function StatusOf(w: S.Word): Option<Status> {
    match w
    case Starting => Some(Starting)
    case Running => Some(Running)
    case Degraded => Some(Degraded)
    case Restarting => Some(Restarting)
    case Stopped => Some(Stopped)
    case Failed => Some(Failed)
    case Healthy => None
    case PortUnreachable => None
  }

  /** The record in the step machine is this state. */
  predicate Shows(st: S.RuntimeState, r: Record) {
    && StatusOf(st.status) == Some(r.status) && (st.appPid.Some? <==> r.app.Some?)
    && (st.appPid.Some? ==> r.app.value.pid == st.appPid.value && r.appTimed == st.appCreateTime.Some?)
    && (st.appPid.Some? && st.appCreateTime.Some? ==> r.app.value.born == st.appCreateTime.value)
  }

  /** Where supervisor g stands, and what has happened, when this comes next. */
  predicate ComesNext(s: Sys, g: nat, act: S.Act)
    requires g < |s.sups|
  {
    var p := s.sups[g];
    match act
    case Launching(pid, createTime, _) =>
      p.pc.Spawned? && p.leader.Some? && p.leader.value.pid == pid
      && (createTime.Some? ==> p.leader.value.born == createTime.value)
    case Exiting(_) => p.pc.Checked? && p.leader.Some? && !InOs(s.os, p.leader.value)
    case Announcing => p.pc.Announcing?
    case Checking(_, _, _) => p.pc.Checked? && p.leader.Some? && InOs(s.os, p.leader.value)
    case Failing => p.pc.LoopHead? || p.pc.Checked? || p.pc.Published? || p.pc.Relaunching?
    case Ending(_) => p.pc.LastSave?
  }

  /** The step that saves it; `again` is what the policy answers to an exit. */
  function SavingStep(s: Sys, g: nat, act: S.Act, again: bool): Event
    requires g < |s.sups|
  {
    match act
    case Launching(_, createTime, _) => SupSaveApp(g, createTime.Some?)
    case Exiting(_) => SupSeesExit(g, again)
    case Announcing => SupAnnounce(g)
    case Checking(portOpen, graceOver, _) =>
      SupHealth(g, if portOpen then Running else if graceOver then Degraded else Starting)
    case Failing => if s.sups[g].pc.LoopHead? || s.sups[g].pc.Checked? then SupRaises(g) else SupSpawnFails(g)
    case Ending(_) => SupFinalSave(g)
  }

  /** Each save of the loop is a save of the step machine. */
  lemma SaveIsAStep(st: S.RuntimeState, act: S.Act, again: bool, s: Sys, g: nat)
    requires g < |s.sups| && Shows(st, SupRecord(s.sups[g], g)) && ComesNext(s, g, act)
    ensures var r := SupStep(s, SavingStep(s, g, act, again), g);
            r.Some? && |r.value.sups| == |s.sups| && r.value.runtime == Some(SupRecord(r.value.sups[g], g))
            && Shows(S.After(st, act), r.value.runtime.value)
  {
    hide IsNew;
  }

  /** And so is the one before the loop. */
  lemma BaseSaveIsAStep(s: Sys, g: nat, st: S.RuntimeState)
    requires g < |s.sups| && s.sups[g].pc.Cleared? && Shows(st, SupRecord(s.sups[g], g))
    ensures var r := SupStep(s, SupPublish(g), g);
            r.Some? && |r.value.sups| == |s.sups| && r.value.runtime == Some(SupRecord(r.value.sups[g], g))
            && Shows(st, r.value.runtime.value)
  {}
}
