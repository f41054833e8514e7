/** What each command asks for: when it is permitted, and exactly what it then changes. */
module CommandEffects {
  import opened Bytes
  import opened Domain
  import opened ControlCore
  import opened CommandQueue
  import Alarms = ControlAlarms

  predicate IsRunning(session: Option<Session>) {
    session.Some? && session.value.status == Running
  }

  function ProbeIds(configs: seq<ProbeConfig>): set<byte> {
    set k | 0 <= k < |configs| :: configs[k].id
  }

  predicate RecipeValid(r: Recipe, maximum: real, ids: set<byte>) {
    (r.chamberTarget.Some? ==> r.chamberTarget.value <= maximum)
    && (r.timer.Some? ==>
          ValidTimer(r.timer.value)
          && (r.timer.value.start.kind == ProbeAtLeast ==>
                r.timer.value.start.probe.Some? && r.timer.value.start.probe.value in ids))
  }

  predicate IsFirst(alarms: seq<ControlAlarm>, id: u32, k: int) {
    0 <= k < |alarms| && alarms[k].id == id && !alarms[k].resolved
    && forall j :: 0 <= j < k ==> alarms[j].id != id || alarms[j].resolved
  }

  /** The first unresolved alarm with the id has not been acknowledged. */
  predicate Acknowledgeable(alarms: seq<ControlAlarm>, id: u32) {
    exists k :: 0 <= k < |alarms| && IsFirst(alarms, id, k) && !alarms[k].acknowledged
  }

  lemma FirstMatch(alarms: seq<ControlAlarm>, id: u32, k: nat)
    requires k < |alarms| && IsFirst(alarms, id, k)
    ensures Acknowledgeable(alarms, id) <==> !alarms[k].acknowledged
  {
  }

  /** A probe taken back to its device defaults, with both alarms armed again. */
  predicate Rearmed(before: ProbeRuntime, after: ProbeRuntime) {
    var c := before.config;
    after == before.(target := c.target, enabled := c.enabled, alarmEnabled := c.alarmEnabled,
                     targetAlarmEmitted := false, disconnectedAlarmEmitted := false,
                     temperature := if c.enabled then before.temperature else None,
                     sampled := c.enabled && before.sampled)
  }

  function Toggled(p: ProbeRuntime, enabled: bool): ProbeRuntime {
    p.(enabled := enabled, sampled := false, initialized := false, connected := false,
       targetAlarmEmitted := false, disconnectedAlarmEmitted := false,
       temperature := if enabled then p.temperature else None)
  }

  /** What the clock of a session shows when it stops at `now`: never more than the timer's duration. */
  function ElapsedAt(s: Session, now: int): int {
    if s.timer.completed || s.timer.startedAt == None || now < s.timer.startedAt.value then s.timer.elapsed
    else
      var run := now - s.timer.startedAt.value;
      if s.recipe.timer.Some? && run > s.recipe.timer.value.duration then s.recipe.timer.value.duration else run
  }

  /** A session that ended at `now`: its clock stands still, all else is kept. */
  predicate Ended(before: Session, after: Session, status: SessionStatus, reason: StopReason, now: int) {
    after == before.(status := status, stoppedAt := Some(now), stopReason := reason,
                     timer := before.timer.(elapsed := ElapsedAt(before, now)))
  }

  /** The part of the application that commands see and change. */
  datatype Desk = Desk(
    maximum: real,
    ids: set<byte>,
    chamber: Option<real>,
    resolved: bool,
    session: Option<Session>,
    activeFault: Option<ActiveFault>,
    firmwareUpdateActive: bool,
    alarms: seq<ControlAlarm>,
    probes: seq<ProbeRuntime>,
    readings: seq<Reading>,
    runs: nat,
    events: seq<Event>)

  predicate FaultIsResolved(d: Desk, code: FaultCode) {
    match code
    case ChamberSensorInvalid => d.chamber.Some?
    case ChamberOverTemperature => d.chamber.Some? && d.chamber.value <= d.maximum
    case ControlLoopFailure => d.resolved
    case ConfigurationInvalid => false
  }

  /** Exactly the commands that pass semantic validation in the present state. */
  predicate Permits(d: Desk, c: Command) {
    match c
    case StartSession(_, recipe) =>
      d.activeFault == None && !d.firmwareUpdateActive && !IsRunning(d.session)
      && RecipeValid(recipe, d.maximum, d.ids)
    case StopSession => IsRunning(d.session)
    case SetChamberTarget(target) => IsRunning(d.session) && (target.Some? ==> target.value <= d.maximum)
    case SetProbeTarget(probe, _) => IsRunning(d.session) && probe in d.ids
    case SetProbeEnabled(probe, _) => IsRunning(d.session) && probe in d.ids
    case SetProbeAlarmEnabled(probe, _) => IsRunning(d.session) && probe in d.ids
    case AcknowledgeAlarm(alarm) => Acknowledgeable(d.alarms, alarm)
    case ClearResolvedFault => d.activeFault.Some? && FaultIsResolved(d, d.activeFault.value.code)
    case PrepareFirmwareUpdate => !d.firmwareUpdateActive && (d.activeFault.Some? || !IsRunning(d.session))
    case FinishFirmwareUpdate => d.firmwareUpdateActive
  }

  function Notice(kind: EventKind, now: int): Event {
    Event(kind, now, None, None, None)
  }

  predicate FirstProbe(probes: seq<ProbeRuntime>, id: byte, k: int) {
    0 <= k < |probes| && probes[k].config.id == id && forall j :: 0 <= j < k ==> probes[j].config.id != id
  }

  // ---------------------------------------------------------------- the accepted commands

  predicate Starts(a: Desk, id: u32, recipe: Recipe, now: int, b: Desk) {
    b == a.(session := Some(Session(id, Running, recipe, now, None, recipe.chamberTarget, FRESH_TIMER, NoReason)),
            alarms := b.alarms, probes := b.probes, readings := b.readings, runs := a.runs + 1,
            events := a.events + [Notice(SessionStarted, now)])
    && Alarms.ResolvedAll(a.alarms, b.alarms)
    && |b.probes| == |a.probes| == |a.readings| == |b.readings|
    && forall k :: 0 <= k < |b.probes| ==>
         Rearmed(a.probes[k], b.probes[k])
         && b.readings[k] == if b.probes[k].enabled then a.readings[k] else a.readings[k].(temperature := None)
  }

  predicate Stops(a: Desk, now: int, b: Desk) {
    a.session.Some? && b.session.Some? && Ended(a.session.value, b.session.value, Stopped, User, now)
    && b == a.(session := b.session, alarms := b.alarms, events := a.events + [Notice(SessionStopped, now)])
    && Alarms.ResolvedAll(a.alarms, b.alarms)
  }

  ghost predicate Retargets(a: Desk, id: byte, target: Option<real>, now: int, b: Desk) {
    Alarms.ResolvedOnly(a.alarms, b.alarms, ProbeTargetAlarm, Some(id))
    && exists k ::
         FirstProbe(a.probes, id, k)
         && b == a.(probes := a.probes[k := a.probes[k].(target := target, targetAlarmEmitted := false)],
                    alarms := b.alarms,
                    events := a.events + [Event(ProbeTargetChanged, now, Some(id), None, None)])
  }

  ghost predicate Enables(a: Desk, id: byte, enabled: bool, b: Desk) {
    (if enabled then b.alarms == a.alarms else Alarms.ResolvedProbe(a.alarms, b.alarms, id))
    && |a.readings| == |a.probes|
    && exists k ::
         FirstProbe(a.probes, id, k)
         && b == a.(probes := a.probes[k := Toggled(a.probes[k], enabled)], alarms := b.alarms,
                    readings := if enabled then a.readings
                                else a.readings[k := a.readings[k].(temperature := None)])
  }

  ghost predicate Arms(a: Desk, id: byte, enabled: bool, b: Desk) {
    (if enabled then b.alarms == a.alarms else Alarms.ResolvedProbe(a.alarms, b.alarms, id))
    && exists k ::
         FirstProbe(a.probes, id, k)
         && b == a.(probes := a.probes[k := a.probes[k].(alarmEnabled := enabled, targetAlarmEmitted := false,
                                                         disconnectedAlarmEmitted := false)],
                    alarms := b.alarms)
  }

  ghost predicate Acknowledges(a: Desk, id: u32, now: int, b: Desk) {
    exists k ::
      IsFirst(a.alarms, id, k)
      && b == a.(alarms := a.alarms[k := a.alarms[k].(acknowledged := true)],
                 events := a.events + [Event(AlarmAcknowledged, now, a.alarms[k].probe, Some(id), None)])
  }

  /** A session that a fault ended is merely stopped once the fault is acknowledged. */
  function Settled(session: Option<Session>): Option<Session> {
    if session.Some? && session.value.status == Fault
    then Some(session.value.(status := Stopped, stopReason := FaultStop)) else session
  }

  predicate Clears(a: Desk, now: int, b: Desk) {
    a.activeFault.Some?
    && b == a.(activeFault := None, session := Settled(a.session),
               events := a.events + [Event(FaultAcknowledged, now, None, None, Some(a.activeFault.value.code))])
  }

  ghost predicate Changes(a: Desk, c: Command, now: int, b: Desk) {
    match c
    case StartSession(id, recipe) => Starts(a, id, recipe, now, b)
    case StopSession => Stops(a, now, b)
    case SetChamberTarget(target) =>
      a.session.Some? && b == a.(session := Some(a.session.value.(target := target)),
                                 events := a.events + [Notice(ChamberTargetChanged, now)])
    case SetProbeTarget(id, target) => Retargets(a, id, target, now, b)
    case SetProbeEnabled(id, enabled) => Enables(a, id, enabled, b)
    case SetProbeAlarmEnabled(id, enabled) => Arms(a, id, enabled, b)
    case AcknowledgeAlarm(id) => Acknowledges(a, id, now, b)
    case ClearResolvedFault => Clears(a, now, b)
    case PrepareFirmwareUpdate => b == a.(firmwareUpdateActive := true)
    case FinishFirmwareUpdate => b == a.(firmwareUpdateActive := false)
  }

  /** All that one command does: the change it asks for, or only a notice of its rejection. */
  ghost predicate Effect(a: Desk, c: Command, now: int, accepted: bool, b: Desk) {
    accepted == Permits(a, c)
    && if accepted then Changes(a, c, now, b) else b == a.(events := a.events + [Notice(CommandRejected, now)])
  }

  // ---------------------------------------------------------------- what follows for a batch

  /** The firmware interlock after one command. */
  function FirmwareAfterOne(active: bool, c: Command, accepted: bool): bool {
    if c.PrepareFirmwareUpdate? && accepted then true else if c.FinishFirmwareUpdate? then false else active
  }

  /** Only Start begins and only Stop ends a run, only Clear ends a fault, only two commands move the interlock. */
  lemma EffectFacts(a: Desk, c: Command, now: int, accepted: bool, b: Desk)
    requires Effect(a, c, now, accepted, b)
    ensures IsRunning(b.session) == if c.StartSession? && accepted then true
                                    else if c.StopSession? && accepted then false else IsRunning(a.session)
    ensures b.firmwareUpdateActive == FirmwareAfterOne(a.firmwareUpdateActive, c, accepted)
    ensures b.activeFault == if c.ClearResolvedFault? && accepted then None else a.activeFault
    ensures b.runs == a.runs + if c.StartSession? && accepted then 1 else 0
    ensures |b.events| <= |a.events| + 1
    ensures c.StopSession? ==> (accepted <==> IsRunning(a.session))
    ensures c.StartSession? && accepted ==> !IsRunning(a.session)
  {
    hide Rearmed, Alarms.ResolvedAll, Alarms.ResolvedOnly, Alarms.ResolvedProbe, RecipeValid, Acknowledgeable;
  }

  /** The desk in front of each command of a batch, and behind the last one. */
  ghost predicate Batch(desks: seq<Desk>, q: seq<Queued>, accepted: seq<bool>, now: int) {
    |desks| == |q| + 1 && |accepted| == |q|
    && forall k :: 0 <= k < |q| ==> Effect(desks[k], q[k].command, now, accepted[k], desks[k + 1])
  }

  lemma BatchStep(desks: seq<Desk>, q: seq<Queued>, accepted: seq<bool>, now: int, e: Queued, ok: bool, d: Desk)
    requires Batch(desks, q, accepted, now) && Effect(desks[|q|], e.command, now, ok, d)
    ensures Batch(desks + [d], q + [e], accepted + [ok], now)
  {
    hide Effect;
    var more, all := desks + [d], q + [e];
    forall k | 0 <= k < |all|
      ensures Effect(more[k], all[k].command, now, (accepted + [ok])[k], more[k + 1])
    {
      assert k < |q| ==> more[k] == desks[k] && more[k + 1] == desks[k + 1] && all[k] == q[k];
    }
  }

  /** Nothing but an accepted Start makes a batch end with another run than it began with. */
  lemma {:induction false} BatchRuns(desks: seq<Desk>, q: seq<Queued>, accepted: seq<bool>, now: int)
    requires Batch(desks, q, accepted, now)
    ensures desks[|q|].runs >= desks[0].runs
    ensures desks[|q|].runs == desks[0].runs && IsRunning(desks[|q|].session) ==> IsRunning(desks[0].session)
    ensures desks[|q|].runs > desks[0].runs <==>
              exists k :: 0 <= k < |q| && q[k].command.StartSession? && accepted[k]
  {
    if q != [] {
      var n := |q| - 1;
      BatchRuns(desks[..n + 1], q[..n], accepted[..n], now);
      EffectFacts(desks[n], q[n].command, now, accepted[n], desks[n + 1]);
      if k :| 0 <= k < n && q[..n][k].command.StartSession? && accepted[..n][k] {
        assert q[k].command.StartSession? && accepted[k];
      }
    }
  }
}
