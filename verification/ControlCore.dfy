/** Value types of the control application, the stage timer and the chamber safety rules. */
module ControlCore {
  import opened Bytes
  import opened Domain

  /** A heater demand in percent. */
  type Percent = r: real | 0.0 <= r <= 100.0

  const OFF: Percent := 0.0

  datatype ConditionKind = Immediate | ChamberAtLeast | ProbeAtLeast

  datatype StartCondition = StartCondition(kind: ConditionKind, temperature: Option<real>, probe: Option<byte>)

  datatype StageTimer = StageTimer(duration: int, start: StartCondition, stopsSession: bool)

  datatype TimerState = TimerState(started: bool, completed: bool, startedAt: Option<int>, elapsed: int)

  const FRESH_TIMER := TimerState(false, false, None, 0)

  datatype Recipe = Recipe(chamberTarget: Option<real>, timer: Option<StageTimer>)

  datatype Session = Session(
    id: u32,
    status: SessionStatus,
    recipe: Recipe,
    startedAt: int,
    stoppedAt: Option<int>,
    target: Option<real>,
    timer: TimerState,
    stopReason: StopReason)

  datatype ActiveFault = ActiveFault(code: FaultCode, occurredAt: int)

  datatype ControlAlarm = ControlAlarm(
    id: u32, code: AlarmCode, probe: Option<byte>, occurredAt: int, acknowledged: bool, resolved: bool)

  datatype ProbeConfig = ProbeConfig(id: byte, target: Option<real>, enabled: bool, alarmEnabled: bool)

  datatype ProbeRuntime = ProbeRuntime(
    config: ProbeConfig,
    target: Option<real>,
    enabled: bool,
    alarmEnabled: bool,
    temperature: Option<real>,
    sampled: bool,
    initialized: bool,
    connected: bool,
    targetAlarmEmitted: bool,
    disconnectedAlarmEmitted: bool)

  datatype Reading = Reading(id: byte, temperature: Option<real>)

  datatype EventKind =
    | DeviceBooted | SessionStarted | SessionStopped | ChamberTargetChanged | ProbeTargetChanged
    | ProbeConnected | ProbeReconnected | ProbeDisconnected | ProbeTargetReached | TimerStarted
    | TimerDone | FaultRaised | FaultAcknowledged | AlarmAcknowledged | CommandQueueOverflow
    | CommandRejected

  datatype Event = Event(kind: EventKind, at: int, probe: Option<byte>, alarm: Option<u32>, fault: Option<FaultCode>)

  // ---------------------------------------------------------------- stage timer

  predicate ValidTimer(t: StageTimer) {
    t.duration > 0
    && match t.start.kind
       case Immediate => t.start.temperature == None && t.start.probe == None
       case ChamberAtLeast => t.start.temperature.Some? && t.start.probe == None
       case ProbeAtLeast => t.start.temperature.Some? && t.start.probe.Some?
  }

  predicate AtLeast(reading: Option<real>, threshold: Option<real>) {
    reading.Some? && threshold.Some? && reading.value >= threshold.value
  }

  predicate ThresholdReached(c: StartCondition, chamber: Option<real>, readings: seq<Reading>) {
    match c.kind
    case Immediate => true
    case ChamberAtLeast => AtLeast(chamber, c.temperature)
    case ProbeAtLeast =>
      c.probe.Some?
      && exists k :: 0 <= k < |readings| && readings[k].id == c.probe.value && AtLeast(readings[k].temperature, c.temperature)
  }

  /** What a timer may show: never more than its duration, and all of it only once completed. */
  predicate TimerSound(t: StageTimer, s: TimerState) {
    ValidTimer(t)
    && (s.started <==> s.startedAt.Some?)
    && 0 <= s.elapsed <= t.duration
    && (s.completed ==> s.started && s.elapsed == t.duration)
  }

  /** The timer is completed, or its full duration has not passed at `now`. */
  predicate NotOverdue(t: StageTimer, s: TimerState, now: int) {
    s.completed || !s.started || (s.startedAt.Some? && now - s.startedAt.value < t.duration)
  }

  /** One reading of a timer: it starts when its condition is met and completes when its time is up. */
  predicate TimerStep(t: StageTimer, s: TimerState, now: int, chamber: Option<real>, readings: seq<Reading>,
                      next: TimerState)
  {
    var starts := !s.started && ThresholdReached(t.start, chamber, readings);
    next.startedAt == (if starts then Some(now) else s.startedAt)
    && next.started == next.startedAt.Some?
    && (next.completed <==> s.completed || (next.startedAt.Some? && now - next.startedAt.value >= t.duration))
    && next.elapsed == if s.completed || next.startedAt == None || now < next.startedAt.value then s.elapsed
                       else if now - next.startedAt.value < t.duration then now - next.startedAt.value else t.duration
  }

  method UpdateStageTimer(t: StageTimer, s: TimerState, now: int, chamber: Option<real>, readings: seq<Reading>)
    returns (next: TimerState, startedNow: bool, completedNow: bool)
    requires TimerSound(t, s)
    ensures TimerSound(t, next) && NotOverdue(t, next, now) && TimerStep(t, s, now, chamber, readings, next)
    ensures startedNow == (next.started && !s.started) && completedNow == (next.completed && !s.completed)
  {
    next, startedNow, completedNow := s, false, false;
    if s.completed || !ValidTimer(t) { return; }
    if !s.started {
      if !ThresholdReached(t.start, chamber, readings) { return; }
      next := next.(started := true, startedAt := Some(now), elapsed := 0);
      startedNow := true;
    }
    if next.startedAt == None || now < next.startedAt.value { return; }
    var run := now - next.startedAt.value;
    next := next.(elapsed := if run < t.duration then run else t.duration);
    if next.elapsed >= t.duration {
      next := next.(completed := true);
      completedNow := true;
    }
  }

  /** Stopping the clock; the caller clips the result when the timer may have run over. */
  function Frozen(s: TimerState, now: int): TimerState {
    if !s.started || s.completed || s.startedAt == None || now < s.startedAt.value then s
    else s.(elapsed := now - s.startedAt.value)
  }

  function Clipped(s: TimerState, duration: int): TimerState {
    if s.elapsed > duration then s.(elapsed := duration) else s
  }

  lemma FrozenSound(t: StageTimer, s: TimerState, now: int)
    requires TimerSound(t, s)
    ensures TimerSound(t, Clipped(Frozen(s, now), t.duration))
    ensures NotOverdue(t, s, now) ==> TimerSound(t, Frozen(s, now))
  {
  }

  // ---------------------------------------------------------------- safety

  function EvaluateChamberSafety(chamber: Option<real>, maximum: real): (fault: Option<FaultCode>)
    ensures fault == Some(ChamberSensorInvalid) <==> chamber == None
    ensures fault == Some(ChamberOverTemperature) <==> chamber.Some? && chamber.value > maximum
    ensures fault == None <==> chamber.Some? && chamber.value <= maximum
  {
    if chamber == None then Some(ChamberSensorInvalid)
    else if chamber.value > maximum then Some(ChamberOverTemperature)
    else None
  }

  function ApplySafetyGate(requested: Percent, status: SessionStatus, fault: Option<ActiveFault>): (demand: Percent)
    ensures status == Running && fault == None ==> demand == requested
    ensures status != Running || fault.Some? ==> demand == OFF
  {
    if status != Running || fault.Some? then OFF else requested
  }
}
