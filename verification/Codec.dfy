/** The observation payload of a history record: its printer, its parser, and what they undo. */
module Codec {
  import opened Bytes
  import opened Domain

  // ---------------------------------------------------------------- data model

  /** IEEE-754 single precision, as its bit pattern: all exponent bits set is not finite. */
  predicate Finite(p: u32) {
    p / 0x80_0000 % 0x100 != 0xFF
  }

  /** Demand accepts 0.0 .. 100.0 (0x42C80000) and negative zero. */
  predicate ValidDemand(p: u32) {
    p <= 0x42C8_0000 || p == 0x8000_0000
  }

  type Temperature = p: u32 | Finite(p)
  type HeaterDemand = p: u32 | ValidDemand(p)

  datatype Kind = Start | Sample | Change | End

  datatype Probe = Probe(
    id: byte,
    role: ProbeRole,
    current: Option<Temperature>,
    target: Option<Temperature>,
    enabled: bool,
    alarmEnabled: bool)

  datatype Alarm = Alarm(id: u32, code: AlarmCode, probeId: Option<byte>, acknowledged: bool)

  datatype Timer = Timer(started: bool, completed: bool, startedAt: Option<i64>, elapsed: i64)

  datatype Observation = Observation(
    kind: Kind,
    historyId: nat,
    sequence: nat,
    sessionId: u32,
    status: SessionStatus,
    stopReason: StopReason,
    elapsed: i64,
    utc: Option<i64>,
    chamber: Option<Temperature>,
    target: Option<Temperature>,
    demand: HeaterDemand,
    timer: Timer,
    probes: seq<Probe>,
    alarms: seq<Alarm>,
    fault: Option<FaultCode>)

  // ---------------------------------------------------------------- enumerations

  function StatusCode(s: SessionStatus): byte {
    match s case Idle => 0 case Running => 1 case Stopped => 2 case Fault => 3
  }

  function StatusOf(c: byte): SessionStatus {
    if c == 0 then Idle else if c == 1 then Running else if c == 2 then Stopped else SessionStatus.Fault
  }

  function ReasonCode(r: StopReason): byte {
    match r
    case NoReason => 0 case User => 1 case TimerCompleted => 2 case FaultStop => 3
    case RecoveryNotAllowed => 4
  }

  function ReasonOf(c: byte): StopReason {
    if c == 0 then NoReason else if c == 1 then User else if c == 2 then TimerCompleted
    else if c == 3 then FaultStop else RecoveryNotAllowed
  }

  function FaultByte(f: FaultCode): byte {
    match f
    case ChamberSensorInvalid => 0 case ChamberOverTemperature => 1
    case ControlLoopFailure => 2 case ConfigurationInvalid => 3
  }

  function FaultOf(c: byte): FaultCode {
    if c == 0 then ChamberSensorInvalid else if c == 1 then ChamberOverTemperature
    else if c == 2 then ControlLoopFailure else ConfigurationInvalid
  }

  function RoleCode(r: ProbeRole): byte {
    match r case Meat => 0 case AmbientMonitor => 1 case Unassigned => 2
  }

  function RoleOf(c: byte): ProbeRole {
    if c == 0 then Meat else if c == 1 then AmbientMonitor else Unassigned
  }

  function AlarmByte(a: AlarmCode): byte {
    match a case ProbeTargetAlarm => 0 case ProbeDisconnectedAlarm => 1 case TimerCompletedAlarm => 2
  }

  function AlarmOf(c: byte): AlarmCode {
    if c == 0 then ProbeTargetAlarm else if c == 1 then ProbeDisconnectedAlarm else TimerCompletedAlarm
  }

  function KindCode(k: Kind): byte {
    match k case Start => 0 case Sample => 1 case Change => 2 case End => 3
  }

  function KindOf(c: byte): Kind {
    if c == 0 then Start else if c == 1 then Sample else if c == 2 then Change else End
  }

  function Flag(condition: bool, weight: byte): byte {
    if condition then weight else 0
  }

  predicate HasFlag(flags: byte, weight: byte)
    requires weight > 0
  {
    flags / weight % 2 == 1
  }

  function ValueOr<T>(o: Option<T>, default: T): T {
    match o case None => default case Some(v) => v
  }

  // ---------------------------------------------------------------- printer

  const FIXED_BYTES := 50
  const PROBE_BYTES := 12
  const ALARM_BYTES := 8

  function Flags(x: Observation): byte {
    Flag(x.utc.Some?, 1) + Flag(x.chamber.Some?, 2) + Flag(x.target.Some?, 4)
    + Flag(x.timer.started, 8) + Flag(x.timer.completed, 16) + Flag(x.fault.Some?, 32)
  }

  /** The fixed part as raw words, in the order they are stored. */
  datatype Fixed = Fixed(
    version: u16, status: byte, reason: byte, sessionId: u32, elapsed: i64,
    flags: byte, utc: i64, chamber: u32, target: u32, demand: u32,
    timerElapsed: i64, fault: byte, probeCount: u16, alarmCount: u16)

  /** List lengths are stored modulo two to the sixteenth. */
  function FixedOf(x: Observation): Fixed {
    Fixed(1, StatusCode(x.status), ReasonCode(x.stopReason), x.sessionId, x.elapsed,
          Flags(x), ValueOr(x.utc, 0), ValueOr(x.chamber, 0), ValueOr(x.target, 0), x.demand,
          x.timer.elapsed, FaultByte(ValueOr(x.fault, ConfigurationInvalid)),
          |x.probes| % 0x1_0000, |x.alarms| % 0x1_0000)
  }

  /** Bytes 0 .. 16 */
  function EncodedSession(f: Fixed): (s: seq<byte>)
    ensures |s| == 16
  {
    Le16(f.version) + [f.status, f.reason] + Le32(f.sessionId) + LeI64(f.elapsed)
  }

  /** Bytes 16 .. 37 */
  function EncodedReadings(f: Fixed): (s: seq<byte>)
    ensures |s| == 21
  {
    [f.flags] + LeI64(f.utc) + Le32(f.chamber) + Le32(f.target) + Le32(f.demand)
  }

  /** Bytes 37 .. 50 */
  function EncodedCounts(f: Fixed): (s: seq<byte>)
    ensures |s| == 13
  {
    LeI64(f.timerElapsed) + [f.fault] + Le16(f.probeCount) + Le16(f.alarmCount)
  }

  function EncodedFixed(f: Fixed): (s: seq<byte>)
    ensures |s| == FIXED_BYTES
  {
    EncodedSession(f) + EncodedReadings(f) + EncodedCounts(f)
  }

  function ProbeFlags(p: Probe): byte {
    Flag(p.enabled, 1) + Flag(p.alarmEnabled, 2) + Flag(p.current.Some?, 4) + Flag(p.target.Some?, 8)
  }

  function EncodedProbe(p: Probe): (s: seq<byte>)
    ensures |s| == PROBE_BYTES
  {
    [p.id, RoleCode(p.role), ProbeFlags(p), 0] + Le32(ValueOr(p.current, 0)) + Le32(ValueOr(p.target, 0))
  }

  function EncodedAlarm(a: Alarm): (s: seq<byte>)
    ensures |s| == ALARM_BYTES
  {
    Le32(a.id) + [AlarmByte(a.code), Flag(a.acknowledged, 1) + Flag(a.probeId.Some?, 2),
                  ValueOr(a.probeId, 0), 0]
  }

  function EncodedProbes(ps: seq<Probe>): (s: seq<byte>)
    ensures |s| == PROBE_BYTES * |ps|
  {
    if ps == [] then [] else EncodedProbe(ps[0]) + EncodedProbes(ps[1..])
  }

  function EncodedAlarms(xs: seq<Alarm>): (s: seq<byte>)
    ensures |s| == ALARM_BYTES * |xs|
  {
    if xs == [] then [] else EncodedAlarm(xs[0]) + EncodedAlarms(xs[1..])
  }

  function Encoded(x: Observation): (s: seq<byte>)
    ensures |s| == FIXED_BYTES + PROBE_BYTES * |x.probes| + ALARM_BYTES * |x.alarms|
  {
    EncodedFixed(FixedOf(x)) + EncodedProbes(x.probes) + EncodedAlarms(x.alarms)
  }

  method AppendProbes(front: seq<byte>, ps: seq<Probe>) returns (result: seq<byte>)
    ensures result == front + EncodedProbes(ps)
  {
    result := front;
    for i := 0 to |ps|
      invariant result + EncodedProbes(ps[i..]) == front + EncodedProbes(ps)
    {
      assert ps[i..][1..] == ps[i + 1..];
      assert result + EncodedProbes(ps[i..])
          == result + EncodedProbe(ps[i]) + EncodedProbes(ps[i + 1..]);
      result := result + EncodedProbe(ps[i]);
    }
    assert ps[|ps|..] == [] && result + [] == result;
  }

  method AppendAlarms(front: seq<byte>, xs: seq<Alarm>) returns (result: seq<byte>)
    ensures result == front + EncodedAlarms(xs)
  {
    result := front;
    for i := 0 to |xs|
      invariant result + EncodedAlarms(xs[i..]) == front + EncodedAlarms(xs)
    {
      assert xs[i..][1..] == xs[i + 1..];
      assert result + EncodedAlarms(xs[i..])
          == result + EncodedAlarm(xs[i]) + EncodedAlarms(xs[i + 1..]);
      result := result + EncodedAlarm(xs[i]);
    }
    assert xs[|xs|..] == [] && result + [] == result;
  }

  method EncodeObservation(x: Observation) returns (result: seq<byte>)
    ensures result == Encoded(x)
  {
    result := AppendProbes(EncodedFixed(FixedOf(x)), x.probes);
    result := AppendAlarms(result, x.alarms);
  }

  // ---------------------------------------------------------------- parser

  predicate ProbeAccepted(b: seq<byte>, at: nat)
    requires at + PROBE_BYTES <= |b|
  {
    b[at + 1] <= 2
    && (HasFlag(b[at + 2], 4) ==> Finite(Get32(b, at + 4)))
    && (HasFlag(b[at + 2], 8) ==> Finite(Get32(b, at + 8)))
  }

  function ProbeAt(b: seq<byte>, at: nat): Probe
    requires at + PROBE_BYTES <= |b| && ProbeAccepted(b, at)
  {
    Probe(b[at], RoleOf(b[at + 1]),
          if HasFlag(b[at + 2], 4) then Some(Get32(b, at + 4)) else None,
          if HasFlag(b[at + 2], 8) then Some(Get32(b, at + 8)) else None,
          HasFlag(b[at + 2], 1), HasFlag(b[at + 2], 2))
  }

  function AlarmAt(b: seq<byte>, at: nat): Alarm
    requires at + ALARM_BYTES <= |b|
  {
    Alarm(Get32(b, at), AlarmOf(b[at + 4]),
          if HasFlag(b[at + 5], 2) then Some(b[at + 6]) else None, HasFlag(b[at + 5], 1))
  }

  function DecodedProbes(b: seq<byte>, at: nat, count: nat): (r: Option<seq<Probe>>)
    ensures r.Some? ==> |r.value| == count && (count > 0 ==> at + PROBE_BYTES * count <= |b|)
    decreases count
  {
    if count == 0 then Some([])
    else if at + PROBE_BYTES > |b| || !ProbeAccepted(b, at) then None
    else match DecodedProbes(b, at + PROBE_BYTES, count - 1)
      case None => None
      case Some(rest) => Some([ProbeAt(b, at)] + rest)
  }

  function DecodedAlarms(b: seq<byte>, at: nat, count: nat): (r: Option<seq<Alarm>>)
    ensures r.Some? ==> |r.value| == count && (count > 0 ==> at + ALARM_BYTES * count <= |b|)
    decreases count
  {
    if count == 0 then Some([])
    else if at + ALARM_BYTES > |b| || b[at + 4] > 2 then None
    else match DecodedAlarms(b, at + ALARM_BYTES, count - 1)
      case None => None
      case Some(rest) => Some([AlarmAt(b, at)] + rest)
  }

  function ReadFixed(b: seq<byte>): Fixed
    requires FIXED_BYTES <= |b|
  {
    Fixed(Get16(b, 0), b[2], b[3], Get32(b, 4), GetI64(b, 8),
          b[16], GetI64(b, 17), Get32(b, 25), Get32(b, 29), Get32(b, 33),
          GetI64(b, 37), b[45], Get16(b, 46), Get16(b, 48))
  }

  predicate Accepted(f: Fixed) {
    f.version == 1 && f.status <= 3 && f.reason <= 4 && f.elapsed >= 0 && f.timerElapsed >= 0
    && ValidDemand(f.demand) && f.probeCount <= 256 && f.alarmCount <= 256
    && (HasFlag(f.flags, 2) ==> Finite(f.chamber))
    && (HasFlag(f.flags, 4) ==> Finite(f.target))
    && (HasFlag(f.flags, 32) ==> f.fault <= 3)
  }

  function Assemble(f: Fixed, probes: seq<Probe>, alarms: seq<Alarm>): Observation
    requires Accepted(f)
  {
    Observation(
      Sample, 0, 0, f.sessionId, StatusOf(f.status), ReasonOf(f.reason), f.elapsed,
      if HasFlag(f.flags, 1) then Some(f.utc) else None,
      if HasFlag(f.flags, 2) then Some(f.chamber) else None,
      if HasFlag(f.flags, 4) then Some(f.target) else None,
      f.demand,
      Timer(HasFlag(f.flags, 8), HasFlag(f.flags, 16), None, f.timerElapsed),
      probes, alarms,
      if HasFlag(f.flags, 32) then Some(FaultOf(f.fault)) else None)
  }

  /** What the parser accepts: every field in range, and no byte left over. */
  function Decoded(b: seq<byte>): Option<Observation>
  {
    if |b| < FIXED_BYTES || !Accepted(ReadFixed(b)) then None
    else
      var f := ReadFixed(b);
      var probeCount, alarmCount := f.probeCount, f.alarmCount;
      match (DecodedProbes(b, FIXED_BYTES, probeCount),
             DecodedAlarms(b, FIXED_BYTES + PROBE_BYTES * probeCount, alarmCount))
      case (Some(probes), Some(alarms)) =>
        if FIXED_BYTES + PROBE_BYTES * probeCount + ALARM_BYTES * alarmCount == |b|
        then Some(Assemble(f, probes, alarms))
        else None
      case _ => None
  }

  method TakeProbes(b: seq<byte>, first: nat, count: nat) returns (result: Option<seq<Probe>>)
    ensures result == DecodedProbes(b, first, count)
  {
    var cursor, probes := first, [];
    PrependNothing(DecodedProbes(b, cursor, count));
    for i := 0 to count
      invariant cursor == first + PROBE_BYTES * i && |probes| == i
      invariant DecodedProbes(b, first, count) == Prepend(probes, DecodedProbes(b, cursor, count - i))
    {
      if cursor + PROBE_BYTES > |b| || !ProbeAccepted(b, cursor) { return None; }
      PrependStep(probes, ProbeAt(b, cursor), DecodedProbes(b, cursor + PROBE_BYTES, count - i - 1));
      probes := probes + [ProbeAt(b, cursor)];
      cursor := cursor + PROBE_BYTES;
    }
    assert probes + [] == probes;
    result := Some(probes);
  }

  method TakeAlarms(b: seq<byte>, first: nat, count: nat) returns (result: Option<seq<Alarm>>)
    ensures result == DecodedAlarms(b, first, count)
  {
    var cursor, alarms := first, [];
    PrependNothing(DecodedAlarms(b, cursor, count));
    for i := 0 to count
      invariant cursor == first + ALARM_BYTES * i && |alarms| == i
      invariant DecodedAlarms(b, first, count) == Prepend(alarms, DecodedAlarms(b, cursor, count - i))
    {
      if cursor + ALARM_BYTES > |b| || b[cursor + 4] > 2 { return None; }
      PrependStep(alarms, AlarmAt(b, cursor), DecodedAlarms(b, cursor + ALARM_BYTES, count - i - 1));
      alarms := alarms + [AlarmAt(b, cursor)];
      cursor := cursor + ALARM_BYTES;
    }
    assert alarms + [] == alarms;
    result := Some(alarms);
  }

  method DecodeObservation(b: seq<byte>) returns (result: Option<Observation>)
    ensures result == Decoded(b)
  {
    if |b| < FIXED_BYTES { return None; }
    var f := ReadFixed(b);
    if !Accepted(f) { return None; }
    var probes := TakeProbes(b, FIXED_BYTES, f.probeCount);
    if probes == None { return None; }
    var cursor := FIXED_BYTES + PROBE_BYTES * f.probeCount;
    var alarms := TakeAlarms(b, cursor, f.alarmCount);
    if alarms == None { return None; }
    cursor := cursor + ALARM_BYTES * f.alarmCount;
    result := if cursor == |b| then Some(Assemble(f, probes.value, alarms.value)) else None;
  }

  function Prepend<T>(front: seq<T>, rest: Option<seq<T>>): Option<seq<T>> {
    match rest case None => None case Some(back) => Some(front + back)
  }

  lemma PrependNothing<T>(rest: Option<seq<T>>)
    ensures Prepend([], rest) == rest
  {
    if rest.Some? {
      assert [] + rest.value == rest.value;
    }
  }

  lemma PrependStep<T>(front: seq<T>, x: T, rest: Option<seq<T>>)
    ensures Prepend(front, match rest case None => None case Some(back) => Some([x] + back))
         == Prepend(front + [x], rest)
  {
    if rest.Some? {
      assert front + ([x] + rest.value) == front + [x] + rest.value;
    }
  }

  // ---------------------------------------------------------------- round trip

  /** What survives printing and parsing: the header-carried fields and the start instant do not. */
  function Normal(x: Observation): Observation {
    x.(kind := Sample, historyId := 0, sequence := 0, timer := x.timer.(startedAt := None))
  }

  /** The guard of the parser, on the value that was printed. */
  predicate Codable(x: Observation) {
    x.elapsed >= 0 && x.timer.elapsed >= 0 && |x.probes| <= 256 && |x.alarms| <= 256
  }

  lemma SubSlice<T>(b: seq<T>, at: nat, n: nat, i: nat, j: nat)
    requires at + n <= |b| && i <= j <= n
    ensures b[at + i..at + j] == b[at..at + n][i..j]
  {
    var outer, inner := b[at..at + n], b[at + i..at + j];
    forall k | 0 <= k < j - i
      ensures inner[k] == outer[i..j][k]
    {
      assert outer[i..j][k] == outer[i + k] == b[at + (i + k)];
    }
  }

  lemma SessionFields(f: Fixed, b: seq<byte>)
    requires EncodedSession(f) <= b
    ensures Get16(b, 0) == f.version && b[2] == f.status && b[3] == f.reason
    ensures Get32(b, 4) == f.sessionId && GetI64(b, 8) == f.elapsed
  {
    var w := EncodedSession(f);
    assert w[0..2] == Le16(f.version) && w[4..8] == Le32(f.sessionId) && w[8..16] == LeI64(f.elapsed);
    assert b[2] == w[2] && b[3] == w[3];
    assert b[0..2] == w[0..2] && b[4..8] == w[4..8] && b[8..16] == w[8..16];
    Get16Of(b, 0, f.version);
    Get32Of(b, 4, f.sessionId);
    GetI64Of(b, 8, f.elapsed);
  }

  lemma ReadingFields(f: Fixed, b: seq<byte>)
    requires 37 <= |b| && b[16..37] == EncodedReadings(f)
    ensures b[16] == f.flags && GetI64(b, 17) == f.utc
    ensures Get32(b, 25) == f.chamber && Get32(b, 29) == f.target && Get32(b, 33) == f.demand
  {
    var w := EncodedReadings(f);
    assert w[0] == b[16];
    assert w[1..9] == LeI64(f.utc) && w[9..13] == Le32(f.chamber);
    assert w[13..17] == Le32(f.target) && w[17..21] == Le32(f.demand);
    SubSlice(b, 16, 21, 1, 9);
    SubSlice(b, 16, 21, 9, 13);
    SubSlice(b, 16, 21, 13, 17);
    SubSlice(b, 16, 21, 17, 21);
    GetI64Of(b, 17, f.utc);
    Get32Of(b, 25, f.chamber);
    Get32Of(b, 29, f.target);
    Get32Of(b, 33, f.demand);
  }

  lemma CountFields(f: Fixed, b: seq<byte>)
    requires 50 <= |b| && b[37..50] == EncodedCounts(f)
    ensures GetI64(b, 37) == f.timerElapsed && b[45] == f.fault
    ensures Get16(b, 46) == f.probeCount && Get16(b, 48) == f.alarmCount
  {
    var w := EncodedCounts(f);
    assert w[8] == b[45];
    assert w[0..8] == LeI64(f.timerElapsed);
    assert w[9..11] == Le16(f.probeCount) && w[11..13] == Le16(f.alarmCount);
    SubSlice(b, 37, 13, 0, 8);
    SubSlice(b, 37, 13, 9, 11);
    SubSlice(b, 37, 13, 11, 13);
    GetI64Of(b, 37, f.timerElapsed);
    Get16Of(b, 46, f.probeCount);
    Get16Of(b, 48, f.alarmCount);
  }

  /** Every field of the fixed part is found again at its offset, whatever follows it. */
  lemma FixedRoundTrip(f: Fixed, b: seq<byte>)
    requires EncodedFixed(f) <= b
    ensures ReadFixed(b) == f
  {
    var e := EncodedFixed(f);
    assert e[..16] == EncodedSession(f) && e[16..37] == EncodedReadings(f) && e[37..50] == EncodedCounts(f);
    assert b[..16] == e[..16] && b[16..37] == e[16..37] && b[37..50] == e[37..50];
    SessionFields(f, b);
    ReadingFields(f, b);
    CountFields(f, b);
  }

  lemma FlagsRead(x: Observation)
    ensures HasFlag(Flags(x), 1) == x.utc.Some? && HasFlag(Flags(x), 2) == x.chamber.Some?
    ensures HasFlag(Flags(x), 4) == x.target.Some? && HasFlag(Flags(x), 8) == x.timer.started
    ensures HasFlag(Flags(x), 16) == x.timer.completed && HasFlag(Flags(x), 32) == x.fault.Some?
  {
  }

  lemma AssembleUndoesFixedOf(x: Observation)
    ensures Accepted(FixedOf(x)) <==>
              x.elapsed >= 0 && x.timer.elapsed >= 0
              && |x.probes| % 0x1_0000 <= 256 && |x.alarms| % 0x1_0000 <= 256
    ensures Accepted(FixedOf(x)) ==> Assemble(FixedOf(x), x.probes, x.alarms) == Normal(x)
  {
    FlagsRead(x);
  }

  lemma ProbeFlagsRead(p: Probe)
    ensures HasFlag(ProbeFlags(p), 1) == p.enabled && HasFlag(ProbeFlags(p), 2) == p.alarmEnabled
    ensures HasFlag(ProbeFlags(p), 4) == p.current.Some? && HasFlag(ProbeFlags(p), 8) == p.target.Some?
  {
  }

  lemma ProbeWords(p: Probe, b: seq<byte>, at: nat)
    requires at + PROBE_BYTES <= |b| && b[at..at + PROBE_BYTES] == EncodedProbe(p)
    ensures b[at] == p.id && b[at + 1] == RoleCode(p.role) && b[at + 2] == ProbeFlags(p)
    ensures Get32(b, at + 4) == ValueOr(p.current, 0) && Get32(b, at + 8) == ValueOr(p.target, 0)
  {
    var w := EncodedProbe(p);
    assert w[0] == b[at] && w[1] == b[at + 1] && w[2] == b[at + 2];
    assert w[4..8] == Le32(ValueOr(p.current, 0)) && w[8..12] == Le32(ValueOr(p.target, 0));
    SubSlice(b, at, 12, 4, 8);
    SubSlice(b, at, 12, 8, 12);
    Get32Of(b, at + 4, ValueOr(p.current, 0));
    Get32Of(b, at + 8, ValueOr(p.target, 0));
  }

  lemma ProbeFields(p: Probe, b: seq<byte>, at: nat)
    requires at + PROBE_BYTES <= |b| && b[at..at + PROBE_BYTES] == EncodedProbe(p)
    ensures ProbeAccepted(b, at) && ProbeAt(b, at) == p
  {
    ProbeWords(p, b, at);
    ProbeFlagsRead(p);
  }

  lemma AlarmFields(a: Alarm, b: seq<byte>, at: nat)
    requires at + ALARM_BYTES <= |b| && b[at..at + ALARM_BYTES] == EncodedAlarm(a)
    ensures b[at + 4] <= 2 && AlarmAt(b, at) == a
  {
    var w := EncodedAlarm(a);
    assert w[4] == b[at + 4] && w[5] == b[at + 5] && w[6] == b[at + 6];
    assert w[0..4] == Le32(a.id);
    SubSlice(b, at, 8, 0, 4);
    Get32Of(b, at, a.id);
  }

  lemma {:induction false} ProbesRoundTrip(ps: seq<Probe>, b: seq<byte>, at: nat)
    requires at + PROBE_BYTES * |ps| <= |b| && b[at..at + PROBE_BYTES * |ps|] == EncodedProbes(ps)
    ensures DecodedProbes(b, at, |ps|) == Some(ps)
    decreases |ps|
  {
    if ps != [] {
      SubSlice(b, at, PROBE_BYTES * |ps|, 0, PROBE_BYTES);
      SubSlice(b, at, PROBE_BYTES * |ps|, PROBE_BYTES, PROBE_BYTES * |ps|);
      assert EncodedProbes(ps)[0..PROBE_BYTES] == EncodedProbe(ps[0]);
      assert EncodedProbes(ps)[PROBE_BYTES..PROBE_BYTES * |ps|] == EncodedProbes(ps[1..]);
      ProbeFields(ps[0], b, at);
      ProbesRoundTrip(ps[1..], b, at + PROBE_BYTES);
      assert [ps[0]] + ps[1..] == ps;
    }
  }

  lemma {:induction false} AlarmsRoundTrip(xs: seq<Alarm>, b: seq<byte>, at: nat)
    requires at + ALARM_BYTES * |xs| <= |b| && b[at..at + ALARM_BYTES * |xs|] == EncodedAlarms(xs)
    ensures DecodedAlarms(b, at, |xs|) == Some(xs)
    decreases |xs|
  {
    if xs != [] {
      SubSlice(b, at, ALARM_BYTES * |xs|, 0, ALARM_BYTES);
      SubSlice(b, at, ALARM_BYTES * |xs|, ALARM_BYTES, ALARM_BYTES * |xs|);
      assert EncodedAlarms(xs)[0..ALARM_BYTES] == EncodedAlarm(xs[0]);
      assert EncodedAlarms(xs)[ALARM_BYTES..ALARM_BYTES * |xs|] == EncodedAlarms(xs[1..]);
      AlarmFields(xs[0], b, at);
      AlarmsRoundTrip(xs[1..], b, at + ALARM_BYTES);
      assert [xs[0]] + xs[1..] == xs;
    }
  }

  lemma DecodedBy(b: seq<byte>, f: Fixed, ps: seq<Probe>, xs: seq<Alarm>)
    requires FIXED_BYTES <= |b| && ReadFixed(b) == f && Accepted(f)
    requires FIXED_BYTES + PROBE_BYTES * f.probeCount + ALARM_BYTES * f.alarmCount == |b|
    requires DecodedProbes(b, FIXED_BYTES, f.probeCount) == Some(ps)
    requires DecodedAlarms(b, FIXED_BYTES + PROBE_BYTES * f.probeCount, f.alarmCount) == Some(xs)
    ensures Decoded(b) == Some(Assemble(f, ps, xs))
  {
  }

  lemma NotDecodedBy(b: seq<byte>, f: Fixed)
    requires FIXED_BYTES <= |b| && ReadFixed(b) == f
    requires !Accepted(f) || FIXED_BYTES + PROBE_BYTES * f.probeCount + ALARM_BYTES * f.alarmCount != |b|
    ensures Decoded(b) == None
  {
  }

  lemma ReadEncoded(x: Observation)
    ensures ReadFixed(Encoded(x)) == FixedOf(x)
  {
    assert EncodedFixed(FixedOf(x)) <= Encoded(x);
    FixedRoundTrip(FixedOf(x), Encoded(x));
  }

  lemma LengthMismatch(x: Observation)
    requires !Codable(x) && Accepted(FixedOf(x))
    ensures FIXED_BYTES + PROBE_BYTES * FixedOf(x).probeCount + ALARM_BYTES * FixedOf(x).alarmCount
         < FIXED_BYTES + PROBE_BYTES * |x.probes| + ALARM_BYTES * |x.alarms|
  {
    AssembleUndoesFixedOf(x);
  }

  lemma AssembleCodable(x: Observation, f: Fixed)
    requires f == FixedOf(x) && Codable(x)
    ensures Accepted(f) && Assemble(f, x.probes, x.alarms) == Normal(x)
    ensures f.probeCount == |x.probes| && f.alarmCount == |x.alarms|
  {
    AssembleUndoesFixedOf(x);
  }

  lemma CodableRoundTrip(x: Observation)
    requires Codable(x)
    ensures Decoded(Encoded(x)) == Some(Normal(x))
  {
    var f := ReadFixed(Encoded(x));
    ReadEncoded(x);
    AssembleCodable(x, f);
    ListsRoundTrip(x);
    DecodedBy(Encoded(x), f, x.probes, x.alarms);
  }

  lemma UncodableRejected(x: Observation)
    requires !Codable(x)
    ensures Decoded(Encoded(x)) == None
  {
    var f := ReadFixed(Encoded(x));
    ReadEncoded(x);
    if Accepted(f) {
      LengthMismatch(x);
    }
    NotDecodedBy(Encoded(x), f);
  }

  /** The parser undoes the printer exactly on the codable observations, and rejects every other one. */
  lemma RoundTripIff(x: Observation)
    ensures Decoded(Encoded(x)) == if Codable(x) then Some(Normal(x)) else None
  {
    if Codable(x) {
      CodableRoundTrip(x);
    } else {
      UncodableRejected(x);
    }
  }

  lemma ListsRoundTrip(x: Observation)
    ensures DecodedProbes(Encoded(x), FIXED_BYTES, |x.probes|) == Some(x.probes)
    ensures DecodedAlarms(Encoded(x), FIXED_BYTES + PROBE_BYTES * |x.probes|, |x.alarms|) == Some(x.alarms)
  {
    var b := Encoded(x);
    var p := FIXED_BYTES + PROBE_BYTES * |x.probes|;
    assert b[FIXED_BYTES..p] == EncodedProbes(x.probes);
    assert b[p..p + ALARM_BYTES * |x.alarms|] == EncodedAlarms(x.alarms);
    ProbesRoundTrip(x.probes, b, FIXED_BYTES);
    AlarmsRoundTrip(x.alarms, b, p);
  }
}
