/** The alarm list of the control application: one entry per cause, reused when the cause returns. */
module ControlAlarms {
  import opened Bytes
  import opened Domain
  import opened ControlCore

  predicate Same(a: ControlAlarm, code: AlarmCode, probe: Option<byte>) {
    a.code == code && a.probe == probe
  }

  predicate Unresolved(alarms: seq<ControlAlarm>, code: AlarmCode, probe: Option<byte>) {
    exists k :: 0 <= k < |alarms| && Same(alarms[k], code, probe) && !alarms[k].resolved
  }

  predicate Distinct(alarms: seq<ControlAlarm>) {
    forall j, k :: 0 <= j < k < |alarms| ==> !Same(alarms[j], alarms[k].code, alarms[k].probe)
  }

  predicate AllResolved(alarms: seq<ControlAlarm>) {
    forall k :: 0 <= k < |alarms| ==> alarms[k].resolved
  }

  /** The causes an installation with the given probes can have. */
  predicate Possible(code: AlarmCode, probe: Option<byte>, ids: set<byte>) {
    if code == TimerCompletedAlarm then probe == None else probe.Some? && probe.value in ids
  }

  predicate Sound(alarms: seq<ControlAlarm>, ids: set<byte>) {
    Distinct(alarms) && forall k :: 0 <= k < |alarms| ==> Possible(alarms[k].code, alarms[k].probe, ids)
  }

  datatype Cause = Cause(code: AlarmCode, probe: Option<byte>)

  function Causes(alarms: seq<ControlAlarm>): set<Cause> {
    set k | 0 <= k < |alarms| :: Cause(alarms[k].code, alarms[k].probe)
  }

  function ProbeCauses(ids: set<byte>, code: AlarmCode): set<Cause> {
    set i | i in ids :: Cause(code, Some(i))
  }

  function AllCauses(ids: set<byte>): set<Cause> {
    ProbeCauses(ids, ProbeTargetAlarm) + ProbeCauses(ids, ProbeDisconnectedAlarm) + {Cause(TimerCompletedAlarm, None)}
  }

  lemma {:induction false} CausesCounted(alarms: seq<ControlAlarm>)
    requires Distinct(alarms)
    ensures |Causes(alarms)| == |alarms|
  {
    if alarms == [] {
      assert Causes(alarms) == {};
    } else {
      var n := |alarms| - 1;
      CausesCounted(alarms[..n]);
      assert Causes(alarms) == Causes(alarms[..n]) + {Cause(alarms[n].code, alarms[n].probe)};
    }
  }

  lemma {:induction false} PerProbe(ids: set<byte>, code: AlarmCode)
    ensures |ProbeCauses(ids, code)| == |ids|
  {
    if ids == {} {
      assert ProbeCauses(ids, code) == {};
    } else {
      var x :| x in ids;
      PerProbe(ids - {x}, code);
      assert ProbeCauses(ids, code) == ProbeCauses(ids - {x}, code) + {Cause(code, Some(x))};
    }
  }

  lemma {:induction false} Within<T>(a: set<T>, b: set<T>)
    requires a <= b
    ensures |a| <= |b|
  {
    if a != {} {
      var x :| x in a;
      Within(a - {x}, b - {x});
    }
  }

  /** At most two alarms per probe and one for the timer. */
  lemma AtMost(alarms: seq<ControlAlarm>, ids: set<byte>)
    requires Sound(alarms, ids)
    ensures |alarms| <= 2 * |ids| + 1
  {
    CausesCounted(alarms);
    PerProbe(ids, ProbeTargetAlarm);
    PerProbe(ids, ProbeDisconnectedAlarm);
    var a, b := ProbeCauses(ids, ProbeTargetAlarm), ProbeCauses(ids, ProbeDisconnectedAlarm);
    assert |AllCauses(ids)| <= |a| + |b| + 1;
    Within(Causes(alarms), AllCauses(ids));
  }

  /** Every alarm with the given cause is resolved; nothing else changes. */
  predicate ResolvedOnly(before: seq<ControlAlarm>, after: seq<ControlAlarm>, code: AlarmCode, probe: Option<byte>) {
    |after| == |before|
    && forall k :: 0 <= k < |after| ==>
         after[k] == if Same(before[k], code, probe) then before[k].(resolved := true) else before[k]
  }

  /** Both alarms a probe can have are resolved; nothing else changes. */
  predicate ResolvedProbe(before: seq<ControlAlarm>, after: seq<ControlAlarm>, id: byte) {
    |after| == |before|
    && forall k :: 0 <= k < |after| ==>
         after[k] == if before[k].code != TimerCompletedAlarm && before[k].probe == Some(id)
                     then before[k].(resolved := true) else before[k]
  }

  lemma ResolvedBoth(a: seq<ControlAlarm>, b: seq<ControlAlarm>, c: seq<ControlAlarm>, id: byte)
    requires ResolvedOnly(a, b, ProbeTargetAlarm, Some(id)) && ResolvedOnly(b, c, ProbeDisconnectedAlarm, Some(id))
    ensures ResolvedProbe(a, c, id)
  {
  }

  method ResolveProbeAlarms(alarms: seq<ControlAlarm>, code: AlarmCode, probe: byte)
    returns (after: seq<ControlAlarm>)
    ensures ResolvedOnly(alarms, after, code, Some(probe))
  {
    after := alarms;
    for k := 0 to |alarms|
      invariant |after| == |alarms|
      invariant forall j :: k <= j < |alarms| ==> after[j] == alarms[j]
      invariant forall j :: 0 <= j < k ==>
                  after[j] == if Same(alarms[j], code, Some(probe)) then alarms[j].(resolved := true) else alarms[j]
    {
      if after[k].code == code && after[k].probe == Some(probe) {
        after := after[k := after[k].(resolved := true)];
      }
    }
  }

  predicate ResolvedAll(before: seq<ControlAlarm>, after: seq<ControlAlarm>) {
    |after| == |before| && forall k :: 0 <= k < |after| ==> after[k] == before[k].(resolved := true)
  }

  method ResolveAllAlarms(alarms: seq<ControlAlarm>) returns (after: seq<ControlAlarm>)
    ensures ResolvedAll(alarms, after)
  {
    after := alarms;
    for k := 0 to |alarms|
      invariant |after| == |alarms|
      invariant forall j :: k <= j < |alarms| ==> after[j] == alarms[j]
      invariant forall j :: 0 <= j < k ==> after[j] == alarms[j].(resolved := true)
    {
      after := after[k := after[k].(resolved := true)];
    }
  }

  /** The new alarm takes the place of one with the same cause, or joins at the end. */
  predicate RaisedOne(before: seq<ControlAlarm>, after: seq<ControlAlarm>, a: ControlAlarm) {
    (exists k :: 0 <= k < |before| && Same(before[k], a.code, a.probe) && after == before[k := a])
    || ((forall k :: 0 <= k < |before| ==> !Same(before[k], a.code, a.probe)) && after == before + [a])
  }

  method PlaceAlarm(alarms: seq<ControlAlarm>, a: ControlAlarm) returns (after: seq<ControlAlarm>)
    ensures RaisedOne(alarms, after, a)
  {
    for k := 0 to |alarms|
      invariant forall j :: 0 <= j < k ==> !Same(alarms[j], a.code, a.probe)
    {
      if alarms[k].code == a.code && alarms[k].probe == a.probe {
        return alarms[k := a];
      }
    }
    after := alarms + [a];
  }

  lemma RaisedFacts(before: seq<ControlAlarm>, after: seq<ControlAlarm>, a: ControlAlarm, ids: set<byte>)
    requires Sound(before, ids) && RaisedOne(before, after, a) && Possible(a.code, a.probe, ids) && !a.resolved
    ensures Sound(after, ids) && Unresolved(after, a.code, a.probe)
    ensures forall code, probe :: (code, probe) != (a.code, a.probe) ==>
              (Unresolved(after, code, probe) <==> Unresolved(before, code, probe))
  {
    if exists k :: 0 <= k < |before| && Same(before[k], a.code, a.probe) && after == before[k := a] {
      var k :| 0 <= k < |before| && Same(before[k], a.code, a.probe) && after == before[k := a];
      assert Same(after[k], a.code, a.probe);
      forall code, probe | (code, probe) != (a.code, a.probe) && Unresolved(before, code, probe)
        ensures Unresolved(after, code, probe)
      {
        var j :| 0 <= j < |before| && Same(before[j], code, probe) && !before[j].resolved;
        assert after[j] == before[j];
      }
    } else {
      assert after[|before|] == a && Same(after[|before|], a.code, a.probe);
      forall code, probe | (code, probe) != (a.code, a.probe) && Unresolved(before, code, probe)
        ensures Unresolved(after, code, probe)
      {
        var j :| 0 <= j < |before| && Same(before[j], code, probe) && !before[j].resolved;
        assert after[j] == before[j];
      }
    }
  }

  lemma ResolvedOnlyFacts(before: seq<ControlAlarm>, after: seq<ControlAlarm>, code: AlarmCode, probe: Option<byte>, ids: set<byte>)
    requires Sound(before, ids) && ResolvedOnly(before, after, code, probe)
    ensures Sound(after, ids) && !Unresolved(after, code, probe)
    ensures AllResolved(before) ==> AllResolved(after)
    ensures forall c, p :: (c, p) != (code, probe) ==> (Unresolved(after, c, p) <==> Unresolved(before, c, p))
  {
    forall c, p | (c, p) != (code, probe) && Unresolved(before, c, p)
      ensures Unresolved(after, c, p)
    {
      var j :| 0 <= j < |before| && Same(before[j], c, p) && !before[j].resolved;
      assert after[j] == before[j];
    }
  }

  lemma ResolvedAllFacts(before: seq<ControlAlarm>, after: seq<ControlAlarm>, ids: set<byte>)
    requires Sound(before, ids) && ResolvedAll(before, after)
    ensures Sound(after, ids) && AllResolved(after)
  {
  }
}
