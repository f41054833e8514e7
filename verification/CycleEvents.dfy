/** Which events a control cycle reports about its probes and its timer, whatever commands it served. */
module CycleEvents {
  import opened Bytes
  import opened Domain
  import opened ControlCore
  import opened CommandQueue
  import opened CommandEffects
  import opened SmokerApplication
  import Alarms = ControlAlarms

  /** Events that only readings and the timer cause. */
  predicate Observed(kind: EventKind) {
    kind in {ProbeConnected, ProbeReconnected, ProbeDisconnected, ProbeTargetReached, TimerStarted, TimerDone}
  }

  lemma CommandTellsOther(a: Desk, c: Command, now: int, accepted: bool, b: Desk, e: Event)
    requires Effect(a, c, now, accepted, b) && Observed(e.kind)
    ensures e in b.events <==> e in a.events
  {
    hide Rearmed, Permits, Alarms.ResolvedAll, Alarms.ResolvedOnly, Alarms.ResolvedProbe, RecipeValid, Acknowledgeable;
  }

  /** No command reports an observation. */
  lemma {:induction false} BatchTellsOther(desks: seq<Desk>, q: seq<Queued>, accepted: seq<bool>, now: int, e: Event)
    requires Batch(desks, q, accepted, now) && Observed(e.kind)
    ensures e in desks[|q|].events <==> e in desks[0].events
  {
    hide Effect;
    if q != [] {
      var n := |q| - 1;
      BatchTellsOther(desks[..n + 1], q[..n], accepted[..n], now, e);
      CommandTellsOther(desks[n], q[n].command, now, accepted[n], desks[n + 1], e);
    }
  }

  /** The events of a probe carry its id, so with distinct ids they are its own. */
  lemma {:induction false} OwnEvents(ps: seq<ProbeRuntime>, k: nat, running: bool, now: int, e: Event)
    requires k < |ps| && forall i, j :: 0 <= i < j < |ps| ==> ps[i].config.id != ps[j].config.id
    requires e.probe == Some(ps[k].config.id)
    ensures e in ProbeEvents(ps, running, now) <==> e in ReadingEvents(ps[k], running, now)
  {
    var n := |ps| - 1;
    if k < n {
      OwnEvents(ps[..n], k, running, now, e);
    } else {
      NotNamed(ps[..n], running, now, e);
    }
  }

  lemma {:induction false} NotNamed(ps: seq<ProbeRuntime>, running: bool, now: int, e: Event)
    requires forall i :: 0 <= i < |ps| ==> e.probe != Some(ps[i].config.id)
    ensures e !in ProbeEvents(ps, running, now)
  {
    if ps != [] {
      NotNamed(ps[..|ps| - 1], running, now, e);
    }
  }

  /** What a cycle did, as its contract tells it. */
  ghost predicate Happened(a: Desk, refused: bool, valid: bool, q: seq<Queued>, accepted: seq<bool>, course: Course, b: Desk) {
    Batch(course.desks, q, accepted, course.now) && Opening(a, refused, course.now, course.desks[0])
    && ProbesServed(course.desks[|q|], valid, course.now, course.probed)
    && TimerTaken(course.probed, course.now, course.planned) && Ruled(course.planned, valid, course.now, b)
  }

  /** Where an observation that the cycle reports comes from. */
  lemma Sources(a: Desk, refused: bool, valid: bool, q: seq<Queued>, accepted: seq<bool>, course: Course, b: Desk, e: Event)
    requires Happened(a, refused, valid, q, accepted, course, b) && Observed(e.kind)
    ensures var d := course.desks[|q|];
            e in b.events
            <==> e in ProbeEvents(d.probes, IsRunning(d.session), course.now)
                 || e in TimerEvents(course.probed.session, course.planned.session, course.now)
  {
    hide Effect, EvaluatedAll, AlarmsFollow, AlarmCourse, ProbeEvents, TimerEvents, TimerServed, TimerAlarm, Sampled,
         Hazard, Ended, Alarms.ResolvedAll;
    BatchTellsOther(course.desks, q, accepted, course.now, e);
  }

  /**
   * The events of every cycle about a probe: it reports a lost, a first and a regained connection and a
   * reached target exactly when the reading of this cycle shows it.
   */
  lemma ProbesAreTold(a: Desk, refused: bool, valid: bool, q: seq<Queued>, accepted: seq<bool>, course: Course, b: Desk,
                      k: nat)
    requires Happened(a, refused, valid, q, accepted, course, b) && k < |course.desks[|q|].probes|
    requires forall i, j :: 0 <= i < j < |course.desks[|q|].probes| ==>
               course.desks[|q|].probes[i].config.id != course.desks[|q|].probes[j].config.id
    ensures var (p, now) := (course.desks[|q|].probes[k], course.now);
            var (id, read, warm) := (Some(p.config.id), p.enabled && p.sampled, p.temperature.Some?);
            (Event(ProbeDisconnected, now, id, None, None) in b.events
             <==> read && !warm && (!p.initialized || p.connected))
            && (Event(ProbeConnected, now, id, None, None) in b.events <==> read && warm && !p.initialized)
            && (Event(ProbeReconnected, now, id, None, None) in b.events
                <==> read && warm && p.initialized && !p.connected)
            && (Event(ProbeTargetReached, now, id, None, None) in b.events
                <==> read && IsRunning(course.desks[|q|].session) && p.alarmEnabled && !p.targetAlarmEmitted
                     && warm && p.target.Some? && p.temperature.value >= p.target.value)
  {
    hide ProbeEvents, TimerEvents, Opening, ProbesServed, TimerTaken, Ruled, Effect;
    var p, now := course.desks[|q|].probes[k], course.now;
    var running := IsRunning(course.desks[|q|].session);
    forall kind | kind in {ProbeDisconnected, ProbeConnected, ProbeReconnected, ProbeTargetReached}
      ensures Told(kind, now, p.config.id) in b.events <==> Told(kind, now, p.config.id) in ReadingEvents(p, running, now)
    {
      var e := Told(kind, now, p.config.id);
      Sources(a, refused, valid, q, accepted, course, b, e);
      OwnEvents(course.desks[|q|].probes, k, running, now, e);
      TimersNameNobody(course.probed.session, course.planned.session, now, e);
    }
    assert forall kind :: Told(kind, now, p.config.id) == Event(kind, now, Some(p.config.id), None, None);
  }

  lemma TimersNameNobody(a: Option<Session>, b: Option<Session>, now: int, e: Event)
    requires e.probe.Some?
    ensures e !in TimerEvents(a, b, now)
  {
  }

  /** The events of every cycle about the timer: it reports the start and the end that this cycle brought. */
  lemma TimerIsTold(a: Desk, refused: bool, valid: bool, q: seq<Queued>, accepted: seq<bool>, course: Course, b: Desk)
    requires Happened(a, refused, valid, q, accepted, course, b)
    ensures var (s, t) := (course.probed.session, course.planned.session);
            (Event(TimerStarted, course.now, None, None, None) in b.events
             <==> s.Some? && t.Some? && !s.value.timer.started && t.value.timer.started)
            && (Event(TimerDone, course.now, None, None, None) in b.events
                <==> s.Some? && t.Some? && !s.value.timer.completed && t.value.timer.completed)
  {
    hide ProbeEvents, Opening, ProbesServed, TimerTaken, Ruled, Effect;
    var d := course.desks[|q|];
    forall e: Event | e == Notice(TimerStarted, course.now) || e == Notice(TimerDone, course.now)
      ensures e in b.events <==> e in TimerEvents(course.probed.session, course.planned.session, course.now)
    {
      Sources(a, refused, valid, q, accepted, course, b, e);
      NotNamed(d.probes, IsRunning(d.session), course.now, e);
    }
  }
}
