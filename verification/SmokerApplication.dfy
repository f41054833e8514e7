/** The control application: commands, session, faults, alarms, timer, controller lifecycle and heater. */
module SmokerApplication {
  import opened Bytes
  import opened Domain
  import opened ControlCore
  import opened CommandQueue
  import opened ControlTrace
  import opened CommandEffects
  import Alarms = ControlAlarms

  datatype Verdict = Verdict(id: u32, accepted: bool)

  // ---------------------------------------------------------------- verdicts

  function Answers(ids: seq<u32>, accepted: bool): (vs: seq<Verdict>)
    ensures |vs| == |ids| && forall k :: 0 <= k < |ids| ==> vs[k] == Verdict(ids[k], accepted)
  {
    seq(|ids|, k requires 0 <= k < |ids| => Verdict(ids[k], accepted))
  }

  /** All ids of one queue entry share its verdict; id zero asks for none. */
  function EntryVerdicts(e: Queued, accepted: bool): seq<Verdict> {
    (if e.correlationId == 0 then [] else [Verdict(e.correlationId, accepted)]) + Answers(e.coalesced, accepted)
  }

  function VerdictsFor(q: seq<Queued>, accepted: seq<bool>): seq<Verdict>
    requires |q| == |accepted|
  {
    if q == [] then [] else VerdictsFor(q[..|q| - 1], accepted[..|q| - 1]) + EntryVerdicts(q[|q| - 1], accepted[|q| - 1])
  }

  function VerdictIds(vs: seq<Verdict>): multiset<u32> {
    if vs == [] then multiset{} else VerdictIds(vs[..|vs| - 1]) + multiset{vs[|vs| - 1].id}
  }

  /** Every submitted id was answered, waits in the queue, or was displaced from a full Stop entry. */
  predicate Balanced(issued: multiset<u32>, verdicts: seq<Verdict>, q: seq<Queued>, displaced: multiset<u32>) {
    issued == VerdictIds(verdicts) + PendingIds(q) + displaced
  }

  lemma VerdictIdsLast(vs: seq<Verdict>, v: Verdict)
    ensures VerdictIds(vs + [v]) == VerdictIds(vs) + multiset{v.id}
  {
    assert (vs + [v])[..|vs|] == vs;
  }

  lemma {:induction false} VerdictIdsConcat(a: seq<Verdict>, b: seq<Verdict>)
    ensures VerdictIds(a + b) == VerdictIds(a) + VerdictIds(b)
  {
    hide VerdictIds;
    if b == [] {
      assert a + b == a;
      NoVerdictIds();
    } else {
      var front, last := b[..|b| - 1], b[|b| - 1];
      VerdictIdsConcat(a, front);
      VerdictIdsLast(front, last);
      VerdictIdsLast(a + front, last);
      assert b == front + [last] && a + b == (a + front) + [last];
    }
  }

  lemma NoVerdictIds()
    ensures VerdictIds([]) == multiset{}
  {
  }

  lemma {:induction false} AnswerIds(ids: seq<u32>, accepted: bool)
    ensures VerdictIds(Answers(ids, accepted)) == multiset(ids)
  {
    if ids != [] {
      var n := |ids| - 1;
      AnswerIds(ids[..n], accepted);
      assert Answers(ids, accepted)[..n] == Answers(ids[..n], accepted);
      assert ids == ids[..n] + [ids[n]];
    }
  }

  lemma EntryIds(e: Queued, accepted: bool)
    ensures VerdictIds(EntryVerdicts(e, accepted)) == IdsOf(e)
  {
    var head := if e.correlationId == 0 then [] else [Verdict(e.correlationId, accepted)];
    VerdictIdsConcat(head, Answers(e.coalesced, accepted));
    AnswerIds(e.coalesced, accepted);
    assert VerdictIds(head) == One(e.correlationId) by {
      assert head != [] ==> head[..0] == [];
    }
  }

  lemma BalancedAfterEntry(issued: multiset<u32>, verdicts: seq<Verdict>, q: seq<Queued>, displaced: multiset<u32>,
                           accepted: bool)
    requires |q| > 0 && Balanced(issued, verdicts, q, displaced)
    ensures Balanced(issued, verdicts + EntryVerdicts(q[0], accepted), q[1..], displaced)
  {
    VerdictIdsConcat(verdicts, EntryVerdicts(q[0], accepted));
    EntryIds(q[0], accepted);
    PendingFront(q);
  }

  /** A command refused at submission has its verdict at once. */
  function Refusal(outcome: Outcome, id: u32): seq<Verdict> {
    if outcome.Refused? && id != 0 then [Verdict(id, false)] else []
  }

  lemma BalancedAfterSubmit(issued: multiset<u32>, verdicts: seq<Verdict>, q: seq<Queued>, displaced: multiset<u32>,
                            c: Command, id: u32)
    requires WellFormed(q) && Balanced(issued, verdicts, q, displaced)
    ensures Balanced(issued + One(id), verdicts + Refusal(OutcomeOf(q, c), id), AfterSubmit(q, c, id),
                     displaced + Displaced(q, c, id))
  {
    hide PendingIds, Displaced, AfterSubmit, OutcomeOf, One;
    SubmitConserves(q, c, id);
    var more := Refusal(OutcomeOf(q, c), id);
    VerdictIdsConcat(verdicts, more);
    var refused := if OutcomeOf(q, c).Refused? then One(id) else multiset{};
    OneVerdict(id, false);
    Accounts(VerdictIds(verdicts), PendingIds(q), displaced, One(id), PendingIds(AfterSubmit(q, c, id)),
             Displaced(q, c, id), refused);
  }

  lemma OneVerdict(id: u32, accepted: bool)
    ensures VerdictIds(if id == 0 then [] else [Verdict(id, accepted)]) == One(id)
    ensures VerdictIds([]) == multiset{} && One(0) == multiset{}
  {
    var v := [Verdict(id, accepted)];
    assert v[..0] == [];
  }

  lemma Accounts(v: multiset<u32>, p: multiset<u32>, d: multiset<u32>, id: multiset<u32>, after: multiset<u32>,
                 out: multiset<u32>, refused: multiset<u32>)
    requires p + id == after + out + refused
    ensures (v + p + d) + id == (v + refused) + after + (d + out)
  {
    forall x: u32
      ensures ((v + p + d) + id)[x] == ((v + refused) + after + (d + out))[x]
    {
      assert (p + id)[x] == (after + out + refused)[x];
    }
  }

  lemma NewestStep(vs: seq<Verdict>, v: Verdict)
    ensures Newest(vs + [v])
         == (if |Newest(vs)| == RESULT_CAPACITY then Newest(vs)[1..] else Newest(vs)) + [v]
  {
  }

  lemma NothingIssued()
    ensures Balanced(multiset{}, [], [], multiset{})
  {
  }

  lemma Booted(ok: bool, scene: Scene)
    ensures var t := [] + [Write(OFF, scene)] + [Reset(ok)];
            Lawful(t) && HealthAfter(t) == (if ok then ControlTrace.Sound else Broken(false, false))
            && Unreset(t) == {} && Writes(t) == [OFF] && HealthOf(None, !ok, ok) == HealthAfter(t)
    ensures Newest<Verdict>([]) == []
  {
    Extend([], Write(OFF, scene));
    Extend([] + [Write(OFF, scene)], Reset(ok));
  }

  // ---------------------------------------------------------------- what the application keeps

  predicate DistinctIds(configs: seq<ProbeConfig>) {
    forall j, k :: 0 <= j < k < |configs| ==> configs[j].id != configs[k].id
  }

  function Defaults(c: ProbeConfig): ProbeRuntime {
    ProbeRuntime(c, c.target, c.enabled, c.alarmEnabled, None, false, false, false, false, false)
  }

  /** A session in a state the rules allow. */
  predicate SessionSound(session: Option<Session>, maximum: real) {
    session.Some? ==>
      var s := session.value;
      s.status != Idle
      && (s.status == Running <==> s.stoppedAt == None)
      && (s.status == Running <==> s.stopReason == NoReason)
      && (s.target.Some? ==> s.target.value <= maximum)
      && match s.recipe.timer
         case None => s.timer == FRESH_TIMER
         case Some(t) => TimerSound(t, s.timer)
  }

  /** A session whose timer ends it does not outlive that timer. */
  predicate Prompt(session: Option<Session>) {
    IsRunning(session) && session.value.recipe.timer.Some? && session.value.recipe.timer.value.stopsSession ==>
      !session.value.timer.completed
  }

  /** A fault or a firmware update excludes a running session; unresolved alarms need one. */
  predicate Rules(session: Option<Session>, maximum: real, excluded: bool, alarms: seq<ControlAlarm>, ids: set<byte>) {
    SessionSound(session, maximum)
    && (excluded ==> !IsRunning(session))
    && Alarms.Sound(alarms, ids)
    && (!IsRunning(session) ==> Alarms.AllResolved(alarms))
  }

  predicate ProbesMatch(configs: seq<ProbeConfig>, probes: seq<ProbeRuntime>, readings: seq<Reading>) {
    |probes| == |configs| == |readings|
    && forall k :: 0 <= k < |configs| ==> probes[k].config == configs[k] && readings[k].id == configs[k].id
  }

  /** The controller's health as the application's flags tell it. */
  function HealthOf(fault: Option<ActiveFault>, pending: bool, resolved: bool): Health {
    if fault.Some? && fault.value.code == ControlLoopFailure then Broken(true, resolved)
    else if pending then Broken(false, resolved)
    else ControlTrace.Sound
  }

  lemma SettledRules(session: Option<Session>, maximum: real, excluded: bool, alarms: seq<ControlAlarm>, ids: set<byte>)
    requires Rules(session, maximum, true, alarms, ids)
    ensures Rules(Settled(session), maximum, excluded, alarms, ids)
  {
  }

  lemma StartedRules(id: u32, recipe: Recipe, now: int, maximum: real, session: Option<Session>,
                     before: seq<ControlAlarm>, after: seq<ControlAlarm>, ids: set<byte>)
    requires RecipeValid(recipe, maximum, ids) && Rules(session, maximum, false, before, ids)
    requires Alarms.ResolvedAll(before, after)
    ensures Rules(Some(Session(id, Running, recipe, now, None, recipe.chamberTarget, FRESH_TIMER, NoReason)),
                  maximum, false, after, ids)
  {
    hide Alarms.Sound;
    Alarms.ResolvedAllFacts(before, after, ids);
  }

  lemma IdleRules(maximum: real, ids: set<byte>)
    ensures Rules(None, maximum, false, [], ids)
  {
  }

  class SmokerApplication {
    const maximum: real
    const configs: seq<ProbeConfig>
    const configurationValid: bool
    const queue: CommandRing
    var session: Option<Session>
    var chamber: Option<real>
    var heaterDemand: Percent
    var activeFault: Option<ActiveFault>
    var probes: seq<ProbeRuntime>
    var readings: seq<Reading>
    var alarms: seq<ControlAlarm>
    var pendingEvents: seq<Event>
    var commandResults: seq<Verdict>
    var nextAlarmId: u32
    var firmwareUpdateActive: bool
    var controllerActive: bool
    var controllerFaultResolved: bool
    var controllerFailurePending: bool
    var sessionElapsed: int
    var overflowCount: nat
    var reportedOverflowCount: nat
    var rejected: bool
    /** All calls so far, the number of accepted Starts, all verdicts, and the ids ever submitted and displaced. */
    ghost var trace: seq<Call>
    ghost var runs: nat
    ghost var verdicts: seq<Verdict>
    ghost var issued: multiset<u32>
    ghost var displaced: multiset<u32>

    // -------------------------------------------------------------- invariants

    ghost predicate StateSound()
      reads this`session, this`activeFault, this`firmwareUpdateActive, this`alarms, this`probes, this`readings
    {
      Rules(session, maximum, activeFault.Some? || firmwareUpdateActive, alarms, ProbeIds(configs))
      && ProbesMatch(configs, probes, readings)
      && configurationValid == (configs != [] && DistinctIds(configs))
    }

    /** Calls so far are lawful, and the flags say what the calls imply. */
    ghost predicate TraceSound()
      reads this`trace, this`activeFault, this`controllerFailurePending, this`controllerFaultResolved,
            this`controllerActive, this`runs
    {
      Lawful(trace)
      && HealthAfter(trace) == HealthOf(activeFault, controllerFailurePending, controllerFaultResolved)
      && (activeFault.Some? && activeFault.value.code == ControlLoopFailure ==>
            !controllerFailurePending && !controllerActive)
      && Unreset(trace) <= if controllerActive then {runs} else {}
    }

    ghost predicate QueueSound()
      reads this`commandResults, this`verdicts, this`issued, this`displaced, queue, queue.slots
    {
      queue.Valid() && WellFormed(queue.Contents())
      && commandResults == Newest(verdicts)
      && Balanced(issued, verdicts, queue.Contents(), displaced)
    }

    ghost predicate Valid()
      reads this, queue, queue.slots
    {
      StateSound() && TraceSound() && QueueSound() && (controllerActive ==> ControllerIsEligible()) && Prompt(session)
    }

    predicate ControllerIsEligible()
      reads this`session, this`activeFault, this`firmwareUpdateActive, this`controllerFailurePending, this`chamber
    {
      configurationValid && activeFault == None && !controllerFailurePending && !firmwareUpdateActive
      && IsRunning(session) && chamber.Some? && session.value.target.Some?
    }

    function CurrentFault(): Option<FaultCode>
      reads this`activeFault
    {
      if activeFault.Some? then Some(activeFault.value.code) else None
    }

    function CurrentSessionStatus(): SessionStatus
      reads this`session, this`activeFault
    {
      if activeFault.Some? then Fault else if session.Some? then session.value.status else Idle
    }

    function CurrentScene(): Scene
      reads this`session, this`activeFault, this`firmwareUpdateActive, this`chamber
    {
      Scene(configurationValid, activeFault, firmwareUpdateActive, IsRunning(session), chamber, maximum,
            if session.Some? then session.value.target else None)
    }

    // -------------------------------------------------------------- ports

    method RequestController(t: real, target: real) returns (answer: Option<Percent>)
      modifies this`trace
      ensures trace == old(trace) + [Request(runs, t, target, answer)]
    {
      answer := *;
      trace := trace + [Request(runs, t, target, answer)];
    }

    method ResetController() returns (ok: bool)
      modifies this`trace
      ensures trace == old(trace) + [Reset(ok)]
    {
      ok := *;
      trace := trace + [Reset(ok)];
    }

    method WriteHeater(demand: Percent)
      modifies this`trace
      ensures trace == old(trace) + [Write(demand, CurrentScene())]
    {
      trace := trace + [Write(demand, CurrentScene())];
    }

    method Emit(kind: EventKind, now: int, probe: Option<byte>, alarm: Option<u32>, fault: Option<FaultCode>)
      modifies this`pendingEvents
      ensures pendingEvents == old(pendingEvents) + [Event(kind, now, probe, alarm, fault)]
    {
      pendingEvents := pendingEvents + [Event(kind, now, probe, alarm, fault)];
    }

    method RejectCommand(now: int)
      modifies this`pendingEvents, this`rejected
      ensures rejected && pendingEvents == old(pendingEvents) + [Event(CommandRejected, now, None, None, None)]
    {
      rejected := true;
      Emit(CommandRejected, now, None, None, None);
    }

    constructor (limit: real, configuration: seq<ProbeConfig>)
      ensures Valid() && fresh(queue) && fresh(queue.slots)
      ensures maximum == limit && configs == configuration && session == None && activeFault == None
      ensures queue.Contents() == [] && verdicts == [] && Writes(trace) == [OFF] && !firmwareUpdateActive
    {
      hide Lawful, HealthAfter, Unreset, Writes, Offer, Sight, DistinctIds, ProbeIds, VerdictIds, PendingIds,
           CommandRing.Valid, CommandRing.Contents, Balanced, Rules, TraceSound, StateSound, QueueSound, Newest;
      maximum, configs := limit, configuration;
      configurationValid := configuration != [] && DistinctIds(configuration);
      queue := new CommandRing();
      session, chamber, heaterDemand, activeFault := None, None, OFF, None;
      probes := seq(|configuration|, k requires 0 <= k < |configuration| => Defaults(configuration[k]));
      readings := seq(|configuration|, k requires 0 <= k < |configuration| => Reading(configuration[k].id, None));
      alarms, pendingEvents, commandResults, nextAlarmId := [], [], [], 1;
      firmwareUpdateActive, controllerActive, sessionElapsed := false, false, 0;
      overflowCount, reportedOverflowCount, rejected := 0, 0, false;
      trace, runs, verdicts, issued, displaced := [], 0, [], multiset{}, multiset{};
      new;
      BootHardware();
      IdleSound();
      EmptySound();
    }

    lemma IdleSound()
      requires session == None && activeFault == None && !firmwareUpdateActive && alarms == []
      requires ProbesMatch(configs, probes, readings)
      requires configurationValid == (configs != [] && DistinctIds(configs))
      ensures StateSound()
    {
      hide Rules, ProbesMatch, DistinctIds, ProbeIds;
      IdleRules(maximum, ProbeIds(configs));
    }

    lemma EmptySound()
      requires queue.Valid() && queue.Contents() == [] && commandResults == verdicts == []
      requires issued == displaced == multiset{}
      ensures QueueSound()
    {
      hide Balanced, CommandRing.Valid, CommandRing.Contents;
      NothingIssued();
    }

    /** The first calls of an application's life: the heater off, and the controller reset. */
    method BootHardware()
      requires trace == [] && activeFault == None && !controllerActive
      modifies this`trace, this`controllerFaultResolved, this`controllerFailurePending
      ensures TraceSound() && Writes(trace) == [OFF]
    {
      hide Lawful, HealthAfter, Unreset, Writes, Offer, Sight;
      WriteHeater(OFF);
      controllerFaultResolved := ResetController();
      controllerFailurePending := !controllerFaultResolved;
      Booted(controllerFaultResolved, trace[0].scene);
    }

    // -------------------------------------------------------------- commands in

    method RecordCommandResult(id: u32, accepted: bool)
      requires commandResults == Newest(verdicts)
      modifies this`commandResults, this`verdicts
      ensures commandResults == Newest(verdicts)
      ensures verdicts == old(verdicts) + if id == 0 then [] else [Verdict(id, accepted)]
    {
      if id == 0 { return; }
      NewestStep(verdicts, Verdict(id, accepted));
      verdicts := verdicts + [Verdict(id, accepted)];
      if |commandResults| == RESULT_CAPACITY {
        commandResults := commandResults[1..] + [Verdict(id, accepted)];
        return;
      }
      commandResults := commandResults + [Verdict(id, accepted)];
    }

    method Submit(c: Command, id: u32) returns (admitted: bool)
      requires Valid()
      modifies this`overflowCount, this`commandResults, this`verdicts, this`issued, this`displaced, queue, queue.slots
      ensures Valid() && queue.Contents() == AfterSubmit(old(queue.Contents()), c, id)
      ensures admitted <==> !OutcomeOf(old(queue.Contents()), c).Refused?
      ensures verdicts == old(verdicts) + Refusal(OutcomeOf(old(queue.Contents()), c), id)
      ensures issued == old(issued) + One(id)
      ensures displaced == old(displaced) + Displaced(old(queue.Contents()), c, id)
    {
      hide Balanced, AfterSubmit, OutcomeOf, WellFormed, Displaced, One, Newest, CommandRing.Valid, CommandRing.Contents,
           StateSound, TraceSound, ControllerIsEligible;
      ghost var q := queue.Contents();
      SubmitWellFormed(q, c, id);
      BalancedAfterSubmit(issued, verdicts, q, displaced, c, id);
      var outcome := queue.Submit(c, id);
      issued, displaced := issued + One(id), displaced + Displaced(q, c, id);
      admitted := !outcome.Refused?;
      if outcome.Refused? {
        overflowCount := overflowCount + 1;
        RecordCommandResult(id, false);
      } else {
        assert verdicts + [] == verdicts;
      }
    }

    // -------------------------------------------------------------- commands, one by one

    /** What a command sees now. */
    ghost function View(): Desk
      reads this`session, this`activeFault, this`firmwareUpdateActive, this`alarms, this`chamber,
            this`controllerFaultResolved, this`probes, this`readings, this`runs, this`pendingEvents
    {
      Desk(maximum, ProbeIds(configs), chamber, controllerFaultResolved, session, activeFault, firmwareUpdateActive,
           alarms, probes, readings, runs, pendingEvents)
    }

    predicate FaultConditionIsResolved(code: FaultCode)
      reads this`chamber, this`controllerFaultResolved
    {
      match code
      case ChamberSensorInvalid => chamber.Some?
      case ChamberOverTemperature => chamber.Some? && chamber.value <= maximum
      case ControlLoopFailure => controllerFaultResolved
      case ConfigurationInvalid => false
    }

    method FindProbe(id: byte) returns (found: Option<nat>)
      requires ProbesMatch(configs, probes, readings)
      ensures found.Some? <==> id in ProbeIds(configs)
      ensures found.Some? ==> FirstProbe(probes, id, found.value)
    {
      for k := 0 to |probes|
        invariant forall j :: 0 <= j < k ==> configs[j].id != id
      {
        if probes[k].config.id == id { return Some(k); }
      }
      found := None;
    }

    method ResetProbeSessionConfiguration()
      requires ProbesMatch(configs, probes, readings)
      modifies this`probes, this`readings
      ensures ProbesMatch(configs, probes, readings)
      ensures forall k :: 0 <= k < |probes| ==> Rearmed(old(probes)[k], probes[k])
      ensures forall k :: 0 <= k < |probes| ==>
                readings[k] == if probes[k].enabled then old(readings)[k] else old(readings)[k].(temperature := None)
    {
      for k := 0 to |probes|
        invariant ProbesMatch(configs, probes, readings)
        invariant forall j :: k <= j < |probes| ==> probes[j] == old(probes)[j] && readings[j] == old(readings)[j]
        invariant forall j :: 0 <= j < k ==> Rearmed(old(probes)[j], probes[j])
        invariant forall j :: 0 <= j < k ==>
                    readings[j] == if probes[j].enabled then old(readings)[j] else old(readings)[j].(temperature := None)
      {
        var p := probes[k];
        p := p.(target := p.config.target, enabled := p.config.enabled, alarmEnabled := p.config.alarmEnabled,
                targetAlarmEmitted := false, disconnectedAlarmEmitted := false);
        if !p.enabled {
          p := p.(temperature := None, sampled := false);
          readings := readings[k := readings[k].(temperature := None)];
        }
        probes := probes[k := p];
      }
    }

    method ProcessStart(id: u32, recipe: Recipe, now: int)
      requires StateSound() && !rejected
      modifies this`session, this`alarms, this`probes, this`readings, this`pendingEvents, this`rejected, this`runs
      ensures StateSound() && Effect(old(View()), StartSession(id, recipe), now, !rejected, View())
    {
      hide Rules, ProbeIds, DistinctIds, RecipeValid, Rearmed;
      if activeFault.Some? || firmwareUpdateActive || IsRunning(session) || !RecipeIsValid(recipe) {
        RejectCommand(now);
        return;
      }
      session := Some(Session(id, Running, recipe, now, None, recipe.chamberTarget, FRESH_TIMER, NoReason));
      var resolved := Alarms.ResolveAllAlarms(alarms);
      StartedRules(id, recipe, now, maximum, old(session), alarms, resolved, ProbeIds(configs));
      alarms := resolved;
      ResetProbeSessionConfiguration();
      runs := runs + 1;
      Emit(SessionStarted, now, None, None, None);
    }

    predicate RecipeIsValid(recipe: Recipe)
    {
      RecipeValid(recipe, maximum, ProbeIds(configs))
    }

    method StopRunningSession(reason: StopReason, now: int)
      requires StateSound() && IsRunning(session) && reason != NoReason
      modifies this`session, this`alarms, this`pendingEvents
      ensures StateSound() && pendingEvents == old(pendingEvents) + [Notice(SessionStopped, now)]
      ensures session.Some? && Ended(old(session).value, session.value, Stopped, reason, now)
      ensures Alarms.ResolvedAll(old(alarms), alarms)
    {
      hide Alarms.Sound, ProbeIds, DistinctIds, ProbesMatch;
      var s := session.value;
      var timer := Frozen(s.timer, now);
      if s.recipe.timer.Some? && timer.elapsed > s.recipe.timer.value.duration {
        timer := timer.(elapsed := s.recipe.timer.value.duration);
      }
      session := Some(s.(timer := timer, status := Stopped, stoppedAt := Some(now), stopReason := reason));
      var resolved := Alarms.ResolveAllAlarms(alarms);
      Alarms.ResolvedAllFacts(alarms, resolved, ProbeIds(configs));
      alarms := resolved;
      Emit(SessionStopped, now, None, None, None);
    }

    method ProcessStop(now: int)
      requires StateSound() && !rejected
      modifies this`session, this`alarms, this`pendingEvents, this`rejected
      ensures StateSound() && Effect(old(View()), StopSession, now, !rejected, View())
    {
      if !IsRunning(session) {
        RejectCommand(now);
        return;
      }
      StopRunningSession(User, now);
    }

    method ProcessSetChamberTarget(target: Option<real>, now: int)
      requires StateSound() && !rejected
      modifies this`session, this`pendingEvents, this`rejected
      ensures StateSound() && Effect(old(View()), SetChamberTarget(target), now, !rejected, View())
    {
      hide Alarms.Sound, ProbeIds, DistinctIds, ProbesMatch;
      if !IsRunning(session) || (target.Some? && target.value > maximum) {
        RejectCommand(now);
        return;
      }
      session := Some(session.value.(target := target));
      Emit(ChamberTargetChanged, now, None, None, None);
    }

    method ProcessSetProbeTarget(id: byte, target: Option<real>, now: int)
      requires StateSound() && !rejected
      modifies this`probes, this`alarms, this`pendingEvents, this`rejected
      ensures StateSound() && Effect(old(View()), SetProbeTarget(id, target), now, !rejected, View())
    {
      hide Alarms.Sound, DistinctIds, ProbeIds;
      var found := FindProbe(id);
      if !IsRunning(session) || found == None {
        RejectCommand(now);
        return;
      }
      var k := found.value;
      probes := probes[k := probes[k].(target := target, targetAlarmEmitted := false)];
      var resolved := Alarms.ResolveProbeAlarms(alarms, ProbeTargetAlarm, id);
      Alarms.ResolvedOnlyFacts(alarms, resolved, ProbeTargetAlarm, Some(id), ProbeIds(configs));
      alarms := resolved;
      Emit(ProbeTargetChanged, now, Some(id), None, None);
    }

    method ProcessSetProbeEnabled(id: byte, enabled: bool, now: int)
      requires StateSound() && !rejected
      modifies this`probes, this`readings, this`alarms, this`pendingEvents, this`rejected
      ensures StateSound() && Effect(old(View()), SetProbeEnabled(id, enabled), now, !rejected, View())
    {
      hide Alarms.Sound, Rules, DistinctIds, ProbeIds, Alarms.Unresolved, Alarms.ResolvedProbe;
      var found := FindProbe(id);
      if !IsRunning(session) || found == None {
        RejectCommand(now);
        return;
      }
      var k := found.value;
      probes := probes[k := probes[k].(enabled := enabled, sampled := false, initialized := false,
                                       connected := false, targetAlarmEmitted := false,
                                       disconnectedAlarmEmitted := false)];
      if !enabled {
        probes := probes[k := probes[k].(temperature := None)];
        ResolveBoth(id);
        readings := readings[k := readings[k].(temperature := None)];
      }
    }

    /** Resolves both alarms a probe can have. */
    method ResolveBoth(id: byte)
      requires StateSound()
      modifies this`alarms
      ensures StateSound() && Alarms.ResolvedProbe(old(alarms), alarms, id)
    {
      hide Alarms.Sound, DistinctIds, ProbeIds, Alarms.Unresolved, ProbesMatch;
      var first := Alarms.ResolveProbeAlarms(alarms, ProbeTargetAlarm, id);
      Alarms.ResolvedOnlyFacts(alarms, first, ProbeTargetAlarm, Some(id), ProbeIds(configs));
      var second := Alarms.ResolveProbeAlarms(first, ProbeDisconnectedAlarm, id);
      Alarms.ResolvedOnlyFacts(first, second, ProbeDisconnectedAlarm, Some(id), ProbeIds(configs));
      Alarms.ResolvedBoth(alarms, first, second, id);
      alarms := second;
    }

    method ProcessSetProbeAlarmEnabled(id: byte, enabled: bool, now: int)
      requires StateSound() && !rejected
      modifies this`probes, this`alarms, this`pendingEvents, this`rejected
      ensures StateSound() && Effect(old(View()), SetProbeAlarmEnabled(id, enabled), now, !rejected, View())
    {
      hide Alarms.Sound, Rules, DistinctIds, ProbeIds, Alarms.Unresolved, Alarms.ResolvedProbe;
      var found := FindProbe(id);
      if !IsRunning(session) || found == None {
        RejectCommand(now);
        return;
      }
      var k := found.value;
      probes := probes[k := probes[k].(alarmEnabled := enabled, targetAlarmEmitted := false,
                                       disconnectedAlarmEmitted := false)];
      if !enabled {
        ResolveBoth(id);
      }
    }

    method ProcessAcknowledgeAlarm(id: u32, now: int)
      requires StateSound() && !rejected
      modifies this`alarms, this`pendingEvents, this`rejected
      ensures StateSound() && Effect(old(View()), AcknowledgeAlarm(id), now, !rejected, View())
    {
      for k := 0 to |alarms|
        invariant alarms == old(alarms) && pendingEvents == old(pendingEvents) && !rejected
        invariant forall j :: 0 <= j < k ==> alarms[j].id != id || alarms[j].resolved
      {
        if alarms[k].id == id && !alarms[k].resolved {
          FirstMatch(alarms, id, k);
          if alarms[k].acknowledged {
            RejectCommand(now);
            return;
          }
          Emit(AlarmAcknowledged, now, alarms[k].probe, Some(alarms[k].id), None);
          alarms := alarms[k := alarms[k].(acknowledged := true)];
          return;
        }
      }
      RejectCommand(now);
    }

    method ProcessClearResolvedFault(now: int)
      requires StateSound() && TraceSound() && !rejected
      modifies this`activeFault, this`session, this`pendingEvents, this`rejected, this`trace
      ensures StateSound() && TraceSound() && Effect(old(View()), ClearResolvedFault, now, !rejected, View())
      ensures Quiet(old(trace), trace)
      ensures trace == old(trace) + if !rejected && old(activeFault).value.code == ControlLoopFailure then [Clear] else []
    {
      hide Rules, DistinctIds, ProbeIds, ProbesMatch, Lawful, HealthAfter, Unreset, Writes, Offer, Sight;
      if activeFault == None || !FaultConditionIsResolved(activeFault.value.code) {
        RejectCommand(now);
        return;
      }
      var code := activeFault.value.code;
      SettledRules(session, maximum, firmwareUpdateActive, alarms, ProbeIds(configs));
      AcknowledgeFault(code);
      if session.Some? && session.value.status == Fault {
        session := Some(session.value.(status := Stopped, stopReason := FaultStop));
      }
      Emit(FaultAcknowledged, now, None, None, Some(code));
    }

    /** The fault is gone; a controller failure is cleared with it. */
    method AcknowledgeFault(code: FaultCode)
      requires TraceSound() && CurrentFault() == Some(code) && FaultConditionIsResolved(code)
      modifies this`activeFault, this`trace
      ensures TraceSound() && activeFault == None && Quiet(old(trace), trace)
      ensures trace == old(trace) + if code == ControlLoopFailure then [Clear] else []
    {
      hide Lawful, HealthAfter, Unreset, Writes, Offer, Sight;
      activeFault := None;
      if code == ControlLoopFailure {
        Extend(trace, Clear);
        trace := trace + [Clear];
      } else {
        assert trace + [] == trace;
      }
    }

    method ProcessPrepareFirmwareUpdate(now: int)
      requires StateSound() && !rejected
      modifies this`firmwareUpdateActive, this`pendingEvents, this`rejected
      ensures StateSound() && Effect(old(View()), PrepareFirmwareUpdate, now, !rejected, View())
    {
      hide Alarms.Sound, DistinctIds, ProbeIds, ProbesMatch;
      if firmwareUpdateActive || CurrentSessionStatus() == Running {
        RejectCommand(now);
        return;
      }
      firmwareUpdateActive := true;
    }

    method ProcessFinishFirmwareUpdate(now: int)
      requires StateSound() && !rejected
      modifies this`firmwareUpdateActive, this`pendingEvents, this`rejected
      ensures StateSound() && Effect(old(View()), FinishFirmwareUpdate, now, !rejected, View())
    {
      hide Alarms.Sound, DistinctIds, ProbeIds, ProbesMatch;
      if !firmwareUpdateActive {
        RejectCommand(now);
        return;
      }
      firmwareUpdateActive := false;
    }

    // -------------------------------------------------------------- the command batch

    /** One command, with all that it may change. */
    method Process(c: Command, now: int)
      requires StateSound() && TraceSound() && !rejected && (IsRunning(session) || !controllerActive)
      requires Prompt(session)
      modifies this`session, this`activeFault, this`probes, this`readings, this`alarms, this`pendingEvents,
               this`firmwareUpdateActive, this`rejected, this`trace, this`runs
      ensures StateSound() && TraceSound() && Prompt(session) && Quiet(old(trace), trace)
      ensures Effect(old(View()), c, now, !rejected, View())
    {
      hide StateSound, Lawful, HealthAfter, Unreset, Writes, Offer, Sight, Effect, Prompt, IsRunning;
      ghost var before := View();
      match c {
        case StartSession(id, recipe) => ProcessStart(id, recipe, now);
        case StopSession => ProcessStop(now);
        case SetChamberTarget(target) => ProcessSetChamberTarget(target, now);
        case SetProbeTarget(probe, target) => ProcessSetProbeTarget(probe, target, now);
        case SetProbeEnabled(probe, enabled) => ProcessSetProbeEnabled(probe, enabled, now);
        case SetProbeAlarmEnabled(probe, enabled) => ProcessSetProbeAlarmEnabled(probe, enabled, now);
        case AcknowledgeAlarm(alarm) => ProcessAcknowledgeAlarm(alarm, now);
        case ClearResolvedFault => ProcessClearResolvedFault(now);
        case PrepareFirmwareUpdate => ProcessPrepareFirmwareUpdate(now);
        case FinishFirmwareUpdate => ProcessFinishFirmwareUpdate(now);
      }
      EffectFacts(before, c, now, !rejected, View());
      EffectPrompt(before, c, now, !rejected, View());
    }

    /** Processes one command; a Stop that ends a running session is a barrier for the rest of the batch. */
    method Judged(c: Command, now: int) returns (accepted: bool, barrier: bool)
      requires StateSound() && TraceSound() && (controllerActive ==> IsRunning(session)) && Prompt(session)
      modifies this`session, this`activeFault, this`probes, this`readings, this`alarms, this`pendingEvents,
               this`firmwareUpdateActive, this`rejected, this`trace, this`runs
      ensures StateSound() && TraceSound() && Prompt(session) && Quiet(old(trace), trace)
      ensures Effect(old(View()), c, now, accepted, View()) && (barrier <==> c.StopSession? && accepted)
      ensures if barrier then !IsRunning(session) else controllerActive ==> IsRunning(session)
    {
      hide StateSound, TraceSound, Quiet, Effect, FirmwareAfterOne, IsRunning, Prompt;
      ghost var before := View();
      barrier := c.StopSession? && IsRunning(session);
      rejected := false;
      Process(c, now);
      EffectFacts(before, c, now, !rejected, View());
      accepted := !rejected;
    }

    /** All ids of the front entry get its verdict, and it leaves the queue. */
    method AnswerFront(now: int) returns (accepted: bool, barrier: bool)
      requires StateSound() && TraceSound() && QueueSound() && queue.count > 0
      requires (controllerActive ==> IsRunning(session)) && Prompt(session)
      modifies this`session, this`activeFault, this`probes, this`readings, this`alarms, this`pendingEvents,
               this`firmwareUpdateActive, this`rejected, this`trace, this`runs, this`commandResults, this`verdicts,
               queue`head, queue`count
      ensures StateSound() && TraceSound() && QueueSound() && Prompt(session) && Quiet(old(trace), trace)
      ensures old(queue.count) > 0 && queue.Contents() == old(queue.Contents())[1..]
      ensures verdicts == old(verdicts) + EntryVerdicts(old(queue.Contents())[0], accepted)
      ensures Effect(old(View()), old(queue.Contents())[0].command, now, accepted, View())
      ensures barrier <==> old(queue.Contents())[0].command.StopSession? && accepted
      ensures if barrier then !IsRunning(session) else controllerActive ==> IsRunning(session)
    {
      hide StateSound, TraceSound, Quiet, CommandRing.Valid, CommandRing.Contents, Balanced, Newest, Effect,
           WellFormed, EntryVerdicts, IsRunning, Prompt;
      ghost var q, before := queue.Contents(), verdicts;
      var e := queue.Front();
      TailWellFormed(q);
      accepted, barrier := Judged(e.command, now);
      RecordEntry(e, accepted);
      BalancedAfterEntry(issued, before, q, displaced, accepted);
      queue.Pop();
    }

    /** The verdict of one entry goes to its own id and to every id that coalesced into it. */
    method RecordEntry(e: Queued, accepted: bool)
      requires commandResults == Newest(verdicts) && forall k :: 0 <= k < |e.coalesced| ==> e.coalesced[k] != 0
      modifies this`commandResults, this`verdicts
      ensures commandResults == Newest(verdicts) && verdicts == old(verdicts) + EntryVerdicts(e, accepted)
    {
      hide Newest;
      RecordCommandResult(e.correlationId, accepted);
      RecordAll(e.coalesced, accepted);
      assert verdicts == old(verdicts) + EntryVerdicts(e, accepted);
    }

    method RecordAll(ids: seq<u32>, accepted: bool)
      requires commandResults == Newest(verdicts) && forall k :: 0 <= k < |ids| ==> ids[k] != 0
      modifies this`commandResults, this`verdicts
      ensures commandResults == Newest(verdicts) && verdicts == old(verdicts) + Answers(ids, accepted)
    {
      for k := 0 to |ids|
        invariant commandResults == Newest(verdicts)
        invariant verdicts == old(verdicts) + Answers(ids[..k], accepted)
      {
        RecordCommandResult(ids[k], accepted);
        assert Answers(ids[..k + 1], accepted) == Answers(ids[..k], accepted) + [Verdict(ids[k], accepted)];
      }
      assert ids[..|ids|] == ids;
    }

    /** Drains the queue in order, up to and including the first Stop that is accepted. */
    method ProcessPendingCommands(now: int) returns (stopped: bool, ghost accepted: seq<bool>, ghost desks: seq<Desk>)
      requires StateSound() && TraceSound() && QueueSound() && (controllerActive ==> IsRunning(session)) && Prompt(session)
      modifies this`session, this`activeFault, this`probes, this`readings, this`alarms, this`pendingEvents,
               this`firmwareUpdateActive, this`rejected, this`trace, this`runs, this`commandResults, this`verdicts,
               queue`head, queue`count
      ensures StateSound() && TraceSound() && QueueSound() && Prompt(session)
      ensures Drained(old(queue.Contents()), queue.Contents(), accepted, stopped)
      ensures verdicts == old(verdicts) + VerdictsFor(old(queue.Contents())[..|accepted|], accepted)
      ensures Batch(desks, old(queue.Contents())[..|accepted|], accepted, now)
      ensures |desks| == |accepted| + 1 && desks[0] == old(View()) && desks[|accepted|] == View()
      ensures firmwareUpdateActive
           == FirmwareAfter(old(firmwareUpdateActive), old(queue.Contents())[..|accepted|], accepted)
      ensures if stopped then !IsRunning(session) else controllerActive ==> IsRunning(session)
      ensures Quiet(old(trace), trace) && |pendingEvents| <= |old(pendingEvents)| + CAPACITY
    {
      hide StateSound, TraceSound, Balanced, Newest, CommandRing.Valid, CommandRing.Contents, EntryVerdicts, Writes,
           Effect, Batch, VerdictsFor, Drained, Partly, WellFormed, Prompt;
      ghost var q := queue.Contents();
      stopped, accepted, desks := false, [], [View()];
      NothingTaken(q, verdicts, View(), now);
      while queue.count > 0 && !stopped
        invariant StateSound() && TraceSound() && QueueSound() && Prompt(session) && |accepted| <= |q|
        invariant if stopped then Drained(q, queue.Contents(), accepted, true) else Partly(q, queue.Contents(), accepted)
        invariant verdicts == old(verdicts) + VerdictsFor(q[..|accepted|], accepted)
        invariant |desks| == |accepted| + 1 && desks[0] == old(View()) && desks[|accepted|] == View()
        invariant Batch(desks, q[..|accepted|], accepted, now)
        invariant if stopped then !IsRunning(session) else controllerActive ==> IsRunning(session)
        invariant Quiet(old(trace), trace) && |pendingEvents| <= |old(pendingEvents)| + |accepted|
        decreases queue.count
      {
        ghost var n, rest, before := |accepted|, queue.Contents(), View();
        var ok, barrier := AnswerFront(now);
        EffectFacts(before, rest[0].command, now, ok, View());
        TookOne(q, rest, accepted, ok);
        VerdictsStep(q[..n], q[n], accepted, ok);
        BatchStep(desks, q[..n], accepted, now, q[n], ok, View());
        accepted, desks := accepted + [ok], desks + [View()];
        stopped := barrier;
      }
      TookAll(q, queue.Contents(), accepted);
      SizeBound(q);
      BatchFirmware(desks, q[..|accepted|], accepted, now);
    }

    // -------------------------------------------------------------- sensors

    method MeasureChamber() returns (t: Option<real>)
      modifies this`trace
      ensures trace == old(trace) + [Measured(t)]
    {
      t := *;
      trace := trace + [Measured(t)];
    }

    method ReadProbe(id: byte) returns (t: Option<real>)
      modifies this`trace
      ensures trace == old(trace) + [Probed(id, t)]
    {
      t := *;
      trace := trace + [Probed(id, t)];
    }

    /** Asks every sensor once; each reading is what its sensor answered now. */
    method AcquireRawInputs()
      requires StateSound() && TraceSound()
      modifies this`chamber, this`probes, this`readings, this`trace
      ensures StateSound() && TraceSound() && Sampled(old(probes), probes, readings)
      ensures trace == old(trace) + SensorReads(chamber, probes)
      ensures Writes(trace) == Writes(old(trace)) && Sight(trace) == Some(chamber)
    {
      hide Rules, DistinctIds, ProbeIds, Lawful, HealthAfter, Unreset, Writes, Offer, Sight;
      ghost var t := trace;
      chamber := MeasureChamber();
      Extend(t, Measured(chamber));
      assert Writes(t) + [] == Writes(t);
      for k := 0 to |probes|
        invariant StateSound() && TraceSound() && |probes| == |old(probes)|
        invariant trace == t + SensorReads(chamber, probes[..k])
        invariant Writes(trace) == Writes(t) && Sight(trace) == Some(chamber)
        invariant forall j :: k <= j < |probes| ==> probes[j] == old(probes)[j]
        invariant forall j :: 0 <= j < k ==> SampledOne(old(probes)[j], probes[j], readings[j])
      {
        ghost var ps := probes[..k];
        SampleProbe(k);
        assert probes[..k + 1] == ps + [probes[k]];
        MoreReads(chamber, ps, probes[k]);
      }
      assert probes[..|probes|] == probes;
    }

    /** One probe: read when enabled, and without a temperature otherwise. */
    method SampleProbe(k: nat)
      requires StateSound() && TraceSound() && k < |probes|
      modifies this`probes, this`readings, this`trace
      ensures StateSound() && TraceSound() && k < |old(probes)|
      ensures probes == old(probes)[k := probes[k]] && SampledOne(old(probes)[k], probes[k], readings[k])
      ensures readings == old(readings)[k := readings[k]]
      ensures trace == old(trace) + ReadOf(probes[k])
      ensures Writes(trace) == Writes(old(trace)) && Sight(trace) == Sight(old(trace))
    {
      hide Rules, DistinctIds, ProbeIds, Lawful, HealthAfter, Unreset, Writes, Offer, Sight;
      ghost var t := trace;
      var p := probes[k].(sampled := false);
      if p.enabled {
        var temperature := ReadProbe(p.config.id);
        Extend(t, Probed(p.config.id, temperature));
        assert Writes(t) + [] == Writes(t);
        p := p.(temperature := temperature, sampled := true);
      } else {
        p := p.(temperature := None);
        assert t + [] == t;
      }
      probes := probes[k := p];
      readings := readings[k := readings[k].(temperature := p.temperature)];
    }

    // -------------------------------------------------------------- alarms

    function AlarmsNow(): AlarmsAt
      reads this`nextAlarmId, this`alarms
    {
      AlarmsAt(nextAlarmId, alarms)
    }

    method RaiseAlarm(code: AlarmCode, probe: Option<byte>, now: int)
      requires StateSound() && IsRunning(session) && Alarms.Possible(code, probe, ProbeIds(configs))
      modifies this`alarms, this`nextAlarmId
      ensures StateSound() && Alarms.Unresolved(alarms, code, probe)
      ensures Alarms.RaisedOne(old(alarms), alarms, ControlAlarm(old(nextAlarmId), code, probe, now, false, false))
      ensures nextAlarmId == (old(nextAlarmId) + 1) % 0x1_0000_0000
      ensures forall c, p :: (c, p) != (code, probe) ==>
                (Alarms.Unresolved(alarms, c, p) <==> Alarms.Unresolved(old(alarms), c, p))
    {
      hide Alarms.Sound, Alarms.RaisedOne, Alarms.Unresolved, DistinctIds, ProbeIds, ProbesMatch;
      var a := ControlAlarm(nextAlarmId, code, probe, now, false, false);
      nextAlarmId := (nextAlarmId + 1) % 0x1_0000_0000;
      var after := Alarms.PlaceAlarm(alarms, a);
      Alarms.RaisedFacts(alarms, after, a, ProbeIds(configs));
      alarms := after;
    }

    /** Connection events and the two alarms of one probe that was sampled in this tick. */
    method EvaluateProbeState(k: nat, now: int)
      requires StateSound() && k < |probes| && probes[k].enabled && probes[k].sampled
      modifies this`probes, this`alarms, this`nextAlarmId, this`pendingEvents
      ensures StateSound()
      ensures probes == old(probes)[k := Evaluated(old(probes)[k], IsRunning(session))]
      ensures pendingEvents == old(pendingEvents) + ReadingEvents(old(probes)[k], IsRunning(session), now)
      ensures AlarmsOf(old(probes)[k], Some(IsRunning(session)), old(alarms), alarms)
      ensures ReadingAlarms(old(probes)[k], IsRunning(session), now, old(AlarmsNow()), AlarmsNow())
      ensures forall c, p :: p != Some(configs[k].id) ==>
                (Alarms.Unresolved(alarms, c, p) <==> Alarms.Unresolved(old(alarms), c, p))
    {
      hide Alarms.Unresolved, StateSound, AtLeast, ConnectionEvents, Alarms.ResolvedOnly, Alarms.RaisedOne;
      OwnConfig(k);
      ghost var before := probes[k];
      var p := UpdateConnection(probes[k], now);
      ghost var mid := AlarmsNow();
      assert Kept(before, old(alarms), mid.alarms);
      if !IsRunning(session) {
        StoreProbe(k, p);
        NoUnresolved(p.config.id);
        return;
      }
      p := RaiseProbeAlarms(p, now);
      StoreProbe(k, p);
    }

    lemma DistinctProbes()
      requires StateSound() && configurationValid
      ensures forall i, j :: 0 <= i < j < |probes| ==> probes[i].config.id != probes[j].config.id
    {
    }

    lemma OwnConfig(k: nat)
      requires StateSound() && k < |probes|
      ensures |probes| == |configs| && probes[k].config == configs[k] && configs[k].id in ProbeIds(configs)
    {
    }

    method StoreProbe(k: nat, p: ProbeRuntime)
      requires StateSound() && k < |probes| && p.config == probes[k].config
      modifies this`probes
      ensures StateSound() && probes == old(probes)[k := p]
    {
      hide Rules, DistinctIds, ProbeIds;
      probes := probes[k := p];
    }

    /** Reports a change of connection, and ends the disconnection alarm of a connected probe. */
    method UpdateConnection(before: ProbeRuntime, now: int) returns (p: ProbeRuntime)
      requires StateSound()
      modifies this`alarms, this`pendingEvents
      ensures StateSound() && pendingEvents == old(pendingEvents) + ConnectionEvents(before, now)
      ensures p == before.(initialized := true, connected := before.temperature.Some?,
                           disconnectedAlarmEmitted := before.temperature == None && before.disconnectedAlarmEmitted)
      ensures Kept(before, old(alarms), alarms)
      ensures Alarms.Unresolved(alarms, ProbeDisconnectedAlarm, Some(before.config.id)) <==>
                before.temperature == None && Alarms.Unresolved(old(alarms), ProbeDisconnectedAlarm, Some(before.config.id))
      ensures forall c, q :: (c, q) != (ProbeDisconnectedAlarm, Some(before.config.id)) ==>
                (Alarms.Unresolved(alarms, c, q) <==> Alarms.Unresolved(old(alarms), c, q))
    {
      hide Alarms.Sound, Alarms.Unresolved, Alarms.ResolvedOnly, StateSound;
      p := before;
      var isConnected, id := p.temperature.Some?, p.config.id;
      if !p.initialized {
        Emit(if isConnected then ProbeConnected else ProbeDisconnected, now, Some(id), None, None);
        p := p.(initialized := true, connected := isConnected);
      } else if isConnected != p.connected {
        Emit(if isConnected then ProbeReconnected else ProbeDisconnected, now, Some(id), None, None);
        p := p.(connected := isConnected);
      }
      if isConnected {
        p := p.(disconnectedAlarmEmitted := false);
        ResolveDisconnected(id);
      }
    }

    lemma NoUnresolved(id: byte)
      requires StateSound() && !IsRunning(session)
      ensures !Alarms.Unresolved(alarms, ProbeDisconnectedAlarm, Some(id))
      ensures !Alarms.Unresolved(alarms, ProbeTargetAlarm, Some(id))
    {
    }

    /** While a session runs: the disconnection alarm, or the target alarm, once each until rearmed. */
    method RaiseProbeAlarms(before: ProbeRuntime, now: int) returns (p: ProbeRuntime)
      requires StateSound() && IsRunning(session) && before.config.id in ProbeIds(configs)
      modifies this`alarms, this`nextAlarmId, this`pendingEvents
      ensures StateSound() && pendingEvents == old(pendingEvents) + TargetEvents(before, true, now)
      ensures p == before.(disconnectedAlarmEmitted := before.disconnectedAlarmEmitted || Lost(before),
                           targetAlarmEmitted := before.targetAlarmEmitted || TargetReached(before))
      ensures Raised(before, true, now, old(AlarmsNow()), AlarmsNow())
      ensures var id := Some(before.config.id);
              (Alarms.Unresolved(alarms, ProbeDisconnectedAlarm, id) <==>
                 Alarms.Unresolved(old(alarms), ProbeDisconnectedAlarm, id) || Lost(before))
              && (Alarms.Unresolved(alarms, ProbeTargetAlarm, id) <==>
                    Alarms.Unresolved(old(alarms), ProbeTargetAlarm, id) || TargetReached(before))
      ensures forall c, q :: q != Some(before.config.id) ==>
                (Alarms.Unresolved(alarms, c, q) <==> Alarms.Unresolved(old(alarms), c, q))
    {
      hide Alarms.Sound, Alarms.RaisedOne, Alarms.Unresolved, DistinctIds, ProbeIds, Rules, ProbesMatch;
      p := before;
      var id := p.config.id;
      if p.temperature == None && p.alarmEnabled && !p.disconnectedAlarmEmitted {
        RaiseAlarm(ProbeDisconnectedAlarm, Some(id), now);
        p := p.(disconnectedAlarmEmitted := true);
      }
      if p.temperature.Some? && p.alarmEnabled && p.target.Some? && !p.targetAlarmEmitted
         && p.temperature.value >= p.target.value {
        RaiseAlarm(ProbeTargetAlarm, Some(id), now);
        Emit(ProbeTargetReached, now, Some(id), None, None);
        p := p.(targetAlarmEmitted := true);
      }
    }

    method ResolveDisconnected(id: byte)
      requires StateSound()
      modifies this`alarms
      ensures StateSound() && !Alarms.Unresolved(alarms, ProbeDisconnectedAlarm, Some(id))
      ensures Alarms.ResolvedOnly(old(alarms), alarms, ProbeDisconnectedAlarm, Some(id))
      ensures forall c, p :: (c, p) != (ProbeDisconnectedAlarm, Some(id)) ==>
                (Alarms.Unresolved(alarms, c, p) <==> Alarms.Unresolved(old(alarms), c, p))
    {
      hide Alarms.Sound, Alarms.ResolvedOnly, Alarms.Unresolved, DistinctIds, ProbeIds, ProbesMatch;
      var resolved := Alarms.ResolveProbeAlarms(alarms, ProbeDisconnectedAlarm, id);
      Alarms.ResolvedOnlyFacts(alarms, resolved, ProbeDisconnectedAlarm, Some(id), ProbeIds(configs));
      alarms := resolved;
    }

    /** Every probe that was sampled in this tick, one after another; `course` shows the alarms between them. */
    method EvaluateProbeStates(now: int) returns (ghost course: seq<AlarmsAt>)
      requires StateSound()
      modifies this`probes, this`alarms, this`nextAlarmId, this`pendingEvents
      ensures StateSound() && pendingEvents == old(pendingEvents) + ProbeEvents(old(probes), IsRunning(session), now)
      ensures EvaluatedAll(old(probes), IsRunning(session), probes)
      ensures configurationValid ==> AlarmsFollow(old(probes), IsRunning(session), old(alarms), alarms)
      ensures AlarmCourse(old(probes), IsRunning(session), now, course)
      ensures course[0] == old(AlarmsNow()) && course[|old(probes)|] == AlarmsNow()
    {
      hide Rules, DistinctIds, ProbeIds, Alarms.Unresolved, AlarmsOf, ReadingEvents, ProbeEvents,
           ReadingAlarms;
      AlarmsKept(probes, alarms);
      ghost var running := IsRunning(session);
      NoProbeEvents(running, now);
      course := [AlarmsNow()];
      for k := 0 to |probes|
        invariant StateSound() && |probes| == |old(probes)| && running == IsRunning(session)
        invariant pendingEvents == old(pendingEvents) + ProbeEvents(old(probes)[..k], running, now)
        invariant |course| == k + 1 && course[0] == old(AlarmsNow()) && course[k] == AlarmsNow()
        invariant forall j :: 0 <= j < k ==> ReadingAlarms(old(probes)[j], running, now, course[j], course[j + 1])
        invariant forall j :: 0 <= j < |probes| ==> old(probes)[j].config == probes[j].config
        invariant forall j :: k <= j < |probes| ==> probes[j] == old(probes)[j]
        invariant forall j :: 0 <= j < k ==> probes[j] == AfterReading(old(probes)[j], IsRunning(session))
        invariant configurationValid ==>
                    forall j :: 0 <= j < |probes| ==>
                      AlarmsOf(old(probes)[j], if j < k then Some(IsRunning(session)) else None, old(alarms), alarms)
      {
        ghost var before := alarms;
        MoreProbeEvents(old(probes), k, running, now);
        if probes[k].enabled && probes[k].sampled {
          EvaluateProbeState(k, now);
        } else {
          Unread(old(probes)[k], running, now, AlarmsNow());
        }
        course := course + [AlarmsNow()];
        if configurationValid {
          DistinctProbes();
          AlarmsStep(old(probes), k, IsRunning(session), old(alarms), before, alarms);
        }
      }
      assert old(probes)[..|probes|] == old(probes);
    }

    // -------------------------------------------------------------- timer

    method UpdateActiveTimer(now: int)
      requires StateSound() && Prompt(session)
      modifies this`session, this`alarms, this`nextAlarmId, this`pendingEvents
      ensures StateSound() && Prompt(session)
      ensures pendingEvents == old(pendingEvents) + TimerEvents(old(session), session, now)
      ensures OnTime(session, now) && TimerServed(old(session), now, chamber, readings, session)
      ensures TimerAlarm(old(session), session, now, old(nextAlarmId), old(alarms), alarms)
      ensures IsRunning(session) ==>
                forall c, p :: c != TimerCompletedAlarm ==>
                  (Alarms.Unresolved(alarms, c, p) <==> Alarms.Unresolved(old(alarms), c, p))
    {
      hide Alarms.Sound, DistinctIds, ProbeIds, ProbesMatch, Alarms.Unresolved, ThresholdReached, Alarms.RaisedOne,
           Alarms.ResolvedAll;
      if !IsRunning(session) || session.value.recipe.timer == None { return; }
      var t := session.value.recipe.timer.value;
      var timer, startedNow, completedNow := UpdateStageTimer(t, session.value.timer, now, chamber, readings);
      session := Some(session.value.(timer := timer));
      if startedNow {
        Emit(TimerStarted, now, None, None, None);
      }
      if !completedNow { return; }
      Emit(TimerDone, now, None, None, None);
      if t.stopsSession {
        StopRunningSession(StopReason.TimerCompleted, now);
      } else {
        RaiseAlarm(TimerCompletedAlarm, None, now);
      }
    }

    // -------------------------------------------------------------- controller lifecycle

    /** A standing controller failure is resolved by a reset that succeeds. */
    method RetryReset()
      requires TraceSound()
      modifies this`trace, this`controllerFaultResolved
      ensures TraceSound() && Quiet(old(trace), trace)
      ensures var due := (controllerFailurePending || CurrentFault() == Some(ControlLoopFailure))
                         && !old(controllerFaultResolved);
              trace == old(trace) + (if due then [Reset(controllerFaultResolved)] else [])
              && (!due ==> controllerFaultResolved == old(controllerFaultResolved))
    {
      hide Lawful, HealthAfter, Unreset, Writes, Offer, Sight;
      var latched := activeFault.Some? && activeFault.value.code == ControlLoopFailure;
      if (controllerFailurePending || latched) && !controllerFaultResolved {
        ghost var t := trace;
        controllerFaultResolved := ResetController();
        Extend(t, Reset(controllerFaultResolved));
        assert Writes(t) + [] == Writes(t);
      }
    }

    /** Takes an active controller out of use. */
    method ResetAfterUse()
      requires TraceSound() && controllerActive
      modifies this`trace, this`controllerActive, this`controllerFaultResolved, this`controllerFailurePending
      ensures TraceSound() && Quiet(old(trace), trace) && !controllerActive
      ensures Unreset(trace) == {} && trace == old(trace) + [Reset(controllerFaultResolved)]
      ensures controllerFailurePending == (old(controllerFailurePending) || !controllerFaultResolved)
    {
      hide Lawful, HealthAfter, Unreset, Writes, Offer, Sight;
      ghost var t := trace;
      controllerActive := false;
      controllerFaultResolved := ResetController();
      if !controllerFaultResolved {
        controllerFailurePending := true;
      }
      Extend(t, Reset(controllerFaultResolved));
      assert Writes(t) + [] == Writes(t);
    }

    /** One request to an eligible controller, with a reset when it fails; an unused one is reset. */
    method ServeController() returns (requested: Percent)
      requires TraceSound()
      requires Sight(trace) == Some(chamber)
      modifies this`trace, this`controllerActive, this`controllerFaultResolved, this`controllerFailurePending
      ensures TraceSound() && Quiet(old(trace), trace) && (controllerActive ==> ControllerIsEligible())
      ensures old(ControllerIsEligible()) && controllerActive ==>
                trace == old(trace) + [Request(runs, chamber.value, session.value.target.value, Some(requested))]
                && !controllerFaultResolved && !controllerFailurePending
      ensures old(ControllerIsEligible()) && !controllerActive ==>
                trace == old(trace) + [Request(runs, chamber.value, session.value.target.value, None)]
                                    + [Reset(controllerFaultResolved)]
                && controllerFailurePending && requested == OFF
      ensures !old(ControllerIsEligible()) ==>
                !controllerActive && requested == OFF
                && trace == old(trace) + (if old(controllerActive) then [Reset(controllerFaultResolved)] else [])
                && controllerFailurePending
                   == (old(controllerFailurePending) || (old(controllerActive) && !controllerFaultResolved))
                && (!old(controllerActive) ==> controllerFaultResolved == old(controllerFaultResolved))
    {
      hide Lawful, HealthAfter, Unreset, Writes, Offer, Sight;
      requested := OFF;
      ghost var t := trace;
      if ControllerIsEligible() {
        var answer := RequestController(chamber.value, session.value.target.value);
        Extend(t, Last(trace));
        assert Writes(t) + [] == Writes(t);
        if answer.Some? {
          requested := answer.value;
          controllerActive := true;
          controllerFaultResolved := false;
        } else {
          ghost var u := trace;
          controllerFailurePending := true;
          controllerActive := false;
          controllerFaultResolved := ResetController();
          Extend(u, Reset(controllerFaultResolved));
        }
      } else if controllerActive {
        ResetAfterUse();
      }
    }

    /** A request made in this tick must not outlive a fault raised after it. */
    method DropIneligibleController()
      requires TraceSound()
      modifies this`trace, this`controllerActive, this`controllerFaultResolved, this`controllerFailurePending
      ensures TraceSound() && Quiet(old(trace), trace) && (controllerActive ==> ControllerIsEligible())
      ensures controllerActive == old(controllerActive && ControllerIsEligible())
      ensures trace == old(trace) + if old(controllerActive) && !controllerActive
                                    then [Reset(controllerFaultResolved)] else []
      ensures controllerFailurePending
           == (old(controllerFailurePending) || (old(controllerActive) && !controllerActive && !controllerFaultResolved))
    {
      hide Lawful, HealthAfter, Unreset, Writes, Offer, Sight;
      if controllerActive && !ControllerIsEligible() {
        ResetAfterUse();
      }
    }

    // -------------------------------------------------------------- faults

    method RaiseFault(code: FaultCode, now: int)
      requires StateSound() && Prompt(session)
      requires OnTime(session, now)
      modifies this`activeFault, this`alarms, this`session, this`pendingEvents
      ensures StateSound() && Prompt(session) && OnTime(session, now)
      ensures Faulted(old(View()), code, now, View())
    {
      hide Alarms.Sound, DistinctIds, ProbeIds, ProbesMatch;
      if activeFault.Some? { return; }
      activeFault := Some(ActiveFault(code, now));
      var resolved := Alarms.ResolveAllAlarms(alarms);
      Alarms.ResolvedAllFacts(alarms, resolved, ProbeIds(configs));
      alarms := resolved;
      if IsRunning(session) {
        var s := session.value;
        if s.recipe.timer.Some? {
          FrozenSound(s.recipe.timer.value, s.timer, now);
        }
        session := Some(s.(timer := Frozen(s.timer, now), status := Fault, stoppedAt := Some(now), stopReason := FaultStop));
      }
      Emit(FaultRaised, now, None, None, Some(code));
    }

    /** Afterwards no fault means a valid configuration and a chamber reading within the limit. */
    method EvaluateSafety(now: int)
      requires StateSound() && TraceSound() && Prompt(session)
      requires OnTime(session, now)
      modifies this`activeFault, this`alarms, this`session, this`pendingEvents
      ensures StateSound() && TraceSound() && Prompt(session) && OnTime(session, now)
      ensures var hazard := Hazard(configurationValid, chamber, maximum);
              if hazard.Some? then Faulted(old(View()), hazard.value, now, View()) else View() == old(View())
    {
      hide Rules, ProbesMatch, DistinctIds, ProbeIds, Lawful, HealthAfter, Unreset, Ended, Alarms.ResolvedAll, OnTime;
      if !configurationValid {
        RaiseFault(ConfigurationInvalid, now);
        return;
      }
      var evaluation := EvaluateChamberSafety(chamber, maximum);
      if evaluation.Some? {
        RaiseFault(evaluation.value, now);
      }
    }

    /** A controller failure is latched once no other fault stands in front of it. */
    method LatchControllerFailure(now: int)
      requires StateSound() && TraceSound() && Prompt(session) && (controllerActive ==> ControllerIsEligible())
      requires OnTime(session, now)
      modifies this`activeFault, this`alarms, this`session, this`pendingEvents, this`trace, this`controllerFailurePending
      ensures StateSound() && TraceSound() && Prompt(session) && (controllerActive ==> ControllerIsEligible())
      ensures Quiet(old(trace), trace)
      ensures if old(activeFault) == None && old(controllerFailurePending)
              then Faulted(old(View()), ControlLoopFailure, now, View()) && !controllerFailurePending
                   && trace == old(trace) + [Latch]
              else View() == old(View()) && controllerFailurePending == old(controllerFailurePending)
                   && trace == old(trace)
    {
      hide Rules, ProbesMatch, DistinctIds, ProbeIds, Lawful, HealthAfter, Unreset, Writes, Offer, Sight, Ended,
           Alarms.ResolvedAll, OnTime;
      if activeFault == None && controllerFailurePending {
        RaiseFault(ControlLoopFailure, now);
        controllerFailurePending := false;
        Extend(trace, Latch);
        assert Writes(trace) + [] == Writes(trace);
        trace := trace + [Latch];
      }
    }

    // -------------------------------------------------------------- the control cycle

    method ReadClock() returns (now: int)
    {
      now := *;
    }

    /** Clears the event list, reports refused submissions once, and samples all sensors. */
    method BeginTick(now: int)
      requires StateSound() && TraceSound()
      modifies this`pendingEvents, this`reportedOverflowCount, this`chamber, this`probes, this`readings, this`trace
      ensures TraceSound() && trace == old(trace) + SensorReads(chamber, probes)
      ensures Writes(trace) == Writes(old(trace)) && Sight(trace) == Some(chamber)
      ensures StateSound() && reportedOverflowCount == overflowCount && |pendingEvents| <= 1
      ensures Opening(old(View()), old(overflowCount != reportedOverflowCount), now, View())
    {
      hide StateSound, TraceSound, Sampled, SensorReads;
      pendingEvents := [];
      if reportedOverflowCount != overflowCount {
        Emit(CommandQueueOverflow, now, None, None, None);
        reportedOverflowCount := overflowCount;
      }
      AcquireRawInputs();
    }

    method RefreshElapsed(now: int)
      modifies this`sessionElapsed
      ensures sessionElapsed
           == if session == None then 0
              else Clock(session.value.startedAt, if session.value.stoppedAt == None then now else session.value.stoppedAt.value)
    {
      sessionElapsed := 0;
      if session.Some? {
        var endpoint := if session.value.stoppedAt.Some? then session.value.stoppedAt.value else now;
        if endpoint >= session.value.startedAt {
          sessionElapsed := endpoint - session.value.startedAt;
        }
      }
    }

    /** The commands, probes and timer of one cycle. */
    method RunPlan(now: int)
      returns (ghost stopped: bool, ghost accepted: seq<bool>, ghost desks: seq<Desk>, ghost probed: Desk)
      requires Valid()
      modifies this, queue`head, queue`count
      ensures StateSound() && TraceSound() && QueueSound() && Prompt(session) && OnTime(session, now)
      ensures Drained(old(queue.Contents()), queue.Contents(), accepted, stopped)
      ensures verdicts == old(verdicts) + VerdictsFor(old(queue.Contents())[..|accepted|], accepted)
      ensures |desks| == |accepted| + 1 && Batch(desks, old(queue.Contents())[..|accepted|], accepted, now)
      ensures Opening(old(View()), old(overflowCount != reportedOverflowCount), now, desks[0])
      ensures Sensed(old(trace), trace, desks[0]) && Sight(trace) == Some(chamber)
      ensures ProbesServed(desks[|accepted|], configurationValid, now, probed) && TimerTaken(probed, now, View())
      ensures configurationValid && IsRunning(session) ==>
                AlarmsFollow(desks[|accepted|].probes, true, desks[|accepted|].alarms, alarms)
      ensures firmwareUpdateActive
           == FirmwareAfter(old(firmwareUpdateActive), old(queue.Contents())[..|accepted|], accepted)
      ensures stopped ==> !IsRunning(session)
      ensures |pendingEvents| <= 2 * |configs| + CAPACITY + 4
      ensures issued == old(issued) && displaced == old(displaced)
    {
      hide StateSound, TraceSound, QueueSound, IsRunning, Prompt, Drained, VerdictsFor, Batch, Sensed, Sight, NotOverdue,
           CommandRing.Contents, CommandRing.Valid, Opening, ProbesServed, TimerTaken, AlarmsFollow, FirmwareAfter,
           ControllerIsEligible;
      stopped, accepted, desks := TakeCommands(now);
      probed := ServeInstallation(now);
    }

    /** Samples the sensors, and then takes the commands. */
    method TakeCommands(now: int) returns (ghost stopped: bool, ghost accepted: seq<bool>, ghost desks: seq<Desk>)
      requires Valid()
      modifies this, queue`head, queue`count
      ensures StateSound() && TraceSound() && QueueSound() && Prompt(session)
      ensures Drained(old(queue.Contents()), queue.Contents(), accepted, stopped)
      ensures verdicts == old(verdicts) + VerdictsFor(old(queue.Contents())[..|accepted|], accepted)
      ensures |desks| == |accepted| + 1 && Batch(desks, old(queue.Contents())[..|accepted|], accepted, now)
      ensures Opening(old(View()), old(overflowCount != reportedOverflowCount), now, desks[0])
      ensures Sensed(old(trace), trace, desks[0]) && Sight(trace) == Some(chamber)
      ensures desks[|accepted|] == View() && (stopped ==> !IsRunning(session))
      ensures firmwareUpdateActive
           == FirmwareAfter(old(firmwareUpdateActive), old(queue.Contents())[..|accepted|], accepted)
      ensures |pendingEvents| <= CAPACITY + 1 && issued == old(issued) && displaced == old(displaced)
    {
      hide StateSound, TraceSound, QueueSound, IsRunning, Prompt, Drained, VerdictsFor, Batch, Quiet, Sensed, SensorReads,
           Sight, Writes, CommandRing.Contents, CommandRing.Valid, Opening, FirmwareAfter, ControllerIsEligible;
      EligibleRuns();
      ghost var t := trace;
      BeginTick(now);
      ghost var u := trace;
      stopped, accepted, desks := ProcessPendingCommands(now);
      SensedThen(t, u, trace, desks[0]);
    }

    /** The probes, and then the timer. */
    method ServeInstallation(now: int) returns (ghost probed: Desk)
      requires StateSound() && Prompt(session)
      modifies this`probes, this`session, this`alarms, this`nextAlarmId, this`pendingEvents
      ensures StateSound() && Prompt(session) && OnTime(session, now)
      ensures IsRunning(session) ==> old(IsRunning(session))
      ensures ProbesServed(old(View()), configurationValid, now, probed) && TimerTaken(probed, now, View())
      ensures |pendingEvents| <= |old(pendingEvents)| + 2 * |configs| + 3
      ensures configurationValid && IsRunning(session) ==> AlarmsFollow(old(probes), true, old(alarms), alarms)
    {
      hide StateSound, Prompt, OnTime, AlarmsFollow, TimerAlarm, Alarms.Unresolved, TimerStep, EvaluatedAll,
           ProbeEvents, TimerEvents, AlarmCourse;
      AsManyProbes();
      FewProbeEvents(probes, IsRunning(session), now);
      ghost var between := EvaluateProbeStates(now);
      probed := View();
      ghost var id := nextAlarmId;
      UpdateActiveTimer(now);
      FewTimerEvents(probed.session, session, now);
      assert TimerAlarm(probed.session, session, now, id, probed.alarms, alarms);
      if IsRunning(session) && configurationValid {
        AlarmsThrough(old(probes), old(alarms), probed.alarms, alarms);
      }
    }

    lemma AsManyProbes()
      requires StateSound()
      ensures |probes| == |configs|
    {
    }

    lemma EligibleRuns()
      ensures ControllerIsEligible() ==> IsRunning(session)
    {
    }

    /** Safety has the last word: it may fault, take the controller out of use, or latch its failure. */
    method Judge(now: int)
      requires StateSound() && TraceSound() && Prompt(session) && OnTime(session, now)
      modifies this`session, this`activeFault, this`alarms, this`pendingEvents, this`trace, this`controllerActive,
               this`controllerFaultResolved, this`controllerFailurePending
      ensures StateSound() && TraceSound() && Prompt(session) && Quiet(old(trace), trace)
      ensures Ruled(old(View()), configurationValid, now, View())
      ensures controllerActive == (old(controllerActive) && ControllerIsEligible())
      ensures activeFault == None ==> !controllerFailurePending && !old(controllerFailurePending)
      ensures controllerActive ==> trace == old(trace)
    {
      hide StateSound, TraceSound, Prompt, Quiet, OnTime, Ended, Alarms.ResolvedAll, Ruled, Hazard;
      ghost var t, a := trace, View();
      EvaluateSafety(now);
      ghost var b := View();
      DropIneligibleController();
      ghost var u, c, failed := trace, View(), controllerFailurePending;
      LatchControllerFailure(now);
      RuledCompose(a, b, c, View(), configurationValid, now, failed);
      QuietChain(t, u, trace);
    }

    /** The controller's request, judged by safety, and the one heater write of the cycle. */
    method RunHeater(now: int)
      requires StateSound() && TraceSound() && Prompt(session) && OnTime(session, now)
      requires Sight(trace) == Some(chamber)
      modifies this`session, this`activeFault, this`alarms, this`pendingEvents, this`trace, this`controllerActive,
               this`controllerFaultResolved, this`controllerFailurePending, this`heaterDemand
      ensures StateSound() && TraceSound() && Prompt(session)
      ensures Ruled(old(View()), configurationValid, now, View())
      ensures controllerActive == ControllerIsEligible() && (controllerActive ==> SafeToHeat())
      ensures if controllerActive
              then Served(old(trace), trace, Request(runs, chamber.value, session.value.target.value, Some(heaterDemand)))
              else heaterDemand == OFF
      ensures old(trace) <= trace && Writes(trace) == Writes(old(trace)) + [heaterDemand]
      ensures trace[|trace| - 1] == Write(heaterDemand, CurrentScene())
      ensures activeFault == None ==> !controllerFailurePending
    {
      hide StateSound, TraceSound, Prompt, Quiet, Writes, OnTime, Served, Ruled, Offer, Sight;
      ghost var t, a := trace, View();
      var requested := RunController();
      ghost var v, request, b := trace, Last(trace + [Reset(true)]), View();
      if controllerActive {
        request := Last(trace);
      }
      Judge(now);
      RuledFacts(b, configurationValid, now, View());
      RuledAlso(a, b, configurationValid, now, View());
      heaterDemand := ApplySafetyGate(requested, CurrentSessionStatus(), activeFault);
      QuietChain(t, v, trace);
      ServedWithin(t, v, trace, request, Write(heaterDemand, CurrentScene()));
      CommandHeater(heaterDemand);
    }

    /** The controller's share of a cycle: exactly an eligible controller is active afterwards. */
    method RunController() returns (requested: Percent)
      requires StateSound() && TraceSound() && Prompt(session)
      requires Sight(trace) == Some(chamber)
      modifies this`trace, this`controllerActive, this`controllerFaultResolved, this`controllerFailurePending
      ensures StateSound() && TraceSound() && Prompt(session) && Quiet(old(trace), trace)
      ensures View() == old(View()).(resolved := controllerFaultResolved)
      ensures controllerActive == ControllerIsEligible() && (!controllerActive ==> requested == OFF)
      ensures controllerActive ==>
                |trace| > |old(trace)|
                && Last(trace) == Request(runs, chamber.value, session.value.target.value, Some(requested))
                && Offer(trace) == Some(Last(trace))
    {
      hide Offer, Sight, StateSound, TraceSound, Prompt, Quiet, Writes;
      ghost var t := trace;
      RetryReset();
      ghost var u := trace;
      QuietChain(t, u, u);
      requested := ServeController();
      QuietChain(t, u, trace);
      if controllerActive {
        Extend(u, Last(trace));
      }
    }

    /** The write of the cycle keeps the calls lawful. */
    method CommandHeater(demand: Percent)
      requires TraceSound() && SafeWrite(Offer(trace), Sight(trace), demand, CurrentScene())
      modifies this`trace
      ensures TraceSound() && trace == old(trace) + [Write(demand, CurrentScene())]
      ensures Writes(trace) == Writes(old(trace)) + [demand]
    {
      hide Lawful, HealthAfter, Unreset, Writes, Offer, Sight, SafeWrite;
      Extend(trace, Write(demand, CurrentScene()));
      WriteHeater(demand);
    }

    /** What every nonzero heater write of a cycle was preceded by. */
    predicate SafeToHeat()
      reads this`session, this`activeFault, this`firmwareUpdateActive, this`chamber
    {
      Heatable(CurrentScene())
    }

    /** One control cycle. */
    method Tick() returns (ghost stopped: bool, ghost accepted: seq<bool>, ghost course: Course)
      requires Valid()
      modifies this, queue`head, queue`count
      ensures Valid()
      ensures heaterDemand != OFF ==> SafeToHeat()
      ensures controllerActive == ControllerIsEligible()
      ensures if controllerActive
              then Served(old(trace), trace, Request(runs, chamber.value, session.value.target.value, Some(heaterDemand)))
              else heaterDemand == OFF
      ensures old(trace) <= trace && Writes(trace) == Writes(old(trace)) + [heaterDemand]
      ensures Drained(old(queue.Contents()), queue.Contents(), accepted, stopped)
      ensures verdicts == old(verdicts) + VerdictsFor(old(queue.Contents())[..|accepted|], accepted)
      ensures Batch(course.desks, old(queue.Contents())[..|accepted|], accepted, course.now)
      ensures Opening(old(View()), old(overflowCount != reportedOverflowCount), course.now, course.desks[0])
      ensures old(trace) + SensorReads(course.desks[0].chamber, course.desks[0].probes) <= trace
      ensures ProbesServed(course.desks[|accepted|], configurationValid, course.now, course.probed)
      ensures TimerTaken(course.probed, course.now, course.planned)
      ensures Ruled(course.planned, configurationValid, course.now, View())
      ensures configurationValid && IsRunning(session) ==>
                AlarmsFollow(course.desks[|accepted|].probes, true, course.desks[|accepted|].alarms, alarms)
      ensures stopped ==> heaterDemand == OFF && !IsRunning(session)
      ensures firmwareUpdateActive
           == FirmwareAfter(old(firmwareUpdateActive), old(queue.Contents())[..|accepted|], accepted)
      ensures |pendingEvents| <= 2 * |configs| + CAPACITY + 5 && |alarms| <= 2 * |configs| + 1
      ensures issued == old(issued) && displaced == old(displaced)
      ensures var s := course.planned.session;
              sessionElapsed == if s == None then 0
                                else if s.value.stoppedAt.Some? then Clock(s.value.startedAt, s.value.stoppedAt.value)
                                else Clock(s.value.startedAt, course.now)
      ensures activeFault == None ==> Hazard(configurationValid, chamber, maximum) == None && !controllerFailurePending
    {
      hide StateSound, TraceSound, QueueSound, Prompt, Drained, VerdictsFor, FirmwareAfter, Sensed, SensorReads,
           Sight, OnTime, Served, Writes, CommandRing.Contents, CommandRing.Valid, Batch, Opening, ProbesServed,
           TimerTaken, Ruled, AlarmsFollow, Hazard;
      var now := ReadClock();
      ghost var t := trace;
      ghost var desks, probed;
      stopped, accepted, desks, probed := RunPlan(now);
      ghost var u := trace;
      course := Course(now, desks, probed, View());
      RefreshElapsed(now);
      RunHeater(now);
      RuledFacts(course.planned, configurationValid, now, View());
      FewAlarms();
      TickTrace(t, u, trace, desks[0], heaterDemand);
    }

    lemma FewAlarms()
      requires StateSound()
      ensures |alarms| <= 2 * |configs| + 1
    {
      hide Rules, ProbesMatch, DistinctIds;
      assert Alarms.Sound(alarms, ProbeIds(configs)) by {
        RulesAlarms(session, maximum, activeFault.Some? || firmwareUpdateActive, alarms, ProbeIds(configs));
      }
      Alarms.AtMost(alarms, ProbeIds(configs));
      IdsAtMost(configs);
    }
  }

  /** The time from one moment to another one, and none when the clock shows the later one first. */
  function Clock(from: int, to: int): (elapsed: int)
    ensures elapsed >= 0 && (to >= from ==> from + elapsed == to)
  {
    if to >= from then to - from else 0
  }

  // ---------------------------------------------------------------- the events of a cycle

  function Told(kind: EventKind, now: int, probe: byte): Event {
    Event(kind, now, Some(probe), None, None)
  }

  /** The event of a reading that changes the connection of its probe. */
  function ConnectionEvents(p: ProbeRuntime, now: int): seq<Event> {
    if p.initialized && p.connected == p.temperature.Some? then []
    else [Told(if p.temperature == None then ProbeDisconnected
               else if p.initialized then ProbeReconnected else ProbeConnected, now, p.config.id)]
  }

  function TargetEvents(p: ProbeRuntime, running: bool, now: int): seq<Event> {
    if running && TargetReached(p) then [Told(ProbeTargetReached, now, p.config.id)] else []
  }

  /** The events of one probe: of its connection, and then of its target. */
  function ReadingEvents(p: ProbeRuntime, running: bool, now: int): seq<Event> {
    if p.enabled && p.sampled then ConnectionEvents(p, now) + TargetEvents(p, running, now) else []
  }

  function ProbeEvents(ps: seq<ProbeRuntime>, running: bool, now: int): seq<Event> {
    if ps == [] then []
    else ProbeEvents(ps[..|ps| - 1], running, now) + ReadingEvents(ps[|ps| - 1], running, now)
  }

  /** The events of the timer: started, done, and the end of a session it stops. */
  function TimerEvents(a: Option<Session>, b: Option<Session>, now: int): seq<Event> {
    if a == None || b == None then []
    else
      (if b.value.timer.started && !a.value.timer.started then [Notice(TimerStarted, now)] else [])
      + (if b.value.timer.completed && !a.value.timer.completed
         then [Notice(TimerDone, now)] + if IsRunning(b) then [] else [Notice(SessionStopped, now)]
         else [])
  }

  lemma NoProbeEvents(running: bool, now: int)
    ensures ProbeEvents([], running, now) == []
  {
  }

  lemma MoreProbeEvents(ps: seq<ProbeRuntime>, k: nat, running: bool, now: int)
    requires k < |ps|
    ensures ps[..0] == [] && ps[..k + 1][..k] == ps[..k]
    ensures ProbeEvents(ps[..k + 1], running, now) == ProbeEvents(ps[..k], running, now) + ReadingEvents(ps[k], running, now)
    ensures !(ps[k].enabled && ps[k].sampled) ==> ReadingEvents(ps[k], running, now) == []
  {
    assert ps[..k + 1][..k] == ps[..k];
  }

  lemma {:induction false} FewProbeEvents(ps: seq<ProbeRuntime>, running: bool, now: int)
    ensures |ProbeEvents(ps, running, now)| <= 2 * |ps|
  {
    if ps != [] {
      FewProbeEvents(ps[..|ps| - 1], running, now);
    }
  }

  lemma FewTimerEvents(a: Option<Session>, b: Option<Session>, now: int)
    ensures |TimerEvents(a, b, now)| <= 3
  {
  }

  /** A sampled probe after its reading was evaluated; any other is left alone. */
  function AfterReading(p: ProbeRuntime, running: bool): ProbeRuntime {
    if p.enabled && p.sampled then Evaluated(p, running) else p
  }

  predicate EvaluatedAll(before: seq<ProbeRuntime>, running: bool, after: seq<ProbeRuntime>) {
    |after| == |before| && forall k :: 0 <= k < |after| ==> after[k] == AfterReading(before[k], running)
  }

  /** An enabled probe was read, and nothing else about it changed. */
  predicate SampledOne(before: ProbeRuntime, after: ProbeRuntime, reading: Reading) {
    after == before.(temperature := after.temperature, sampled := after.enabled)
    && reading.temperature == after.temperature && (!after.enabled ==> after.temperature == None)
  }

  predicate Sampled(before: seq<ProbeRuntime>, after: seq<ProbeRuntime>, readings: seq<Reading>) {
    |after| == |before| == |readings|
    && forall k :: 0 <= k < |after| ==> SampledOne(before[k], after[k], readings[k])
  }

  /** The call that gave a probe its temperature. */
  function ReadOf(p: ProbeRuntime): seq<Call> {
    if p.enabled then [Probed(p.config.id, p.temperature)] else []
  }

  function ProbeReads(ps: seq<ProbeRuntime>): seq<Call> {
    if ps == [] then [] else ProbeReads(ps[..|ps| - 1]) + ReadOf(ps[|ps| - 1])
  }

  /** The sensor calls of one cycle, which gave the chamber and the probes their temperatures. */
  function SensorReads(chamber: Option<real>, ps: seq<ProbeRuntime>): seq<Call> {
    [Measured(chamber)] + ProbeReads(ps)
  }

  lemma MoreReads(chamber: Option<real>, ps: seq<ProbeRuntime>, p: ProbeRuntime)
    ensures SensorReads(chamber, ps + [p]) == SensorReads(chamber, ps) + ReadOf(p)
  {
    assert (ps + [p])[..|ps|] == ps;
  }

  /** The alarm list, and the id that the next alarm takes. */
  datatype AlarmsAt = AlarmsAt(next: u32, alarms: seq<ControlAlarm>)

  /** A connected probe has no unresolved disconnection alarm. */
  predicate Kept(p: ProbeRuntime, before: seq<ControlAlarm>, after: seq<ControlAlarm>) {
    if p.temperature.Some? then Alarms.ResolvedOnly(before, after, ProbeDisconnectedAlarm, Some(p.config.id))
    else after == before
  }

  /** The alarm that a reading raises, if any. */
  predicate Raised(p: ProbeRuntime, running: bool, now: int, a: AlarmsAt, b: AlarmsAt) {
    if running && (Lost(p) || TargetReached(p))
    then b.next == (a.next + 1) % 0x1_0000_0000
         && Alarms.RaisedOne(a.alarms, b.alarms,
                             ControlAlarm(a.next, if Lost(p) then ProbeDisconnectedAlarm else ProbeTargetAlarm,
                                          Some(p.config.id), now, false, false))
    else b == a
  }

  /** All that one reading does to the alarms. */
  ghost predicate ReadingAlarms(p: ProbeRuntime, running: bool, now: int, a: AlarmsAt, b: AlarmsAt) {
    if p.enabled && p.sampled
    then exists kept :: Kept(p, a.alarms, kept) && Raised(p, running, now, AlarmsAt(a.next, kept), b)
    else b == a
  }

  lemma Unread(p: ProbeRuntime, running: bool, now: int, a: AlarmsAt)
    ensures !(p.enabled && p.sampled) ==> ReadingAlarms(p, running, now, a, a)
  {
  }

  /** The alarms before, between and after the readings of all probes. */
  ghost predicate AlarmCourse(ps: seq<ProbeRuntime>, running: bool, now: int, course: seq<AlarmsAt>) {
    |course| == |ps| + 1
    && forall k :: 0 <= k < |ps| ==> ReadingAlarms(ps[k], running, now, course[k], course[k + 1])
  }

  /** The two alarms of a probe: as they were, or (`running` given) as its reading `p` makes them. */
  predicate AlarmsOf(p: ProbeRuntime, running: Option<bool>, before: seq<ControlAlarm>, after: seq<ControlAlarm>) {
    var id, read := Some(p.config.id), running.Some? && p.enabled && p.sampled;
    (Alarms.Unresolved(after, ProbeDisconnectedAlarm, id) <==>
       if read
       then p.temperature == None
            && (Alarms.Unresolved(before, ProbeDisconnectedAlarm, id) || (running.value && Lost(p)))
       else Alarms.Unresolved(before, ProbeDisconnectedAlarm, id))
    && (Alarms.Unresolved(after, ProbeTargetAlarm, id) <==>
          Alarms.Unresolved(before, ProbeTargetAlarm, id) || (read && running.value && TargetReached(p)))
  }

  /** The probe alarms after all readings were evaluated. */
  predicate AlarmsFollow(probes: seq<ProbeRuntime>, running: bool, before: seq<ControlAlarm>, after: seq<ControlAlarm>) {
    forall k :: 0 <= k < |probes| ==> AlarmsOf(probes[k], Some(running), before, after)
  }

  /** What the timer makes of a session in one cycle. */
  predicate TimerServed(a: Option<Session>, now: int, chamber: Option<real>, readings: seq<Reading>, b: Option<Session>) {
    if !IsRunning(a) || a.value.recipe.timer == None then b == a
    else
      b.Some?
      && var t, next := a.value.recipe.timer.value, b.value.timer;
         TimerStep(t, a.value.timer, now, chamber, readings, next)
         && b.value == if next.completed && !a.value.timer.completed && t.stopsSession
                       then a.value.(timer := next, status := Stopped, stoppedAt := Some(now),
                                     stopReason := StopReason.TimerCompleted)
                       else a.value.(timer := next)
  }

  /** The desk that a cycle's commands find: sensors read, refused submissions reported. */
  predicate Opening(a: Desk, refused: bool, now: int, d: Desk) {
    d == a.(chamber := d.chamber, probes := d.probes, readings := d.readings,
            events := if refused then [Notice(CommandQueueOverflow, now)] else [])
    && Sampled(a.probes, d.probes, d.readings)
  }

  /** The probes served after the last command: flags, alarms, and the events of each in their order. */
  ghost predicate ProbesServed(d: Desk, valid: bool, now: int, p: Desk) {
    p == d.(alarms := p.alarms, probes := p.probes, events := d.events + ProbeEvents(d.probes, IsRunning(d.session), now))
    && EvaluatedAll(d.probes, IsRunning(d.session), p.probes)
    && (valid ==> AlarmsFollow(d.probes, IsRunning(d.session), d.alarms, p.alarms))
    && exists course: seq<AlarmsAt> ::
         AlarmCourse(d.probes, IsRunning(d.session), now, course)
         && course[0].alarms == d.alarms && course[|d.probes|].alarms == p.alarms
  }

  /** The timer served after the probes: its session, its alarm, and its events. */
  ghost predicate TimerTaken(p: Desk, now: int, e: Desk) {
    e == p.(session := e.session, alarms := e.alarms, events := p.events + TimerEvents(p.session, e.session, now))
    && TimerServed(p.session, now, p.chamber, p.readings, e.session)
    && exists id :: TimerAlarm(p.session, e.session, now, id, p.alarms, e.alarms)
  }

  /** The hazard that safety sees, the most authoritative one first. */
  function Hazard(valid: bool, chamber: Option<real>, maximum: real): Option<FaultCode> {
    if !valid then Some(ConfigurationInvalid)
    else if chamber == None then Some(ChamberSensorInvalid)
    else if chamber.value > maximum then Some(ChamberOverTemperature)
    else None
  }

  /** A fault is latched once; it ends a running session and resolves every alarm. */
  predicate Faulted(a: Desk, code: FaultCode, now: int, b: Desk) {
    if a.activeFault.Some? then b == a
    else
      b == a.(activeFault := Some(ActiveFault(code, now)), session := b.session, alarms := b.alarms,
              events := a.events + [Event(FaultRaised, now, None, None, Some(code))])
      && Alarms.ResolvedAll(a.alarms, b.alarms)
      && if IsRunning(a.session)
         then b.session.Some? && Ended(a.session.value, b.session.value, Fault, FaultStop, now)
         else b.session == a.session
  }

  /** The last word of a cycle: the hazard it saw, else a failure of the controller, else nothing. */
  predicate Ruled(a: Desk, valid: bool, now: int, b: Desk) {
    var hazard := Hazard(valid, a.chamber, a.maximum);
    if hazard.Some? then Faulted(a.(resolved := b.resolved), hazard.value, now, b)
    else b == a.(resolved := b.resolved) || Faulted(a.(resolved := b.resolved), ControlLoopFailure, now, b)
  }

  lemma RuledCompose(a: Desk, b: Desk, c: Desk, d: Desk, valid: bool, now: int, failed: bool)
    requires var hazard := Hazard(valid, a.chamber, a.maximum);
             if hazard.Some? then Faulted(a, hazard.value, now, b) else b == a
    requires c == b.(resolved := c.resolved) && d.resolved == c.resolved
    requires if c.activeFault == None && failed then Faulted(c, ControlLoopFailure, now, d) else d == c
    ensures Ruled(a, valid, now, d)
  {
    hide Ended, Alarms.ResolvedAll;
  }

  lemma RuledFacts(a: Desk, valid: bool, now: int, b: Desk)
    requires Ruled(a, valid, now, b)
    ensures b == a.(resolved := b.resolved, activeFault := b.activeFault, session := b.session, alarms := b.alarms,
                    events := b.events)
    ensures |b.events| <= |a.events| + 1 && (a.activeFault.Some? ==> b.activeFault == a.activeFault)
    ensures b.activeFault == None ==>
              Hazard(valid, a.chamber, a.maximum) == None && b == a.(resolved := b.resolved)
    ensures IsRunning(b.session) ==> b == a.(resolved := b.resolved)
    ensures b.session.Some? == a.session.Some?
  {
  }

  lemma RuledAlso(a: Desk, b: Desk, valid: bool, now: int, c: Desk)
    requires Ruled(b, valid, now, c) && b == a.(resolved := b.resolved)
    ensures Ruled(a, valid, now, c)
  {
    hide Alarms.ResolvedAll, Ended, Hazard;
  }

  /**
   * What one cycle did: its time, the desk around each command, behind the probes, and behind the timer,
   * which is the one that safety rules on.
   */
  datatype Course = Course(now: int, desks: seq<Desk>, probed: Desk, planned: Desk)

  lemma AlarmsThrough(probes: seq<ProbeRuntime>, a: seq<ControlAlarm>, b: seq<ControlAlarm>, c: seq<ControlAlarm>)
    requires AlarmsFollow(probes, true, a, b)
    requires forall code, p :: code != TimerCompletedAlarm ==>
               (Alarms.Unresolved(c, code, p) <==> Alarms.Unresolved(b, code, p))
    ensures AlarmsFollow(probes, true, a, c)
  {
    hide Alarms.Unresolved, Lost, TargetReached;
    forall k | 0 <= k < |probes|
      ensures AlarmsOf(probes[k], Some(true), a, c)
    {
      assert AlarmsOf(probes[k], Some(true), a, b);
    }
  }

  /** The alarms after the timer was served: raised when it completes, or resolved with the session. */
  predicate TimerAlarm(a: Option<Session>, b: Option<Session>, now: int, id: u32, before: seq<ControlAlarm>,
                       after: seq<ControlAlarm>)
  {
    if a.Some? && b.Some? && b.value.timer.completed && !a.value.timer.completed
    then if IsRunning(b)
         then Alarms.RaisedOne(before, after, ControlAlarm(id, TimerCompletedAlarm, None, now, false, false))
         else Alarms.ResolvedAll(before, after)
    else after == before
  }

  /** A running session's timer has been brought up to `now`. */
  predicate OnTime(session: Option<Session>, now: int) {
    IsRunning(session) && session.value.recipe.timer.Some? ==>
      NotOverdue(session.value.recipe.timer.value, session.value.timer, now)
  }

  lemma QuietChain(t: seq<Call>, u: seq<Call>, v: seq<Call>)
    requires Quiet(t, u)
    ensures Quiet(u, v) || u == v ==> Quiet(t, v) && u <= v && Sight(v) == Sight(t)
    ensures Sight(u) == Sight(t)
  {
  }

  lemma ServedWithin(t: seq<Call>, v: seq<Call>, w: seq<Call>, r: Call, write: Call)
    requires Quiet(t, v) && Quiet(t, w) && v <= w
    ensures |v| > |t| && Last(v) == r ==> Served(t, w + [write], r)
    ensures t <= w && Writes(w) == Writes(t) && w <= w + [write]
  {
    if |v| > |t| && Last(v) == r {
      assert (w + [write])[|v| - 1] == r;
    }
  }

  /** Since the cycle began the sensors were asked, and the heater was not written to. */
  predicate Sensed(t: seq<Call>, u: seq<Call>, d: Desk) {
    t + SensorReads(d.chamber, d.probes) <= u && Writes(u) == Writes(t)
  }

  lemma SensedThen(t: seq<Call>, u: seq<Call>, v: seq<Call>, d: Desk)
    requires u == t + SensorReads(d.chamber, d.probes) && Writes(u) == Writes(t) && Quiet(u, v)
    ensures Sensed(t, v, d) && Sight(v) == Sight(u)
  {
  }

  lemma TickTrace(t: seq<Call>, u: seq<Call>, v: seq<Call>, d: Desk, demand: Percent)
    requires Sensed(t, u, d) && u <= v && Writes(v) == Writes(u) + [demand]
    ensures t <= v && Writes(v) == Writes(t) + [demand] && t + SensorReads(d.chamber, d.probes) <= v
    ensures forall r :: Served(u, v, r) ==> Served(t, v, r)
  {
  }

  lemma RulesAlarms(session: Option<Session>, maximum: real, excluded: bool, alarms: seq<ControlAlarm>, ids: set<byte>)
    requires Rules(session, maximum, excluded, alarms, ids)
    ensures Alarms.Sound(alarms, ids)
  {
  }

  lemma {:induction false} IdsAtMost(configs: seq<ProbeConfig>)
    ensures |ProbeIds(configs)| <= |configs|
  {
    if configs == [] {
      assert ProbeIds(configs) == {};
    } else {
      var n := |configs| - 1;
      IdsAtMost(configs[..n]);
      assert ProbeIds(configs) == ProbeIds(configs[..n]) + {configs[n].id};
    }
  }

  /** `r` is one of the calls made between two points. */
  predicate Served(t: seq<Call>, u: seq<Call>, r: Call) {
    exists k :: |t| <= k < |u| && u[k] == r
  }

  lemma AlarmsKept(probes: seq<ProbeRuntime>, alarms: seq<ControlAlarm>)
    ensures forall k :: 0 <= k < |probes| ==> AlarmsOf(probes[k], None, alarms, alarms)
  {
  }

  lemma AlarmsStep(probes: seq<ProbeRuntime>, k: nat, running: bool, first: seq<ControlAlarm>,
                   before: seq<ControlAlarm>, after: seq<ControlAlarm>)
    requires k < |probes| && forall i, j :: 0 <= i < j < |probes| ==> probes[i].config.id != probes[j].config.id
    requires forall j :: 0 <= j < |probes| ==> AlarmsOf(probes[j], if j < k then Some(running) else None, first, before)
    requires if probes[k].enabled && probes[k].sampled then AlarmsOf(probes[k], Some(running), before, after)
             else after == before
    requires forall c, p :: p != Some(probes[k].config.id) ==>
               (Alarms.Unresolved(after, c, p) <==> Alarms.Unresolved(before, c, p))
    ensures forall j :: 0 <= j < |probes| ==> AlarmsOf(probes[j], if j < k + 1 then Some(running) else None, first, after)
  {
    hide Alarms.Unresolved, Lost, TargetReached;
    forall j | 0 <= j < |probes|
      ensures AlarmsOf(probes[j], if j < k + 1 then Some(running) else None, first, after)
    {
      assert AlarmsOf(probes[j], if j < k then Some(running) else None, first, before);
    }
  }

  /** The temperature has met the target for the first time since the alarm was armed. */
  predicate TargetReached(p: ProbeRuntime) {
    p.alarmEnabled && !p.targetAlarmEmitted && AtLeast(p.temperature, p.target)
  }

  /** The reading went missing since the alarm was armed. */
  predicate Lost(p: ProbeRuntime) {
    p.temperature == None && p.alarmEnabled && !p.disconnectedAlarmEmitted
  }

  /** A probe's flags after its reading was evaluated. */
  function Evaluated(p: ProbeRuntime, running: bool): ProbeRuntime {
    p.(initialized := true, connected := p.temperature.Some?,
       disconnectedAlarmEmitted := p.temperature == None && (p.disconnectedAlarmEmitted || (running && p.alarmEnabled)),
       targetAlarmEmitted := p.targetAlarmEmitted || (running && TargetReached(p)))
  }

  function FirmwareAfter(active: bool, q: seq<Queued>, accepted: seq<bool>): bool
    requires |q| == |accepted|
  {
    if q == [] then active
    else FirmwareAfterOne(FirmwareAfter(active, q[..|q| - 1], accepted[..|q| - 1]), q[|q| - 1].command, accepted[|q| - 1])
  }

  lemma VerdictsStep(q: seq<Queued>, e: Queued, accepted: seq<bool>, ok: bool)
    requires |q| == |accepted|
    ensures VerdictsFor(q + [e], accepted + [ok]) == VerdictsFor(q, accepted) + EntryVerdicts(e, ok)
  {
    assert (q + [e])[..|q|] == q && (accepted + [ok])[..|q|] == accepted;
  }

  /** The interlock at the end of a batch depends on nothing but its Prepare and Finish commands. */
  lemma {:induction false} BatchFirmware(desks: seq<Desk>, q: seq<Queued>, accepted: seq<bool>, now: int)
    requires Batch(desks, q, accepted, now)
    ensures desks[|q|].firmwareUpdateActive == FirmwareAfter(desks[0].firmwareUpdateActive, q, accepted)
  {
    if q != [] {
      var n := |q| - 1;
      BatchFirmware(desks[..n + 1], q[..n], accepted[..n], now);
      EffectFacts(desks[n], q[n].command, now, accepted[n], desks[n + 1]);
    }
  }

  lemma TailWellFormed(q: seq<Queued>)
    requires WellFormed(q) && |q| > 0
    ensures WellFormed(q[1..]) && forall k :: 0 <= k < |q[0].coalesced| ==> q[0].coalesced[k] != 0
  {
  }

  /** No Stop among the processed commands was accepted so far. */
  predicate Partly(q: seq<Queued>, rest: seq<Queued>, accepted: seq<bool>) {
    |accepted| <= |q| && rest == q[|accepted|..]
    && forall k :: 0 <= k < |accepted| ==> !(q[k].command.StopSession? && accepted[k])
  }

  lemma SizeBound(q: seq<Queued>)
    ensures WellFormed(q) ==> |q| <= CAPACITY
  {
  }

  lemma EffectPrompt(a: Desk, c: Command, now: int, accepted: bool, b: Desk)
    requires Effect(a, c, now, accepted, b) && Prompt(a.session)
    ensures Prompt(b.session)
  {
    hide Rearmed, Alarms.ResolvedAll, Alarms.ResolvedOnly, Alarms.ResolvedProbe, RecipeValid, Acknowledgeable;
  }

  lemma NothingTaken(q: seq<Queued>, verdicts: seq<Verdict>, d: Desk, now: int)
    ensures Partly(q, q, []) && verdicts + VerdictsFor(q[..0], []) == verdicts && Batch([d], q[..0], [], now)
  {
  }

  lemma TookOne(q: seq<Queued>, rest: seq<Queued>, accepted: seq<bool>, ok: bool)
    requires Partly(q, rest, accepted) && |rest| > 0
    ensures |accepted| < |q| && rest[0] == q[|accepted|]
    ensures q[..|accepted + [ok]|] == q[..|accepted|] + [q[|accepted|]]
    ensures if q[|accepted|].command.StopSession? && ok then Drained(q, rest[1..], accepted + [ok], true)
            else Partly(q, rest[1..], accepted + [ok])
  {
  }

  lemma TookAll(q: seq<Queued>, rest: seq<Queued>, accepted: seq<bool>)
    ensures Partly(q, rest, accepted) && rest == [] ==> Drained(q, rest, accepted, false)
    ensures Drained(q, rest, accepted, true) || Drained(q, rest, accepted, false) ==> |accepted| <= |q|
  {
  }

  /** A batch ends with the queue, or right behind the first accepted Stop; the rest waits in order. */
  predicate Drained(q: seq<Queued>, rest: seq<Queued>, accepted: seq<bool>, stopped: bool) {
    var n := |accepted|;
    n <= |q| && rest == q[n..]
    && (forall k :: 0 <= k < n - 1 ==> !(q[k].command.StopSession? && accepted[k]))
    && (stopped <==> n > 0 && q[n - 1].command.StopSession? && accepted[n - 1])
    && (!stopped ==> rest == [])
  }

  /** More calls, but no heater write and no chamber reading among them. */
  predicate Quiet(t: seq<Call>, u: seq<Call>) {
    t <= u && Writes(u) == Writes(t) && Sight(u) == Sight(t)
  }

}
