/**
 * The permission protocol around a firmware installation: install requesters, the OTA task and
 * control cycles, interleaved step by step under sequential consistency.
 */
module FirmwarePermission {
  import opened Bytes
  import opened Domain
  import opened CommandQueue
  import opened SmokerApplication
  import opened ControlLoop

  const INTERNAL_ID: u32 := 0xFFFF_FFFE

  datatype UpdateState =
    | NoUpdate | Checking | UpToDate | Available | WaitingPermission
    | Installing | Rebooting | Validating | Failed

  /** The mutex-guarded coordinator, as far as the permission goes. */
  datatype Coordinator = Coordinator(state: UpdateState, permission: u32, ready: bool, finishSignal: bool)

  /** Where the control task stands in its cycle, and the signals it has consumed. */
  datatype Cycle = Between | TookPrepare(prepare: u32) | TookBoth(prepare: u32, finish: bool)

  datatype System = System(
    coordinator: Coordinator,
    prepare: u32,
    finish: bool,
    cycle: Cycle,
    app: AppView,
    published: AppView,
    leased: Option<AppView>,
    permissions: set<u32>)

  // ---------------------------------------------------------------- the coordinator

  function Fail(c: Coordinator): Coordinator {
    Coordinator(Failed, 0, false, c.finishSignal || c.permission != 0)
  }

  function BeginInstall(c: Coordinator, running: bool, id: u32): Option<Coordinator> {
    if c.state != Available || running || id == 0 then None
    else Some(Coordinator(WaitingPermission, id, false, false))
  }

  function CancelInstall(c: Coordinator, id: u32): Coordinator {
    if c.state != WaitingPermission || c.permission != id then c else c.(state := Available, permission := 0, ready := false)
  }

  /** The first verdict for an id in the result list of a snapshot. */
  function FirstVerdict(results: seq<Verdict>, id: u32): (v: Option<bool>)
    ensures v.Some? ==> Verdict(id, v.value) in results
  {
    if results == [] then None
    else if results[0].id == id then Some(results[0].accepted)
    else FirstVerdict(results[1..], id)
  }

  function Observe(c: Coordinator, view: AppView): Coordinator {
    if c.state != WaitingPermission then c
    else match FirstVerdict(Newest(view.verdicts), c.permission)
      case None => c
      case Some(accepted) =>
        if !accepted || !view.firmwareActive then Fail(c) else c.(state := Installing, ready := true)
  }

  function BeginCheck(c: Coordinator): Option<Coordinator> {
    if c.state in {Checking, WaitingPermission, Installing, Rebooting, Validating} then None
    else Some(c.(state := Checking))
  }

  // ---------------------------------------------------------------- steps

  datatype Step =
    | TakePrepare
    | TakeFinish
    | Tick(externals: seq<Queued>, after: AppView, publishes: bool)
    | Request(id: u32, sawRunning: bool)
    | Lease
    | Inspect
    | Timeout
    | InstallFails
    | Reboot
    | RequestCheck
    | CheckEnds(outcome: UpdateState)
    | ValidationSucceeds

  /** Handing the coordinator's finish signal to the control task, still under the mutex. */
  function Flushed(s: System, c: Coordinator): System {
    s.(coordinator := c.(finishSignal := false), finish := s.finish || c.finishSignal)
  }

  function Requested(s: System, id: u32, sawRunning: bool): System {
    match BeginInstall(s.coordinator, sawRunning, id)
    case None => s
    case Some(c) =>
      if s.prepare == 0 then s.(coordinator := c, prepare := id, permissions := s.permissions + {id})
      else s.(coordinator := CancelInstall(c, id), permissions := s.permissions + {id})
  }

  /** No command from outside carries the id of a permission request. */
  predicate NotPermissions(q: seq<Queued>, permissions: set<u32>) {
    forall k :: 0 <= k < |q| ==> q[k].correlationId !in permissions && forall id :: id in q[k].coalesced ==> id !in permissions
  }

  predicate HasVerdict(view: AppView, id: u32) {
    exists k :: 0 <= k < |view.verdicts| && view.verdicts[k].id == id
  }

  /** Ids come from one generator, so a new one was never used before. */
  predicate NewId(s: System, id: u32) {
    id != 0 && id != INTERNAL_ID && id !in s.permissions && !HasVerdict(s.app, id)
  }

  ghost predicate Next(s: System, step: Step, t: System) {
    match step
    case TakePrepare => s.cycle == Between && t == s.(cycle := TookPrepare(s.prepare), prepare := 0)
    case TakeFinish => s.cycle.TookPrepare? && t == s.(cycle := TookBoth(s.cycle.prepare, s.finish), finish := false)
    case Tick(externals, after, publishes) =>
      s.cycle.TookBoth? && NotPermissions(externals, s.permissions)
      && CycleEffect(s.app, s.cycle.prepare, s.cycle.finish, externals, after)
      && t == s.(app := after, published := if publishes then after else s.published, cycle := Between)
    case Request(id, sawRunning) => NewId(s, id) && t == Requested(s, id, sawRunning)
    case Lease => s.leased == None && t == s.(leased := Some(s.published))
    case Inspect => s.leased.Some? && t == Flushed(s, Observe(s.coordinator, s.leased.value)).(leased := None)
    case Timeout =>
      s.leased == None && s.coordinator.state == WaitingPermission && t == Flushed(s, Fail(s.coordinator))
    case InstallFails => s.leased == None && s.coordinator.ready && t == Flushed(s, Fail(s.coordinator))
    case Reboot =>
      s.leased == None && s.coordinator.ready && s.coordinator.state == Installing
      && t == s.(coordinator := s.coordinator.(state := Rebooting, ready := false))
    case RequestCheck =>
      BeginCheck(s.coordinator).Some? && t == s.(coordinator := BeginCheck(s.coordinator).value)
    case CheckEnds(outcome) =>
      s.leased == None && s.coordinator.state == Checking
      && ((outcome in {Available, UpToDate} && t == s.(coordinator := s.coordinator.(state := outcome)))
          || (outcome == Failed && t == Flushed(s, Fail(s.coordinator))))
    case ValidationSucceeds =>
      s.leased == None && s.coordinator.state == Validating && s.published.firmwareActive
      && t == Flushed(s, Coordinator(NoUpdate, 0, s.coordinator.ready, true))
  }

  const BOOT_VIEW := AppView(false, false, [])

  /** After a normal boot, or after one into an image whose validation is pending. */
  predicate Initial(s: System) {
    s == System(Coordinator(NoUpdate, 0, false, false), 0, false, Between, BOOT_VIEW, BOOT_VIEW, None, {INTERNAL_ID})
    || s == System(Coordinator(Validating, 0, false, false), INTERNAL_ID, false, Between, BOOT_VIEW, BOOT_VIEW, None,
                   {INTERNAL_ID})
  }

  // ---------------------------------------------------------------- the invariant

  function TakenPrepare(s: System): u32 {
    if s.cycle == Between then 0 else s.cycle.prepare
  }

  predicate TakenFinish(s: System) {
    s.cycle.TookBoth? && s.cycle.finish
  }

  predicate NoSignals(s: System) {
    s.prepare == 0 && TakenPrepare(s) == 0 && !s.finish && !TakenFinish(s)
  }

  /** What a snapshot that shows the verdict for the pending permission must agree on. */
  predicate Current(s: System, view: AppView) {
    view.verdicts <= s.app.verdicts
    && (s.coordinator.state == WaitingPermission && HasVerdict(view, s.coordinator.permission) ==>
          view.firmwareActive == s.app.firmwareActive)
  }

  /** A permission waited for is requested, taken, or answered; once answered no signal is under way. */
  predicate WaitSound(s: System) {
    s.coordinator.state == WaitingPermission ==>
      var id := s.coordinator.permission;
      id != 0 && !s.coordinator.ready
      && (if HasVerdict(s.app, id) then NoSignals(s)
          else if TakenPrepare(s) == id then s.prepare == 0 && (s.cycle.TookBoth? ==> !s.finish)
          else s.prepare == id)
  }

  predicate Invariant(s: System) {
    !s.coordinator.finishSignal
    && (s.coordinator.permission != 0 ==> s.coordinator.state in {WaitingPermission, Installing, Rebooting})
    && (s.coordinator.ready ==> s.coordinator.state == Installing)
    && (s.prepare != 0 ==> s.prepare in s.permissions)
    && (TakenPrepare(s) != 0 ==> TakenPrepare(s) in s.permissions)
    && (s.coordinator.permission != 0 ==> s.coordinator.permission in s.permissions)
    && 0 !in s.permissions
    && (s.app.firmwareActive ==> !s.app.running)
    && Current(s, s.published) && (s.leased.Some? ==> Current(s, s.leased.value))
    && WaitSound(s)
    && (s.coordinator.state in {Installing, Rebooting} ==>
          s.app.firmwareActive && NoSignals(s) && s.coordinator.permission != 0)
  }

  lemma InitialHolds(s: System)
    requires Initial(s)
    ensures Invariant(s)
  {
  }

  predicate Asks(e: Queued, id: u32) {
    e.correlationId == id || id in e.coalesced
  }

  predicate Mentions(vs: seq<Verdict>, id: u32) {
    exists k :: 0 <= k < |vs| && vs[k].id == id
  }

  /** A batch answers exactly the nonzero ids it carries. */
  lemma {:induction false} BatchAnswers(q: seq<Queued>, accepted: seq<bool>, id: u32)
    requires |q| == |accepted| && id != 0
    ensures Mentions(VerdictsFor(q, accepted), id) <==> exists k :: 0 <= k < |q| && Asks(q[k], id)
  {
    if q != [] {
      var n := |q| - 1;
      BatchAnswers(q[..n], accepted[..n], id);
      EntryAnswers(q[n], accepted[n], id);
      MentionsJoined(VerdictsFor(q[..n], accepted[..n]), EntryVerdicts(q[n], accepted[n]), id);
      assert forall k :: 0 <= k < n ==> q[..n][k] == q[k];
    }
  }

  lemma MentionsJoined(a: seq<Verdict>, b: seq<Verdict>, id: u32)
    ensures Mentions(a + b, id) <==> Mentions(a, id) || Mentions(b, id)
  {
    if Mentions(a, id) {
      var k :| 0 <= k < |a| && a[k].id == id;
      assert (a + b)[k].id == id;
    }
    if Mentions(b, id) {
      var k :| 0 <= k < |b| && b[k].id == id;
      assert (a + b)[|a| + k].id == id;
    }
  }

  lemma EntryAnswers(e: Queued, accepted: bool, id: u32)
    requires id != 0
    ensures Mentions(EntryVerdicts(e, accepted), id) <==> Asks(e, id)
  {
    var head := if e.correlationId == 0 then [] else [Verdict(e.correlationId, accepted)];
    MentionsJoined(head, Answers(e.coalesced, accepted), id);
    if id in e.coalesced {
      var k :| 0 <= k < |e.coalesced| && e.coalesced[k] == id;
      assert Answers(e.coalesced, accepted)[k].id == id;
    }
    if e.correlationId == id {
      assert head[0].id == id;
    }
  }

  /** A cycle answers the permission it consumed and no other, and without signals keeps the interlock. */
  lemma TickFacts(s: System, externals: seq<Queued>, after: AppView)
    requires s.cycle.TookBoth? && NotPermissions(externals, s.permissions)
    requires CycleEffect(s.app, s.cycle.prepare, s.cycle.finish, externals, after)
    ensures s.app.verdicts <= after.verdicts && (after.firmwareActive ==> !after.running)
    ensures forall id :: id in s.permissions && id != 0 ==>
              (HasVerdict(after, id) <==> HasVerdict(s.app, id) || id == s.cycle.prepare)
    ensures s.cycle.finish ==> !after.firmwareActive
    ensures s.cycle.prepare == 0 && !s.cycle.finish ==> after.firmwareActive == s.app.firmwareActive
  {
    var q := Internal(s.cycle.prepare, s.cycle.finish);
    var accepted: seq<bool> :| |accepted| == |q + externals|
      && after.verdicts == s.app.verdicts + VerdictsFor(q + externals, accepted)
      && after.firmwareActive == FirmwareAfter(s.app.firmwareActive, q + externals, accepted)
      && (after.firmwareActive ==> !after.running);
    ExternalsLeaveFirmware(s.app.firmwareActive, q, externals, accepted);
    InternalFirmware(s.app.firmwareActive, s.cycle.prepare, s.cycle.finish, accepted[..|q|]);
    forall id | id in s.permissions && id != 0
      ensures HasVerdict(after, id) <==> HasVerdict(s.app, id) || id == s.cycle.prepare
    {
      BatchAnswers(q + externals, accepted, id);
      MentionsJoined(s.app.verdicts, VerdictsFor(q + externals, accepted), id);
      CarriedPermission(s.cycle.prepare, s.cycle.finish, externals, s.permissions, id);
    }
  }

  lemma CarriedPermission(prepare: u32, finish: bool, externals: seq<Queued>, permissions: set<u32>, id: u32)
    requires NotPermissions(externals, permissions) && id in permissions && id != 0
    ensures var q := Internal(prepare, finish) + externals;
            (exists k :: 0 <= k < |q| && Asks(q[k], id)) <==> id == prepare
  {
    var i := Internal(prepare, finish);
    var q := i + externals;
    assert forall k :: 0 <= k < |externals| ==> !Asks(externals[k], id);
    assert forall k :: |i| <= k < |q| ==> q[k] == externals[k - |i|];
    assert forall k :: 0 <= k < |i| ==> q[k] == i[k];
    if id == prepare {
      assert Asks(q[0], id);
    }
  }

  lemma Answered(c: Coordinator, view: AppView)
    requires Observe(c, view).state == Installing && c.state == WaitingPermission
    ensures HasVerdict(view, c.permission) && view.firmwareActive
  {
    var v := Verdict(c.permission, true);
    assert v in Newest(view.verdicts);
    var k :| 0 <= k < |Newest(view.verdicts)| && Newest(view.verdicts)[k] == v;
    assert view.verdicts[|view.verdicts| - |Newest(view.verdicts)| + k] == v;
  }

  lemma PrefixVerdict(view: AppView, app: AppView, id: u32)
    requires view.verdicts <= app.verdicts && HasVerdict(view, id)
    ensures HasVerdict(app, id)
  {
    var k :| 0 <= k < |view.verdicts| && view.verdicts[k].id == id;
    assert app.verdicts[k].id == id;
  }

  lemma TickHolds(s: System, step: Step, t: System)
    requires Invariant(s) && step.Tick? && Next(s, step, t)
    ensures Invariant(t)
  {
    TickFacts(s, step.externals, step.after);
    var id := s.coordinator.permission;
    if s.coordinator.state == WaitingPermission {
      if HasVerdict(s.published, id) { PrefixVerdict(s.published, s.app, id); }
      if s.leased.Some? && HasVerdict(s.leased.value, id) { PrefixVerdict(s.leased.value, s.app, id); }
      if HasVerdict(s.app, id) { PrefixVerdict(s.app, t.app, id); }
    }
  }

  lemma RequestHolds(s: System, step: Step, t: System)
    requires Invariant(s) && step.Request? && Next(s, step, t)
    ensures Invariant(t)
  {
    if HasVerdict(s.published, step.id) { PrefixVerdict(s.published, s.app, step.id); }
    if s.leased.Some? && HasVerdict(s.leased.value, step.id) { PrefixVerdict(s.leased.value, s.app, step.id); }
  }

  lemma InspectHolds(s: System, t: System)
    requires Invariant(s) && Next(s, Inspect, t)
    ensures Invariant(t)
  {
    if t.coordinator.state == Installing && s.coordinator.state == WaitingPermission {
      Answered(s.coordinator, s.leased.value);
      PrefixVerdict(s.leased.value, s.app, s.coordinator.permission);
    }
  }

  /** Every step of every task keeps the invariant. */
  lemma StepHolds(s: System, step: Step, t: System)
    requires Invariant(s) && Next(s, step, t)
    ensures Invariant(t)
  {
    match step
    case Tick(_, _, _) => TickHolds(s, step, t);
    case Request(_, _) => RequestHolds(s, step, t);
    case Inspect => InspectHolds(s, t);
    case _ =>
  }

  /** States reached one after another by steps of any task. */
  ghost predicate Run(states: seq<System>, steps: seq<Step>) {
    |states| == |steps| + 1 && Initial(states[0])
    && forall k :: 0 <= k < |steps| ==> Next(states[k], steps[k], states[k + 1])
  }

  lemma {:induction false} RunHolds(states: seq<System>, steps: seq<Step>, n: nat)
    requires Run(states, steps) && n < |states|
    ensures Invariant(states[n])
  {
    if n == 0 {
      InitialHolds(states[0]);
    } else {
      RunHolds(states, steps, n - 1);
      StepHolds(states[n - 1], steps[n - 1], states[n]);
    }
  }

  /**
   * In every interleaving: while an image is being installed the interlock is held, no session
   * runs, and no Finish is under way that could release it.
   */
  lemma InstallingIsInterlocked(states: seq<System>, steps: seq<Step>, n: nat)
    requires Run(states, steps) && n < |states| && states[n].coordinator.state in {Installing, Rebooting}
    ensures states[n].app.firmwareActive && !states[n].app.running
    ensures !states[n].finish && !TakenFinish(states[n])
  {
    RunHolds(states, steps, n);
  }

  /** A cycle that has consumed a Finish releases the interlock, and no installation is under way then. */
  lemma FinishIsNeverStale(states: seq<System>, steps: seq<Step>, n: nat)
    requires Run(states, steps) && n < |steps| && steps[n].Tick? && TakenFinish(states[n])
    ensures !states[n + 1].app.firmwareActive && states[n].coordinator.state !in {Installing, Rebooting}
  {
    RunHolds(states, steps, n);
    assert Next(states[n], steps[n], states[n + 1]);
    TickFacts(states[n], steps[n].externals, steps[n].after);
  }

  // ---------------------------------------------------------------- how a permission is decided

  /** Verdict `k` of a snapshot is the first one for an id among its sixteen newest. */
  predicate FirstShown(view: AppView, id: u32, k: nat) {
    var oldest := if |view.verdicts| <= 16 then 0 else |view.verdicts| - 16;
    oldest <= k < |view.verdicts| && view.verdicts[k].id == id
    && forall j :: oldest <= j < k ==> view.verdicts[j].id != id
  }

  lemma {:induction false} FirstFound(results: seq<Verdict>, id: u32, k: nat)
    requires k < |results| && results[k].id == id && forall j :: 0 <= j < k ==> results[j].id != id
    ensures FirstVerdict(results, id) == Some(results[k].accepted)
  {
    if k > 0 {
      assert results[0].id != id;
      FirstFound(results[1..], id, k - 1);
    }
  }

  lemma {:induction false} NoneFound(results: seq<Verdict>, id: u32)
    requires forall k :: 0 <= k < |results| ==> results[k].id != id
    ensures FirstVerdict(results, id) == None
  {
    if results != [] {
      NoneFound(results[1..], id);
    }
  }

  lemma ShownIsFound(view: AppView, id: u32, k: nat)
    requires FirstShown(view, id, k)
    ensures FirstVerdict(Newest(view.verdicts), id) == Some(view.verdicts[k].accepted)
  {
    var vs := view.verdicts;
    FirstFound(Newest(vs), id, if |vs| <= 16 then k else k - (|vs| - 16));
  }

  lemma NotShownNotFound(view: AppView, id: u32)
    requires forall k :: !FirstShown(view, id, k)
    ensures FirstVerdict(Newest(view.verdicts), id) == None
  {
    var vs := view.verdicts;
    var oldest := if |vs| <= 16 then 0 else |vs| - 16;
    var n := oldest;
    while n < |vs|
      invariant oldest <= n <= |vs| && forall j :: oldest <= j < n ==> vs[j].id != id
    {
      assert !FirstShown(view, id, n);
      n := n + 1;
    }
    NoneFound(Newest(vs), id);
  }

  /**
   * A coordinator that inspects the verdict for its permission begins to install if the verdict is
   * positive and the snapshot shows the interlock, and otherwise fails and hands over a Finish.
   */
  lemma InspectDecides(s: System, t: System, k: nat)
    requires Invariant(s) && Next(s, Inspect, t) && s.coordinator.state == WaitingPermission
    requires FirstShown(s.leased.value, s.coordinator.permission, k)
    ensures var granted := s.leased.value.verdicts[k].accepted && s.leased.value.firmwareActive;
            t.coordinator == (if granted then Coordinator(Installing, s.coordinator.permission, true, false)
                              else Coordinator(Failed, 0, false, false))
            && (t.finish <==> s.finish || !granted)
    ensures t == s.(coordinator := t.coordinator, finish := t.finish, leased := None)
  {
    hide Newest, FirstVerdict, Current, FirstShown;
    ShownIsFound(s.leased.value, s.coordinator.permission, k);
  }

  /** In any other state, or without a verdict for the permission, an inspection changes nothing. */
  lemma InspectWaits(s: System, t: System)
    requires Invariant(s) && Next(s, Inspect, t)
    requires s.coordinator.state == WaitingPermission ==> forall k :: !FirstShown(s.leased.value, s.coordinator.permission, k)
    ensures t == s.(leased := None)
  {
    hide Newest, FirstVerdict, Current, WaitSound, FirstShown;
    if s.coordinator.state == WaitingPermission {
      NotShownNotFound(s.leased.value, s.coordinator.permission);
    }
  }

  /**
   * An installation is admitted exactly in state Available, with no running session seen and no
   * Prepare pending; then its id is waited for and signalled, and otherwise nothing changes.
   */
  lemma RequestAdmittedIff(s: System, id: u32, sawRunning: bool, t: System)
    requires Invariant(s) && Next(s, Request(id, sawRunning), t)
    ensures t.coordinator != s.coordinator || t.prepare != s.prepare
            <==> s.coordinator.state == Available && !sawRunning && s.prepare == 0
    ensures t.coordinator != s.coordinator || t.prepare != s.prepare ==>
              t.coordinator == Coordinator(WaitingPermission, id, false, false) && t.prepare == id
    ensures t == s.(coordinator := t.coordinator, prepare := t.prepare, permissions := t.permissions)
  {
  }

  /** Giving up leaves nothing of the permission behind but a Finish, raised exactly if one was held. */
  lemma GivesUp(s: System, step: Step, t: System)
    requires Invariant(s) && Next(s, step, t) && step in {Timeout, InstallFails, CheckEnds(Failed)}
    ensures t == s.(coordinator := Coordinator(Failed, 0, false, false), finish := t.finish)
    ensures t.finish <==> s.finish || s.coordinator.permission != 0
  {
  }

  /** The coordinator follows these transitions and no others. */
  lemma StateMoves(s: System, step: Step, t: System)
    requires Invariant(s) && Next(s, step, t)
    ensures t.coordinator.state == s.coordinator.state
            || (s.coordinator.state, t.coordinator.state) in {
                 (NoUpdate, Checking), (UpToDate, Checking), (Available, Checking), (Failed, Checking),
                 (Checking, Available), (Checking, UpToDate), (Checking, Failed),
                 (Available, WaitingPermission), (WaitingPermission, Installing), (WaitingPermission, Failed),
                 (Installing, Rebooting), (Installing, Failed), (Validating, NoUpdate)}
  {
  }

  /** A pending Prepare is not answered yet, and it is not the one a cycle has taken. */
  predicate Answering(s: System) {
    (s.prepare != 0 ==> !HasVerdict(s.app, s.prepare) && s.prepare != TakenPrepare(s))
    && (TakenPrepare(s) != 0 ==> !HasVerdict(s.app, TakenPrepare(s)))
  }

  /** All verdicts for an id agree. */
  predicate OneAnswer(vs: seq<Verdict>, id: u32, accepted: bool) {
    forall k :: 0 <= k < |vs| && vs[k].id == id ==> vs[k].accepted == accepted
  }

  /** A cycle that does not carry an id has no new verdict for it. */
  lemma TickLeaves(s: System, externals: seq<Queued>, after: AppView, id: u32, accepted: bool)
    requires s.cycle.TookBoth? && NotPermissions(externals, s.permissions) && id in s.permissions && id != 0
    requires CycleEffect(s.app, s.cycle.prepare, s.cycle.finish, externals, after) && id != s.cycle.prepare
    ensures OneAnswer(s.app.verdicts, id, accepted) ==> OneAnswer(after.verdicts, id, accepted)
    ensures Verdict(id, accepted) in after.verdicts <==> Verdict(id, accepted) in s.app.verdicts
  {
    hide FirmwareAfter, VerdictsFor, Internal;
    var q := Internal(s.cycle.prepare, s.cycle.finish) + externals;
    var answers: seq<bool> :| |answers| == |q|
      && after.verdicts == s.app.verdicts + VerdictsFor(q, answers)
      && after.firmwareActive == FirmwareAfter(s.app.firmwareActive, q, answers)
      && (after.firmwareActive ==> !after.running);
    BatchAnswers(q, answers, id);
    CarriedPermission(s.cycle.prepare, s.cycle.finish, externals, s.permissions, id);
    var added := VerdictsFor(q, answers);
    assert forall k :: 0 <= k < |added| ==> added[k].id != id;
    assert forall k :: |s.app.verdicts| <= k < |after.verdicts| ==> after.verdicts[k] == added[k - |s.app.verdicts|];
    assert forall k :: 0 <= k < |s.app.verdicts| ==> after.verdicts[k] == s.app.verdicts[k];
  }

  /** A cycle that carries an unanswered id answers it as a whole; granting it takes the interlock until a Finish. */
  lemma TickAnswers(s: System, externals: seq<Queued>, after: AppView, id: u32, accepted: bool)
    requires s.cycle.TookBoth? && NotPermissions(externals, s.permissions) && id in s.permissions && id != 0
    requires CycleEffect(s.app, s.cycle.prepare, s.cycle.finish, externals, after) && id == s.cycle.prepare
    requires !HasVerdict(s.app, id) && Verdict(id, accepted) in after.verdicts
    ensures OneAnswer(after.verdicts, id, accepted)
    ensures accepted ==> (after.firmwareActive <==> !s.cycle.finish)
  {
    hide FirmwareAfter, VerdictsFor;
    var q := Internal(s.cycle.prepare, s.cycle.finish);
    var answers: seq<bool> :| |answers| == |q + externals|
      && after.verdicts == s.app.verdicts + VerdictsFor(q + externals, answers)
      && after.firmwareActive == FirmwareAfter(s.app.firmwareActive, q + externals, answers)
      && (after.firmwareActive ==> !after.running);
    assert forall k :: 0 <= k < |externals| ==> !Asks(externals[k], id);
    assert forall k :: |q| <= k < |q + externals| ==> (q + externals)[k] == externals[k - |q|];
    assert forall k :: 1 <= k < |q| ==> !Asks(q[k], id);
    BatchAgrees(q + externals, answers, id, answers[0]);
    ExternalsLeaveFirmware(s.app.firmwareActive, q, externals, answers);
    InternalFirmware(s.app.firmwareActive, s.cycle.prepare, s.cycle.finish, answers[..|q|]);
  }

  lemma {:induction false} BatchAgrees(q: seq<Queued>, accepted: seq<bool>, id: u32, answer: bool)
    requires |q| == |accepted| && id != 0
    requires forall k :: 0 <= k < |q| && Asks(q[k], id) ==> accepted[k] == answer
    ensures OneAnswer(VerdictsFor(q, accepted), id, answer)
  {
    if q != [] {
      var n := |q| - 1;
      BatchAgrees(q[..n], accepted[..n], id, answer);
      EntryAnswers(q[n], accepted[n], id);
      assert forall v :: v in EntryVerdicts(q[n], accepted[n]) ==> v.accepted == accepted[n];
    }
  }

  lemma AnsweringHolds(s: System, step: Step, t: System)
    requires Invariant(s) && Answering(s) && Next(s, step, t)
    ensures Answering(t)
  {
    match step
    case Tick(externals, after, _) =>
      TickFacts(s, externals, after);
    case _ =>
  }

  lemma {:induction false} RunAnswers(states: seq<System>, steps: seq<Step>, n: nat)
    requires Run(states, steps) && n < |states|
    ensures Invariant(states[n]) && Answering(states[n])
  {
    hide Invariant, Answering, Next;
    RunHolds(states, steps, n);
    if n == 0 {
      InitiallyAnswering(states[0]);
    } else {
      RunAnswers(states, steps, n - 1);
      AnsweringHolds(states[n - 1], steps[n - 1], states[n]);
    }
  }

  lemma InitiallyAnswering(s: System)
    requires Initial(s)
    ensures Answering(s)
  {
  }

  /** Once a cycle has answered a permission, there is only this answer, and the interlock waits for it. */
  lemma {:induction false} AnswerStays(states: seq<System>, steps: seq<Step>, m: nat, n: nat, id: u32, accepted: bool)
    requires Run(states, steps) && m < n < |states| && steps[m].Tick? && TakenPrepare(states[m]) == id != 0
    requires Verdict(id, accepted) in states[m + 1].app.verdicts
    ensures id in states[n].permissions && Verdict(id, accepted) in states[n].app.verdicts
    ensures OneAnswer(states[n].app.verdicts, id, accepted)
    ensures states[n].coordinator.state == WaitingPermission && states[n].coordinator.permission == id && accepted ==>
              (states[n].app.firmwareActive <==> !TakenFinish(states[m]))
  {
    hide CycleEffect, NotPermissions, Initial;
    var s, step, t := states[n - 1], steps[n - 1], states[n];
    RunAnswers(states, steps, n - 1);
    assert Next(s, step, t);
    if n == m + 1 {
      TickAnswers(s, step.externals, step.after, id, accepted);
    } else {
      AnswerStays(states, steps, m, n - 1, id, accepted);
      Appears(s.app, id, accepted);
      if step.Tick? {
        TickLeaves(s, step.externals, step.after, id, accepted);
        TickFacts(s, step.externals, step.after);
      }
    }
  }

  lemma Appears(view: AppView, id: u32, accepted: bool)
    requires Verdict(id, accepted) in view.verdicts
    ensures HasVerdict(view, id)
  {
    var k :| 0 <= k < |view.verdicts| && view.verdicts[k] == Verdict(id, accepted);
  }

  /**
   * In every run: whatever cycle `m` answered to a permission decides it. The first inspection of a
   * snapshot that shows the answer begins to install if it was positive and no Finish of an earlier
   * installation came with it; otherwise it fails.
   */
  lemma CycleDecides(states: seq<System>, steps: seq<Step>, m: nat, n: nat, id: u32, accepted: bool, k: nat)
    requires Run(states, steps) && m < n < |steps| && steps[m].Tick? && TakenPrepare(states[m]) == id != 0
    requires Verdict(id, accepted) in states[m + 1].app.verdicts
    requires steps[n] == Inspect && states[n].coordinator.state == WaitingPermission
    requires states[n].coordinator.permission == id && states[n].leased.Some?
    requires FirstShown(states[n].leased.value, id, k)
    ensures var granted := accepted && !TakenFinish(states[m]);
            states[n + 1].coordinator.state == (if granted then Installing else Failed)
            && (states[n + 1].coordinator.ready <==> granted) && (!granted ==> states[n + 1].finish)
  {
    var s, view := states[n], states[n].leased.value;
    RunAnswers(states, steps, n);
    AnswerStays(states, steps, m, n, id, accepted);
    assert Next(s, Inspect, states[n + 1]);
    InspectDecides(s, states[n + 1], k);
    assert s.app.verdicts[k] == view.verdicts[k];
    assert HasVerdict(view, id);
  }

  // ---------------------------------------------------------------- giving the permission back

  /** The interlock is held, or a request that will take it is under way. */
  predicate Held(s: System) {
    s.app.firmwareActive || s.prepare != 0 || TakenPrepare(s) != 0
  }

  predicate Owned(s: System) {
    s.coordinator.state in {WaitingPermission, Installing, Rebooting, Validating}
  }

  /** A Finish is under way, and no Prepare will be processed behind it. */
  predicate ReleaseComing(s: System) {
    (s.finish && (s.prepare == 0 || !s.cycle.TookPrepare?)) || (TakenFinish(s) && s.prepare == 0)
  }

  /** Whatever holds the interlock is either still wanted or about to be released. */
  predicate NothingLeaks(s: System) {
    Held(s) && !Owned(s) ==> ReleaseComing(s)
  }

  /** A validating image holds the interlock from its own Prepare on. */
  predicate ValidatingSound(s: System) {
    s.coordinator.state == Validating ==>
      !s.finish && !TakenFinish(s) && s.coordinator.permission == 0
      && (s.prepare != 0 || TakenPrepare(s) != 0 ==> !s.app.firmwareActive && !s.published.firmwareActive)
      && (s.prepare == 0 || TakenPrepare(s) == 0)
  }

  /**
   * The one dangerous moment: the permission times out between a cycle's look for a Prepare and its
   * look for a Finish, after that cycle missed the Prepare.
   */
  predicate Overtakes(s: System, step: Step) {
    step == Timeout && s.prepare != 0 && s.cycle.TookPrepare?
  }

  lemma ValidatingHolds(s: System, step: Step, t: System)
    requires Invariant(s) && ValidatingSound(s) && Next(s, step, t)
    ensures ValidatingSound(t)
  {
    match step
    case Tick(externals, after, _) => TickFacts(s, externals, after);
    case _ =>
  }

  /** A step leaks the permission exactly when it is an overtaking timeout. */
  lemma LeakExactlyByOvertaking(s: System, step: Step, t: System)
    requires Invariant(s) && ValidatingSound(s) && NothingLeaks(s) && Next(s, step, t)
    ensures NothingLeaks(t) <==> !Overtakes(s, step)
  {
    match step
    case Tick(externals, after, _) => TickFacts(s, externals, after);
    case Inspect => LateInspect(s, t);
    case _ =>
  }

  lemma LateInspect(s: System, t: System)
    requires Invariant(s) && NothingLeaks(s) && Next(s, Inspect, t)
    ensures NothingLeaks(t)
  {
    var c, view := s.coordinator, s.leased.value;
    if c.state == WaitingPermission && Observe(c, view) != c {
      var v := Verdict(c.permission, FirstVerdict(Newest(view.verdicts), c.permission).value);
      assert v in Newest(view.verdicts);
      var k :| 0 <= k < |Newest(view.verdicts)| && Newest(view.verdicts)[k] == v;
      assert view.verdicts[|view.verdicts| - |Newest(view.verdicts)| + k] == v;
      PrefixVerdict(view, s.app, c.permission);
    }
  }

  lemma {:induction false} RunDoesNotLeak(states: seq<System>, steps: seq<Step>, n: nat)
    requires Run(states, steps) && n < |states|
    requires forall k :: 0 <= k < n ==> !Overtakes(states[k], steps[k])
    ensures NothingLeaks(states[n]) && ValidatingSound(states[n])
  {
    if n > 0 {
      RunDoesNotLeak(states, steps, n - 1);
      RunHolds(states, steps, n - 1);
      assert Next(states[n - 1], steps[n - 1], states[n]);
      ValidatingHolds(states[n - 1], steps[n - 1], states[n]);
      LeakExactlyByOvertaking(states[n - 1], steps[n - 1], states[n]);
    }
  }

  /** Nobody wants the interlock any more, and nothing is under way that would release it. */
  predicate Leaked(s: System) {
    s.app.firmwareActive && !Owned(s) && NoSignals(s)
  }

  /** A leaked permission stays until someone asks for another installation. */
  lemma LeakStays(s: System, step: Step, t: System)
    requires Invariant(s) && Leaked(s) && Next(s, step, t) && !step.Request?
    ensures Leaked(t)
  {
    match step
    case Tick(externals, after, _) => TickFacts(s, externals, after);
    case _ =>
  }

  function Sys(state: UpdateState, permission: u32, prepare: u32, finish: bool, cycle: Cycle, app: AppView,
               permissions: set<u32>): System {
    System(Coordinator(state, permission, false, false), prepare, finish, cycle, app, app, None, permissions)
  }

  /** A run with an overtaking timeout that ends with a leaked permission. */
  lemma PermissionCanLeak()
    ensures exists states, steps :: Run(states, steps) && Leaked(states[|states| - 1])
  {
    hide CycleEffect, Observe, NotPermissions;
    var held := AppView(true, false, [Verdict(7, true)]);
    var a, b := {INTERNAL_ID}, {INTERNAL_ID, 7};
    var states := [
      Sys(NoUpdate, 0, 0, false, Between, BOOT_VIEW, a),
      Sys(Checking, 0, 0, false, Between, BOOT_VIEW, a),
      Sys(Available, 0, 0, false, Between, BOOT_VIEW, a),
      Sys(Available, 0, 0, false, TookPrepare(0), BOOT_VIEW, a),
      Sys(WaitingPermission, 7, 7, false, TookPrepare(0), BOOT_VIEW, b),
      Sys(Failed, 0, 7, true, TookPrepare(0), BOOT_VIEW, b),
      Sys(Failed, 0, 7, false, TookBoth(0, true), BOOT_VIEW, b),
      Sys(Failed, 0, 7, false, Between, BOOT_VIEW, b),
      Sys(Failed, 0, 0, false, TookPrepare(7), BOOT_VIEW, b),
      Sys(Failed, 0, 0, false, TookBoth(7, false), BOOT_VIEW, b),
      Sys(Failed, 0, 0, false, Between, held, b)];
    var steps := [
      RequestCheck, CheckEnds(Available), TakePrepare, Request(7, false), Timeout, TakeFinish,
      Tick([], BOOT_VIEW, true), TakePrepare, TakeFinish, Tick([], held, true)];
    RejectedFinish();
    AcceptedPrepare(held);
    NothingCarried(b);
    forall k | 0 <= k < |steps|
      ensures Next(states[k], steps[k], states[k + 1])
    {
      if k == 3 {
        assert Requested(states[3], 7, false) == states[4];
      } else if k == 4 {
        assert Flushed(states[4], Fail(states[4].coordinator)) == states[5];
      }
    }
    assert Run(states, steps);
  }

  lemma NothingCarried(permissions: set<u32>)
    ensures NotPermissions([], permissions)
  {
  }

  lemma RejectedFinish()
    ensures CycleEffect(BOOT_VIEW, 0, true, [], BOOT_VIEW)
  {
    var q := Internal(0, true) + [];
    var accepted := [false];
    assert q == [Queued(FinishFirmwareUpdate, 0, [])];
    assert q[..0] == [] && accepted[..0] == [];
    assert VerdictsFor(q, accepted) == VerdictsFor([], []) + EntryVerdicts(q[0], false) == [];
    assert BOOT_VIEW.verdicts == BOOT_VIEW.verdicts + VerdictsFor(q, accepted);
    assert |accepted| == |Internal(0, true) + []|;
  }

  lemma AcceptedPrepare(held: AppView)
    requires held == AppView(true, false, [Verdict(7, true)])
    ensures CycleEffect(BOOT_VIEW, 7, false, [], held)
  {
    var q := Internal(7, false) + [];
    var accepted := [true];
    assert q == [Queued(PrepareFirmwareUpdate, 7, [])];
    assert q[..0] == [] && accepted[..0] == [];
    assert VerdictsFor(q, accepted) == VerdictsFor([], []) + EntryVerdicts(q[0], true);
    assert EntryVerdicts(q[0], true) == [Verdict(7, true)];
    assert held.verdicts == BOOT_VIEW.verdicts + VerdictsFor(q, accepted);
    assert |accepted| == |Internal(7, false) + []|;
  }
}
