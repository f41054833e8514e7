/** One turn of the control task: firmware signals, external commands, tick. */
module ControlLoop {
  import opened Bytes
  import opened Domain
  import opened ControlCore
  import opened CommandQueue
  import opened ControlTrace
  import opened CommandEffects
  import opened SmokerApplication
  import opened CommandTransport

  /** What other tasks can see of the application after a cycle. */
  datatype AppView = AppView(firmwareActive: bool, running: bool, verdicts: seq<Verdict>)

  function Internal(prepare: u32, finish: bool): seq<Queued> {
    (if prepare == 0 then [] else [Queued(PrepareFirmwareUpdate, prepare, [])])
    + if finish then [Queued(FinishFirmwareUpdate, 0, [])] else []
  }

  predicate AllExternal(q: seq<Queued>) {
    forall k :: 0 <= k < |q| ==> External(q[k].command)
  }

  /**
   * All that a cycle can do to the firmware interlock and to verdicts, given the signals it
   * consumed: Prepare is judged before Finish, and external commands touch neither.
   */
  ghost predicate CycleEffect(before: AppView, prepare: u32, finish: bool, externals: seq<Queued>, after: AppView) {
    AllExternal(externals)
    && exists accepted: seq<bool> ::
         |accepted| == |Internal(prepare, finish) + externals|
         && after.verdicts == before.verdicts + VerdictsFor(Internal(prepare, finish) + externals, accepted)
         && after.firmwareActive
            == FirmwareAfter(before.firmwareActive, Internal(prepare, finish) + externals, accepted)
         && (after.firmwareActive ==> !after.running)
  }

  lemma {:induction false} ExternalsLeaveFirmware(active: bool, q: seq<Queued>, externals: seq<Queued>, accepted: seq<bool>)
    requires |accepted| == |q + externals| && AllExternal(externals)
    ensures FirmwareAfter(active, q + externals, accepted) == FirmwareAfter(active, q, accepted[..|q|])
  {
    if externals == [] {
      assert q + externals == q && accepted[..|q|] == accepted;
    } else {
      var n := |externals| - 1;
      assert (q + externals)[..|q| + n] == q + externals[..n] && (q + externals)[|q| + n] == externals[n];
      ExternalsLeaveFirmware(active, q, externals[..n], accepted[..|q| + n]);
      assert accepted[..|q| + n][..|q|] == accepted[..|q|];
    }
  }

  /** The interlock after the two internal commands. */
  lemma InternalFirmware(active: bool, prepare: u32, finish: bool, accepted: seq<bool>)
    requires |accepted| == |Internal(prepare, finish)|
    ensures FirmwareAfter(active, Internal(prepare, finish), accepted)
         == if finish then false else if prepare != 0 && accepted[0] then true else active
  {
    var q := Internal(prepare, finish);
    if prepare != 0 {
      assert q[..1] == Internal(prepare, false) && q[..1][..0] == [];
    }
    if finish {
      assert q[|q| - 1].command == FinishFirmwareUpdate;
    } else if prepare == 0 {
      assert q == [];
    }
  }

  /** A cycle that consumes a Finish ends with the interlock released, whatever else it processed. */
  lemma FinishReleases(before: AppView, prepare: u32, externals: seq<Queued>, after: AppView)
    requires CycleEffect(before, prepare, true, externals, after)
    ensures !after.firmwareActive
  {
    var q := Internal(prepare, true);
    var accepted: seq<bool> :| |accepted| == |q + externals|
      && after.firmwareActive == FirmwareAfter(before.firmwareActive, q + externals, accepted);
    ExternalsLeaveFirmware(before.firmwareActive, q, externals, accepted);
    InternalFirmware(before.firmwareActive, prepare, true, accepted[..|q|]);
  }

  /** One look of the control task at a signal, and what it took away. */
  datatype Taken = PrepareTaken(id: u32) | FinishTaken(raised: bool)

  class FirmwareSignals {
    var prepareCorrelation: u32
    var finishRequested: bool
    /** Everything the control task has taken, in order. */
    ghost var taken: seq<Taken>

    constructor ()
      ensures prepareCorrelation == 0 && !finishRequested && taken == []
    {
      prepareCorrelation, finishRequested, taken := 0, false, [];
    }

    /** Requesters and the update task raise signals at any time; only the control task takes them away. */
    method OthersRun()
      modifies this`prepareCorrelation, this`finishRequested
      ensures old(prepareCorrelation) != 0 ==> prepareCorrelation == old(prepareCorrelation)
      ensures old(finishRequested) ==> finishRequested
    {
      if prepareCorrelation == 0 {
        prepareCorrelation := *;
      }
      var raise: bool := *;
      finishRequested := finishRequested || raise;
    }

    method ConsumePrepareRequest() returns (id: u32)
      modifies this
      ensures id == old(prepareCorrelation) && prepareCorrelation == 0 && finishRequested == old(finishRequested)
      ensures taken == old(taken) + [PrepareTaken(id)]
    {
      id := prepareCorrelation;
      prepareCorrelation := 0;
      taken := taken + [PrepareTaken(id)];
    }

    method ConsumeFinishRequest() returns (finish: bool)
      modifies this
      ensures finish == old(finishRequested) && !finishRequested && prepareCorrelation == old(prepareCorrelation)
      ensures taken == old(taken) + [FinishTaken(finish)]
    {
      finish := finishRequested;
      finishRequested := false;
      taken := taken + [FinishTaken(finish)];
    }
  }

  /** The only Stop of a batch is its last command, so the Stop barrier leaves nothing behind. */
  lemma NothingLeft(prepare: u32, finish: bool, log: seq<Serve>, rest: seq<Queued>, accepted: seq<bool>, stopped: bool)
    requires Drained(Internal(prepare, finish) + Entries(log), rest, accepted, stopped)
    requires forall k :: 0 <= k < |log| - 1 ==> !StopsAt(log, k)
    requires forall k :: 0 <= k < |log| ==> External(log[k].item.command)
    ensures rest == [] && |accepted| == |Internal(prepare, finish) + Entries(log)| && AllExternal(Entries(log))
  {
    var q := Internal(prepare, finish);
    OnlyLastStops(log);
    if stopped {
      var n := |accepted| - 1;
      assert (q + Entries(log))[n].command.StopSession?;
      assert n >= |q| && Entries(log)[n - |q|].command.StopSession?;
    }
  }

  lemma OnlyLastStops(log: seq<Serve>)
    requires forall k :: 0 <= k < |log| - 1 ==> !StopsAt(log, k)
    requires forall k :: 0 <= k < |log| ==> External(log[k].item.command)
    ensures AllExternal(Entries(log))
    ensures forall k :: 0 <= k < |Entries(log)| - 1 ==> !Entries(log)[k].command.StopSession?
  {
    if log != [] {
      var front, x := log[..|log| - 1], log[|log| - 1];
      assert log == front + [x];
      forall k | 0 <= k < |front|
        ensures External(front[k].item.command) && !StopsAt(front, k)
      {
        assert !StopsAt(log, k);
      }
      EntriesPlain(front);
      OneMore(front, x, true);
    }
  }

  class ControlTask {
    const app: SmokerApplication
    const signals: FirmwareSignals
    const http: SpscCommandMailbox
    const blynk: SpscCommandMailbox
    const externalCommands: RoundRobinCommandDrain

    /** Between cycles the application queue is empty. */
    ghost predicate Valid()
      reads this, app, app.queue, app.queue.slots, http, http.slots, blynk, blynk.slots
    {
      app.Valid() && app.queue.Valid() && app.queue.Contents() == []
      && http.Valid() && blynk.Valid() && http != blynk && http.slots != blynk.slots
    }

    ghost function View(): AppView
      reads app
    {
      AppView(app.firmwareUpdateActive, IsRunning(app.session), app.verdicts)
    }

    constructor (application: SmokerApplication, firmware: FirmwareSignals, h: SpscCommandMailbox, b: SpscCommandMailbox)
      requires application.Valid() && application.queue.Valid() && application.queue.Contents() == []
      requires h.Valid() && b.Valid() && h != b && h.slots != b.slots
      ensures Valid() && app == application && signals == firmware && http == h && blynk == b && fresh(externalCommands)
    {
      app, signals, http, blynk := application, firmware, h, b;
      externalCommands := new RoundRobinCommandDrain();
    }

    /** The internal commands of a cycle; both always find room. */
    method SubmitSignals() returns (prepare: u32, finish: bool)
      requires Valid()
      modifies signals, app`overflowCount, app`commandResults, app`verdicts, app`issued, app`displaced, app.queue, app.queue.slots
      ensures app.Valid() && app.queue.Valid() && app.queue.Contents() == Internal(prepare, finish)
      ensures app.verdicts == old(app.verdicts)
      ensures prepare == old(signals.prepareCorrelation) && (old(signals.finishRequested) ==> finish)
      ensures !signals.finishRequested
      ensures signals.taken == old(signals.taken) + [PrepareTaken(prepare), FinishTaken(finish)]
    {
      hide SmokerApplication.Valid, CommandRing.Valid, CommandRing.Contents;
      prepare := signals.ConsumePrepareRequest();
      if prepare != 0 {
        var admitted := SubmitToApplication(PrepareFirmwareUpdate, prepare);
        if !admitted {
          assert false; // so the request is never put back for a retry
        }
      }
      signals.OthersRun();
      finish := signals.ConsumeFinishRequest();
      if finish {
        var admitted := SubmitToApplication(FinishFirmwareUpdate, 0);
        if !admitted {
          assert false; // likewise
        }
      }
    }

    method SubmitToApplication(c: Command, id: u32) returns (admitted: bool)
      requires app.Valid() && app.queue.Valid() && |app.queue.Contents()| < REGULAR_CAPACITY && !c.StopSession?
      modifies app`overflowCount, app`commandResults, app`verdicts, app`issued, app`displaced, app.queue, app.queue.slots
      ensures app.Valid() && app.queue.Valid() && admitted && app.verdicts == old(app.verdicts)
      ensures app.queue.Contents() == old(app.queue.Contents()) + [Queued(c, id, [])]
    {
      hide SmokerApplication.Valid, CommandRing.Valid, CommandRing.Contents;
      ghost var verdicts := app.verdicts;
      admitted := app.Submit(c, id);
      AppQueue(app);
      assert verdicts + [] == verdicts;
    }

    /** One cycle: the queue is empty again, and everything drained was answered in this cycle. */
    method Cycle() returns (prepare: u32, finish: bool, ghost log: seq<Serve>)
      requires Valid()
      modifies signals, externalCommands, http, http.slots, blynk, blynk.slots, app, app.queue, app.queue.slots
      ensures Valid()
      ensures prepare == old(signals.prepareCorrelation) && (old(signals.finishRequested) ==> finish)
      ensures signals.taken == old(signals.taken) + [PrepareTaken(prepare), FinishTaken(finish)]
      ensures CycleEffect(old(View()), prepare, finish, Entries(log), View())
      ensures Fair(log, old(externalCommands.blynkFirst)) && |log| <= EXTERNAL_BUDGET
      ensures externalCommands.blynkFirst == (old(externalCommands.blynkFirst) == (|log| % 2 == 0))
      ensures Chained(log, old(Filled(http)), old(Filled(blynk)), Filled(http), Filled(blynk))
      ensures Popped(http.pushed, old(http.popped), http.popped, From(log, false))
      ensures Popped(blynk.pushed, old(blynk.popped), blynk.popped, From(log, true))
      ensures |log| < EXTERNAL_BUDGET && !(|log| > 0 && StopsAt(log, |log| - 1)) ==>
                |old(http.pushed)| <= http.popped && |old(blynk.pushed)| <= blynk.popped
      ensures app.heaterDemand != OFF ==> app.SafeToHeat()
      ensures finish ==> !app.firmwareUpdateActive
      ensures old(app.trace) <= app.trace && Writes(app.trace) == Writes(old(app.trace)) + [app.heaterDemand]
    {
      hide SmokerApplication.Valid, CommandRing.Valid, CommandRing.Contents, SpscCommandMailbox.Valid, CycleEffect,
           From, Entries, Fair, Chained, Popped, StopsAt, Drained, VerdictsFor, FirmwareAfter,
           SmokerApplication.SafeToHeat, Writes, Batch, Opening, ProbesServed, TimerTaken, Ruled, AlarmsFollow, Served,
           Hazard, SmokerApplication.ControllerIsEligible;
      ghost var before := View();
      prepare, finish := SubmitSignals();
      InternalIsSmall(prepare, finish);
      var submitted, discarded, stopAtEnd;
      submitted, discarded, stopAtEnd, log := externalCommands.Drain(http, blynk, app);
      ghost var stopped, accepted, course;
      stopped, accepted, course := app.Tick();
      AppQueue(app);
      NothingLeft(prepare, finish, log, app.queue.Contents(), accepted, stopped);
      Interlock(app);
      CycleDone(before, prepare, finish, Entries(log), accepted, View());
      if finish {
        FinishReleases(before, prepare, Entries(log), View());
      }
    }
  }

  lemma InternalIsSmall(prepare: u32, finish: bool)
    ensures |Internal(prepare, finish)| <= 2 && !TrailingStop(Internal(prepare, finish))
  {
  }

  lemma Interlock(app: SmokerApplication)
    requires app.Valid()
    ensures app.firmwareUpdateActive ==> !IsRunning(app.session)
  {
  }

  lemma CycleDone(before: AppView, prepare: u32, finish: bool, externals: seq<Queued>, accepted: seq<bool>, after: AppView)
    requires AllExternal(externals) && |accepted| == |Internal(prepare, finish) + externals|
    requires var q := Internal(prepare, finish) + externals;
             after.verdicts == before.verdicts + VerdictsFor(q[..|accepted|], accepted)
             && after.firmwareActive == FirmwareAfter(before.firmwareActive, q[..|accepted|], accepted)
    requires after.firmwareActive ==> !after.running
    ensures CycleEffect(before, prepare, finish, externals, after)
  {
    var q := Internal(prepare, finish) + externals;
    assert q[..|accepted|] == q;
  }
}
