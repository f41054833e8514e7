/**
 * The mailbox between the control task and the history task: which observations a stream of
 * snapshots produces, for any drops and any pops in between.
 */
module HistoryMailbox {
  import opened Bytes
  import opened Domain
  import opened Codec
  import opened RingSequences

  const MAILBOX_CAPACITY := RING_SLOTS
  const SAMPLE_INTERVAL := 60_000
  /** The parts of a snapshot whose change is worth an observation of its own. */
  datatype Settings = Settings(
    target: Option<real>, timerStarted: bool, timerCompleted: bool, fault: Option<FaultCode>,
    probes: seq<(byte, ProbeRole, Option<real>, bool, bool)>, alarms: seq<(u32, AlarmCode, Option<byte>, bool)>)

  datatype Snapshot = Snapshot(
    status: SessionStatus, session: Option<u32>, elapsed: int, settings: Settings, readings: seq<Option<real>>)

  /** A running session has an id, and without a session the status is idle or a bare fault. */
  predicate SnapshotSound(s: Snapshot) {
    (s.status == Running ==> s.session.Some?) && (s.session.Some? ==> s.status != Idle)
  }

  datatype Entry = Entry(kind: Kind, session: u32, snapshot: Snapshot)

  // ---------------------------------------------------------------- the stream

  /** Which block of the stream is open, how late its last Start or Sample was, and all ids begun. */
  datatype Stream = Stream(open: Option<u32>, last: int, begun: set<u32>)

  function After(t: Stream, e: Entry): Stream {
    match e.kind
    case Start => Stream(Some(e.session), e.snapshot.elapsed, t.begun + {e.session})
    case Sample => t.(last := e.snapshot.elapsed)
    case Change => t
    case End => t.(open := None)
  }

  /** A block is one Start of a new id, then Samples and Changes of that id, then at most one End. */
  predicate Fits(t: Stream, e: Entry) {
    match e.kind
    case Start => e.session !in t.begun
    case Sample => t.open == Some(e.session) && e.snapshot.elapsed - t.last >= SAMPLE_INTERVAL
    case Change => t.open == Some(e.session)
    case End => t.open == Some(e.session)
  }

  function Read(es: seq<Entry>): Stream {
    if es == [] then Stream(None, 0, {}) else After(Read(es[..|es| - 1]), es[|es| - 1])
  }

  predicate Legal(es: seq<Entry>) {
    es == [] || (Legal(es[..|es| - 1]) && Fits(Read(es[..|es| - 1]), es[|es| - 1]))
  }

  lemma Longer(es: seq<Entry>, e: Entry)
    ensures Read(es + [e]) == After(Read(es), e)
    ensures Legal(es + [e]) <==> Legal(es) && Fits(Read(es), e)
  {
    assert (es + [e])[..|es|] == es;
  }

  lemma {:induction false} LegalPrefix(es: seq<Entry>, n: nat)
    requires Legal(es) && n <= |es|
    ensures Legal(es[..n])
    ensures n < |es| ==> Fits(Read(es[..n]), es[n])
  {
    if n == |es| {
      assert es[..n] == es;
    } else if n == |es| - 1 {
    } else {
      LegalPrefix(es[..|es| - 1], n);
      assert es[..|es| - 1][..n] == es[..n];
    }
  }

  lemma {:induction false} Begun(es: seq<Entry>, i: nat)
    requires i < |es| && es[i].kind == Start
    ensures es[i].session in Read(es).begun
  {
    if i < |es| - 1 {
      Begun(es[..|es| - 1], i);
    }
  }

  /** No two blocks have the same session. */
  lemma BlocksDistinct(es: seq<Entry>, i: nat, j: nat)
    requires Legal(es) && i < j < |es| && es[i].kind == Start && es[j].kind == Start
    ensures es[i].session != es[j].session
  {
    LegalPrefix(es, j);
    Begun(es[..j], i);
  }

  predicate Ordinary(e: Entry, session: u32) {
    (e.kind == Sample || e.kind == Change) && e.session == session
  }

  predicate OpensBlock(es: seq<Entry>, i: int, j: int, session: u32) {
    0 <= i < j <= |es| && es[i].kind == Start && es[i].session == session
    && forall k :: i < k < j ==> Ordinary(es[k], session)
  }

  lemma {:induction false} OpenSince(es: seq<Entry>, session: u32)
    requires Legal(es) && Read(es).open == Some(session)
    ensures exists i :: OpensBlock(es, i, |es|, session)
  {
    var n := |es| - 1;
    if es[n].kind == Start {
      assert OpensBlock(es, n, |es|, session);
    } else {
      OpenSince(es[..n], session);
      var i :| OpensBlock(es[..n], i, n, session);
      assert forall k :: i < k < n ==> es[..n][k] == es[k];
      assert OpensBlock(es, i, |es|, session);
    }
  }

  /** Everything but a Start follows its own Start directly, with only Samples and Changes of it between. */
  lemma EntryInBlock(es: seq<Entry>, j: nat)
    requires Legal(es) && j < |es| && es[j].kind != Start
    ensures exists i :: OpensBlock(es, i, j, es[j].session)
  {
    LegalPrefix(es, j);
    OpenSince(es[..j], es[j].session);
    var i :| OpensBlock(es[..j], i, j, es[j].session);
    assert forall k :: 0 <= k < j ==> es[..j][k] == es[k];
    assert OpensBlock(es, i, j, es[j].session);
  }

  lemma {:induction false} LastInBlock(es: seq<Entry>, i: nat)
    requires Legal(es) && i < |es| && (es[i].kind == Sample || es[i].kind == Start)
    requires forall k :: i < k < |es| ==> Ordinary(es[k], es[i].session)
    ensures Read(es).last >= es[i].snapshot.elapsed
  {
    if i < |es| - 1 {
      LastInBlock(es[..|es| - 1], i);
    }
  }

  /** Samples of a block are at least the periodic interval apart, and as far behind its Start. */
  lemma SamplesSpaced(es: seq<Entry>, i: nat, j: nat)
    requires Legal(es) && i < j < |es| && es[j].kind == Sample && (es[i].kind == Sample || es[i].kind == Start)
    requires forall k :: i < k < j ==> Ordinary(es[k], es[i].session)
    ensures es[j].snapshot.elapsed - es[i].snapshot.elapsed >= SAMPLE_INTERVAL
  {
    LegalPrefix(es, j);
    assert forall k :: i < k < j ==> es[..j][k] == es[k];
    LastInBlock(es[..j], i);
  }

  /** What has been popped of a legal stream is a legal stream of its own. */
  lemma PoppedIsLegal(pushed: seq<Entry>, popped: nat)
    requires popped <= |pushed|
    ensures Legal(pushed) ==> Legal(pushed[..popped])
  {
    if Legal(pushed) {
      LegalPrefix(pushed, popped);
    }
  }

  // ---------------------------------------------------------------- the mailbox

  class HistoryObservationMailbox {
    const slots: array<Option<Entry>>
    var readSequence: u32
    var writeSequence: u32
    var droppedCount: nat
    var initialized: bool
    var previousStatus: SessionStatus
    var previousSession: Option<u32>
    var previousSettings: Option<Settings>
    var lastSampleElapsed: int
    /** All observations ever admitted, and how many of them were popped. */
    ghost var pushed: seq<Entry>
    ghost var popped: nat
    /** The last session observed, the sessions that were replaced, and those seen to have ended. */
    ghost var latest: Option<u32>
    ghost var retired: set<u32>
    ghost var ended: set<u32>

    ghost predicate RingSound()
      reads this`readSequence, this`writeSequence, this`pushed, this`popped, slots
    {
      slots.Length == MAILBOX_CAPACITY
      && popped <= |pushed| <= popped + MAILBOX_CAPACITY
      && writeSequence == |pushed| % WRAP && readSequence == popped % WRAP
      && forall i :: popped <= i < |pushed| ==> slots[Place(i)] == Some(pushed[i])
    }

    ghost predicate StreamSound()
      reads this`pushed, this`initialized, this`previousStatus, this`previousSession, this`lastSampleElapsed,
            this`latest, this`retired, this`ended
    {
      StreamOk(pushed, Remembered(), latest, retired, ended)
    }

    ghost function Remembered(): Memory
      reads this`initialized, this`previousStatus, this`previousSession, this`lastSampleElapsed
    {
      Memory(initialized, previousStatus, previousSession, lastSampleElapsed)
    }

    ghost predicate Valid()
      reads this, slots
    {
      RingSound() && StreamSound()
    }

    constructor ()
      ensures Valid() && pushed == [] && !initialized && fresh(slots) && retired == {} && ended == {} && latest == None
    {
      slots := new Option<Entry>[MAILBOX_CAPACITY](_ => None);
      readSequence, writeSequence, droppedCount, initialized := 0, 0, 0, false;
      previousStatus, previousSession, previousSettings, lastSampleElapsed := Idle, None, None, 0;
      pushed, popped, latest, retired, ended := [], 0, None, {}, {};
    }

    /** Any number of pops by the history task. */
    method ConsumerRuns()
      requires RingSound()
      modifies this`readSequence, this`popped
      ensures RingSound() && popped >= old(popped)
    {
      var n: nat := *;
      while n > 0
        invariant RingSound() && popped >= old(popped)
      {
        n := n - 1;
        PendingCount(|pushed|, popped);
        if readSequence != writeSequence {
          SlotIndex(popped);
          readSequence := (readSequence + 1) % WRAP;
          popped := popped + 1;
        }
      }
    }

    method HasCapacity(count: nat) returns (room: bool)
      requires RingSound() && count <= MAILBOX_CAPACITY
      modifies this`readSequence, this`popped
      ensures RingSound() && room ==> |pushed| - popped <= MAILBOX_CAPACITY - count
      ensures old(|pushed| - popped) <= MAILBOX_CAPACITY - count ==> room
      ensures RingSound() && popped >= old(popped)
    {
      var write := writeSequence;
      ConsumerRuns();
      PendingCount(|pushed|, popped);
      var pending := (write - readSequence) % WRAP;
      ConsumerRuns();
      room := pending <= MAILBOX_CAPACITY - count;
    }

    /** Admits one observation; the last slot is kept for a Start or an End. */
    method Push(kind: Kind, s: Snapshot) returns (ok: bool)
      requires RingSound()
      modifies this`readSequence, this`popped, this`writeSequence, this`pushed, this`droppedCount, slots
      ensures RingSound() && popped >= old(popped)
      ensures pushed == if ok then old(pushed) + [EntryOf(kind, s)] else old(pushed)
      ensures old(|pushed| - popped < Limit(kind)) ==> ok
      ensures ok && !Lifecycle(kind) ==> |pushed| - popped <= MAILBOX_CAPACITY - 1
    {
      var write := writeSequence;
      ConsumerRuns();
      PendingCount(|pushed|, popped);
      var pending := (write - readSequence) % WRAP;
      ConsumerRuns();
      var lifecycle := kind == Start || kind == End;
      if pending >= MAILBOX_CAPACITY || (!lifecycle && pending >= MAILBOX_CAPACITY - 1) {
        droppedCount := (droppedCount + 1) % WRAP;
        return false;
      }
      Store(EntryOf(kind, s));
      ok := true;
    }

    method Store(e: Entry)
      requires RingSound() && |pushed| - popped < MAILBOX_CAPACITY
      modifies this`readSequence, this`popped, this`writeSequence, this`pushed, slots
      ensures RingSound() && popped >= old(popped) && pushed == old(pushed) + [e]
    {
      StoreSlot(e);
      ConsumerRuns();
      Publish(e);
    }

    /** Fills the slot behind the last published entry; no unread entry lives there. */
    method StoreSlot(e: Entry)
      requires RingSound() && |pushed| - popped < MAILBOX_CAPACITY
      modifies slots
      ensures RingSound() && slots[Place(|pushed|)] == Some(e)
    {
      hide Place;
      SlotIndex(|pushed|);
      OwnPlaces(popped, |pushed|);
      slots[Place(writeSequence)] := Some(e);
    }

    method Publish(ghost e: Entry)
      requires RingSound() && |pushed| - popped < MAILBOX_CAPACITY && slots[Place(|pushed|)] == Some(e)
      modifies this`writeSequence, this`pushed
      ensures RingSound() && pushed == old(pushed) + [e]
    {
      SlotIndex(|pushed|);
      writeSequence := (writeSequence + 1) % WRAP;
      pushed := pushed + [e];
    }

    /** Any number of admissions by the control task, the last of them possibly not yet published. */
    method ProducerRuns()
      requires RingSound()
      modifies this`writeSequence, this`pushed, slots
      ensures RingSound() && old(pushed) <= pushed
    {
      var n: nat := *;
      while n > 0
        invariant RingSound() && old(pushed) <= pushed
      {
        n := n - 1;
        var e: Entry, publish: bool := *, *;
        PendingCount(|pushed|, popped);
        if (writeSequence - readSequence) % WRAP < MAILBOX_CAPACITY {
          StoreSlot(e);
          if publish {
            Publish(e);
          }
        }
      }
    }

    /**
     * The oldest observation that was not popped yet, whatever the control task admits meanwhile; that
     * what it admits forms a legal stream is the guarantee of `Observe`.
     */
    method TryPop() returns (result: Option<Entry>)
      requires RingSound()
      modifies this`readSequence, this`popped, this`writeSequence, this`pushed, slots
      ensures RingSound() && old(pushed) <= pushed
      ensures result == None ==> popped == old(popped) == |old(pushed)|
      ensures result.Some? ==>
                popped == old(popped) + 1 && old(popped) < |pushed| && result.value == pushed[old(popped)]
      ensures Legal(pushed) ==> Legal(pushed[..popped])
    {
      hide Legal;
      var read := readSequence;
      ProducerRuns();
      var write := writeSequence;
      PendingCount(|pushed|, popped);
      PoppedIsLegal(pushed, popped);
      if read == write { return None; }
      SlotIndex(popped);
      ProducerRuns();
      result := slots[Place(read)];
      ProducerRuns();
      readSequence := (read + 1) % WRAP;
      popped := popped + 1;
      PoppedIsLegal(pushed, popped);
    }

    method Remember(s: Snapshot)
      modifies this`previousStatus, this`previousSession, this`previousSettings, this`initialized
      ensures previousStatus == s.status && previousSession == s.session && previousSettings == Some(s.settings) && initialized
    {
      previousStatus, previousSession, previousSettings := s.status, s.session, Some(s.settings);
      initialized := true;
    }

    /** One control cycle's snapshot: the stream of observations stays legal. */
    method Observe(s: Snapshot) returns (ghost emitted: seq<Entry>)
      requires Valid() && SnapshotSound(s) && Fresh(s, retired, ended)
      modifies this, slots
      ensures Valid() && latest == s.session && popped >= old(popped)
      ensures retired == RetiredAfter(old(retired), old(latest), s) && ended == EndedAfter(old(ended), s)
      ensures pushed == old(pushed) + emitted && Emits(old(Remembered()), old(previousSettings), s, emitted)
      ensures Roomy(old(|pushed| - popped), Wanted(old(Remembered()), old(previousSettings), s)) ==>
                emitted == Wanted(old(Remembered()), old(previousSettings), s)
      ensures if Refused(old(Remembered()), old(previousSettings), s, emitted)
              then Remembered() == old(Remembered()) && previousSettings == old(previousSettings)
              else previousSettings == Some(s.settings)
                   && Remembered() == Memory(true, s.status, s.session,
                                             if Refreshes(emitted) && s.status == Running then s.elapsed else old(lastSampleElapsed))
      // What the admitted stream so far calls for, when at least three slots are free:
      // a session that goes on has each change reported, and a sample once the interval has passed ...
      ensures old(|pushed| - popped) <= MAILBOX_CAPACITY - 3 && s.status == Running && Read(old(pushed)).open == s.session ==>
                emitted == (if old(previousSettings) == Some(s.settings) then [] else [Entry(Change, s.session.value, s)])
                           + (if s.elapsed - Read(old(pushed)).last >= 60_000 then [Entry(Sample, s.session.value, s)] else [])
      // ... so no running snapshot leaves the last Start or Sample of its session further behind;
      ensures old(|pushed| - popped) <= MAILBOX_CAPACITY - 3 && s.status == Running ==>
                Read(pushed).open == s.session && s.elapsed - Read(pushed).last < 60_000
      // a session that is not open begins, an open one that runs no more ends, and one never seen running does both.
      ensures old(|pushed| - popped) <= MAILBOX_CAPACITY - 3 && s.status == Running && Read(old(pushed)).open != s.session ==>
                emitted == [Entry(Start, s.session.value, s)]
      ensures old(|pushed| - popped) <= MAILBOX_CAPACITY - 3 && s.status != Running && s.session.Some? ==>
                emitted == if Read(old(pushed)).open == s.session then [Entry(End, s.session.value, s)]
                           else if s.session.value in Read(old(pushed)).begun then []
                           else [Entry(Start, s.session.value, s), Entry(End, s.session.value, s)]
      ensures s.session == None ==> emitted == []
    {
      hide StreamOk, Legal, Read, RetiredAfter, EndedAfter, Fresh, Wanted, Refused, Refreshes,
           HistoryObservationMailbox.RingSound;
      ghost var es, settings := pushed, previousSettings;
      CalledFor(es, Remembered(), latest, retired, ended, settings, s);
      emitted := Report(s);
      if s.status == Running && emitted == Wanted(old(Remembered()), settings, s) {
        NotBehind(es, settings != Some(s.settings), s, emitted);
      }
    }

    /** Reports what the snapshot calls for since the one remembered, and remembers it unless refused. */
    method Report(s: Snapshot) returns (ghost emitted: seq<Entry>)
      requires Valid() && SnapshotSound(s) && Fresh(s, retired, ended)
      modifies this, slots
      ensures Valid() && latest == s.session && popped >= old(popped)
      ensures retired == RetiredAfter(old(retired), old(latest), s) && ended == EndedAfter(old(ended), s)
      ensures pushed == old(pushed) + emitted && Emits(old(Remembered()), old(previousSettings), s, emitted)
      ensures Roomy(old(|pushed| - popped), Wanted(old(Remembered()), old(previousSettings), s)) ==>
                emitted == Wanted(old(Remembered()), old(previousSettings), s)
      ensures if Refused(old(Remembered()), old(previousSettings), s, emitted)
              then Remembered() == old(Remembered()) && previousSettings == old(previousSettings)
              else previousSettings == Some(s.settings)
                   && Remembered() == Memory(true, s.status, s.session,
                                             if Refreshes(emitted) && s.status == Running then s.elapsed else old(lastSampleElapsed))
    {
      hide StreamOk, Legal, Read, RetiredAfter, EndedAfter, Fresh, HistoryObservationMailbox.RingSound;
      emitted := [];
      var running := s.status == Running && s.session.Some?;
      var starting := running && (!initialized || previousStatus != Running || previousSession != s.session);
      var ending := initialized && previousStatus == Running && previousSession == s.session && !running;
      var terminalFirstSeen := s.session.Some? && (s.status == Stopped || s.status == Fault)
      && (!initialized || previousSession != s.session);
      var changed := initialized && previousSettings != Some(s.settings);
      Noted(pushed, Remembered(), latest, retired, ended, s);
      ghost var m, l, r, e := Remembered(), latest, retired, ended;
      latest, retired, ended := s.session, RetiredAfter(retired, latest, s), EndedAfter(ended, s);
      if running && !starting {
        emitted := RunsOn(s, changed, m, l, r, e);
      } else {
        var done;
        done, emitted := ReportLifecycle(s, starting, ending, terminalFirstSeen, m, l, r, e);
        if !done { return; }
        assert starting ==> emitted[0].kind == Start;
      }
      Remember(s);
    }

    /** Start, End, or both; refused ones are tried again with a later snapshot. */
    method ReportLifecycle(s: Snapshot, starting: bool, ending: bool, terminalFirstSeen: bool,
                     ghost m: Memory, ghost l: Option<u32>, ghost r: set<u32>, ghost e: set<u32>)
      returns (done: bool, ghost emitted: seq<Entry>)
      requires RingSound() && StreamOk(pushed, m, l, r, e) && m == Remembered() && SnapshotSound(s) && Fresh(s, r, e)
      requires StreamOk(pushed, m, latest, retired, ended)
      requires latest == s.session && retired == RetiredAfter(r, l, s) && ended == EndedAfter(e, s)
      requires var continues := m.initialized && m.status == Running && m.session == s.session;
               starting == (s.status == Running && !continues) && ending == (continues && s.status != Running)
               && (s.status == Running ==> starting)
               && terminalFirstSeen == (s.session.Some? && s.status != Running && (!m.initialized || m.session != s.session))
      modifies this`readSequence, this`popped, this`writeSequence, this`pushed, this`droppedCount, this`lastSampleElapsed, slots
      ensures RingSound() && popped >= old(popped) && pushed == old(pushed) + emitted
      ensures done ==> StreamOk(pushed, Memory(true, s.status, s.session, lastSampleElapsed), latest, retired, ended)
      ensures !done ==> emitted == [] && pushed == old(pushed) && lastSampleElapsed == old(lastSampleElapsed)
      ensures emitted == if !done then [] else Due(s, starting, ending, terminalFirstSeen)
      ensures Roomy(old(|pushed| - popped), Due(s, starting, ending, terminalFirstSeen)) ==> done
      ensures Due(s, starting, ending, terminalFirstSeen) == [] ==> done
      ensures lastSampleElapsed == if done && starting then s.elapsed else old(lastSampleElapsed)
    {
      hide StreamOk, Legal, Read, RetiredAfter, EndedAfter, Fresh, HistoryObservationMailbox.RingSound;
      ghost var es := pushed;
      emitted, done := [], false;
      assert es + [] == es;
      if starting {
        Begins(es, m, l, r, e, s);
        var ok := Push(Start, s);
        if !ok { return; }
        emitted := [EntryOf(Start, s)];
        lastSampleElapsed := s.elapsed;
      } else if ending {
        Closes(es, m, l, r, e, s);
        var ok := Push(End, s);
        if !ok { return; }
        emitted := [EntryOf(End, s)];
      } else if terminalFirstSeen {
        var room := HasCapacity(2);
        if !room {
          droppedCount := (droppedCount + 1) % WRAP;
          return;
        }
        BeginsAndCloses(es, m, l, r, e, s);
        emitted := PushPair(s);
      } else {
        Idles(es, m, l, r, e, s);
      }
      done := true;
    }

    /** With two free slots both lifecycle observations are admitted. */
    method PushPair(s: Snapshot) returns (ghost emitted: seq<Entry>)
      requires RingSound() && |pushed| - popped <= MAILBOX_CAPACITY - 2
      modifies this`readSequence, this`popped, this`writeSequence, this`pushed, this`droppedCount, slots
      ensures RingSound() && popped >= old(popped) && pushed == old(pushed) + emitted
      ensures emitted == [EntryOf(Start, s), EntryOf(End, s)]
    {
      hide EntryOf, HistoryObservationMailbox.RingSound;
      ghost var es := pushed;
      var started := Push(Start, s);
      var finished := Push(End, s);
      emitted := [EntryOf(Start, s), EntryOf(End, s)];
      assert pushed == es + emitted;
    }

    /** A running session goes on: a change is reported, and a sample once the interval has passed. */
    method RunsOn(s: Snapshot, changed: bool, ghost m: Memory, ghost l: Option<u32>, ghost r: set<u32>, ghost e: set<u32>)
      returns (ghost emitted: seq<Entry>)
      requires RingSound() && StreamOk(pushed, m, l, r, e) && m == Remembered() && SnapshotSound(s) && Fresh(s, r, e)
      requires s.status == Running && initialized && previousStatus == Running && previousSession == s.session
      requires latest == s.session && retired == RetiredAfter(r, l, s) && ended == EndedAfter(e, s)
      modifies this`readSequence, this`popped, this`writeSequence, this`pushed, this`droppedCount, this`lastSampleElapsed, slots
      ensures RingSound() && popped >= old(popped)
      ensures StreamOk(pushed, Memory(true, s.status, s.session, lastSampleElapsed), latest, retired, ended)
      ensures pushed == old(pushed) + emitted
      ensures Thinned(emitted, Routine(s, changed, old(lastSampleElapsed)))
      ensures Roomy(old(|pushed| - popped), Routine(s, changed, old(lastSampleElapsed))) ==>
                emitted == Routine(s, changed, old(lastSampleElapsed))
      ensures lastSampleElapsed == if Refreshes(emitted) then s.elapsed else old(lastSampleElapsed)
    {
      hide StreamOk, Legal, Read, RetiredAfter, EndedAfter, Fresh, HistoryObservationMailbox.RingSound;
      ghost var es := pushed;
      Continues(es, m, l, r, e, s);
      emitted := [];
      assert es + [] == es;
      var periodicDue := s.elapsed >= lastSampleElapsed && s.elapsed - lastSampleElapsed >= SAMPLE_INTERVAL;
      if changed {
        var reported := Push(Change, s);
        emitted := if reported then [EntryOf(Change, s)] else [];
      }
      if periodicDue {
        var sampled := Push(Sample, s);
        if sampled {
          lastSampleElapsed := s.elapsed;
          Joined(es, emitted, EntryOf(Sample, s));
          emitted := emitted + [EntryOf(Sample, s)];
          assert emitted[|emitted| - 1].kind == Sample;
        }
      }
    }
  }

  // ---------------------------------------------------------------- nothing goes unreported

  /** Entry `i` is the last Start or Sample of an open session; only its Changes follow. */
  predicate SinceReport(es: seq<Entry>, i: int, session: u32) {
    0 <= i < |es| && (es[i].kind == Start || es[i].kind == Sample) && es[i].session == session
    && forall k :: i < k < |es| ==> es[k].kind == Change && es[k].session == session
  }

  lemma {:induction false} LastReport(es: seq<Entry>, session: u32)
    requires Legal(es) && Read(es).open == Some(session)
    ensures exists i :: SinceReport(es, i, session) && es[i].snapshot.elapsed == Read(es).last
  {
    var n := |es| - 1;
    if es[n].kind != Change {
      assert SinceReport(es, n, session);
    } else {
      LastReport(es[..n], session);
      var i :| SinceReport(es[..n], i, session) && es[..n][i].snapshot.elapsed == Read(es[..n]).last;
      assert forall k :: i < k < n ==> es[..n][k] == es[k];
      assert SinceReport(es, i, session);
    }
  }

  /**
   * What a stream tells of a running snapshot it was just shown: its session's last Start or Sample is
   * less than the interval behind, and its newest entry has the snapshot's settings.
   */
  ghost predicate CaughtUp(es: seq<Entry>, s: Snapshot)
    requires s.session.Some?
  {
    es != [] && es[|es| - 1].snapshot.settings == s.settings
    && exists i :: SinceReport(es, i, s.session.value) && s.elapsed - es[i].snapshot.elapsed < 60_000
  }

  /** Snapshots as the application shows them: sound, and with session ids that are never used again. */
  predicate Plausible(snapshots: seq<Snapshot>, latest: Option<u32>, retired: set<u32>, ended: set<u32>) {
    snapshots == []
    || (SnapshotSound(snapshots[0]) && Fresh(snapshots[0], retired, ended)
        && Plausible(snapshots[1..], snapshots[0].session, RetiredAfter(retired, latest, snapshots[0]),
                     EndedAfter(ended, snapshots[0])))
  }

  /** Reports and remembers so far leave a running session's newest entry with the remembered settings. */
  ghost predicate Tracking(mailbox: HistoryObservationMailbox)
    reads mailbox
  {
    mailbox.initialized && mailbox.previousStatus == Running ==> Newest(mailbox.pushed, mailbox.previousSettings)
  }

  /** One snapshot is shown, after any pops, and whether three slots were free for it. */
  method ObserveNext(mailbox: HistoryObservationMailbox, s: Snapshot) returns (ghost roomy: bool)
    requires mailbox.Valid() && SnapshotSound(s) && Fresh(s, mailbox.retired, mailbox.ended)
    modifies mailbox, mailbox.slots
    ensures mailbox.Valid() && old(mailbox.pushed) <= mailbox.pushed && mailbox.latest == s.session
    ensures mailbox.retired == RetiredAfter(old(mailbox.retired), old(mailbox.latest), s)
    ensures mailbox.ended == EndedAfter(old(mailbox.ended), s)
    ensures old(|mailbox.pushed| - mailbox.popped) <= MAILBOX_CAPACITY - 3 ==> roomy
    ensures roomy && old(Tracking(mailbox)) ==> Tracking(mailbox) && (s.status == Running ==> CaughtUp(mailbox.pushed, s))
  {
    hide Legal, Read, Fresh, CaughtUp, Emits, RetiredAfter, EndedAfter, StreamOk, HistoryObservationMailbox.RingSound;
    mailbox.ConsumerRuns();
    roomy := |mailbox.pushed| - mailbox.popped <= MAILBOX_CAPACITY - 3;
    ghost var before, settings := mailbox.pushed, mailbox.previousSettings;
    OpenGoesOn(before, mailbox.Remembered(), mailbox.latest, mailbox.retired, mailbox.ended, s);
    ghost var emitted := mailbox.Observe(s);
    StreamLegal(mailbox);
    if roomy && s.status == Running && old(Tracking(mailbox)) {
      Catches(before, settings, s, emitted);
    }
  }

  lemma StreamLegal(mailbox: HistoryObservationMailbox)
    requires mailbox.Valid()
    ensures Legal(mailbox.pushed)
  {
    hide Legal, Read;
  }

  /**
   * Any list of snapshots shown one after another, with any pops in between: the stream they leave is
   * legal, and if three slots were free each time, it was caught up with every running snapshot when
   * that had been shown.
   */
  method ObserveAll(snapshots: seq<Snapshot>)
    returns (mailbox: HistoryObservationMailbox, ghost shown: seq<nat>, ghost roomy: bool)
    requires Plausible(snapshots, None, {}, {})
    ensures Legal(mailbox.pushed) && |shown| == |snapshots|
    ensures forall j :: 0 <= j < |snapshots| ==> shown[j] <= |mailbox.pushed|
    ensures forall j :: 0 <= j < |snapshots| && roomy && snapshots[j].status == Running ==>
              snapshots[j].session.Some? && CaughtUp(mailbox.pushed[..shown[j]], snapshots[j])
  {
    hide Legal, Read, Fresh, CaughtUp, StreamOk, HistoryObservationMailbox.RingSound;
    mailbox := new HistoryObservationMailbox();
    shown, roomy := [], true;
    for j := 0 to |snapshots|
      invariant mailbox.Valid() && fresh(mailbox) && fresh(mailbox.slots) && |shown| == j
      invariant Plausible(snapshots[j..], mailbox.latest, mailbox.retired, mailbox.ended)
      invariant forall i :: 0 <= i < j ==> shown[i] <= |mailbox.pushed|
      invariant roomy ==> Tracking(mailbox)
      invariant forall i :: 0 <= i < j && roomy && snapshots[i].status == Running ==>
                  snapshots[i].session.Some? && CaughtUp(mailbox.pushed[..shown[i]], snapshots[i])
    {
      ghost var before := mailbox.pushed;
      ghost var free := ObserveNext(mailbox, snapshots[j]);
      roomy := roomy && free;
      assert forall i :: 0 <= i < j ==> mailbox.pushed[..shown[i]] == before[..shown[i]];
      shown := shown + [|mailbox.pushed|];
      assert mailbox.pushed[..|mailbox.pushed|] == mailbox.pushed;
    }
    StreamLegal(mailbox);
  }

  /** A session that is open in the stream and shown running was running at the remembered snapshot. */
  lemma OpenGoesOn(es: seq<Entry>, m: Memory, latest: Option<u32>, retired: set<u32>, ended: set<u32>, s: Snapshot)
    requires StreamOk(es, m, latest, retired, ended) && SnapshotSound(s) && Fresh(s, retired, ended)
    ensures s.status == Running && Read(es).open == s.session ==> GoesOn(m, s)
  {
    hide Legal, Read;
  }

  lemma Catches(es: seq<Entry>, settings: Option<Settings>, s: Snapshot, emitted: seq<Entry>)
    requires Legal(es + emitted) && s.session.Some? && (Read(es).open == s.session ==> Newest(es, settings))
    requires Read(es + emitted).open == s.session && s.elapsed - Read(es + emitted).last < 60_000
    requires emitted == if Read(es).open != s.session then [Entry(Start, s.session.value, s)]
                        else (if settings == Some(s.settings) then [] else [Entry(Change, s.session.value, s)])
                             + (if s.elapsed - Read(es).last >= 60_000 then [Entry(Sample, s.session.value, s)] else [])
    ensures CaughtUp(es + emitted, s) && Newest(es + emitted, Some(s.settings))
  {
    hide Legal, Read;
    LastReport(es + emitted, s.session.value);
    if emitted == [] {
      assert es + emitted == es;
    } else {
      assert (es + emitted)[|es + emitted| - 1] == emitted[|emitted| - 1];
    }
  }

  predicate Newest(es: seq<Entry>, settings: Option<Settings>) {
    es != [] && settings == Some(es[|es| - 1].snapshot.settings)
  }

  lemma Joined<T>(a: seq<T>, b: seq<T>, x: T)
    ensures (a + b) + [x] == a + (b + [x])
  {
  }

  /** The lifecycle observations that a snapshot calls for. */
  function Due(s: Snapshot, starting: bool, ending: bool, terminalFirstSeen: bool): seq<Entry> {
    if starting then [EntryOf(Start, s)]
    else if ending then [EntryOf(End, s)]
    else if terminalFirstSeen then [EntryOf(Start, s), EntryOf(End, s)]
    else []
  }

  /** The observations that a session calls for while it goes on. */
  function Routine(s: Snapshot, changed: bool, last: int): seq<Entry> {
    (if changed then [EntryOf(Change, s)] else [])
    + if s.elapsed - last >= SAMPLE_INTERVAL && s.elapsed >= last then [EntryOf(Sample, s)] else []
  }

  /** Some of at most two entries, in their order. */
  predicate Thinned(es: seq<Entry>, all: seq<Entry>) {
    es == [] || es == all || (|all| == 2 && (es == all[..1] || es == all[1..]))
  }

  /** A Start or a Sample resets the clock of periodic samples. */
  predicate Refreshes(es: seq<Entry>) {
    exists k :: 0 <= k < |es| && es[k].kind != Change && es[k].kind != End
  }

  /** Room for all entries: samples and changes leave the last slot free. */
  predicate Roomy(pending: int, es: seq<Entry>) {
    pending + |es| <= if |es| > 0 && Lifecycle(es[0].kind) then MAILBOX_CAPACITY else MAILBOX_CAPACITY - 1
  }

  /** What the mailbox remembers of the last snapshot it dealt with. */
  datatype Memory = Memory(initialized: bool, status: SessionStatus, session: Option<u32>, last: int)

  /** What the remembered snapshot says about the stream, and the session ids shown about both. */
  predicate StreamOk(es: seq<Entry>, m: Memory, latest: Option<u32>, retired: set<u32>, ended: set<u32>) {
    Legal(es)
    && (forall x :: x in Read(es).begun ==> x in retired || (m.initialized && m.session == Some(x)))
    && (m.initialized && m.status == Running ==>
          m.session.Some? && Read(es).open == m.session && Read(es).last == m.last)
    && (Read(es).open.Some? ==> Read(es).open.value in Read(es).begun)
    && (m.initialized && m.session.Some? ==>
          m.session.value in Read(es).begun && (m.status != Running ==> Read(es).open != m.session))
    && (m.initialized && m.session.Some? ==>
          (m.session.value in retired || latest == m.session)
          && (m.status != Running ==> m.status != Idle && m.session.value in ended))
  }

  /** Session ids are never reused, and an ended session does not run again. */
  predicate Fresh(s: Snapshot, retired: set<u32>, ended: set<u32>) {
    s.session.Some? ==> s.session.value !in retired && (s.status == Running ==> s.session.value !in ended)
  }

  function RetiredAfter(retired: set<u32>, latest: Option<u32>, s: Snapshot): set<u32> {
    retired + if latest.Some? && latest != s.session then {latest.value} else {}
  }

  function EndedAfter(ended: set<u32>, s: Snapshot): set<u32> {
    ended + if s.session.Some? && s.status != Running then {s.session.value} else {}
  }

  /** The session of the snapshot was already running at the remembered one. */
  predicate GoesOn(m: Memory, s: Snapshot) {
    m.initialized && m.status == Running && m.session == s.session
  }

  /** All observations that one snapshot calls for. */
  function Wanted(m: Memory, settings: Option<Settings>, s: Snapshot): seq<Entry> {
    if s.status == Running && s.session.Some? then
      if GoesOn(m, s) then Routine(s, settings != Some(s.settings), m.last) else [EntryOf(Start, s)]
    else if GoesOn(m, s) then [EntryOf(End, s)]
    else if s.session.Some? && (!m.initialized || m.session != s.session) then [EntryOf(Start, s), EntryOf(End, s)]
    else []
  }

  /** Lifecycle observations are admitted together or not at all. */
  predicate Emits(m: Memory, settings: Option<Settings>, s: Snapshot, es: seq<Entry>) {
    var wanted := Wanted(m, settings, s);
    es == wanted || es == [] || (s.status == Running && GoesOn(m, s) && Thinned(es, wanted))
  }

  /** A lifecycle observation found no room; a later snapshot will call for it again. */
  predicate Refused(m: Memory, settings: Option<Settings>, s: Snapshot, es: seq<Entry>) {
    !(s.status == Running && GoesOn(m, s)) && es != Wanted(m, settings, s)
  }

  /** What a snapshot calls for depends on the stream alone. */
  lemma CalledFor(es: seq<Entry>, m: Memory, latest: Option<u32>, retired: set<u32>, ended: set<u32>,
                  settings: Option<Settings>, s: Snapshot)
    requires StreamOk(es, m, latest, retired, ended) && SnapshotSound(s) && Fresh(s, retired, ended)
    ensures s.status == Running && Read(es).open == s.session ==>
              Wanted(m, settings, s)
              == (if settings == Some(s.settings) then [] else [Entry(Change, s.session.value, s)])
                 + (if s.elapsed - Read(es).last >= 60_000 then [Entry(Sample, s.session.value, s)] else [])
              && m.last == Read(es).last
    ensures s.status == Running && Read(es).open != s.session ==> Wanted(m, settings, s) == [Entry(Start, s.session.value, s)]
    ensures s.status != Running && s.session.Some? ==>
              Wanted(m, settings, s)
              == if Read(es).open == s.session then [Entry(End, s.session.value, s)]
                 else if s.session.value in Read(es).begun then []
                 else [Entry(Start, s.session.value, s), Entry(End, s.session.value, s)]
    ensures s.session == None ==> Wanted(m, settings, s) == []
  {
    hide Legal, Read;
  }

  /** No running snapshot leaves the last Start or Sample an interval behind. */
  lemma NotBehind(es: seq<Entry>, changed: bool, s: Snapshot, emitted: seq<Entry>)
    requires s.session.Some?
    requires emitted == if Read(es).open != s.session then [Entry(Start, s.session.value, s)]
                        else (if changed then [Entry(Change, s.session.value, s)] else [])
                             + (if s.elapsed - Read(es).last >= 60_000 then [Entry(Sample, s.session.value, s)] else [])
    ensures Read(es + emitted).open == s.session && s.elapsed - Read(es + emitted).last < 60_000
  {
    hide Read;
    var change, sample, start := Entry(Change, s.session.value, s), Entry(Sample, s.session.value, s), Entry(Start, s.session.value, s);
    Longer(es, change);
    Longer(es, sample);
    Longer(es, start);
    Longer(es + [change], sample);
    var changes, samples := if changed then [change] else [], if s.elapsed - Read(es).last >= 60_000 then [sample] else [];
    assert es + (changes + samples) == (es + changes) + samples && es + [] == es && (es + [change]) + [] == es + [change];
  }

  lemma Noted(es: seq<Entry>, m: Memory, latest: Option<u32>, retired: set<u32>, ended: set<u32>, s: Snapshot)
    requires StreamOk(es, m, latest, retired, ended)
    ensures StreamOk(es, m, s.session, RetiredAfter(retired, latest, s), EndedAfter(ended, s))
  {
    hide Legal, Read;
  }

  /** A session first seen running has not begun a block before. */
  lemma Begins(es: seq<Entry>, m: Memory, latest: Option<u32>, retired: set<u32>, ended: set<u32>, s: Snapshot)
    requires StreamOk(es, m, latest, retired, ended) && Fresh(s, retired, ended)
    requires s.status == Running && s.session.Some?
    requires !m.initialized || m.status != Running || m.session != s.session
    ensures StreamOk(es + [EntryOf(Start, s)], Memory(true, s.status, s.session, s.elapsed),
                     s.session, RetiredAfter(retired, latest, s), EndedAfter(ended, s))
  {
    hide Legal, Read;
    Longer(es, EntryOf(Start, s));
  }

  lemma Closes(es: seq<Entry>, m: Memory, latest: Option<u32>, retired: set<u32>, ended: set<u32>, s: Snapshot)
    requires StreamOk(es, m, latest, retired, ended) && SnapshotSound(s)
    requires m.initialized && m.status == Running && m.session == s.session && s.status != Running
    ensures StreamOk(es + [EntryOf(End, s)], Memory(true, s.status, s.session, m.last),
                     s.session, RetiredAfter(retired, latest, s), EndedAfter(ended, s))
  {
    hide Legal, Read;
    Longer(es, EntryOf(End, s));
  }

  /** A session first seen after its end begins and ends its block at once. */
  lemma BeginsAndCloses(es: seq<Entry>, m: Memory, latest: Option<u32>, retired: set<u32>, ended: set<u32>, s: Snapshot)
    requires StreamOk(es, m, latest, retired, ended) && SnapshotSound(s) && Fresh(s, retired, ended)
    requires s.session.Some? && s.status != Running && (!m.initialized || m.session != s.session)
    ensures StreamOk(es + [EntryOf(Start, s), EntryOf(End, s)], Memory(true, s.status, s.session, m.last),
                     s.session, RetiredAfter(retired, latest, s), EndedAfter(ended, s))
  {
    hide Legal, Read;
    Longer(es, EntryOf(Start, s));
    Longer(es + [EntryOf(Start, s)], EntryOf(End, s));
    assert es + [EntryOf(Start, s), EntryOf(End, s)] == es + [EntryOf(Start, s)] + [EntryOf(End, s)];
  }

  lemma Continues(es: seq<Entry>, m: Memory, latest: Option<u32>, retired: set<u32>, ended: set<u32>, s: Snapshot)
    requires StreamOk(es, m, latest, retired, ended) && SnapshotSound(s)
    requires m.initialized && m.status == Running && m.session == s.session && s.status == Running
    ensures var after := Memory(true, s.status, s.session, m.last);
            var sampled := after.(last := s.elapsed);
            var (r, e) := (RetiredAfter(retired, latest, s), EndedAfter(ended, s));
            StreamOk(es, after, s.session, r, e) && StreamOk(es + [EntryOf(Change, s)], after, s.session, r, e)
            && (s.elapsed - m.last >= SAMPLE_INTERVAL ==>
                  StreamOk(es + [EntryOf(Sample, s)], sampled, s.session, r, e)
                  && StreamOk(es + [EntryOf(Change, s)] + [EntryOf(Sample, s)], sampled, s.session, r, e))
  {
    hide Legal, Read;
    Longer(es, EntryOf(Change, s));
    Longer(es, EntryOf(Sample, s));
    Longer(es + [EntryOf(Change, s)], EntryOf(Sample, s));
  }

  lemma Idles(es: seq<Entry>, m: Memory, latest: Option<u32>, retired: set<u32>, ended: set<u32>, s: Snapshot)
    requires StreamOk(es, m, latest, retired, ended) && SnapshotSound(s) && s.status != Running
    requires s.session.Some? ==> m.initialized && m.session == s.session && m.status != Running
    ensures StreamOk(es, Memory(true, s.status, s.session, m.last), s.session, RetiredAfter(retired, latest, s), EndedAfter(ended, s))
  {
    hide Legal, Read;
  }

  /** Samples and changes leave the last slot to lifecycle observations. */
  function Limit(kind: Kind): nat {
    if Lifecycle(kind) then MAILBOX_CAPACITY else MAILBOX_CAPACITY - 1
  }

  predicate Lifecycle(kind: Kind) {
    kind == Start || kind == End
  }

  function EntryOf(kind: Kind, s: Snapshot): Entry {
    Entry(kind, if s.session.Some? then s.session.value else 0, s)
  }
}
