/**
 * The triple-buffer snapshot exchange: one publisher and any number of readers, interleaved one
 * shared access at a time under sequential consistency. A slot is written field by field.
 */
module SnapshotExchange {
  import opened Domain

  const SLOTS := 3
  const NO_SLOT := 3

  /** A snapshot is its list of values, some of them in lists of varying length. */
  type Snapshot = seq<int>

  /** A slot has room for a fixed number of values and says how many of them count. */
  datatype Slot = Slot(cells: seq<int>, length: nat)

  /** What a reader of the slot sees; cells behind it may hold older values. */
  function Shown(slot: Slot): Snapshot {
    if slot.length <= |slot.cells| then slot.cells[..slot.length] else slot.cells
  }

  function Capacity(s: System): nat {
    if s.slots == [] then 0 else |s.slots[0].cells|
  }

  datatype Publisher =
    | Resting
    | Scanning(snapshot: Snapshot, current: nat, index: nat)
    | Writing(snapshot: Snapshot, destination: nat, written: nat)

  /** Where a reader stands in acquire, or which publish its lease views. */
  datatype Reader =
    | Outside
    | Loaded(index: nat)
    | Counted(index: nat)
    | Leased(index: nat, publish: nat)
    | Refused(index: nat)

  datatype System = System(
    slots: seq<Slot>,
    readers: seq<nat>,
    published: nat,
    publisher: Publisher,
    threads: seq<Reader>,
    dropped: nat,
    history: seq<Snapshot>)

  datatype Step =
    | BeginPublish(snapshot: Snapshot)
    | CheckSlot
    | WriteField
    | StorePublished
    | LoadPublished(thread: nat)
    | CountIn(thread: nat)
    | Validate(thread: nat)
    | CountOut(thread: nat)

  // ---------------------------------------------------------------- the publisher

  /** The scan looks at one slot per step and gives up behind the last. */
  function Checked(s: System): System
    requires s.publisher.Scanning? && s.publisher.index <= SLOTS == |s.readers|
  {
    var p := s.publisher;
    if p.index == SLOTS then s.(publisher := Resting, dropped := s.dropped + 1)
    else if p.index != p.current && s.readers[p.index] == 0 then
      s.(publisher := Writing(p.snapshot, p.index, 0))
    else s.(publisher := Scanning(p.snapshot, p.current, p.index + 1))
  }

  /** One value is copied; behind the last one, the length is set. */
  function FieldWritten(s: System): System
    requires s.publisher.Writing? && s.publisher.destination < |s.slots|
    requires s.publisher.written <= |s.publisher.snapshot| <= |s.slots[s.publisher.destination].cells|
  {
    var p := s.publisher;
    var slot := s.slots[p.destination];
    var next := if p.written < |p.snapshot|
                then slot.(cells := slot.cells[p.written := p.snapshot[p.written]])
                else slot.(length := |p.snapshot|);
    s.(slots := s.slots[p.destination := next], publisher := Writing(p.snapshot, p.destination, p.written + 1))
  }

  // ---------------------------------------------------------------- steps

  ghost predicate Next(s: System, step: Step, t: System) {
    match step
    case BeginPublish(snapshot) =>
      s.publisher == Resting
      && t == if |snapshot| > Capacity(s) then s.(dropped := s.dropped + 1)
              else s.(publisher := Scanning(snapshot, s.published, 0))
    case CheckSlot => s.publisher.Scanning? && s.publisher.index <= SLOTS == |s.readers| && t == Checked(s)
    case WriteField =>
      s.publisher.Writing? && s.publisher.destination < |s.slots|
      && s.publisher.written <= |s.publisher.snapshot| <= |s.slots[s.publisher.destination].cells|
      && t == FieldWritten(s)
    case StorePublished =>
      s.publisher.Writing? && s.publisher.written == |s.publisher.snapshot| + 1
      && t == s.(published := s.publisher.destination, publisher := Resting, history := s.history + [s.publisher.snapshot])
    case LoadPublished(r) =>
      r < |s.threads| && s.threads[r] == Outside
      && t == if s.published == NO_SLOT then s else s.(threads := s.threads[r := Loaded(s.published)])
    case CountIn(r) =>
      r < |s.threads| && s.threads[r].Loaded? && s.threads[r].index < |s.readers|
      && t == Recount(s, r, Counted(s.threads[r].index), 1)
    case Validate(r) =>
      r < |s.threads| && s.threads[r].Counted?
      && t == if s.published == s.threads[r].index
              then s.(threads := s.threads[r := Leased(s.threads[r].index, Latest(s.history))])
              else s.(threads := s.threads[r := Refused(s.threads[r].index)])
    case CountOut(r) =>
      r < |s.threads| && (s.threads[r].Leased? || s.threads[r].Refused?)
      && s.threads[r].index < |s.readers| && s.readers[s.threads[r].index] > 0
      && t == Recount(s, r, Outside, -1)
  }

  function Latest(history: seq<Snapshot>): nat {
    if history == [] then 0 else |history| - 1
  }

  function Recount(s: System, r: nat, thread: Reader, change: int): System
    requires r < |s.threads| && s.threads[r] != Outside && s.threads[r].index < |s.readers|
    requires s.readers[s.threads[r].index] + change >= 0
  {
    var i := s.threads[r].index;
    s.(threads := s.threads[r := thread], readers := s.readers[i := s.readers[i] + change])
  }

  predicate Initial(s: System) {
    |s.slots| == SLOTS && s.readers == [0, 0, 0] && s.published == NO_SLOT && s.publisher == Resting
    && (forall k :: 0 <= k < |s.threads| ==> s.threads[k] == Outside) && s.history == []
    && |s.slots[0].cells| == |s.slots[1].cells| == |s.slots[2].cells|
  }

  // ---------------------------------------------------------------- the invariant

  /** A reader that has counted itself in at slot `i` and not out again. */
  predicate Counts(thread: Reader, i: nat) {
    (thread.Counted? || thread.Leased? || thread.Refused?) && thread.index == i
  }

  function Inside(threads: seq<Reader>, i: nat): nat {
    if threads == [] then 0 else Inside(threads[..|threads| - 1], i) + if Counts(threads[|threads| - 1], i) then 1 else 0
  }

  lemma {:induction false} InsideUpdated(threads: seq<Reader>, r: nat, thread: Reader, i: nat)
    requires r < |threads|
    ensures Inside(threads[r := thread], i)
         == Inside(threads, i) - (if Counts(threads[r], i) then 1 else 0) + (if Counts(thread, i) then 1 else 0)
  {
    var n, updated := |threads| - 1, threads[r := thread];
    if r == n {
      assert updated[..n] == threads[..n];
    } else {
      assert updated[..n] == threads[..n][r := thread] && updated[n] == threads[n];
      InsideUpdated(threads[..n], r, thread, i);
    }
  }

  lemma {:induction false} NobodyInside(threads: seq<Reader>, i: nat, r: nat)
    requires r < |threads| && Inside(threads, i) == 0
    ensures !Counts(threads[r], i)
  {
    if r < |threads| - 1 {
      NobodyInside(threads[..|threads| - 1], i, r);
    }
  }

  predicate Uniform(s: System) {
    |s.slots| == SLOTS == |s.readers| && |s.slots[0].cells| == |s.slots[1].cells| == |s.slots[2].cells|
  }

  /** The publisher never writes the published slot, and never a slot with a valid lease. */
  predicate PublisherSound(s: System)
    requires Uniform(s)
  {
    match s.publisher
    case Resting => true
    case Scanning(snapshot, current, index) =>
      current == s.published && index <= SLOTS && |snapshot| <= Capacity(s)
    case Writing(snapshot, destination, written) =>
      destination < SLOTS && destination != s.published && written <= |snapshot| + 1 && |snapshot| <= Capacity(s)
      && (if written <= |snapshot| then s.slots[destination].cells[..written] == snapshot[..written]
          else Shown(s.slots[destination]) == snapshot)
      && forall r :: 0 <= r < |s.threads| && s.threads[r].Leased? ==> s.threads[r].index != destination
  }

  predicate ReaderSound(s: System, thread: Reader)
    requires Uniform(s)
  {
    match thread
    case Outside => true
    case Leased(index, publish) =>
      index < SLOTS && publish < |s.history| && Shown(s.slots[index]) == s.history[publish]
    case _ => thread.index < SLOTS
  }

  predicate Invariant(s: System)
  {
    Uniform(s) && PublisherSound(s)
    && (s.published == NO_SLOT || (s.published < SLOTS && s.history != [] && Shown(s.slots[s.published]) == s.history[|s.history| - 1]))
    && (forall r :: 0 <= r < |s.threads| ==> ReaderSound(s, s.threads[r]))
    && (forall i: nat :: i < SLOTS ==> s.readers[i] == Inside(s.threads, i))
  }

  lemma {:induction false} NoneInside(threads: seq<Reader>, i: nat)
    requires forall k :: 0 <= k < |threads| ==> threads[k] == Outside
    ensures Inside(threads, i) == 0
  {
    if threads != [] {
      NoneInside(threads[..|threads| - 1], i);
    }
  }

  lemma InitialHolds(s: System)
    requires Initial(s)
    ensures Invariant(s)
  {
    forall i: nat | i < SLOTS
      ensures s.readers[i] == Inside(s.threads, i)
    {
      NoneInside(s.threads, i);
    }
  }

  lemma CheckHolds(s: System, t: System)
    requires Invariant(s) && Next(s, CheckSlot, t)
    ensures Invariant(t)
  {
    var p := s.publisher;
    if t.publisher.Writing? {
      forall r | 0 <= r < |s.threads|
        ensures !Counts(s.threads[r], p.index)
      {
        NobodyInside(s.threads, p.index, r);
      }
    }
  }

  lemma WriteHolds(s: System, t: System)
    requires Invariant(s) && Next(s, WriteField, t)
    ensures Invariant(t)
  {
    var p := s.publisher;
    var slot, before := t.slots[p.destination], s.slots[p.destination];
    if p.written < |p.snapshot| {
      assert slot.cells[..p.written + 1] == before.cells[..p.written] + [p.snapshot[p.written]]
          == p.snapshot[..p.written + 1];
    } else {
      assert before.cells[..p.written] == p.snapshot[..p.written] == p.snapshot;
    }
    forall r | 0 <= r < |t.threads|
      ensures ReaderSound(t, t.threads[r])
    {
      assert ReaderSound(s, s.threads[r]);
    }
  }

  lemma StoreHolds(s: System, t: System)
    requires Invariant(s) && Next(s, StorePublished, t)
    ensures Invariant(t)
  {
    var p := s.publisher;
    assert Shown(s.slots[p.destination]) == p.snapshot;
    forall r | 0 <= r < |t.threads|
      ensures ReaderSound(t, t.threads[r])
    {
      assert ReaderSound(s, s.threads[r]);
    }
  }

  lemma ThreadHolds(s: System, t: System, r: nat, thread: Reader)
    requires Invariant(s) && r < |s.threads| && t.slots == s.slots && t.published == s.published
    requires t.publisher == s.publisher && t.history == s.history && t.threads == s.threads[r := thread]
    requires |t.readers| == SLOTS && ReaderSound(t, thread)
    requires thread.Leased? ==> thread.index == s.published
    requires forall i: nat :: i < SLOTS ==>
               t.readers[i] + (if Counts(s.threads[r], i) then 1 else 0)
               == s.readers[i] + (if Counts(thread, i) then 1 else 0)
    ensures Invariant(t)
  {
    forall i: nat | i < SLOTS
      ensures t.readers[i] == Inside(t.threads, i)
    {
      InsideUpdated(s.threads, r, thread, i);
    }
    forall k | 0 <= k < |t.threads|
      ensures ReaderSound(t, t.threads[k])
    {
      assert ReaderSound(s, s.threads[k]);
    }
  }

  /** Every shared access of every task keeps the invariant. */
  lemma StepHolds(s: System, step: Step, t: System)
    requires Invariant(s) && Next(s, step, t)
    ensures Invariant(t)
  {
    match step
    case BeginPublish(_) =>
    case CheckSlot => CheckHolds(s, t);
    case WriteField => WriteHolds(s, t);
    case StorePublished => StoreHolds(s, t);
    case LoadPublished(r) =>
      assert ReaderSound(s, s.threads[r]);
      if s.published != NO_SLOT { ThreadHolds(s, t, r, t.threads[r]); }
    case CountIn(r) =>
      assert ReaderSound(s, s.threads[r]);
      ThreadHolds(s, t, r, t.threads[r]);
    case Validate(r) =>
      assert ReaderSound(s, s.threads[r]);
      ThreadHolds(s, t, r, t.threads[r]);
    case CountOut(r) =>
      assert ReaderSound(s, s.threads[r]);
      ThreadHolds(s, t, r, t.threads[r]);
  }

  ghost predicate Run(states: seq<System>, steps: seq<Step>) {
    |states| == |steps| + 1 && Initial(states[0])
    && forall k :: 0 <= k < |steps| ==> Next(states[k], steps[k], states[k + 1])
  }

  lemma {:induction false} RunHolds(states: seq<System>, steps: seq<Step>, n: nat)
    requires Run(states, steps) && n < |states|
    ensures Invariant(states[n])
  {
    hide Invariant, Next, Initial;
    if n == 0 {
      InitialHolds(states[0]);
    } else {
      RunHolds(states, steps, n - 1);
      StepHolds(states[n - 1], steps[n - 1], states[n]);
    }
  }

  // ---------------------------------------------------------------- what a lease guarantees

  /** At every moment of every run, a lease views exactly one complete publish. */
  lemma LeaseViewsOnePublish(states: seq<System>, steps: seq<Step>, n: nat, r: nat)
    requires Run(states, steps) && n < |states| && r < |states[n].threads| && states[n].threads[r].Leased?
    ensures var lease := states[n].threads[r];
            lease.index < |states[n].slots| && lease.publish < |states[n].history|
            && Shown(states[n].slots[lease.index]) == states[n].history[lease.publish]
  {
    RunHolds(states, steps, n);
    assert ReaderSound(states[n], states[n].threads[r]);
  }

  /** A lease is granted on the latest publish, and only while it is the latest. */
  lemma LeaseIsLatest(states: seq<System>, steps: seq<Step>, n: nat, r: nat)
    requires Run(states, steps) && n < |steps| && steps[n] == Validate(r) && states[n + 1].threads[r].Leased?
    ensures states[n + 1].history == states[n].history != []
    ensures states[n + 1].threads[r].publish == |states[n].history| - 1
    ensures states[n].published == states[n + 1].threads[r].index
  {
    RunHolds(states, steps, n);
    assert Next(states[n], steps[n], states[n + 1]);
    assert ReaderSound(states[n], states[n].threads[r]);
  }

  /** No step of any task touches a leased slot. */
  lemma LeasedSlotIsNotWritten(states: seq<System>, steps: seq<Step>, n: nat, r: nat)
    requires Run(states, steps) && n < |steps| && r < |states[n].threads| && states[n].threads[r].Leased?
    ensures states[n].threads[r].index < |states[n].slots| == |states[n + 1].slots|
    ensures states[n + 1].slots[states[n].threads[r].index] == states[n].slots[states[n].threads[r].index]
    ensures states[n].publisher.Writing? ==> states[n].publisher.destination != states[n].threads[r].index
  {
    RunHolds(states, steps, n);
    assert Next(states[n], steps[n], states[n + 1]);
    assert ReaderSound(states[n], states[n].threads[r]);
  }

  // ---------------------------------------------------------------- when a lease is granted

  /** Whatever slot a reader holds between two publishes is the published one. */
  lemma {:induction false} HoldsPublished(states: seq<System>, steps: seq<Step>, i: nat, n: nat, r: nat)
    requires Run(states, steps) && i < n < |states| && steps[i] == LoadPublished(r)
    requires states[i].published != NO_SLOT
    requires forall m :: i < m < n ==> steps[m] != StorePublished
    ensures states[n].published == states[i].published && states[n].history == states[i].history
    ensures r < |states[n].threads|
    ensures match states[n].threads[r]
            case Outside => true
            case Leased(index, publish) => index == states[i].published && publish == Latest(states[i].history)
            case Refused(_) => false
            case held => held.index == states[i].published
  {
    hide Invariant, Initial;
    assert Next(states[n - 1], steps[n - 1], states[n]);
    if n > i + 1 {
      HoldsPublished(states, steps, i, n - 1, r);
    }
  }

  /**
   * A reader is granted a lease on the latest publish whenever no publish is stored between its load
   * of the published slot and its validation, whatever all other tasks do in between.
   */
  lemma UndisturbedIsLeased(states: seq<System>, steps: seq<Step>, i: nat, n: nat, r: nat)
    requires Run(states, steps) && i < n < |steps| && steps[i] == LoadPublished(r) && steps[n] == Validate(r)
    requires states[i].published != NO_SLOT
    requires forall m :: i < m < n ==> steps[m] != StorePublished
    ensures states[i].history != [] && r < |states[n + 1].threads|
    ensures states[n + 1].threads[r] == Leased(states[i].published, |states[i].history| - 1)
    ensures states[i].published < |states[n + 1].slots|
    ensures Shown(states[n + 1].slots[states[i].published]) == states[i].history[|states[i].history| - 1]
  {
    RunHolds(states, steps, i);
    HoldsPublished(states, steps, i, n, r);
    assert Next(states[n], steps[n], states[n + 1]);
    LeaseViewsOnePublish(states, steps, n + 1, r);
  }

  /** Step `i` is the load with which thread `r` began the attempt it is in at moment `n`. */
  predicate BeganAt(states: seq<System>, steps: seq<Step>, i: nat, n: nat, r: nat)
    requires n <= |steps| < |states|
  {
    i < n && steps[i] == LoadPublished(r) && states[i].published != NO_SLOT
    && forall m :: i < m < n ==> steps[m] != LoadPublished(r)
  }

  lemma {:induction false} AttemptBegan(states: seq<System>, steps: seq<Step>, n: nat, r: nat)
    requires Run(states, steps) && n < |states| && r < |states[n].threads| && states[n].threads[r] != Outside
    ensures exists i: nat :: BeganAt(states, steps, i, n, r)
  {
    hide Invariant;
    assert Initial(states[0]);
    var last: nat := n - 1;
    assert Next(states[last], steps[last], states[n]);
    if steps[last] == LoadPublished(r) {
      assert BeganAt(states, steps, last, n, r);
    } else {
      AttemptBegan(states, steps, last, r);
      var i: nat :| BeganAt(states, steps, i, last, r);
      assert BeganAt(states, steps, i, n, r);
    }
  }

  /** A reader is refused only if a publish was stored since the load its attempt began with. */
  lemma RefusedOnlyByPublish(states: seq<System>, steps: seq<Step>, n: nat, r: nat)
    requires Run(states, steps) && n < |steps| && steps[n] == Validate(r) && states[n + 1].threads[r].Refused?
    ensures exists i: nat, m: nat :: BeganAt(states, steps, i, n, r) && i < m < n && steps[m] == StorePublished
  {
    hide Invariant, Initial;
    assert Next(states[n], steps[n], states[n + 1]);
    AttemptBegan(states, steps, n, r);
    var i: nat :| BeganAt(states, steps, i, n, r);
    if forall m :: i < m < n ==> steps[m] != StorePublished {
      UndisturbedIsLeased(states, steps, i, n, r);
    }
  }

  /** Step `i` began the publish that is under way at moment `n`. */
  predicate HandedOverAt(steps: seq<Step>, i: nat, n: nat, snapshot: Snapshot)
    requires n <= |steps|
  {
    i < n && steps[i] == BeginPublish(snapshot) && forall m :: i < m < n ==> !steps[m].BeginPublish?
  }

  lemma {:induction false} PublishBegan(states: seq<System>, steps: seq<Step>, n: nat)
    requires Run(states, steps) && n < |states| && states[n].publisher != Resting
    ensures exists i: nat :: HandedOverAt(steps, i, n, states[n].publisher.snapshot)
  {
    hide Invariant;
    assert Initial(states[0]);
    var last: nat := n - 1;
    assert Next(states[last], steps[last], states[n]);
    if steps[last].BeginPublish? {
      assert HandedOverAt(steps, last, n, states[n].publisher.snapshot);
    } else {
      PublishBegan(states, steps, last);
      var i: nat :| HandedOverAt(steps, i, last, states[last].publisher.snapshot);
      assert HandedOverAt(steps, i, n, states[n].publisher.snapshot);
    }
  }

  /** What a publish stores for the readers is the snapshot it was called with. */
  lemma StoredAsHandedOver(states: seq<System>, steps: seq<Step>, n: nat, snapshot: Snapshot)
    requires Run(states, steps) && n < |steps| && steps[n] == StorePublished
    requires states[n + 1].history == states[n].history + [snapshot]
    ensures exists i: nat :: HandedOverAt(steps, i, n, snapshot)
    ensures states[n + 1].published < |states[n + 1].slots|
    ensures Shown(states[n + 1].slots[states[n + 1].published]) == snapshot
  {
    assert Next(states[n], steps[n], states[n + 1]);
    assert states[n + 1].history[|states[n].history|] == snapshot;
    PublishBegan(states, steps, n);
    RunHolds(states, steps, n);
    RunHolds(states, steps, n + 1);
  }

  /** An access that is possible in a state. */
  ghost predicate Enabled(s: System, step: Step) {
    exists t :: Next(s, step, t)
  }

  /** Nobody ever waits: every reader and the publisher can make their next access in every state. */
  lemma NobodyWaits(s: System, r: nat, snapshot: Snapshot)
    requires Invariant(s) && r < |s.threads|
    ensures Enabled(s, match s.threads[r]
                       case Outside => LoadPublished(r)
                       case Loaded(_) => CountIn(r)
                       case Counted(_) => Validate(r)
                       case _ => CountOut(r))
    ensures Enabled(s, match s.publisher
                       case Resting => BeginPublish(snapshot)
                       case Scanning(_, _, _) => CheckSlot
                       case Writing(taken, _, written) => if written <= |taken| then WriteField else StorePublished)
  {
    var thread := s.threads[r];
    assert ReaderSound(s, thread);
    PublisherCanStep(s, snapshot);
    match thread
    case Outside =>
      assert Next(s, LoadPublished(r),
                  if s.published == NO_SLOT then s else s.(threads := s.threads[r := Loaded(s.published)]));
    case Loaded(index) =>
      assert Next(s, CountIn(r), Recount(s, r, Counted(index), 1));
    case Counted(index) =>
      var next := if s.published == index then Leased(index, Latest(s.history)) else Refused(index);
      assert Next(s, Validate(r), s.(threads := s.threads[r := next]));
    case _ =>
      if s.readers[thread.index] == 0 { NobodyInside(s.threads, thread.index, r); }
      assert Next(s, CountOut(r), Recount(s, r, Outside, -1));
  }

  lemma PublisherCanStep(s: System, snapshot: Snapshot)
    requires Invariant(s)
    ensures Enabled(s, match s.publisher
                       case Resting => BeginPublish(snapshot)
                       case Scanning(_, _, _) => CheckSlot
                       case Writing(taken, _, written) => if written <= |taken| then WriteField else StorePublished)
  {
    match s.publisher
    case Resting =>
      assert Next(s, BeginPublish(snapshot),
                  if |snapshot| > Capacity(s) then s.(dropped := s.dropped + 1)
                  else s.(publisher := Scanning(snapshot, s.published, 0)));
    case Scanning(_, _, _) =>
      assert Next(s, CheckSlot, Checked(s));
    case Writing(taken, destination, written) =>
      if written <= |taken| {
        assert Next(s, WriteField, FieldWritten(s));
      } else {
        assert Next(s, StorePublished,
                    s.(published := destination, publisher := Resting, history := s.history + [taken]));
      }
  }

  // ---------------------------------------------------------------- when a publish is dropped

  predicate ReaderInside(s: System, i: nat) {
    exists r: nat :: r < |s.threads| && Counts(s.threads[r], i)
  }

  /** The scan passes over a slot only if it is the published one or a reader is inside it. */
  lemma ScanSkipsOnlyReadSlots(s: System, t: System)
    requires Invariant(s) && Next(s, CheckSlot, t) && s.publisher.index < SLOTS && t.publisher.Scanning?
    ensures s.publisher.index == s.published || ReaderInside(s, s.publisher.index)
  {
    if s.publisher.index != s.published {
      SomebodyInside(s.threads, s.publisher.index);
    }
  }

  /** Step `m` of the scan still going on at moment `n` passed slot `i` over, with a reader inside it. */
  ghost predicate PassedAt(states: seq<System>, steps: seq<Step>, m: nat, n: nat, i: nat)
    requires |states| == |steps| + 1 && n < |states|
  {
    m < n && steps[m] == CheckSlot && states[n].publisher.Scanning?
    && states[m].publisher == states[n].publisher.(index := i) && ReaderInside(states[m], i)
    && forall l :: m <= l <= n ==>
         states[l].publisher.Scanning? && states[l].publisher.snapshot == states[n].publisher.snapshot
  }

  lemma {:induction false} ScanPassed(states: seq<System>, steps: seq<Step>, n: nat, i: nat)
    requires Run(states, steps) && n < |states| && states[n].publisher.Scanning? && i < states[n].publisher.index
    ensures i == states[n].published || exists m: nat :: PassedAt(states, steps, m, n, i)
  {
    hide Invariant, Uniform, ReaderInside, Initial;
    RunHolds(states, steps, n);
    StartsResting(states[0]);
    var last: nat := n - 1;
    var s, t := states[last], states[n];
    RunHolds(states, steps, last);
    assert Next(s, steps[last], t);
    ScanIsCurrent(s);
    ScanIsCurrent(t);
    if steps[last] == CheckSlot && i == s.publisher.index {
      ScanSkipsOnlyReadSlots(s, t);
      assert i != t.published ==> PassedAt(states, steps, last, n, i);
    } else {
      ScanPassed(states, steps, last, i);
      if m: nat :| PassedAt(states, steps, m, last, i) {
        assert PassedAt(states, steps, m, n, i);
      }
    }
  }

  lemma StartsResting(s: System)
    ensures Initial(s) ==> s.publisher == Resting
  {
  }

  lemma ScanIsCurrent(s: System)
    requires Invariant(s)
    ensures s.publisher.Scanning? ==> s.publisher.current == s.published
  {
  }

  /**
   * In every run a publish is dropped only if it exceeds the capacity, or each slot but the published
   * one had a reader when it was passed over.
   */
  lemma DroppedOnlyWhileRead(states: seq<System>, steps: seq<Step>, n: nat, i: nat)
    requires Run(states, steps) && n < |steps| && states[n + 1].dropped != states[n].dropped && i < SLOTS
    ensures states[n + 1].dropped == states[n].dropped + 1 && states[n + 1].publisher == Resting
    ensures if steps[n].BeginPublish? then |steps[n].snapshot| > Capacity(states[n])
            else states[n].publisher.Scanning?
                 && (i == states[n].published || exists m: nat :: PassedAt(states, steps, m, n, i))
  {
    assert Next(states[n], steps[n], states[n + 1]);
    if !steps[n].BeginPublish? {
      ScanPassed(states, steps, n, i);
    }
  }

  lemma {:induction false} SomebodyInside(threads: seq<Reader>, i: nat)
    requires Inside(threads, i) > 0
    ensures exists r: nat :: r < |threads| && Counts(threads[r], i)
  {
    var n := |threads| - 1;
    if !Counts(threads[n], i) {
      SomebodyInside(threads[..n], i);
      var r: nat :| r < n && Counts(threads[..n][r], i);
      assert Counts(threads[r], i);
    }
  }
}
