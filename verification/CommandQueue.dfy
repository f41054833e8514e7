/** The command ring of the control application: reserved Stop admission and Stop coalescing. */
module CommandQueue {
  import opened Bytes
  import opened Domain
  import opened ControlCore

  datatype Command =
    | StartSession(sessionId: u32, recipe: Recipe)
    | StopSession
    | SetChamberTarget(target: Option<real>)
    | SetProbeTarget(probe: byte, probeTarget: Option<real>)
    | SetProbeEnabled(probe: byte, enabled: bool)
    | SetProbeAlarmEnabled(probe: byte, enabled: bool)
    | AcknowledgeAlarm(alarm: u32)
    | ClearResolvedFault
    | PrepareFirmwareUpdate
    | FinishFirmwareUpdate

  datatype Queued = Queued(command: Command, correlationId: u32, coalesced: seq<u32>)

  const CAPACITY := 16
  const REGULAR_CAPACITY := 15
  const RESULT_CAPACITY := 16

  datatype Outcome = Admitted | Coalesced | Refused

  // ---------------------------------------------------------------- the queue as a list

  function Newest<T>(s: seq<T>): (n: seq<T>)
    ensures |n| <= RESULT_CAPACITY && |n| <= |s| && n == s[|s| - |n|..]
  {
    if |s| > RESULT_CAPACITY then s[|s| - RESULT_CAPACITY..] else s
  }

  predicate TrailingStop(q: seq<Queued>) {
    |q| > 0 && q[|q| - 1].command.StopSession?
  }

  function WithId(e: Queued, id: u32): Queued {
    if id == 0 then e else e.(coalesced := Newest(e.coalesced + [id]))
  }

  /** A FIFO list in which only a trailing Stop coalesces, with the last place kept for a Stop. */
  function OutcomeOf(q: seq<Queued>, c: Command): Outcome {
    if c.StopSession? && TrailingStop(q) then Coalesced
    else if |q| >= (if c.StopSession? then CAPACITY else REGULAR_CAPACITY) then Refused
    else Admitted
  }

  function AfterSubmit(q: seq<Queued>, c: Command, id: u32): seq<Queued> {
    match OutcomeOf(q, c)
    case Coalesced => q[..|q| - 1] + [WithId(q[|q| - 1], id)]
    case Refused => q
    case Admitted => q + [Queued(c, id, [])]
  }

  predicate WellFormed(q: seq<Queued>) {
    |q| <= CAPACITY
    && forall k :: 0 <= k < |q| ==>
         |q[k].coalesced| <= RESULT_CAPACITY && (q[k].coalesced != [] ==> q[k].command.StopSession?)
         && forall j :: 0 <= j < |q[k].coalesced| ==> q[k].coalesced[j] != 0
  }

  lemma SubmitWellFormed(q: seq<Queued>, c: Command, id: u32)
    requires WellFormed(q)
    ensures WellFormed(AfterSubmit(q, c, id))
    ensures OutcomeOf(q, c).Refused? <==>
              |q| >= REGULAR_CAPACITY && (c.StopSession? ==> |q| == CAPACITY && !TrailingStop(q))
  {
    if c.StopSession? && TrailingStop(q) {
      var more := q[|q| - 1].coalesced + [id];
      assert forall j :: 0 <= j < |Newest(more)| ==> Newest(more)[j] == more[|more| - |Newest(more)| + j];
    }
  }

  /** The correlation ids still waiting for a verdict, zero ids aside. */
  function PendingIds(q: seq<Queued>): multiset<u32> {
    if q == [] then multiset{} else PendingIds(q[..|q| - 1]) + IdsOf(q[|q| - 1])
  }

  function IdsOf(e: Queued): multiset<u32> {
    One(e.correlationId) + multiset(e.coalesced)
  }

  function One(id: u32): multiset<u32> {
    if id == 0 then multiset{} else multiset{id}
  }

  lemma PendingLast(q: seq<Queued>, e: Queued)
    ensures PendingIds(q + [e]) == PendingIds(q) + IdsOf(e)
  {
    assert (q + [e])[..|q|] == q && (q + [e])[|q|] == e;
  }

  /** The id a Stop entry gives up when one more joins it. */
  function Oldest(e: Queued, id: u32): multiset<u32> {
    if id != 0 && |e.coalesced| >= RESULT_CAPACITY then multiset{e.coalesced[0]} else multiset{}
  }

  lemma IdJoins(e: Queued, id: u32)
    requires |e.coalesced| <= RESULT_CAPACITY
    ensures IdsOf(e) + One(id) == IdsOf(WithId(e, id)) + Oldest(e, id)
  {
    if id != 0 {
      NewestKeeps(e.coalesced, id);
      Regroup(One(e.correlationId), multiset(e.coalesced), One(id),
              multiset(Newest(e.coalesced + [id])), Oldest(e, id));
    }
  }

  lemma Regroup(a: multiset<u32>, b: multiset<u32>, c: multiset<u32>, d: multiset<u32>, e: multiset<u32>)
    requires b + c == d + e
    ensures (a + b) + c == (a + d) + e
  {
    forall x: u32
      ensures ((a + b) + c)[x] == ((a + d) + e)[x]
    {
      assert (b + c)[x] == (d + e)[x];
    }
  }

  lemma NewestKeeps(s: seq<u32>, id: u32)
    requires |s| <= RESULT_CAPACITY
    ensures multiset(s) + multiset{id}
         == multiset(Newest(s + [id])) + if |s| >= RESULT_CAPACITY then multiset{s[0]} else multiset{}
  {
    var more := s + [id];
    assert multiset(more) == multiset(s) + multiset{id};
    if |s| >= RESULT_CAPACITY {
      assert more == [s[0]] + more[1..];
      assert Newest(more) == more[1..];
    } else {
      assert Newest(more) == more;
    }
  }

  /** The id a full Stop entry gives up when one more coalesces into it. */
  function Displaced(q: seq<Queued>, c: Command, id: u32): multiset<u32> {
    if c.StopSession? && TrailingStop(q) then Oldest(q[|q| - 1], id) else multiset{}
  }

  /** A submitted id waits, is refused on the spot, or displaces the oldest id of a full Stop entry. */
  lemma SubmitConserves(q: seq<Queued>, c: Command, id: u32)
    requires WellFormed(q)
    ensures PendingIds(q) + One(id)
         == PendingIds(AfterSubmit(q, c, id)) + Displaced(q, c, id)
            + if OutcomeOf(q, c).Refused? then One(id) else multiset{}
  {
    hide PendingIds, IdsOf, One, WithId, Oldest;
    if c.StopSession? && TrailingStop(q) {
      var front, last := q[..|q| - 1], q[|q| - 1];
      assert q == front + [last];
      PendingLast(front, last);
      PendingLast(front, WithId(last, id));
      IdJoins(last, id);
      Regroup(PendingIds(front), IdsOf(last), One(id), IdsOf(WithId(last, id)), Oldest(last, id));
    } else if OutcomeOf(q, c).Admitted? {
      PendingLast(q, Queued(c, id, []));
      FreshIds(c, id);
    }
  }

  lemma FreshIds(c: Command, id: u32)
    ensures IdsOf(Queued(c, id, [])) == One(id)
  {
  }

  lemma {:induction false} PendingFront(q: seq<Queued>)
    requires |q| > 0
    ensures PendingIds(q) == IdsOf(q[0]) + PendingIds(q[1..])
  {
    hide IdsOf;
    var front, last := q[..|q| - 1], q[|q| - 1];
    if |q| == 1 {
      assert front == [] && q[1..] == [];
    } else {
      PendingFront(front);
      assert q[1..] == front[1..] + [last];
      PendingLast(front[1..], last);
    }
  }

  // ---------------------------------------------------------------- the ring

  /** The ring position `k` places behind the head. */
  function Slot(head: nat, k: nat): nat {
    (head + k) % CAPACITY
  }

  lemma Slots(head: nat, k: nat)
    requires head < CAPACITY && k < CAPACITY
    ensures Slot(head, k) == if head + k < CAPACITY then head + k else head + k - CAPACITY
  {
  }

  lemma ShiftedSlot(head: nat, k: nat)
    requires head < CAPACITY && k < CAPACITY
    ensures Slot((head + 1) % CAPACITY, k) == Slot(head, k + 1)
  {
    if head == CAPACITY - 1 {
      assert (head + 1) % CAPACITY == 0 && head + (k + 1) == CAPACITY + k;
    } else {
      assert (head + 1) % CAPACITY == head + 1;
    }
  }

  lemma AllSlots(head: nat)
    requires head < CAPACITY
    ensures forall k: nat :: k < CAPACITY ==> Slot(head, k) < CAPACITY
    ensures forall j: nat, k: nat :: j < CAPACITY && k < CAPACITY && j != k ==> Slot(head, j) != Slot(head, k)
    ensures forall h: nat, k: nat :: h == (head + 1) % CAPACITY && k < CAPACITY ==> Slot(h, k) == Slot(head, k + 1)
    ensures Slot(head, 0) == head
  {
    forall j: nat, k: nat | j < CAPACITY && k < CAPACITY && j != k
      ensures Slot(head, j) != Slot(head, k)
    {
      Slots(head, j);
      Slots(head, k);
    }
    forall h: nat, k: nat | h == (head + 1) % CAPACITY && k < CAPACITY
      ensures Slot(h, k) == Slot(head, k + 1)
    {
      ShiftedSlot(head, k);
    }
  }

  lemma LastSlot(head: nat, count: nat)
    requires head < CAPACITY && 0 < count <= CAPACITY
    ensures (Slot(head, count) + CAPACITY - 1) % CAPACITY == Slot(head, count - 1)
  {
  }

  lemma NextSlot(head: nat, count: nat)
    requires head < CAPACITY && count < CAPACITY
    ensures (Slot(head, count) + 1) % CAPACITY == Slot(head, count + 1)
  {
  }

  class CommandRing {
    const slots: array<Option<Queued>>
    var head: nat
    var tail: nat
    var count: nat

    ghost predicate Valid()
      reads this, slots
    {
      slots.Length == CAPACITY && head < CAPACITY && count <= CAPACITY && tail == Slot(head, count)
      && forall k: nat :: k < count ==> Slot(head, k) < CAPACITY && slots[Slot(head, k)].Some?
    }

    ghost function Contents(): (q: seq<Queued>)
      requires Valid()
      reads this, slots
      ensures |q| == count
    {
      seq(count, k requires 0 <= k < count && Valid() reads this, slots => slots[Slot(head, k)].value)
    }

    constructor ()
      ensures Valid() && Contents() == [] && fresh(slots)
    {
      slots := new Option<Queued>[CAPACITY](_ => None);
      head, tail, count := 0, 0, 0;
    }

    method TrailingStopIsPending() returns (pending: bool)
      requires Valid()
      ensures pending <==> TrailingStop(Contents())
    {
      if count == 0 { return false; }
      var index := (tail + CAPACITY - 1) % CAPACITY;
      LastSlot(head, count);
      pending := slots[index].Some? && slots[index].value.command.StopSession?;
    }

    method Submit(c: Command, id: u32) returns (outcome: Outcome)
      requires Valid()
      modifies this, slots
      ensures Valid() && Contents() == AfterSubmit(old(Contents()), c, id) && outcome == OutcomeOf(old(Contents()), c)
    {
      var trailing := TrailingStopIsPending();
      if c.StopSession? && trailing {
        if id != 0 {
          JoinLast(id);
        } else {
          assert Contents() == Contents()[..count - 1] + [Contents()[count - 1]];
        }
        return Coalesced;
      }
      if count >= (if c.StopSession? then CAPACITY else REGULAR_CAPACITY) {
        return Refused;
      }
      Enqueue(Queued(c, id, []));
      outcome := Admitted;
    }

    /** Overwrites one ring position; every other one keeps its entry. */
    method Put(k: nat, e: Queued)
      requires slots.Length == CAPACITY && head < CAPACITY && k < CAPACITY
      modifies slots
      ensures Slot(head, k) < CAPACITY && slots[Slot(head, k)] == Some(e)
      ensures forall j: nat :: j < CAPACITY && j != k ==> Slot(head, j) < CAPACITY && slots[Slot(head, j)] == old(slots[Slot(head, j)])
    {
      hide Slot;
      AllSlots(head);
      slots[Slot(head, k)] := Some(e);
    }

    /** Adds an id to the last entry, giving up its oldest one when it is full. */
    method JoinLast(id: u32)
      requires Valid() && count > 0 && id != 0
      modifies slots
      ensures Valid() && Contents() == old(Contents()[..count - 1] + [WithId(Contents()[count - 1], id)])
    {
      hide Slot, Newest;
      LastSlot(head, count);
      var index := (tail + CAPACITY - 1) % CAPACITY;
      var last := slots[index].value;
      Shifted(last.coalesced, id);
      var kept := if |last.coalesced| >= RESULT_CAPACITY then last.coalesced[|last.coalesced| + 1 - RESULT_CAPACITY..]
      else last.coalesced;
      Put(count - 1, last.(coalesced := kept + [id]));
    }

    method Enqueue(e: Queued)
      requires Valid() && count < CAPACITY
      modifies this`tail, this`count, slots
      ensures Valid() && Contents() == old(Contents()) + [e]
    {
      hide Slot;
      NextSlot(head, count);
      Put(count, e);
      tail := (tail + 1) % CAPACITY;
      count := count + 1;
    }

    method Front() returns (e: Queued)
      requires Valid() && count > 0
      ensures e == Contents()[0]
    {
      assert Slot(head, 0) == head;
      e := slots[head].value;
    }

    /** The processed value stays in its slot until a later submit overwrites it. */
    method Pop()
      requires Valid() && count > 0
      modifies this`head, this`count
      ensures Valid() && Contents() == old(Contents())[1..]
    {
      hide Slot;
      AllSlots(head);
      PopSlot(head, count);
      ghost var h, q := head, Contents();
      head := (head + 1) % CAPACITY;
      count := count - 1;
      forall k: nat | k < count
        ensures Slot(head, k) < CAPACITY && slots[Slot(head, k)] == Some(q[k + 1])
      {
        assert Slot(head, k) == Slot(h, k + 1);
      }
    }
  }

  lemma PopSlot(head: nat, count: nat)
    requires head < CAPACITY && 0 < count <= CAPACITY
    ensures Slot(head, count) == Slot((head + 1) % CAPACITY, count - 1)
  {
  }

  lemma Shifted(s: seq<u32>, id: u32)
    ensures Newest(s + [id])
         == (if |s| >= RESULT_CAPACITY then s[|s| + 1 - RESULT_CAPACITY..] else s) + [id]
  {
  }
}
