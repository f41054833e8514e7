/**
 * Command transport between the network tasks and the control task: single-producer mailboxes with
 * wrapping 32-bit sequences, and the round-robin drain.
 *
 * Accesses to shared fields are sequentially consistent; between any two of them the other side of
 * a mailbox may take any of its own steps (`ConsumerRuns`, `ProducerRuns`).
 */
module CommandTransport {
  import opened Bytes
  import opened Domain
  import opened CommandQueue
  import opened SmokerApplication
  import opened RingSequences

  datatype Transport = Transport(command: Command, correlationId: u32, generation: u32)

  datatype Admission = Accepted | Full

  /** Only the control task itself may ask for or give back the update permission. */
  predicate External(c: Command) {
    !c.PrepareFirmwareUpdate? && !c.FinishFirmwareUpdate?
  }

  class SpscCommandMailbox {
    const slots: array<Option<Transport>>
    var readSequence: u32
    var writeSequence: u32
    var overflowCount: nat
    /** Everything ever accepted, in order, and how many of them were popped. */
    ghost var pushed: seq<Transport>
    ghost var popped: nat

    ghost predicate Valid()
      reads this, slots
    {
      slots.Length == CAPACITY
      && popped <= |pushed| <= popped + CAPACITY
      && writeSequence == |pushed| % WRAP && readSequence == popped % WRAP
      && (forall i :: popped <= i < |pushed| ==> slots[Place(i)] == Some(pushed[i]))
      && (forall i :: 0 <= i < |pushed| ==> External(pushed[i].command))
    }

    constructor ()
      ensures Valid() && pushed == [] && popped == 0 && fresh(slots)
    {
      slots := new Option<Transport>[CAPACITY](_ => None);
      readSequence, writeSequence, overflowCount, pushed, popped := 0, 0, 0, [], 0;
    }

    /** Any number of pops by the consumer. */
    method ConsumerRuns()
      requires Valid()
      modifies this`readSequence, this`popped
      ensures Valid() && popped >= old(popped)
    {
      var n: nat := *;
      while n > 0
        invariant Valid() && popped >= old(popped)
      {
        n := n - 1;
        PendingCount(|pushed|, popped);
        if readSequence != writeSequence {
          SlotIndex(popped);
          readSequence := (readSequence + 1) % WRAP;
          popped := popped + 1;
        }
      }
    }

    /** Any number of pushes by the producer, the last of them possibly not yet published. */
    method ProducerRuns()
      requires Valid()
      modifies this`writeSequence, this`pushed, slots
      ensures Valid() && old(pushed) <= pushed
    {
      var n: nat := *;
      while n > 0
        invariant Valid() && old(pushed) <= pushed
      {
        n := n - 1;
        var t: Transport, publish: bool := *, *;
        PendingCount(|pushed|, popped);
        if (writeSequence - readSequence) % WRAP < CAPACITY && External(t.command) {
          StoreSlot(t);
          if publish {
            Publish(t);
          }
        }
      }
    }

    /** Fills the slot behind the last published entry; no unread entry lives there. */
    method StoreSlot(t: Transport)
      requires Valid() && |pushed| < popped + CAPACITY
      modifies slots
      ensures Valid() && slots[Place(|pushed|)] == Some(t)
    {
      hide Place;
      SlotIndex(|pushed|);
      OwnPlaces(popped, |pushed|);
      slots[Place(writeSequence)] := Some(t);
    }

    method Publish(ghost t: Transport)
      requires Valid() && |pushed| < popped + CAPACITY && slots[Place(|pushed|)] == Some(t)
      requires External(t.command)
      modifies this`writeSequence, this`pushed
      ensures Valid() && pushed == old(pushed) + [t]
    {
      SlotIndex(|pushed|);
      writeSequence := (writeSequence + 1) % WRAP;
      pushed := pushed + [t];
    }

    /** Accepted commands join in order; a refusal means the limit was reached while pushing. */
    method Push(t: Transport) returns (admission: Admission)
      requires Valid() && External(t.command)
      modifies this, slots
      ensures Valid() && popped >= old(popped)
      ensures admission == Accepted ==> pushed == old(pushed) + [t]
      ensures admission == Accepted && !t.command.StopSession? ==> |pushed| - popped <= REGULAR_CAPACITY
      ensures admission == Full ==>
                pushed == old(pushed)
                && |pushed| - old(popped) >= if t.command.StopSession? then CAPACITY else REGULAR_CAPACITY
      ensures |old(pushed)| - old(popped) < (if t.command.StopSession? then CAPACITY else REGULAR_CAPACITY) ==>
                admission == Accepted
    {
      var write := writeSequence;
      ConsumerRuns();
      var read := readSequence;
      PendingCount(|pushed|, popped);
      var pending := (write - read) % WRAP;
      ConsumerRuns();
      if pending >= (if t.command.StopSession? then CAPACITY else REGULAR_CAPACITY) {
        overflowCount := overflowCount + 1;
        return Full;
      }
      StoreSlot(t);
      ConsumerRuns();
      Publish(t);
      admission := Accepted;
    }

    /** The oldest unread command, if one was published when the consumer looked. */
    method TryPop() returns (result: Option<Transport>)
      requires Valid()
      modifies this, slots
      ensures Valid() && old(pushed) <= pushed
      ensures result == None ==> popped == old(popped) && popped == |pushed|
      ensures result.Some? ==>
                popped == old(popped) + 1 && old(popped) < |pushed| && result.value == pushed[old(popped)]
      ensures old(popped) < |old(pushed)| ==> result.Some?
    {
      var read := readSequence;
      ProducerRuns();
      var write := writeSequence;
      PendingCount(|pushed|, popped);
      if read == write {
        return None;
      }
      SlotIndex(popped);
      ghost var n := |pushed|;
      ProducerRuns();
      result := slots[Place(read)];
      ProducerRuns();
      readSequence := (read + 1) % WRAP;
      popped := popped + 1;
    }
  }

  // ---------------------------------------------------------------- the drain

  const EXTERNAL_BUDGET := 13

  /** How many commands a mailbox has accepted and how many of them were popped. */
  datatype Level = Level(pushed: nat, popped: nat)

  /**
   * One pop of a drain: which mailbox was to be preferred, which one served, how full both were just
   * before, and what became of the command.
   */
  datatype Serve = Serve(preferBlynk: bool, fromBlynk: bool, http: Level, blynk: Level, item: Transport, discarded: bool)

  ghost function Filled(m: SpscCommandMailbox): Level
    reads m
  {
    Level(|m.pushed|, m.popped)
  }

  function LevelOf(x: Serve, blynk: bool): Level {
    if blynk then x.blynk else x.http
  }

  /** The mailbox held a command when this pop began. */
  predicate Waits(x: Serve, blynk: bool) {
    LevelOf(x, blynk).popped < LevelOf(x, blynk).pushed
  }

  predicate Grew(a: Level, b: Level, pops: nat) {
    b.popped == a.popped + pops && a.pushed <= b.pushed
  }

  /** The levels after one pop: the serving mailbox has one command less, and both may have accepted more. */
  predicate Follows(x: Serve, http: Level, blynk: Level) {
    Grew(x.http, http, if x.fromBlynk then 0 else 1) && Grew(x.blynk, blynk, if x.fromBlynk then 1 else 0)
  }

  /** The pops account for all that was popped between two pairs of levels. */
  predicate Chained(log: seq<Serve>, h0: Level, b0: Level, h1: Level, b1: Level) {
    if log == [] then Grew(h0, h1, 0) && Grew(b0, b1, 0)
    else
      log[0].http == h0 && log[0].blynk == b0 && Follows(log[|log| - 1], h1, b1)
      && forall k :: 0 <= k < |log| - 1 ==> Follows(log[k], log[k + 1].http, log[k + 1].blynk)
  }

  lemma ChainGrows(log: seq<Serve>, x: Serve, h0: Level, b0: Level, h1: Level, b1: Level)
    requires Chained(log, h0, b0, x.http, x.blynk) && Follows(x, h1, b1)
    requires log == [] ==> x.http == h0 && x.blynk == b0
    ensures Chained(log + [x], h0, b0, h1, b1)
  {
    var more := log + [x];
    forall k | 0 <= k < |more| - 1
      ensures Follows(more[k], more[k + 1].http, more[k + 1].blynk)
    {
      assert more[k] == log[k];
    }
  }

  lemma ChainLater(log: seq<Serve>, h0: Level, b0: Level, h1: Level, b1: Level, h2: Level, b2: Level)
    requires Chained(log, h0, b0, h1, b1) && Grew(h1, h2, 0) && Grew(b1, b2, 0)
    ensures Chained(log, h0, b0, h2, b2)
  {
  }

  /** The commands popped from one mailbox, in order. */
  function From(log: seq<Serve>, blynk: bool): seq<Transport> {
    if log == [] then []
    else From(log[..|log| - 1], blynk) + if log[|log| - 1].fromBlynk == blynk then [log[|log| - 1].item] else []
  }

  /** The queue entries a drain submits. */
  function Entries(log: seq<Serve>): seq<Queued> {
    if log == [] then []
    else
      var last := log[|log| - 1];
      Entries(log[..|log| - 1])
      + if last.discarded then [] else [Queued(last.item.command, last.item.correlationId, [])]
  }

  predicate StopsAt(log: seq<Serve>, k: int) {
    0 <= k < |log| && !log[k].discarded && log[k].item.command.StopSession?
  }

  /** The preference alternates, and the other mailbox is served only when the preferred one is empty. */
  predicate Fair(log: seq<Serve>, blynkFirst: bool) {
    (forall k :: 0 <= k < |log| ==> log[k].preferBlynk == (blynkFirst == (k % 2 == 0)))
    && (forall k :: 0 <= k < |log| && log[k].fromBlynk != log[k].preferBlynk ==>
          !Waits(log[k], log[k].preferBlynk))
    && (forall k :: 0 <= k < |log| && log[k].discarded ==> log[k].fromBlynk)
  }

  /** A mailbox that holds a command is served by this pop or by the next one. */
  lemma ServedWithinTwoPops(log: seq<Serve>, blynkFirst: bool, h0: Level, b0: Level, h1: Level, b1: Level, k: nat, blynk: bool)
    requires Fair(log, blynkFirst) && Chained(log, h0, b0, h1, b1) && k + 1 < |log| && Waits(log[k], blynk)
    ensures log[k].fromBlynk == blynk || log[k + 1].fromBlynk == blynk
  {
    if log[k].fromBlynk != blynk {
      assert Follows(log[k], log[k + 1].http, log[k + 1].blynk);
      assert Waits(log[k + 1], blynk);
      assert log[k].preferBlynk != blynk;
    }
  }

  /** The turns go on over successive drains, so the same holds for the last pop of one and the first of the next. */
  lemma DrainsJoin(first: seq<Serve>, second: seq<Serve>, blynkFirst: bool, h0: Level, b0: Level, h1: Level, b1: Level,
                   h2: Level, b2: Level, h3: Level, b3: Level)
    requires Fair(first, blynkFirst) && Fair(second, blynkFirst == (|first| % 2 == 0)) && first != [] && second != []
    requires Chained(first, h0, b0, h1, b1) && Grew(h1, h2, 0) && Grew(b1, b2, 0) && Chained(second, h2, b2, h3, b3)
    ensures Fair(first + second, blynkFirst) && Chained(first + second, h0, b0, h3, b3)
  {
    var n, both := |first|, first + second;
    forall k | 0 <= k < |both|
      ensures both[k].preferBlynk == (blynkFirst == (k % 2 == 0))
    {
      assert k >= n ==> both[k] == second[k - n] && (k % 2 == 0) == ((n % 2 == 0) == ((k - n) % 2 == 0));
    }
    forall k | 0 <= k < |both| - 1
      ensures Follows(both[k], both[k + 1].http, both[k + 1].blynk)
    {
      if k < n - 1 {
        assert both[k] == first[k] && both[k + 1] == first[k + 1];
      } else if k >= n {
        assert both[k] == second[k - n] && both[k + 1] == second[k - n + 1];
      }
    }
  }

  lemma OneMore(log: seq<Serve>, x: Serve, blynk: bool)
    ensures From(log + [x], blynk) == From(log, blynk) + if x.fromBlynk == blynk then [x.item] else []
    ensures Entries(log + [x])
         == Entries(log) + if x.discarded then [] else [Queued(x.item.command, x.item.correlationId, [])]
  {
    assert (log + [x])[..|log|] == log;
  }

  lemma {:induction false} EntriesPlain(log: seq<Serve>)
    requires forall k :: 0 <= k < |log| ==> External(log[k].item.command) && !StopsAt(log, k)
    ensures |Entries(log)| <= |log|
    ensures forall k :: 0 <= k < |Entries(log)| ==> External(Entries(log)[k].command) && !Entries(log)[k].command.StopSession?
  {
    if log != [] {
      var n := |log| - 1;
      forall k | 0 <= k < n
        ensures External(log[..n][k].item.command) && !StopsAt(log[..n], k)
      {
        assert !StopsAt(log, k);
      }
      EntriesPlain(log[..n]);
      assert !StopsAt(log, n);
    }
  }

  class RoundRobinCommandDrain {
    var blynkFirst: bool

    constructor ()
      ensures !blynkFirst
    {
      blynkFirst := false;
    }

    /** Pops from the preferred mailbox, or from the other one when that is empty. */
    method PopNext(http: SpscCommandMailbox, blynk: SpscCommandMailbox)
      returns (item: Option<Transport>, fromBlynk: bool, ghost x: Serve)
      requires http.Valid() && blynk.Valid() && http != blynk && http.slots != blynk.slots
      modifies http, http.slots, blynk, blynk.slots
      ensures http.Valid() && blynk.Valid() && old(http.pushed) <= http.pushed && old(blynk.pushed) <= blynk.pushed
      ensures item == None ==> http.popped == old(http.popped) && blynk.popped == old(blynk.popped)
      ensures item == None ==> |old(http.pushed)| == http.popped && |old(blynk.pushed)| == blynk.popped
      ensures item.Some? ==>
                x == Serve(blynkFirst, fromBlynk, old(Filled(http)), old(Filled(blynk)), item.value, false)
                && (fromBlynk != blynkFirst ==> !Waits(x, blynkFirst))
                && Follows(x, Filled(http), Filled(blynk)) && External(x.item.command)
                && if fromBlynk then x.item == blynk.pushed[old(blynk.popped)]
                   else x.item == http.pushed[old(http.popped)]
    {
      ghost var h, b := Filled(http), Filled(blynk);
      var preferred, alternate := if blynkFirst then blynk else http, if blynkFirst then http else blynk;
      fromBlynk := blynkFirst;
      item := preferred.TryPop();
      if item == None {
        fromBlynk := !blynkFirst;
        item := alternate.TryPop();
      }
      if item.Some? {
        x := Serve(blynkFirst, fromBlynk, h, b, item.value, false);
      } else {
        x := *;
      }
    }

    /**
     * Moves external commands to the application until the budget is used up, both mailboxes were
     * found empty, or a Stop was submitted. Every submitted command is admitted.
     */
    method Drain(http: SpscCommandMailbox, blynk: SpscCommandMailbox, app: SmokerApplication)
      returns (submitted: nat, discarded: nat, stopped: bool, ghost log: seq<Serve>)
      requires http.Valid() && blynk.Valid() && http != blynk && http.slots != blynk.slots
      requires app.Valid() && |app.queue.Contents()| <= 2 && !TrailingStop(app.queue.Contents())
      modifies this, http, http.slots, blynk, blynk.slots, app`overflowCount, app`commandResults, app`verdicts,
               app`issued, app`displaced, app.queue, app.queue.slots
      ensures http.Valid() && blynk.Valid() && app.Valid()
      ensures app.queue.Contents() == old(app.queue.Contents()) + Entries(log) && app.verdicts == old(app.verdicts)
      ensures submitted + discarded == |log| <= EXTERNAL_BUDGET && Fair(log, old(blynkFirst))
      ensures stopped <==> |log| > 0 && StopsAt(log, |log| - 1)
      ensures forall k :: 0 <= k < |log| - 1 ==> !StopsAt(log, k)
      ensures forall k :: 0 <= k < |log| ==> External(log[k].item.command)
      ensures blynkFirst == (old(blynkFirst) == (|log| % 2 == 0))
      ensures Chained(log, old(Filled(http)), old(Filled(blynk)), Filled(http), Filled(blynk))
      ensures |log| < EXTERNAL_BUDGET && !stopped ==>
                |old(http.pushed)| <= http.popped && |old(blynk.pushed)| <= blynk.popped
      ensures Popped(http.pushed, old(http.popped), http.popped, From(log, false))
      ensures Popped(blynk.pushed, old(blynk.popped), blynk.popped, From(log, true))
    {
      hide From, Entries, CommandRing.Valid, CommandRing.Contents, SpscCommandMailbox.Valid, SmokerApplication.Valid,
           StopsAt, TrailingStop, Drawn, Waits, Popped, Fair, Chained, Follows, Grew, External;
      AppQueue(app);
      submitted, discarded, stopped, log := 0, 0, false, [];
      ghost var q, hl, bl := app.queue.Contents(), Filled(http), Filled(blynk);
      StillBounded(http);
      StillBounded(blynk);
      NothingDrawn(blynkFirst, http.pushed, http.popped, blynk.pushed, blynk.popped);
      assert q + [] == q;
      var more := true;
      while submitted + discarded < EXTERNAL_BUDGET && more && !stopped
        invariant http.Valid() && blynk.Valid() && app.Valid() && app.queue.Valid()
        invariant app.queue.Contents() == q + Entries(log) && app.verdicts == old(app.verdicts)
        invariant submitted + discarded == |log| <= EXTERNAL_BUDGET
        invariant blynkFirst == (old(blynkFirst) == (|log| % 2 == 0))
        invariant stopped <==> |log| > 0 && StopsAt(log, |log| - 1)
        invariant forall k :: 0 <= k < |log| - 1 ==> !StopsAt(log, k)
        invariant Drawn(log, old(blynkFirst), hl, bl, http.pushed, http.popped, blynk.pushed, blynk.popped)
        invariant log == [] && more ==> hl == Filled(http) && bl == Filled(blynk)
        invariant hl.pushed <= |http.pushed| && bl.pushed <= |blynk.pushed|
        invariant !more ==> hl.pushed <= http.popped && bl.pushed <= blynk.popped
        decreases EXTERNAL_BUDGET - |log|, more
      {
        ghost var hp, bp, ht, bt := http.pushed, blynk.pushed, http.popped, blynk.popped;
        DrawnMeans(log, old(blynkFirst), hl, bl, hp, ht, bp, bt);
        NoStopYet(q, log);
        var found, gone, stop;
        ghost var x;
        found, gone, stop, x := ServeOne(http, blynk, app);
        if !found {
          more := false;
          DrawnLater(log, old(blynkFirst), hl, bl, hp, ht, bp, bt, http.pushed, blynk.pushed);
        } else {
          if gone {
            discarded := discarded + 1;
          } else {
            submitted := submitted + 1;
            stopped := stop;
          }
          DrawnMore(log, x, old(blynkFirst), hl, bl, hp, ht, bp, bt, http.pushed, blynk.pushed);
          EntriesGrow(log, x, q);
          log := log + [x];
        }
      }
      DrawnMeans(log, old(blynkFirst), hl, bl, http.pushed, http.popped, blynk.pushed, blynk.popped);
    }

    /** One pop: discarded when it came over a connection that is gone, submitted otherwise. */
    method ServeOne(http: SpscCommandMailbox, blynk: SpscCommandMailbox, app: SmokerApplication)
      returns (found: bool, discarded: bool, stop: bool, ghost x: Serve)
      requires http.Valid() && blynk.Valid() && http != blynk && http.slots != blynk.slots
      requires app.Valid() && app.queue.Valid()
      requires |app.queue.Contents()| < REGULAR_CAPACITY && !TrailingStop(app.queue.Contents())
      modifies this, http, http.slots, blynk, blynk.slots, app`overflowCount, app`commandResults, app`verdicts,
               app`issued, app`displaced, app.queue, app.queue.slots
      ensures http.Valid() && blynk.Valid() && app.Valid() && app.queue.Valid() && app.verdicts == old(app.verdicts)
      ensures old(http.pushed) <= http.pushed && old(blynk.pushed) <= blynk.pushed
      ensures !found ==>
                http.popped == old(http.popped) == |old(http.pushed)| && blynk.popped == old(blynk.popped) == |old(blynk.pushed)|
                && app.queue.Contents() == old(app.queue.Contents()) && blynkFirst == old(blynkFirst)
      ensures found ==>
                x.preferBlynk == old(blynkFirst) && blynkFirst == !old(blynkFirst) && External(x.item.command)
                && x.http == old(Filled(http)) && x.blynk == old(Filled(blynk))
                && (x.fromBlynk != x.preferBlynk ==> !Waits(x, x.preferBlynk)) && (x.discarded ==> x.fromBlynk)
                && http.popped == old(http.popped) + (if x.fromBlynk then 0 else 1) <= |http.pushed|
                && blynk.popped == old(blynk.popped) + (if x.fromBlynk then 1 else 0) <= |blynk.pushed|
                && (if x.fromBlynk then x.item == blynk.pushed[old(blynk.popped)]
                    else x.item == http.pushed[old(http.popped)])
                && app.queue.Contents() == old(app.queue.Contents())
                     + if x.discarded then [] else [Queued(x.item.command, x.item.correlationId, [])]
      ensures found ==> discarded == x.discarded && stop == x.item.command.StopSession?
    {
      hide CommandRing.Valid, CommandRing.Contents, SpscCommandMailbox.Valid, SmokerApplication.Valid, TrailingStop;
      var item, fromBlynk;
      item, fromBlynk, x := PopNext(http, blynk);
      found, discarded, stop := item.Some?, false, false;
      if !found { return; }
      StillBounded(http);
      StillBounded(blynk);
      blynkFirst := !blynkFirst;
      stop := item.value.command.StopSession?;
      var generationAccepted: bool := *;
      if fromBlynk && !generationAccepted {
        discarded, x := true, x.(discarded := true);
        assert app.queue.Contents() + [] == app.queue.Contents();
        return;
      }
      SubmitOne(app, item.value);
    }

    method SubmitOne(app: SmokerApplication, t: Transport)
      requires app.Valid() && |app.queue.Contents()| < REGULAR_CAPACITY && !TrailingStop(app.queue.Contents())
      modifies app`overflowCount, app`commandResults, app`verdicts, app`issued, app`displaced, app.queue, app.queue.slots
      ensures app.Valid() && app.queue.Valid() && app.verdicts == old(app.verdicts)
      ensures app.queue.Contents() == old(app.queue.Contents()) + [Queued(t.command, t.correlationId, [])]
    {
      hide CommandRing.Valid, CommandRing.Contents, SmokerApplication.Valid;
      ghost var before := app.verdicts;
      var admitted := app.Submit(t.command, t.correlationId);
      AppQueue(app);
      assert before + [] == before;
    }
  }

  lemma AppQueue(app: SmokerApplication)
    requires app.Valid()
    ensures app.queue.Valid()
  {
  }

  /** `taken` are the entries popped between two positions. */
  predicate Popped(pushed: seq<Transport>, from: nat, to: nat, taken: seq<Transport>) {
    from <= to <= |pushed| && taken == pushed[from..to] && |taken| == to - from
  }

  lemma StillBounded(m: SpscCommandMailbox)
    requires m.Valid()
    ensures m.popped <= |m.pushed|
  {
  }

  lemma PoppedMore(before: seq<Transport>, after: seq<Transport>, from: nat, to: nat, taken: seq<Transport>)
    requires Popped(before, from, to, taken) && before <= after
    ensures Popped(after, from, to, taken)
    ensures to < |after| ==> Popped(after, from, to + 1, taken + [after[to]])
  {
  }

  /** All that a drain's pops say about the two mailboxes, up to their contents and positions now. */
  predicate Drawn(log: seq<Serve>, first: bool, h0: Level, b0: Level, hp: seq<Transport>, ht: nat, bp: seq<Transport>,
                  bt: nat)
  {
    Fair(log, first) && Chained(log, h0, b0, Level(|hp|, ht), Level(|bp|, bt))
    && Popped(hp, h0.popped, ht, From(log, false)) && Popped(bp, b0.popped, bt, From(log, true))
    && forall k :: 0 <= k < |log| ==> External(log[k].item.command)
  }

  lemma NothingDrawn(first: bool, hp: seq<Transport>, ht: nat, bp: seq<Transport>, bt: nat)
    requires ht <= |hp| && bt <= |bp|
    ensures Drawn([], first, Level(|hp|, ht), Level(|bp|, bt), hp, ht, bp, bt) && Entries([]) == []
  {
  }

  lemma DrawnMeans(log: seq<Serve>, first: bool, h0: Level, b0: Level, hp: seq<Transport>, ht: nat,
                      bp: seq<Transport>, bt: nat)
    requires Drawn(log, first, h0, b0, hp, ht, bp, bt)
    ensures Fair(log, first) && Chained(log, h0, b0, Level(|hp|, ht), Level(|bp|, bt))
    ensures Popped(hp, h0.popped, ht, From(log, false)) && Popped(bp, b0.popped, bt, From(log, true))
    ensures forall k :: 0 <= k < |log| ==> External(log[k].item.command)
  {
  }

  lemma DrawnLater(log: seq<Serve>, first: bool, h0: Level, b0: Level, hp: seq<Transport>, ht: nat, bp: seq<Transport>,
                   bt: nat, http: seq<Transport>, blynk: seq<Transport>)
    requires Drawn(log, first, h0, b0, hp, ht, bp, bt) && hp <= http && bp <= blynk
    ensures Drawn(log, first, h0, b0, http, ht, blynk, bt)
  {
    hide From, Fair, Chained, External;
    ChainLater(log, h0, b0, Level(|hp|, ht), Level(|bp|, bt), Level(|http|, ht), Level(|blynk|, bt));
  }

  lemma DrawnMore(log: seq<Serve>, x: Serve, first: bool, h0: Level, b0: Level, hp: seq<Transport>, ht: nat,
                  bp: seq<Transport>, bt: nat, http: seq<Transport>, blynk: seq<Transport>)
    requires Drawn(log, first, h0, b0, hp, ht, bp, bt) && hp <= http && bp <= blynk
    requires log == [] ==> x.http == h0 && x.blynk == b0
    requires x.http == Level(|hp|, ht) && x.blynk == Level(|bp|, bt) && External(x.item.command)
    requires x.preferBlynk == (first == (|log| % 2 == 0))
    requires (x.fromBlynk != x.preferBlynk ==> !Waits(x, x.preferBlynk)) && (x.discarded ==> x.fromBlynk)
    requires if x.fromBlynk then bt < |blynk| && x.item == blynk[bt] else ht < |http| && x.item == http[ht]
    ensures Drawn(log + [x], first, h0, b0, http, if x.fromBlynk then ht else ht + 1, blynk,
                  if x.fromBlynk then bt + 1 else bt)
  {
    hide From, Entries, Popped, Waits, External, Fair, Chained;
    LogGrows(log, x, hp, http, h0.popped, ht, bp, blynk, b0.popped, bt);
    FairMore(log, x, first);
    ChainGrows(log, x, h0, b0, Level(|http|, if x.fromBlynk then ht else ht + 1),
               Level(|blynk|, if x.fromBlynk then bt + 1 else bt));
  }

  /** What one more pop does to the submitted entries and to the Stops among them. */
  lemma {:induction false} EntriesGrow(log: seq<Serve>, x: Serve, q: seq<Queued>)
    ensures q + Entries(log + [x])
         == (q + Entries(log)) + if x.discarded then [] else [Queued(x.item.command, x.item.correlationId, [])]
    ensures forall k :: 0 <= k < |log| ==> (StopsAt(log + [x], k) <==> StopsAt(log, k))
    ensures StopsAt(log + [x], |log|) <==> !x.discarded && x.item.command.StopSession?
  {
    hide From, Entries;
    OneMore(log, x, false);
  }

  lemma NoStopYet(q: seq<Queued>, log: seq<Serve>)
    requires |q| <= 2 && !TrailingStop(q) && |log| < EXTERNAL_BUDGET
    requires forall k :: 0 <= k < |log| ==> External(log[k].item.command)
    requires forall k :: 0 <= k < |log| ==> !StopsAt(log, k)
    ensures |q + Entries(log)| < REGULAR_CAPACITY && !TrailingStop(q + Entries(log))
  {
    EntriesPlain(log);
  }

  lemma FairMore(log: seq<Serve>, x: Serve, blynkFirst: bool)
    requires Fair(log, blynkFirst) && x.preferBlynk == (blynkFirst == (|log| % 2 == 0))
    requires (x.fromBlynk != x.preferBlynk ==> !Waits(x, x.preferBlynk)) && (x.discarded ==> x.fromBlynk)
    ensures Fair(log + [x], blynkFirst)
  {
  }

  lemma LogGrows(log: seq<Serve>, x: Serve, hp: seq<Transport>, http: seq<Transport>, h0: nat, ht: nat,
                 bp: seq<Transport>, blynk: seq<Transport>, b0: nat, bt: nat)
    requires Popped(hp, h0, ht, From(log, false)) && Popped(bp, b0, bt, From(log, true)) && hp <= http && bp <= blynk
    requires if x.fromBlynk then bt < |blynk| && x.item == blynk[bt] else ht < |http| && x.item == http[ht]
    ensures Popped(http, h0, if x.fromBlynk then ht else ht + 1, From(log + [x], false))
    ensures Popped(blynk, b0, if x.fromBlynk then bt + 1 else bt, From(log + [x], true))
  {
    hide From;
    OneMore(log, x, false);
    OneMore(log, x, true);
    PoppedMore(hp, http, h0, ht, From(log, false));
    PoppedMore(bp, blynk, b0, bt, From(log, true));
    assert From(log, false) + [] == From(log, false) && From(log, true) + [] == From(log, true);
  }
}
