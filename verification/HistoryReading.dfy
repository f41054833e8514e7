/** Readers that page through a session's samples by the continuations of the log's own answers. */
module HistoryReading {
  import opened Bytes
  import opened Domain
  import opened Codec
  import opened Durability
  import opened LogState
  import opened PageFormat
  import opened LogInvariant
  import opened HistoryQueries
  import opened HistoryLog

  /** The session is not being evicted: no page is marked in the table, and none on flash. */
  ghost predicate Kept(log: CircularHistoryLog, session: u64)
    reads log, log.flash
  {
    !Pending(log.pages, session) && !Doomed(log.Exposed(), session)
  }

  /** The open session is never being evicted. */
  lemma OpenIsKept(log: CircularHistoryLog)
    requires log.Valid() && log.activeHistoryId.Some?
    ensures Kept(log, log.activeHistoryId.value)
  {
    hide ViewOf, Records, Used, ReadBack, Durable, InSync, Readable, Ready, Coherent;
  }

  lemma TailMembers(a: seq<nat>)
    requires a != [] && forall k :: 0 < k < |a| ==> a[k] != a[0]
    ensures forall i :: i in a[1..] <==> i in a && i != a[0]
  {
    assert a == [a[0]] + a[1..];
    assert forall k :: 0 <= k < |a[1..]| ==> a[1..][k] == a[k + 1];
  }

  /** Pages of different generations have one order only. */
  lemma {:induction false} SortedOnce(pages: Table, a: seq<nat>, b: seq<nat>)
    requires forall k :: 0 <= k < |a| ==> a[k] < |pages|
    requires forall k :: 0 <= k < |b| ==> b[k] < |pages|
    requires forall j, k :: 0 <= j < k < |a| ==> pages[a[j]].generation < pages[a[k]].generation
    requires forall j, k :: 0 <= j < k < |b| ==> pages[b[j]].generation < pages[b[k]].generation
    requires forall i :: i in a <==> i in b
    ensures a == b
  {
    assert (a != [] ==> a[0] in b) && (b != [] ==> b[0] in a);
    if a != [] {
      assert a[0] == b[0];
      TailMembers(a);
      TailMembers(b);
      SortedOnce(pages, a[1..], b[1..]);
    }
  }

  /** Every query of an unchanged session reads its pages in the same order. */
  lemma OneOrder(log: CircularHistoryLog, session: u64, a: seq<nat>, b: seq<nat>)
    requires log.Valid() && Kept(log, session)
    requires InOrder(log.pages, session, a) && InOrder(log.pages, session, b)
    ensures a == b
  {
    hide ViewOf, Records, Used, ReadBack, Durable, InSync, Readable, Ready, Coherent;
    ListedGenerations(log, session, a);
    ListedGenerations(log, session, b);
    assert forall i :: i in a ==> Listing(log.pages, session, i);
    assert forall i :: i in b ==> Listing(log.pages, session, i);
    SortedOnce(log.pages, a, b);
  }

  lemma ListedGenerations(log: CircularHistoryLog, session: u64, order: seq<nat>)
    requires log.Valid() && Kept(log, session) && InOrder(log.pages, session, order)
    ensures forall j, k :: 0 <= j < k < |order| ==>
              log.pages[order[j]].generation < log.pages[order[k]].generation
  {
    hide ViewOf, Records, Used, ReadBack, Durable, InSync, Readable, Ready;
    log.SamplesAreAcked(session, order);
    OrderedPromises(log.Memory(), log.flash.sectors, session, order, log.ledger, log.submitted);
  }

  /** One answer of an unchanged session: the part of its thinned records that is newer than `after`. */
  method AskPage(log: CircularHistoryLog, session: u64, after: Option<nat>, limit: nat, stride: nat)
    returns (ok: bool, answer: Answer, ghost order: seq<nat>)
    requires log.Valid() && limit > 0 && Kept(log, session)
    modifies log`corruptRecords, log`degraded, log`lastQueryFailed, log.flash`failures
    ensures log.Valid() && log.flash.failures >= old(log.flash.failures)
    ensures !ok ==> log.flash.failures > old(log.flash.failures)
    ensures InOrder(log.pages, session, order) && PromisedAll(log.ledger, order)
    ensures Increasing(Acked(log.ledger, order))
    ensures ok ==> answer == AnswerOf(Newer(Thinned(Acked(log.ledger, order), Positive(stride), 0), after), limit)
  {
    hide ViewsOf, Consistent, InSync, Joined, AnswerOf, Newer, Thinned, InOrder;
    answer, order := log.Samples(session, after, limit, stride);
    log.SamplesAreAcked(session, order);
    ok := !log.lastQueryFailed;
  }

  /**
   * A reader that follows the continuations of its queries gets the session's thinned acknowledged
   * records, of the open session too: none twice, none left out, for every limit. Only a failing flash
   * call can stop it.
   */
  method FollowSamples(log: CircularHistoryLog, session: u64, limit: nat, stride: nat)
    returns (ok: bool, records: seq<Observation>, ghost order: seq<nat>)
    requires log.Valid() && limit > 0 && Kept(log, session)
    modifies log`corruptRecords, log`degraded, log`lastQueryFailed, log.flash`failures
    ensures log.Valid() && (!ok ==> log.flash.failures > old(log.flash.failures))
    ensures InOrder(log.pages, session, order) && PromisedAll(log.ledger, order)
    ensures ok ==> records == Thinned(Acked(log.ledger, order), if stride >= 1 then stride else 1, 0)
    ensures ok ==> EveryNth(Acked(log.ledger, order), if stride >= 1 then stride else 1, records)
  {
    hide ViewsOf, Consistent, InSync, InOrder, AnswerOf, Newer, Thinned, SamplesBefore, CircularHistoryLog.Valid;
    var answer;
    ok, answer, order := AskPage(log, session, None, limit, stride);
    records := answer.records;
    if !ok { return; }
    ghost var all := Thinned(Acked(log.ledger, order), Positive(stride), 0);
    ThinnedMeans(Acked(log.ledger, order), Positive(stride));
    AllNewer(all, None);
    AnswerParts(all, None, limit);
    while answer.continuation.Some?
      invariant log.Valid() && Kept(log, session) && log.flash.failures >= old(log.flash.failures)
      invariant all == records + if answer.continuation == None then [] else Newer(all, answer.continuation)
      decreases if answer.continuation == None then 0 else 1 + |Newer(all, answer.continuation)|
    {
      ghost var next, after := order, answer.continuation;
      ok, answer, next := AskPage(log, session, answer.continuation, limit, stride);
      if !ok { return; }
      OneOrder(log, session, order, next);
      AnswerParts(all, after, limit);
      records := records + answer.records;
    }
  }

  /** An answer and what its continuation still offers make up all that was asked for. */
  lemma AnswerParts(all: seq<Observation>, after: Option<nat>, limit: nat)
    requires Increasing(all) && limit > 0
    ensures var answer := AnswerOf(Newer(all, after), limit);
            (answer.continuation == None ==> answer.records == Newer(all, after))
            && (answer.continuation.Some? ==>
                  answer.records + Newer(all, answer.continuation) == Newer(all, after)
                  && |Newer(all, answer.continuation)| < |Newer(all, after)|)
  {
    hide Newer;
    NextAnswer(all, after, limit);
  }
}
