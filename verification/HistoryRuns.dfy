/**
 * Whole lives of a device: any boots, sessions, appends and queries, with any failure of any flash call.
 * A run is a chain of lawful transitions from the first flash content to the last one.
 */
module HistoryRuns {
  import opened Bytes
  import opened Domain
  import opened Codec
  import opened Durability
  import opened LogState
  import opened PageFormat
  import opened NorFlash
  import opened LogInvariant
  import opened HistoryQueries
  import opened HistoryLog

  datatype Command =
    | Boot
    | Begin(observation: Observation)
    | Add(observation: Observation)
    | Ask(session: u64, after: Option<nat>, limit: nat, stride: nat)

  /** What the caller is told; a log that is not booted, or out of numbers, is not called. */
  datatype Reply =
    | Booted(ok: bool)
    | Begun(id: Option<u64>)
    | Added(ok: bool)
    | Told(answer: Answer)
    | Skipped

  /** Flash, memory and promises between two commands. */
  datatype Moment = Moment(
    ready: bool,
    ram: Ram,
    next: nat,
    sectors: seq<Sector>,
    ledger: Ledger,
    submitted: set<Observation>,
    failures: nat,
    corrupt: nat)

  ghost predicate SoundMoment(m: Moment) {
    Durable(ViewsOf(m.sectors), m.ledger, m.submitted)
    && (m.ready ==> Consistent(m.ram, m.sectors, m.ledger, m.submitted) && m.ram.full)
  }

  // ---------------------------------------------------------------- lawful transitions

  /** A booted log serves every command as long as its numbers fit their fields. */
  predicate Serves(ready: bool, nextHistoryId: nat, nextGeneration: nat, next: nat, c: Command) {
    match c
    case Boot => true
    case Begin(_) => ready && nextHistoryId < 0x1_0000_0000_0000_0000 && nextGeneration < 0x1_0000_0000_0000_0000
    case Add(_) => ready && nextGeneration < 0x1_0000_0000_0000_0000 && next < 0x1_0000_0000
    case Ask(_, _, _, _) => ready
  }

  predicate Able(m: Moment, c: Command) {
    Serves(m.ready, m.ram.nextHistoryId, m.ram.nextGeneration, m.next, c)
  }

  /** The session a command writes for. */
  function Writer(m: Moment, c: Command): Option<u64> {
    if !Able(m, c) then None
    else if c.Begin? then Some(m.ram.nextHistoryId)
    else if c.Add? then m.ram.active
    else None
  }

  /** `session` was the victim, chosen knowing which sessions had ended unless a page could not be read. */
  ghost predicate Victim(a: Moment, b: Moment, own: u64, session: u64) {
    exists completed ::
      VictimRule(a.ram.pages, completed, own, session)
      && Knows(a.ram.pages, a.sectors, completed, b.corrupt > a.corrupt, b.failures > a.failures)
  }

  /** All that writing for `own` does to other sessions. */
  ghost predicate Spares(a: Moment, b: Moment, own: u64) {
    OthersWhole(Standing(a.ledger, ViewsOf(a.sectors)), b.ledger, ViewsOf(b.sectors), own)
    && |b.ledger| == |a.ledger|
    && forall g: u64, i: nat :: g != own && PromisedTo(a.ledger, g, i) && b.ledger[i] != a.ledger[i] ==>
         Victim(a, b, own, g)
  }

  ghost predicate BootsTo(a: Moment, b: Moment) {
    b.submitted == a.submitted && SameExposed(ViewsOf(a.sectors), ViewsOf(b.sectors))
    && (if b.ready
        then b.ledger == Recovered(ViewsOf(b.sectors)) && KeptThrough(a.ledger, b.ledger)
             && forall g :: !Doomed(ViewsOf(b.sectors), g)
        else b.ledger == a.ledger && (b.failures > a.failures || |b.sectors| == 0))
  }

  ghost predicate BeginsTo(a: Moment, x: Observation, id: Option<u64>, b: Moment)
    requires Able(a, Begin(x))
  {
    var own: u64 := a.ram.nextHistoryId;
    Spares(a, b, own) && b.ram.active == id && b.ram.nextHistoryId == own + 1
    && b.submitted <= a.submitted + {FirstRecord(x, own)}
    && (id == None ==> b.failures > a.failures || TooLarge(x))
    && (id.Some? ==>
          id.value == own && b.next == 1
          && exists c: nat ::
               c < |b.ledger| && b.ledger[c] == Some(Promise(PageHeader(a.ram.nextGeneration, own, 0), [FirstRecord(x, own)])))
  }

  ghost predicate AddsTo(a: Moment, x: Observation, ok: bool, b: Moment)
    requires Able(a, Add(x))
  {
    match a.ram.active
    case None => !ok && b.ledger == a.ledger && b.sectors == a.sectors && b.submitted <= a.submitted && b.ram.active == None
    case Some(own) =>
      var y := NextRecord(x, own, a.next);
      Spares(a, b, own) && b.next == a.next + 1 && b.submitted <= a.submitted + {y}
      && b.ram.active == (if ok && x.kind.End? then None else Some(own))
      && (!ok ==> b.failures > a.failures || TooLarge(x))
      && exists at: nat, completed :: AppendEffect(a.ram.pages, a.ram.current, a.ledger, b.ledger, Some(at), own, y, ok, completed)
  }

  ghost predicate Answers(a: Moment, c: Command, answer: Answer)
    requires c.Ask? && c.limit > 0 && |a.ram.pages| == |a.sectors|
  {
    if Pending(a.ram.pages, c.session) then answer == Answer([], None)
    else
      exists order ::
        InOrder(a.ram.pages, c.session, order)
        && (Joined(a.ram.pages, a.sectors, order).Some? ==>
              answer == AnswerOf(Chosen(Joined(a.ram.pages, a.sectors, order).value, Positive(c.stride), c.after), c.limit))
  }

  ghost predicate Transition(a: Moment, c: Command, reply: Reply, b: Moment) {
    |b.sectors| == |a.sectors| && b.failures >= a.failures
    && if !Able(a, c) then b == a && reply == Skipped
       else
         match c
         case Boot => reply == Booted(b.ready) && BootsTo(a, b)
         case Begin(x) => reply.Begun? && b.ready && BeginsTo(a, x, reply.id, b)
         case Add(x) => reply.Added? && b.ready && AddsTo(a, x, reply.ok, b)
         case Ask(_, _, limit, _) =>
           reply.Told? && b == a.(failures := b.failures, corrupt := b.corrupt)
           && (limit > 0 && b.failures == a.failures && |a.ram.pages| == |a.sectors| ==> Answers(a, c, reply.answer))
  }

  ghost predicate Run(moments: seq<Moment>, commands: seq<Command>, replies: seq<Reply>) {
    |moments| == |commands| + 1 && |replies| == |commands|
    && (forall k :: 0 <= k < |moments| ==> SoundMoment(moments[k]))
    && forall k :: 0 <= k < |commands| ==> Transition(moments[k], commands[k], replies[k], moments[k + 1])
  }

  // ---------------------------------------------------------------- records survive

  /** Page `h` in sector `i` is promised with record `y` acknowledged. */
  predicate Keeps(m: Moment, i: nat, h: PageHeader, y: Observation) {
    i < |m.ledger| && m.ledger[i].Some? && m.ledger[i].value.header == h && y in m.ledger[i].value.acked
  }

  /**
   * The two ways to lose a page, both only where a page had to be allocated: its whole session is the
   * victim and disappears at once, or the log holds nothing but its own session, which reuses its
   * oldest page.
   */
  ghost predicate Loses(a: Moment, c: Command, b: Moment, i: nat, h: PageHeader) {
    Writer(a, c).Some?
    && var own := Writer(a, c).value;
       (c.Add? ==> NeedsPage(a.ram.pages, a.ram.current, own, NextRecord(c.observation, own, a.next)))
       && if h.historyId == own then OldestOfAll(a.ram.pages, i, own)
          else Victim(a, b, own, h.historyId) && SessionDropped(b.ledger, h.historyId)
               && Gone(ViewsOf(b.sectors), h.historyId)
  }

  /** This very command took record `y` away together with its page. */
  ghost predicate LosesRecord(a: Moment, c: Command, b: Moment, i: nat, h: PageHeader, y: Observation) {
    Keeps(a, i, h, y) && !Keeps(b, i, h, y) && Loses(a, c, b, i, h)
  }

  /** A record is promised on its page, and the page is exposed on flash with the record in it. */
  ghost predicate OnFlash(m: Moment, i: nat, h: PageHeader, y: Observation) {
    Keeps(m, i, h, y) && Visible(ViewsOf(m.sectors), i) && ViewsOf(m.sectors)[i].header == h
    && y in ViewsOf(m.sectors)[i].content
  }

  /** A record in the ledger is on flash, on its own page, for every later boot to find. */
  lemma KeptIsExposed(m: Moment, i: nat, h: PageHeader, y: Observation)
    requires SoundMoment(m) && Keeps(m, i, h, y)
    ensures OnFlash(m, i, h, y)
  {
    hide ViewOf;
    var promise := m.ledger[i].value;
    assert Holds(ViewsOf(m.sectors)[i], promise);
  }

  lemma StepKeeps(a: Moment, c: Command, reply: Reply, b: Moment, i: nat, h: PageHeader, y: Observation)
    requires SoundMoment(a) && Transition(a, c, reply, b) && Keeps(a, i, h, y)
    ensures Keeps(b, i, h, y) || Loses(a, c, b, i, h)
  {
    hide ViewOf, Victim, OldestOfAll, NeedsPage, NextRecord, Gone, Consistent, Durable, VictimRule, Answers,
         SameExposed, Recovered;
    if Writer(a, c).Some? {
      var own := Writer(a, c).value;
      if h.historyId != own {
        assert PromisedTo(a.ledger, h.historyId, i);
        if b.ledger[i] != a.ledger[i] {
          assert !SessionKept(a.ledger, b.ledger, h.historyId);
        }
      } else if c.Begin? {
        FreshWriter(a, i);
      }
    }
  }

  lemma FreshWriter(a: Moment, i: nat)
    requires SoundMoment(a) && a.ready && i < |a.ledger| && a.ledger[i].Some?
    ensures a.ledger[i].value.header.historyId != a.ram.nextHistoryId
  {
    PromiseSessions(a.ram, a.sectors, a.ledger, a.submitted);
  }

  /** Over a whole run: a record that is kept stays kept until a command takes its page away. */
  lemma {:induction false} KeptUntilLost(moments: seq<Moment>, commands: seq<Command>, replies: seq<Reply>, k: nat, n: nat,
                                         i: nat, h: PageHeader, y: Observation)
    requires Run(moments, commands, replies) && k <= n <= |commands| && Keeps(moments[k], i, h, y)
    ensures Keeps(moments[n], i, h, y)
            || exists j :: k <= j < n && LosesRecord(moments[j], commands[j], moments[j + 1], i, h, y)
  {
    hide SoundMoment, Transition, Loses;
    if k < n {
      KeptUntilLost(moments, commands, replies, k, n - 1, i, h, y);
      if Keeps(moments[n - 1], i, h, y) {
        StepKeeps(moments[n - 1], commands[n - 1], replies[n - 1], moments[n], i, h, y);
      }
    }
  }

  /** The record that a reply acknowledges. */
  function Acknowledged(a: Moment, c: Command, reply: Reply): Option<Observation> {
    match c
    case Begin(x) => if reply.Begun? && reply.id.Some? then Some(FirstRecord(x, reply.id.value)) else None
    case Add(x) =>
      if reply == Added(true) && a.ram.active.Some? then Some(NextRecord(x, a.ram.active.value, a.next)) else None
    case _ => None
  }

  /** What was acknowledged is kept at once, on a page of the session that was written for. */
  lemma AcknowledgedIsKept(a: Moment, c: Command, reply: Reply, b: Moment)
    requires Transition(a, c, reply, b) && Acknowledged(a, c, reply).Some?
    ensures Writer(a, c).Some?
    ensures exists i: nat, h: PageHeader :: h.historyId == Writer(a, c).value && Keeps(b, i, h, Acknowledged(a, c, reply).value)
  {
    hide ViewOf, Spares, FirstRecord, NextRecord, BootsTo, NeedsPage, VictimRule, OldestOfAll, KeptOrGrown, PriorAcks,
         TooLarge;
    match c
    case Begin(x) =>
      var own: u64 := a.ram.nextHistoryId;
      var i: nat :| i < |b.ledger|
        && b.ledger[i] == Some(Promise(PageHeader(a.ram.nextGeneration, own, 0), [FirstRecord(x, own)]));
      assert Keeps(b, i, b.ledger[i].value.header, FirstRecord(x, own));
    case Add(x) =>
      var own := a.ram.active.value;
      var y := NextRecord(x, own, a.next);
      var i: nat, completed :| AppendEffect(a.ram.pages, a.ram.current, a.ledger, b.ledger, Some(i), own, y, true, completed);
      assert Keeps(b, i, b.ledger[i].value.header, y);
  }

  /** Behind command `k` the record is on flash, and at moment `n` still, unless a command between took it away. */
  ghost predicate StaysUntilLost(moments: seq<Moment>, commands: seq<Command>, k: nat, n: nat, i: nat, h: PageHeader,
                                 y: Observation)
    requires k < n <= |commands| && |moments| == |commands| + 1
  {
    OnFlash(moments[k + 1], i, h, y)
    && (OnFlash(moments[n], i, h, y)
        || exists j :: k < j < n && LosesRecord(moments[j], commands[j], moments[j + 1], i, h, y))
  }

  /**
   * Every record whose append or Start was acknowledged is on flash at once, on some page of the session
   * it was written for, and stays on that page, unchanged, until a command takes that page away from it.
   */
  lemma AcknowledgedSurvives(moments: seq<Moment>, commands: seq<Command>, replies: seq<Reply>, k: nat, n: nat)
    requires Run(moments, commands, replies) && k < n <= |commands|
    requires Acknowledged(moments[k], commands[k], replies[k]).Some?
    ensures var y := Acknowledged(moments[k], commands[k], replies[k]).value;
            exists i: nat, h: PageHeader ::
              Writer(moments[k], commands[k]) == Some(h.historyId)
              && StaysUntilLost(moments, commands, k, n, i, h, y)
  {
    hide SoundMoment, Transition, LosesRecord, Acknowledged, Writer, OnFlash;
    var y := Acknowledged(moments[k], commands[k], replies[k]).value;
    AcknowledgedIsKept(moments[k], commands[k], replies[k], moments[k + 1]);
    var i: nat, h: PageHeader :| Writer(moments[k], commands[k]) == Some(h.historyId) && Keeps(moments[k + 1], i, h, y);
    KeptIsExposed(moments[k + 1], i, h, y);
    KeptUntilLost(moments, commands, replies, k + 1, n, i, h, y);
    if Keeps(moments[n], i, h, y) {
      KeptIsExposed(moments[n], i, h, y);
    }
    assert StaysUntilLost(moments, commands, k, n, i, h, y);
  }

  /** In every run an answer about a session that is not being evicted is made of its acknowledged records. */
  lemma ToldIsAcknowledged(a: Moment, c: Command, reply: Reply, b: Moment)
    requires SoundMoment(a) && a.ready && Transition(a, c, reply, b) && c.Ask? && c.limit > 0 && b.failures == a.failures
    requires !Pending(a.ram.pages, c.session) && !Doomed(ViewsOf(a.sectors), c.session)
    ensures exists order ::
              InOrder(a.ram.pages, c.session, order) && PromisedAll(a.ledger, order)
              && reply == Told(AnswerOf(Chosen(Acked(a.ledger, order), Positive(c.stride), c.after), c.limit))
  {
    hide ViewOf, Records, Used, ReadBack, Durable, AnswerOf, Chosen, Joined, Acked;
    var order :|
      InOrder(a.ram.pages, c.session, order)
      && (Joined(a.ram.pages, a.sectors, order).Some? ==>
            reply.answer == AnswerOf(Chosen(Joined(a.ram.pages, a.sectors, order).value, Positive(c.stride), c.after), c.limit));
    ListedPromised(a.ram, a.sectors, c.session, order, a.ledger, a.submitted);
    JoinedIsAcked(a.ram.pages, a.sectors, a.ledger, order);
  }

  // ---------------------------------------------------------------- whom an eviction takes

  /** An End of the session was acknowledged and is still kept. */
  ghost predicate HasEnded(m: Moment, session: u64) {
    exists i: nat, h: PageHeader, y :: Keeps(m, i, h, y) && h.historyId == session && y.kind == End
  }

  /** No damage was met, or at least no flash call failed and no listed page is unreadable. */
  predicate Undisturbed(a: Moment, b: Moment) {
    b.corrupt == a.corrupt
    || (b.failures == a.failures && |a.ram.pages| == |a.sectors|
        && forall p :: 0 <= p < |a.sectors| ==> ReadBack(a.sectors[p], HEADER_BYTES, a.ram.pages[p].used).Some?)
  }

  lemma StepEvicts(a: Moment, c: Command, reply: Reply, b: Moment, i: nat, g: u64, j: nat, o: u64)
    requires SoundMoment(a) && Transition(a, c, reply, b) && Writer(a, c).Some? && Undisturbed(a, b)
    requires PromisedTo(a.ledger, g, i) && g != Writer(a, c).value && !(i < |b.ledger| && b.ledger[i] == a.ledger[i])
    requires PromisedTo(a.ledger, o, j) && o != Writer(a, c).value
    ensures AckedEnd(a.ledger, o) ==> AckedEnd(a.ledger, g)
    ensures (AckedEnd(a.ledger, o) <==> AckedEnd(a.ledger, g)) ==>
              exists q: nat :: PromisedTo(a.ledger, g, q)
                && a.ledger[q].value.header.generation <= a.ledger[j].value.header.generation
  {
    hide ViewOf, OthersWhole, Consistent, Durable, EndedIn, OldestEligible, AppendEffect, AckedEnd, FirstRecord,
         NextRecord, TooLarge, ReadBack;
    var own := Writer(a, c).value;
    assert Victim(a, b, own, g);
    var completed :| VictimRule(a.ram.pages, completed, own, g)
      && Knows(a.ram.pages, a.sectors, completed, b.corrupt > a.corrupt, b.failures > a.failures);
    EndedMeans(a.ram, a.sectors, a.ledger, a.submitted, g, i);
    EndedMeans(a.ram, a.sectors, a.ledger, a.submitted, o, j);
    PromisedPages(a.ram, a.sectors, a.ledger, a.submitted, o, j);
    assert completed == EndedIn(a.ram.pages, a.sectors, |a.ram.pages|);
    var onlyCompleted := VictimsKind(a.ram.pages, completed, own, g, j);
    if o in completed <==> g in completed {
      OldestPromised(a.ram, a.sectors, a.ledger, a.submitted, completed, onlyCompleted, own, g, i, j);
    }
  }

  /**
   * In every run: whenever an undisturbed command takes a record of another session, it is because
   * that session has ended or no other one has; and of the sessions that are alike in this, it is the
   * oldest.
   */
  lemma EndedGoFirst(moments: seq<Moment>, commands: seq<Command>, replies: seq<Reply>, k: nat,
                     i: nat, h: PageHeader, y: Observation, j: nat, o: PageHeader, z: Observation)
    requires Run(moments, commands, replies) && k < |commands| && Undisturbed(moments[k], moments[k + 1])
    requires Keeps(moments[k], i, h, y) && !Keeps(moments[k + 1], i, h, y)
    requires Writer(moments[k], commands[k]) != Some(h.historyId)
    requires Keeps(moments[k], j, o, z) && Writer(moments[k], commands[k]) != Some(o.historyId)
    ensures HasEnded(moments[k], o.historyId) ==> HasEnded(moments[k], h.historyId)
    ensures (HasEnded(moments[k], o.historyId) <==> HasEnded(moments[k], h.historyId)) ==>
              exists q: nat :: PromisedTo(moments[k].ledger, h.historyId, q)
                && moments[k].ledger[q].value.header.generation <= o.generation
  {
    hide SoundMoment, Transition, Undisturbed, Writer;
    var a, b, c := moments[k], moments[k + 1], commands[k];
    StepKeeps(a, c, replies[k], b, i, h, y);
    StepEvicts(a, c, replies[k], b, i, h.historyId, j, o.historyId);
    EndedAlike(a, o.historyId);
    EndedAlike(a, h.historyId);
  }

  lemma EndedAlike(m: Moment, session: u64)
    ensures AckedEnd(m.ledger, session) <==> HasEnded(m, session)
  {
    if AckedEnd(m.ledger, session) {
      var i: nat, x :| PromisedTo(m.ledger, session, i) && x in m.ledger[i].value.acked && x.kind == End;
      assert Keeps(m, i, m.ledger[i].value.header, x);
    }
    if HasEnded(m, session) {
      var i: nat, h: PageHeader, y :| Keeps(m, i, h, y) && h.historyId == session && y.kind == End;
      assert PromisedTo(m.ledger, session, i);
    }
  }

  // ---------------------------------------------------------------- evicted sessions stay away

  lemma StepStaysGone(a: Moment, c: Command, reply: Reply, b: Moment, session: u64)
    requires SoundMoment(a) && Transition(a, c, reply, b) && Writer(a, c) != Some(session)
    requires Gone(ViewsOf(a.sectors), session)
    ensures Gone(ViewsOf(b.sectors), session)
  {
    hide ViewsOf, Consistent, Durable, Doomed, Answers, Victim, AppendEffect, Recovered;
    var v, w := ViewsOf(a.sectors), ViewsOf(b.sectors);
    forall i: nat | Owns(w, session, i)
      ensures !Visible(w, i)
    {
      assert Visible(w, i) ==> Visible(v, i) && Owns(v, session, i);
    }
  }

  /** Whatever power cuts follow, no page of a session that is gone returns until its id is used again. */
  lemma {:induction false} GoneForGood(moments: seq<Moment>, commands: seq<Command>, replies: seq<Reply>, k: nat, n: nat,
                                       session: u64)
    requires Run(moments, commands, replies) && k <= n <= |commands| && Gone(ViewsOf(moments[k].sectors), session)
    requires forall j :: k <= j < n ==> Writer(moments[j], commands[j]) != Some(session)
    ensures Gone(ViewsOf(moments[n].sectors), session)
  {
    hide SoundMoment, Transition, Gone, Writer;
    if k < n {
      GoneForGood(moments, commands, replies, k, n - 1, session);
      StepStaysGone(moments[n - 1], commands[n - 1], replies[n - 1], moments[n], session);
    }
  }

  // ---------------------------------------------------------------- only what was handed over

  predicate Carries(c: Command, x: Observation) {
    (c.Begin? || c.Add?) && c.observation == x
  }

  /** A stored record is some observation handed over, with its place in a session stamped on it. */
  predicate StampOf(r: Observation, x: Observation) {
    r == Stored(x.(kind := r.kind, historyId := r.historyId, sequence := r.sequence))
    && (r.kind == x.kind || r.kind == Start)
  }

  ghost predicate HandedOver(submitted: set<Observation>, earlier: set<Observation>, commands: seq<Command>) {
    forall r :: r in submitted ==>
      r in earlier || exists k, x :: 0 <= k < |commands| && Carries(commands[k], x) && StampOf(r, x)
  }

  lemma StampsAreStamps(x: Observation, own: u64, n: nat)
    ensures StampOf(FirstRecord(x, own), x) && StampOf(NextRecord(x, own, n), x)
  {
  }

  lemma StepHandsOver(a: Moment, c: Command, reply: Reply, b: Moment, r: Observation)
    requires Transition(a, c, reply, b) && r in b.submitted && r !in a.submitted
    ensures (c.Begin? || c.Add?) && StampOf(r, c.observation)
  {
    hide StampOf, FirstRecord, NextRecord, Spares, SameExposed, Recovered, AppendEffect;
    match c
    case Begin(x) => StampsAreStamps(x, a.ram.nextHistoryId, 0);
    case Add(x) =>
      if a.ram.active.Some? {
        StampsAreStamps(x, a.ram.active.value, a.next);
      }
    case _ =>
  }

  /** Every record that is ever exposed was handed over by a command, or exposed before the run. */
  lemma {:induction false} OnlyHandedOver(moments: seq<Moment>, commands: seq<Command>, replies: seq<Reply>, n: nat)
    requires Run(moments, commands, replies) && n <= |commands|
    ensures HandedOver(moments[n].submitted, moments[0].submitted, commands)
    ensures forall i: nat, r :: Visible(ViewsOf(moments[n].sectors), i) && r in ViewsOf(moments[n].sectors)[i].content ==>
              r in moments[n].submitted
  {
    hide Transition, StampOf, ViewsOf, Consistent, Visible;
    assert SoundMoment(moments[n]);
    if n > 0 {
      OnlyHandedOver(moments, commands, replies, n - 1);
      var a, b, c := moments[n - 1], moments[n], commands[n - 1];
      forall r | r in b.submitted && r !in a.submitted
        ensures exists k, x :: 0 <= k < |commands| && Carries(commands[k], x) && StampOf(r, x)
      {
        StepHandsOver(a, c, replies[n - 1], b, r);
        assert Carries(commands[n - 1], c.observation);
      }
    }
  }

  // ---------------------------------------------------------------- the table

  /** Every listed page is on flash as listed, no other page is, and both counters are ahead of all of them. */
  predicate RescanAgrees(pages: Table, sectors: seq<Sector>, nextHistoryId: nat, nextGeneration: nat) {
    |pages| == |sectors|
    && forall i :: 0 <= i < |sectors| ==>
         match HeaderAt(sectors[i])
         case None => !pages[i].valid
         case Some(h) =>
           pages[i] == PageInfo(h.generation, h.historyId, h.pageIndex, Used(sectors[i], HEADER_BYTES), true,
                                Tombstoned(sectors[i]), MarkerWritable(TombstoneWord(sectors[i])))
           && h.historyId < nextHistoryId && h.generation < nextGeneration
  }

  /** Without a failing flash call since the last boot the table is what a rescan would find. */
  lemma IndexAgreement(log: CircularHistoryLog)
    requires log.Valid() && log.syncedAt == log.flash.failures
    ensures RescanAgrees(log.pages, log.flash.sectors, log.nextHistoryId, log.nextGeneration)
  {
    hide Records, Used, ReadBack, Durable, Readable, Ready, HeaderAt, Tombstoned, MarkerWritable;
  }

  // ---------------------------------------------------------------- the log makes lawful runs

  ghost function MomentOf(log: CircularHistoryLog, ready: bool): Moment
    reads log, log.flash
  {
    Moment(ready, log.Memory(), log.nextSequence, log.flash.sectors, log.ledger, log.submitted, log.flash.failures,
           log.corruptRecords)
  }

  lemma ValidMoment(log: CircularHistoryLog)
    requires log.Valid()
    ensures SoundMoment(MomentOf(log, true)) && |log.pages| == |log.flash.sectors| == |log.ledger|
  {
    hide ViewOf, Durable, Readable, Ready, InSync;
  }

  /** A power cycle: only the flash is carried over. */
  method Reboot(previous: CircularHistoryLog, ghost ready: bool) returns (log: CircularHistoryLog, ok: bool)
    requires SoundMoment(MomentOf(previous, ready))
    modifies previous.flash
    ensures fresh(log) && log.flash == previous.flash && (ok ==> log.Valid() && log.syncedAt == log.flash.failures)
    ensures SoundMoment(MomentOf(log, ok))
    ensures Transition(old(MomentOf(previous, ready)), Boot, Booted(ok), MomentOf(log, ok))
  {
    hide ViewsOf, Durable, Recovered, SameExposed, Doomed, Consistent, InSync, KeptThrough;
    log := new CircularHistoryLog(previous.flash, previous.ledger, previous.submitted);
    ok := log.Initialize();
    if ok {
      ValidMoment(log);
    }
    SameCount(old(previous.flash.sectors), log.flash.sectors);
  }

  lemma SameCount(s: seq<Sector>, t: seq<Sector>)
    ensures SameExposed(ViewsOf(s), ViewsOf(t)) ==> |s| == |t|
  {
    hide ViewOf;
  }

  method BeginOn(log: CircularHistoryLog, x: Observation) returns (reply: Reply)
    requires log.Valid() && Codable(x) && Able(MomentOf(log, true), Begin(x))
    modifies log, log.flash
    ensures log.Valid() && log.syncedAt == old(log.syncedAt)
    ensures Transition(old(MomentOf(log, true)), Begin(x), reply, MomentOf(log, true))
  {
    hide ViewsOf, Consistent, InSync, Codable, OthersWhole, FirstRecord, VictimRule, TooLarge, EndedIn;
    ValidMoment(log);
    ghost var a := MomentOf(log, true);
    var id := log.BeginSession(x);
    ValidMoment(log);
    reply := Begun(id);
  }

  method AddOn(log: CircularHistoryLog, x: Observation) returns (reply: Reply)
    requires log.Valid() && Codable(x) && Able(MomentOf(log, true), Add(x))
    modifies log, log.flash
    ensures log.Valid() && log.syncedAt == old(log.syncedAt)
    ensures Transition(old(MomentOf(log, true)), Add(x), reply, MomentOf(log, true))
  {
    hide ViewsOf, Consistent, InSync, Codable, OthersWhole, NextRecord, VictimRule, OldestOfAll, TooLarge, EndedIn;
    ValidMoment(log);
    var ok;
    ghost var at;
    ok, at := log.Append(x);
    ValidMoment(log);
    reply := Added(ok);
  }

  lemma NothingAsked(pages: Table, s: seq<Sector>, stride: nat, after: Option<nat>, limit: nat)
    requires |pages| == |s| && stride > 0
    ensures Joined(pages, s, []) == Some([]) && (limit > 0 ==> AnswerOf(Chosen([], stride, after), limit) == Answer([], None))
  {
    NothingChosen(stride, after);
  }

  method AskOn(log: CircularHistoryLog, session: u64, after: Option<nat>, limit: nat, stride: nat) returns (reply: Reply)
    requires log.Valid()
    modifies log, log.flash
    ensures log.Valid() && log.syncedAt == old(log.syncedAt)
    ensures Transition(old(MomentOf(log, true)), Ask(session, after, limit, stride), reply, MomentOf(log, true))
  {
    hide ViewsOf, Consistent, InSync, Joined, AnswerOf, Chosen, InOrder;
    var answer;
    ghost var order;
    answer, order := log.Samples(session, after, limit, stride);
    NothingAsked(log.pages, log.flash.sectors, Positive(stride), after, limit);
    reply := Told(answer);
  }

  /**
   * The log obeys any list of commands by a lawful run from the flash as it was to the flash as it
   * is. In a run without a failing flash call every boot succeeds, and the table in memory is what a
   * rescan would find.
   */
  method Lifetime(flash: Device, commands: seq<Command>, ghost promised: Ledger, ghost written: set<Observation>)
    returns (log: CircularHistoryLog, ready: bool, replies: seq<Reply>, ghost moments: seq<Moment>)
    requires Durable(ViewsOf(flash.sectors), promised, written)
    requires forall k :: 0 <= k < |commands| && (commands[k].Begin? || commands[k].Add?) ==>
               Codable(commands[k].observation)
    modifies flash
    ensures Run(moments, commands, replies)
    ensures moments[0].sectors == old(flash.sectors) && moments[0].ledger == promised && moments[0].submitted == written
    ensures !moments[0].ready && moments[|commands|] == MomentOf(log, ready) && log.flash == flash
    ensures ready && flash.failures == old(flash.failures) ==>
              RescanAgrees(log.pages, flash.sectors, log.nextHistoryId, log.nextGeneration)
    ensures flash.failures == old(flash.failures) && |flash.sectors| > 0 && Boots(commands) ==> ready
  {
    hide Transition, SoundMoment, Codable, ViewsOf, Durable, RescanAgrees;
    log := new CircularHistoryLog(flash, promised, written);
    ready, replies, moments := false, [], [MomentOf(log, false)];
    NotReadySound(moments[0]);
    for k := 0 to |commands|
      invariant fresh(log) && log.flash == flash && |replies| == k && |moments| == k + 1
      invariant ready ==> log.Valid()
      invariant moments[k] == MomentOf(log, ready) && !moments[0].ready
      invariant moments[0].sectors == old(flash.sectors) && moments[0].ledger == promised && moments[0].submitted == written
      invariant forall j :: 0 <= j <= k ==> SoundMoment(moments[j])
      invariant forall j :: 0 <= j < k ==> Transition(moments[j], commands[j], replies[j], moments[j + 1])
      invariant flash.failures >= old(flash.failures)
      invariant ready && flash.failures == old(flash.failures) ==> log.syncedAt == flash.failures
      invariant flash.failures == old(flash.failures) && |flash.sectors| > 0 && Boots(commands[..k]) ==> ready
    {
      BootsStep(commands, k);
      var reply;
      log, ready, reply := Obey(log, ready, commands[k]);
      replies, moments := replies + [reply], moments + [MomentOf(log, ready)];
    }
    assert commands[..|commands|] == commands;
    if ready && flash.failures == old(flash.failures) {
      IndexAgreement(log);
    }
  }

  lemma NotReadySound(m: Moment)
    requires !m.ready && Durable(ViewsOf(m.sectors), m.ledger, m.submitted)
    ensures SoundMoment(m)
  {
  }

  /** One command: a power cycle, or one call of a log that is able to serve it. */
  method Obey(previous: CircularHistoryLog, wasReady: bool, c: Command)
    returns (log: CircularHistoryLog, ready: bool, reply: Reply)
    requires SoundMoment(MomentOf(previous, wasReady)) && (wasReady ==> previous.Valid())
    requires c.Begin? || c.Add? ==> Codable(c.observation)
    modifies previous, previous.flash
    ensures (log == previous || fresh(log)) && log.flash == previous.flash && (ready ==> log.Valid())
    ensures SoundMoment(MomentOf(log, ready))
    ensures Transition(old(MomentOf(previous, wasReady)), c, reply, MomentOf(log, ready))
    ensures log.flash.failures >= old(previous.flash.failures) && |log.flash.sectors| == |old(previous.flash.sectors)|
    ensures c.Boot? ==> (ready ==> log.syncedAt == log.flash.failures)
                        && (ready || log.flash.failures > old(previous.flash.failures) || |log.flash.sectors| == 0)
    ensures !c.Boot? ==> ready == wasReady && log == previous && log.syncedAt == old(previous.syncedAt)
  {
    hide SoundMoment, Codable, ViewsOf, Durable, Consistent, InSync, BeginsTo, AddsTo, Answers,
         CircularHistoryLog.Valid;
    log, ready, reply := previous, wasReady, Skipped;
    if !Serves(wasReady, log.nextHistoryId, log.nextGeneration, log.nextSequence, c) { return; }
    match c {
      case Boot =>
        log, ready := Reboot(previous, wasReady);
        reply := Booted(ready);
      case Begin(x) => reply := BeginOn(log, x);
      case Add(x) => reply := AddOn(log, x);
      case Ask(session, after, limit, stride) => reply := AskOn(log, session, after, limit, stride);
    }
    if ready {
      ValidMoment(log);
    }
  }

  predicate Boots(commands: seq<Command>) {
    exists k :: 0 <= k < |commands| && commands[k].Boot?
  }

  lemma BootsStep(commands: seq<Command>, k: nat)
    requires k < |commands|
    ensures Boots(commands[..k + 1]) <==> Boots(commands[..k]) || commands[k].Boot?
  {
    assert commands[..k + 1] == commands[..k] + [commands[k]];
    if commands[k].Boot? {
      assert commands[..k + 1][k].Boot?;
    }
    if Boots(commands[..k]) {
      var j :| 0 <= j < k && commands[..k][j].Boot?;
      assert commands[..k + 1][j].Boot?;
    }
  }
}
