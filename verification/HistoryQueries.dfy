/** What a paginated sample query selects, and why following its continuations loses nothing. */
module HistoryQueries {
  import opened Bytes
  import opened Domain
  import opened Codec
  import opened Durability
  import opened LogState
  import opened PageFormat
  import opened LogInvariant

  /** Every stride-th sample, counting from `passed` earlier ones, and everything that is not a sample. */
  function Thinned(rs: seq<Observation>, stride: nat, passed: nat): seq<Observation>
    requires stride > 0
  {
    if rs == [] then []
    else if !rs[0].kind.Sample? then [rs[0]] + Thinned(rs[1..], stride, passed)
    else (if passed % stride == 0 then [rs[0]] else []) + Thinned(rs[1..], stride, passed + 1)
  }

  function SamplesIn(rs: seq<Observation>): nat {
    if rs == [] then 0 else (if rs[0].kind.Sample? then 1 else 0) + SamplesIn(rs[1..])
  }

  predicate IsNewer(r: Observation, after: Option<nat>) {
    after == None || r.sequence > after.value
  }

  function Newer(rs: seq<Observation>, after: Option<nat>): seq<Observation> {
    if rs == [] then []
    else (if IsNewer(rs[0], after) then [rs[0]] else []) + Newer(rs[1..], after)
  }

  /** One answer: at most `limit` records, and where to continue when there are more. */
  datatype Answer = Answer(records: seq<Observation>, continuation: Option<nat>)

  function AnswerOf(rs: seq<Observation>, limit: nat): Answer
    requires limit > 0
  {
    if |rs| <= limit then Answer(rs, None) else Answer(rs[..limit], Some(rs[limit - 1].sequence))
  }

  /** The stored records of the pages in `order`, if all of them can be read. */
  function Joined(pages: Table, s: seq<Sector>, order: seq<nat>): Option<seq<Observation>>
    requires |pages| == |s| && forall k :: 0 <= k < |order| ==> order[k] < |pages|
  {
    if order == [] then Some([])
    else match ReadBack(s[order[0]], HEADER_BYTES, pages[order[0]].used)
      case None => None
      case Some(first) =>
        match Joined(pages, s, order[1..])
        case None => None
        case Some(rest) => Some(first + rest)
  }

  /** The listed pages of a session, oldest first. */
  ghost predicate InOrder(pages: Table, session: u64, order: seq<nat>) {
    (forall k :: 0 <= k < |order| ==> Listing(pages, session, order[k]))
    && (forall j, k :: 0 <= j < k < |order| ==> pages[order[j]].generation <= pages[order[k]].generation)
    && (forall j, k :: 0 <= j < k < |order| ==> order[j] != order[k])
    && (forall i: nat :: Listing(pages, session, i) ==> i in order)
  }

  predicate Listing(pages: Table, session: u64, i: nat) {
    i < |pages| && pages[i].valid && pages[i].historyId == session
  }

  // ---------------------------------------------------------------- concatenation

  lemma {:induction false} ThinnedConcat(a: seq<Observation>, b: seq<Observation>, stride: nat, passed: nat)
    requires stride > 0
    ensures Thinned(a + b, stride, passed) == Thinned(a, stride, passed) + Thinned(b, stride, passed + SamplesIn(a))
  {
    if a == [] {
      assert a + b == b;
    } else {
      var next := if a[0].kind.Sample? then passed + 1 else passed;
      assert (a + b)[1..] == a[1..] + b && (a + b)[0] == a[0];
      ThinnedConcat(a[1..], b, stride, next);
      var head := if !a[0].kind.Sample? || passed % stride == 0 then [a[0]] else [];
      var x, y := Thinned(a[1..], stride, next), Thinned(b, stride, passed + SamplesIn(a));
      assert Thinned(a + b, stride, passed) == head + (x + y);
      assert head + (x + y) == (head + x) + y;
    }
  }

  lemma {:induction false} NewerConcat(a: seq<Observation>, b: seq<Observation>, after: Option<nat>)
    ensures Newer(a + b, after) == Newer(a, after) + Newer(b, after)
  {
    if a == [] {
      assert a + b == b;
    } else {
      assert (a + b)[1..] == a[1..] + b;
      NewerConcat(a[1..], b, after);
    }
  }

  lemma {:induction false} SamplesConcat(a: seq<Observation>, b: seq<Observation>)
    ensures SamplesIn(a + b) == SamplesIn(a) + SamplesIn(b)
  {
    if a == [] {
      assert a + b == b;
    } else {
      assert (a + b)[1..] == a[1..] + b;
      SamplesConcat(a[1..], b);
    }
  }

  /** What the records seen so far contribute to the answer, and how one more changes it. */
  function Chosen(rs: seq<Observation>, stride: nat, after: Option<nat>): seq<Observation>
    requires stride > 0
  {
    Newer(Thinned(rs, stride, 0), after)
  }

  lemma ChosenConcat(a: seq<Observation>, b: seq<Observation>, stride: nat, after: Option<nat>)
    requires stride > 0
    ensures Chosen(a + b, stride, after) == Chosen(a, stride, after) + Newer(Thinned(b, stride, SamplesIn(a)), after)
  {
    ThinnedConcat(a, b, stride, 0);
    NewerConcat(Thinned(a, stride, 0), Thinned(b, stride, SamplesIn(a)), after);
  }

  lemma ChosenStep(a: seq<Observation>, r: Observation, stride: nat, after: Option<nat>)
    requires stride > 0
    ensures Chosen(a + [r], stride, after) == Chosen(a, stride, after)
              + if (!r.kind.Sample? || SamplesIn(a) % stride == 0) && IsNewer(r, after) then [r] else []
    ensures SamplesIn(a + [r]) == SamplesIn(a) + if r.kind.Sample? then 1 else 0
  {
    ChosenConcat(a, [r], stride, after);
    SamplesConcat(a, [r]);
    assert [r][1..] == [];
    assert Thinned([r], stride, SamplesIn(a))
        == if !r.kind.Sample? || SamplesIn(a) % stride == 0 then [r] else [];
    assert Newer([r], after) == if IsNewer(r, after) then [r] else [];
  }

  /** Once more than `limit` records are chosen, later ones do not change the answer. */
  lemma AnswerSettled(a: seq<Observation>, b: seq<Observation>, stride: nat, after: Option<nat>, limit: nat)
    requires stride > 0 && limit > 0 && |Chosen(a, stride, after)| > limit
    ensures AnswerOf(Chosen(a + b, stride, after), limit) == AnswerOf(Chosen(a, stride, after), limit)
  {
    ChosenConcat(a, b, stride, after);
  }

  /** Both parts, if both could be read. */
  function Both<T>(x: Option<seq<T>>, y: Option<seq<T>>): Option<seq<T>> {
    if x == None || y == None then None else Some(x.value + y.value)
  }

  lemma BothThree<T>(x: Option<seq<T>>, y: Option<seq<T>>, z: Option<seq<T>>)
    ensures Both(x, Both(y, z)) == Both(Both(x, y), z) && Both(Some([]), z) == z
  {
    if x.Some? && y.Some? && z.Some? {
      assert x.value + (y.value + z.value) == (x.value + y.value) + z.value;
    }
    if z.Some? {
      assert [] + z.value == z.value;
    }
  }

  lemma JoinedFirst(pages: Table, s: seq<Sector>, order: seq<nat>)
    requires |pages| == |s| && order != [] && forall k :: 0 <= k < |order| ==> order[k] < |pages|
    ensures Joined(pages, s, order)
         == Both(ReadBack(s[order[0]], HEADER_BYTES, pages[order[0]].used), Joined(pages, s, order[1..]))
  {
    hide ReadBack;
  }

  lemma {:induction false} JoinedConcat(pages: Table, s: seq<Sector>, a: seq<nat>, b: seq<nat>)
    requires |pages| == |s| && forall k :: 0 <= k < |a + b| ==> (a + b)[k] < |pages|
    requires forall k :: 0 <= k < |a| ==> a[k] < |pages|
    requires forall k :: 0 <= k < |b| ==> b[k] < |pages|
    ensures Joined(pages, s, a + b) == Both(Joined(pages, s, a), Joined(pages, s, b))
  {
    if a == [] {
      hide ReadBack;
      assert a + b == b;
      BothThree(Some([]), Some([]), Joined(pages, s, b));
    } else {
      hide ReadBack, Joined, Both;
      assert (a + b)[1..] == a[1..] + b && (a + b)[0] == a[0];
      JoinedConcat(pages, s, a[1..], b);
      JoinedFirst(pages, s, a);
      JoinedFirst(pages, s, a + b);
      BothThree(ReadBack(s[a[0]], HEADER_BYTES, pages[a[0]].used), Joined(pages, s, a[1..]), Joined(pages, s, b));
    }
  }

  lemma JoinedOne(pages: Table, s: seq<Sector>, i: nat)
    requires i < |pages| == |s|
    ensures Joined(pages, s, [i]) == ReadBack(s[i], HEADER_BYTES, pages[i].used)
  {
    hide ReadBack;
    var one := [i];
    assert one[1..] == [] && Joined(pages, s, one[1..]) == Some([]);
    if ReadBack(s[i], HEADER_BYTES, pages[i].used).Some? {
      var records := ReadBack(s[i], HEADER_BYTES, pages[i].used).value;
      assert records + [] == records;
    }
  }

  // ---------------------------------------------------------------- pagination

  lemma {:induction false} NewerMembers(rs: seq<Observation>, after: Option<nat>)
    ensures forall r :: r in Newer(rs, after) <==> r in rs && IsNewer(r, after)
    ensures |Newer(rs, after)| <= |rs|
  {
    if rs != [] {
      NewerMembers(rs[1..], after);
      assert rs == [rs[0]] + rs[1..];
    }
  }

  lemma {:induction false} NewerIncreasing(rs: seq<Observation>, after: Option<nat>)
    requires Increasing(rs)
    ensures Increasing(Newer(rs, after))
  {
    if rs != [] {
      NewerIncreasing(rs[1..], after);
      NewerMembers(rs[1..], after);
      var rest := Newer(rs[1..], after);
      forall k | 0 <= k < |rest|
        ensures rs[0].sequence < rest[k].sequence
      {
        assert rest[k] in rs[1..];
      }
    }
  }

  /** Of an increasing list, what follows its first `n` is exactly what is newer than the n-th. */
  lemma {:induction false} NewerIsDrop(rs: seq<Observation>, n: nat)
    requires Increasing(rs) && 0 < n <= |rs|
    ensures Newer(rs, Some(rs[n - 1].sequence)) == rs[n..]
  {
    var after := Some(rs[n - 1].sequence);
    if n == 1 {
      AllNewer(rs[1..], after);
    } else {
      assert rs[0].sequence < rs[n - 1].sequence;
      NewerIsDrop(rs[1..], n - 1);
    }
  }

  lemma {:induction false} AllNewer(rs: seq<Observation>, after: Option<nat>)
    requires forall k :: 0 <= k < |rs| ==> IsNewer(rs[k], after)
    ensures Newer(rs, after) == rs
  {
    if rs != [] {
      AllNewer(rs[1..], after);
    }
  }

  /** Newer than a record that is itself newer than `after`. */
  lemma {:induction false} NewerTwice(rs: seq<Observation>, after: Option<nat>, later: nat)
    requires after == None || after.value <= later
    ensures Newer(Newer(rs, after), Some(later)) == Newer(rs, Some(later))
  {
    if rs != [] {
      NewerTwice(rs[1..], after, later);
      var rest := Newer(rs[1..], after);
      if IsNewer(rs[0], after) {
        assert Newer(rs, after) == [rs[0]] + rest && ([rs[0]] + rest)[1..] == rest;
      } else {
        assert Newer(rs, after) == rest;
      }
    }
  }

  /** The part of the selection that the continuation of one answer leaves for the next. */
  lemma NextAnswer(rs: seq<Observation>, after: Option<nat>, limit: nat)
    requires Increasing(rs) && limit > 0
    ensures var page := AnswerOf(Newer(rs, after), limit);
            page.continuation.Some? ==>
              Newer(rs, page.continuation) == Newer(rs, after)[limit..] && |page.records| == limit
  {
    var chosen := Newer(rs, after);
    if |chosen| > limit {
      NewerIncreasing(rs, after);
      NewerMembers(rs, after);
      assert chosen[limit - 1] in chosen;
      NewerIsDrop(chosen, limit);
      NewerTwice(rs, after, chosen[limit - 1].sequence);
    }
  }

  /** All records obtained by following continuations from `after` until there is none. */
  ghost function Followed(rs: seq<Observation>, after: Option<nat>, limit: nat): seq<Observation>
    requires Increasing(rs) && limit > 0
    decreases |Newer(rs, after)|
  {
    var page := AnswerOf(Newer(rs, after), limit);
    NextAnswer(rs, after, limit);
    if page.continuation == None then page.records else page.records + Followed(rs, page.continuation, limit)
  }

  /** Pagination equals the one-shot query: nothing skipped, nothing twice, for every limit. */
  lemma {:induction false} PaginationIsOneShot(rs: seq<Observation>, after: Option<nat>, limit: nat)
    requires Increasing(rs) && limit > 0
    ensures Followed(rs, after, limit) == Newer(rs, after)
    decreases |Newer(rs, after)|
  {
    var page := AnswerOf(Newer(rs, after), limit);
    NextAnswer(rs, after, limit);
    if page.continuation.Some? {
      PaginationIsOneShot(rs, page.continuation, limit);
      assert Newer(rs, after) == Newer(rs, after)[..limit] + Newer(rs, after)[limit..];
    }
  }

  lemma {:induction false} ThinnedIncreasing(rs: seq<Observation>, stride: nat, passed: nat)
    requires stride > 0 && Increasing(rs)
    ensures Increasing(Thinned(rs, stride, passed))
    ensures forall r :: r in Thinned(rs, stride, passed) ==> r in rs
  {
    if rs != [] {
      var next := if rs[0].kind.Sample? then passed + 1 else passed;
      ThinnedIncreasing(rs[1..], stride, next);
      assert rs == [rs[0]] + rs[1..];
      var rest := Thinned(rs[1..], stride, next);
      forall k | 0 <= k < |rest|
        ensures rs[0].sequence < rest[k].sequence
      {
        assert rest[k] in rs[1..];
      }
    }
  }

  ghost function SamplesBefore(rs: seq<Observation>, k: nat): set<nat>
    requires k <= |rs|
  {
    set i: nat | i < k && rs[i].kind.Sample?
  }

  lemma {:induction false} SamplesCounted(rs: seq<Observation>, k: nat)
    requires k <= |rs|
    ensures SamplesIn(rs[..k]) == |SamplesBefore(rs, k)|
  {
    if k > 0 {
      SamplesCounted(rs, k - 1);
      assert rs[..k] == rs[..k - 1] + [rs[k - 1]];
      SamplesConcat(rs[..k - 1], [rs[k - 1]]);
      assert SamplesBefore(rs, k)
          == SamplesBefore(rs, k - 1) + if rs[k - 1].kind.Sample? then {k - 1} else {};
    }
  }

  lemma {:induction false} ThinnedKeeps(rs: seq<Observation>, stride: nat, passed: nat, k: nat)
    requires stride > 0 && Increasing(rs) && k < |rs|
    ensures rs[k] in Thinned(rs, stride, passed)
            <==> !rs[k].kind.Sample? || (passed + SamplesIn(rs[..k])) % stride == 0
  {
    var next := if rs[0].kind.Sample? then passed + 1 else passed;
    ThinnedIncreasing(rs[1..], stride, next);
    assert rs[0] !in rs[1..];
    if k > 0 {
      ThinnedKeeps(rs[1..], stride, next, k - 1);
      assert rs[..k][1..] == rs[1..][..k - 1] && rs[k] == rs[1..][k - 1];
      assert rs[0].sequence < rs[k].sequence;
    }
  }

  /** The records of `all` in their order: every stride-th sample, and all that are not samples. */
  ghost predicate EveryNth(all: seq<Observation>, stride: nat, records: seq<Observation>)
    requires stride > 0
  {
    Increasing(records) && (forall r :: r in records ==> r in all)
    && forall k :: 0 <= k < |all| ==>
         (all[k] in records <==> !all[k].kind.Sample? || |SamplesBefore(all, k)| % stride == 0)
  }

  /** Thinning means just that. */
  lemma ThinnedMeans(all: seq<Observation>, stride: nat)
    requires stride > 0 && Increasing(all)
    ensures EveryNth(all, stride, Thinned(all, stride, 0))
  {
    ThinnedIncreasing(all, stride, 0);
    forall k | 0 <= k < |all|
      ensures all[k] in Thinned(all, stride, 0)
              <==> !all[k].kind.Sample? || |SamplesBefore(all, k)| % stride == 0
    {
      ThinnedKeeps(all, stride, 0, k);
      SamplesCounted(all, k);
    }
  }

  /** For an unchanged session, the answers of successive queries join to its thinned records. */
  lemma QueriesJoin(all: seq<Observation>, stride: nat, limit: nat)
    requires Increasing(all) && stride > 0 && limit > 0
    ensures Increasing(Thinned(all, stride, 0))
    ensures Followed(Thinned(all, stride, 0), None, limit) == Thinned(all, stride, 0)
  {
    ThinnedIncreasing(all, stride, 0);
    PaginationIsOneShot(Thinned(all, stride, 0), None, limit);
    AllNewer(Thinned(all, stride, 0), None);
  }

  // ---------------------------------------------------------------- what the log holds

  predicate PromisedAll(ledger: Ledger, order: seq<nat>) {
    forall k :: 0 <= k < |order| ==> order[k] < |ledger| && ledger[order[k]].Some?
  }

  function Acked(ledger: Ledger, order: seq<nat>): seq<Observation>
    requires PromisedAll(ledger, order)
  {
    if order == [] then [] else ledger[order[0]].value.acked + Acked(ledger, order[1..])
  }

  /** A query reads back exactly the acknowledged records of promised pages. */
  lemma {:induction false} JoinedIsAcked(pages: Table, s: seq<Sector>, ledger: Ledger, order: seq<nat>)
    requires Readable(pages, s, ledger) && PromisedAll(ledger, order)
    ensures Joined(pages, s, order) == Some(Acked(ledger, order))
  {
    hide ReadBack;
    if order != [] {
      JoinedIsAcked(pages, s, ledger, order[1..]);
    }
  }

  /** Acknowledged records of a session come in strictly increasing sequence, across its pages. */
  lemma {:induction false} AckedIncreasing(v: Views, ledger: Ledger, submitted: set<Observation>, session: u64, order: seq<nat>)
    requires Durable(v, ledger, submitted) && PromisedAll(ledger, order)
    requires forall k :: 0 <= k < |order| ==> ledger[order[k]].value.header.historyId == session
    requires forall j, k :: 0 <= j < k < |order| ==>
               ledger[order[j]].value.header.generation < ledger[order[k]].value.header.generation
    ensures Increasing(Acked(ledger, order))
    ensures forall r :: r in Acked(ledger, order) ==> exists k :: 0 <= k < |order| && r in ledger[order[k]].value.acked
  {
    if order != [] {
      var i, rest := order[0], Acked(ledger, order[1..]);
      AckedIncreasing(v, ledger, submitted, session, order[1..]);
      var first := ledger[i].value.acked;
      assert Visible(v, i) && Holds(v[i], ledger[i].value) && Sound(v[i], submitted);
      assert Increasing(first) by {
        assert forall k :: 0 <= k < |first| ==> first[k] == v[i].content[k];
      }
      forall a, b | 0 <= a < |first| && 0 <= b < |rest|
        ensures first[a].sequence < rest[b].sequence
      {
        assert rest[b] in rest;
        var k :| 0 <= k < |order[1..]| && rest[b] in ledger[order[1..][k]].value.acked;
        var j := order[1..][k];
        assert j == order[k + 1] && order[0] == i;
        assert Visible(v, j) && Holds(v[j], ledger[j].value) && Precedes(v, i, j);
        var m :| 0 <= m < |ledger[j].value.acked| && ledger[j].value.acked[m] == rest[b];
        assert v[j].content[m] == rest[b] && v[i].content[a] == first[a];
      }
      forall r | r in Acked(ledger, order)
        ensures exists k :: 0 <= k < |order| && r in ledger[order[k]].value.acked
      {
        if r in rest {
          var k :| 0 <= k < |order[1..]| && r in ledger[order[1..][k]].value.acked;
          assert order[k + 1] == order[1..][k];
        }
      }
    }
  }

  // ---------------------------------------------------------------- the query's loops

  /** Listed pages by generation, each once. */
  predicate ByGeneration(pages: Table, order: seq<nat>) {
    (forall k :: 0 <= k < |order| ==> order[k] < |pages|)
    && (forall j, k :: 0 <= j < k < |order| ==>
          pages[order[j]].generation <= pages[order[k]].generation && order[j] != order[k])
  }

  lemma InsertedAt(order: seq<nat>, at: nat, page: nat)
    requires at <= |order|
    ensures var longer := order[..at] + [page] + order[at..];
            |longer| == |order| + 1 && longer[at] == page
            && (forall k :: 0 <= k < at ==> longer[k] == order[k])
            && (forall k :: at < k <= |order| ==> longer[k] == order[k - 1])
            && forall i :: i in longer <==> i in order || i == page
  {
    assert order == order[..at] + order[at..];
  }

  lemma InsertedInOrder(pages: Table, order: seq<nat>, at: nat, page: nat, longer: seq<nat>)
    requires ByGeneration(pages, order) && at <= |order| && page < |pages| && page !in order
    requires forall k :: 0 <= k < at ==> pages[order[k]].generation <= pages[page].generation
    requires forall k :: at <= k < |order| ==> pages[page].generation <= pages[order[k]].generation
    requires |longer| == |order| + 1 && longer[at] == page
    requires forall k :: 0 <= k < at ==> longer[k] == order[k]
    requires forall k :: at < k <= |order| ==> longer[k] == order[k - 1]
    ensures ByGeneration(pages, longer)
  {
    forall j, k | 0 <= j < k < |longer|
      ensures longer[j] < |pages| && longer[k] < |pages|
      ensures pages[longer[j]].generation <= pages[longer[k]].generation && longer[j] != longer[k]
    {
      if j != at && k != at {
        var a, b := if j < at then j else j - 1, if k < at then k else k - 1;
        assert longer[j] == order[a] && longer[k] == order[b] && a < b;
      }
    }
  }

  method InsertPage(pages: Table, order: seq<nat>, page: nat) returns (longer: seq<nat>)
    requires page < |pages| && page !in order && ByGeneration(pages, order)
    ensures |longer| == |order| + 1 && forall i :: i in longer <==> i in order || i == page
    ensures ByGeneration(pages, longer)
  {
    var at := 0;
    while at < |order| && pages[order[at]].generation <= pages[page].generation
      invariant at <= |order|
      invariant forall k :: 0 <= k < at ==> pages[order[k]].generation <= pages[page].generation
    {
      at := at + 1;
    }
    longer := order[..at] + [page] + order[at..];
    InsertedAt(order, at, page);
    assert forall k :: at <= k < |order| ==> pages[page].generation <= pages[order[k]].generation;
    InsertedInOrder(pages, order, at, page, longer);
  }

  /** The listed pages of a session, sorted by generation. */
  method PagesInOrder(pages: Table, session: u64) returns (order: seq<nat>)
    ensures InOrder(pages, session, order)
  {
    hide ByGeneration;
    order := [];
    NoPages(pages);
    for i := 0 to |pages|
      invariant ByGeneration(pages, order)
      invariant forall m :: m in order <==> 0 <= m < i && Listing(pages, session, m)
    {
      if pages[i].valid && pages[i].historyId == session {
        order := InsertPage(pages, order, i);
      }
    }
    ListedInOrder(pages, session, order);
  }

  lemma NoPages(pages: Table)
    ensures ByGeneration(pages, [])
  {
  }

  lemma ListedInOrder(pages: Table, session: u64, order: seq<nat>)
    requires ByGeneration(pages, order) && forall m :: m in order <==> 0 <= m < |pages| && Listing(pages, session, m)
    ensures InOrder(pages, session, order)
  {
    assert forall k :: 0 <= k < |order| ==> order[k] in order;
  }

  /**
   * Adds the chosen records of one page to an answer that has chosen from `done` so far; `full`
   * when one more record was chosen than the answer may hold, `seen` records into the page.
   */
  method TakeFrom(records: seq<Observation>, taken: seq<Observation>, periodic: nat, stride: nat,
                  after: Option<nat>, limit: nat, ghost done: seq<Observation>)
    returns (result: seq<Observation>, passed: nat, full: bool, ghost seen: nat)
    requires stride > 0 && limit > 0 && periodic == SamplesIn(done)
    requires taken == Chosen(done, stride, after) && |taken| <= limit
    ensures !full ==> result == Chosen(done + records, stride, after) && |result| <= limit
                      && passed == SamplesIn(done + records)
    ensures full ==> seen <= |records| && |Chosen(done + records[..seen], stride, after)| > limit
                     && |result| == limit
                     && AnswerOf(Chosen(done + records[..seen], stride, after), limit)
                        == Answer(result, Some(result[limit - 1].sequence))
  {
    hide Chosen, SamplesIn;
    result, passed, seen := taken, periodic, 0;
    assert done + records[..0] == done;
    for k := 0 to |records|
      invariant result == Chosen(done + records[..k], stride, after) && |result| <= limit
      invariant passed == SamplesIn(done + records[..k])
    {
      var r := records[k];
      ChosenStep(done + records[..k], r, stride, after);
      assert done + records[..k + 1] == (done + records[..k]) + [r];
      var included := !r.kind.Sample? || passed % stride == 0;
      if r.kind.Sample? { passed := passed + 1; }
      if IsNewer(r, after) && included {
        if |result| == limit {
          assert (result + [r])[..limit] == result;
          return result, passed, true, k + 1;
        }
        result := result + [r];
      }
    }
    assert done + records[..|records|] == done + records;
    full := false;
  }
}
