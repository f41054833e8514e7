/** What the flash content promises across reboots, and how each flash operation keeps it. */
module Durability {
  import opened Bytes
  import opened Domain
  import opened Codec

  datatype PageHeader = PageHeader(generation: u64, historyId: u64, pageIndex: u32)

  /** All that a boot-time scan makes of one sector. */
  datatype View =
    | Dead
    | Page(header: PageHeader, tombstoned: bool, writable: bool, content: seq<Observation>)

  type Views = seq<View>

  predicate Live(v: Views, i: nat) {
    i < |v| && v[i].Page?
  }

  predicate Owns(v: Views, session: u64, i: nat) {
    Live(v, i) && v[i].header.historyId == session
  }

  /** A session with a tombstoned page is evicted as a whole. */
  ghost predicate Doomed(v: Views, session: u64) {
    exists j: nat :: Owns(v, session, j) && v[j].tombstoned
  }

  /** The pages a reboot exposes. */
  ghost predicate Visible(v: Views, i: nat) {
    Live(v, i) && !Doomed(v, v[i].header.historyId)
  }

  /** A page the log has promised to keep: its identity and the records whose append was acknowledged. */
  datatype Promise = Promise(header: PageHeader, acked: seq<Observation>)

  type Ledger = seq<Option<Promise>>

  predicate Increasing(rs: seq<Observation>) {
    forall i, j :: 0 <= i < j < |rs| ==> rs[i].sequence < rs[j].sequence
  }

  predicate AllBelow(rs: seq<Observation>, qs: seq<Observation>) {
    forall i, j :: 0 <= i < |rs| && 0 <= j < |qs| ==> rs[i].sequence < qs[j].sequence
  }

  /** Every exposed record was handed to append for this session, in increasing sequence. */
  predicate Sound(p: View, submitted: set<Observation>)
    requires p.Page?
  {
    Increasing(p.content)
    && forall r :: r in p.content ==> r in submitted && r.historyId == p.header.historyId
  }

  predicate Holds(p: View, promise: Promise) {
    p.Page? && p.header == promise.header
    && promise.acked <= p.content && |p.content| <= |promise.acked| + 1
  }

  predicate Precedes(v: Views, i: nat, j: nat)
    requires Live(v, i) && Live(v, j)
  {
    v[i].header.historyId == v[j].header.historyId && v[i].header.generation < v[j].header.generation
  }

  ghost predicate PromisesHold(v: Views, ledger: Ledger) {
    |ledger| == |v|
    && forall i: nat :: i < |v| && ledger[i].Some? ==> Visible(v, i) && Holds(v[i], ledger[i].value)
  }

  ghost predicate AllSound(v: Views, submitted: set<Observation>) {
    forall i: nat :: Visible(v, i) ==> Sound(v[i], submitted)
  }

  /** Generations identify pages, and order the records of a session across its pages. */
  ghost predicate Ordered(v: Views) {
    (forall i: nat, j: nat :: Live(v, i) && Live(v, j) && i != j ==>
       v[i].header.generation != v[j].header.generation)
    && (forall i: nat, j: nat :: Visible(v, i) && Visible(v, j) && Precedes(v, i, j) ==>
          AllBelow(v[i].content, v[j].content))
  }

  ghost predicate AllWritable(v: Views) {
    forall i: nat :: Live(v, i) ==> v[i].writable
  }

  ghost predicate Durable(v: Views, ledger: Ledger, submitted: set<Observation>) {
    PromisesHold(v, ledger) && AllSound(v, submitted) && Ordered(v) && AllWritable(v)
  }

  /** The erase fault model, seen by a scan. */
  predicate ErasedView(before: View, after: View) {
    after == before || after == Dead
    || (before.Page? && after.Page? && after.header == before.header
        && before.tombstoned && after.tombstoned && after.writable)
  }

  /** Outside sector `c`, the same pages are exposed. */
  ghost predicate SameElsewhere(v: Views, w: Views, c: nat) {
    c < |v| == |w| && w == v[c := w[c]]
    && forall i: nat :: i != c ==> (Visible(v, i) <==> Visible(w, i))
  }

  /** A tombstone in `c` is not the only one that hides another page. */
  ghost predicate NoReliance(v: Views, c: nat)
    requires c < |v|
  {
    v[c].Page? && v[c].tombstoned ==>
      forall k: nat :: k != c && Owns(v, v[c].header.historyId, k) ==>
        exists m: nat :: m != c && Owns(v, v[c].header.historyId, m) && v[m].tombstoned
  }

  lemma DoomedElsewhere(v: Views, w: Views, c: nat, h: u64)
    requires c < |v| == |w| && w == v[c := w[c]] && ErasedView(v[c], w[c]) && NoReliance(v, c)
    ensures Doomed(w, h) ==> Doomed(v, h)
    ensures Doomed(v, h) && (exists k: nat :: k != c && Owns(v, h, k)) ==> Doomed(w, h)
  {
    if Doomed(w, h) {
      var j: nat :| Owns(w, h, j) && w[j].tombstoned;
      assert Owns(v, h, j) && v[j].tombstoned;
    }
    if Doomed(v, h) && exists k: nat :: k != c && Owns(v, h, k) {
      var k: nat :| k != c && Owns(v, h, k);
      var j: nat :| Owns(v, h, j) && v[j].tombstoned;
      if j == c {
        var m: nat :| m != c && Owns(v, h, m) && v[m].tombstoned;
        assert Owns(w, h, m) && w[m].tombstoned;
      } else {
        assert Owns(w, h, j) && w[j].tombstoned;
      }
    }
  }

  /** Erasing a sector nothing is promised about, with any outcome of the fault model. */
  lemma EraseKeeps(v: Views, w: Views, c: nat, ledger: Ledger, submitted: set<Observation>)
    requires Durable(v, ledger, submitted) && c < |v| == |w| && w == v[c := w[c]]
    requires ledger[c] == None && ErasedView(v[c], w[c]) && NoReliance(v, c)
    ensures Durable(w, ledger, submitted) && SameElsewhere(v, w, c)
    ensures Visible(w, c) ==> w == v
  {
    forall i: nat | i != c
      ensures Visible(v, i) <==> Visible(w, i)
    {
      if Live(v, i) {
        DoomedElsewhere(v, w, c, v[i].header.historyId);
        assert Owns(v, v[i].header.historyId, i);
      }
    }
    if Visible(w, c) {
      assert Owns(w, w[c].header.historyId, c);
      assert w[c] == v[c] && w == v;
    }
  }

  /** A fresh page on a sector no header was valid in. */
  lemma HeaderKeeps(v: Views, w: Views, c: nat, h: PageHeader, ledger: Ledger, submitted: set<Observation>)
    requires Durable(v, ledger, submitted) && c < |v| == |w| && w == v[c := w[c]]
    requires ledger[c] == None && v[c] == Dead && (w[c] == Dead || w[c] == Page(h, false, true, []))
    requires forall i: nat :: Live(v, i) ==> v[i].header.generation < h.generation
    ensures Durable(w, ledger, submitted) && SameElsewhere(v, w, c)
    ensures forall g :: Doomed(w, g) <==> Doomed(v, g)
  {
    SameDoom(v, w, c);
    assert forall i: nat :: i != c ==> (Visible(v, i) <==> Visible(w, i));
    assert Live(w, c) ==> Sound(w[c], submitted);
    forall i: nat | i < |w| && ledger[i].Some?
      ensures Visible(w, i) && Holds(w[i], ledger[i].value)
    {
      assert Visible(v, i) && i != c;
    }
  }

  lemma SameDoom(v: Views, w: Views, c: nat)
    requires c < |v| == |w| && w == v[c := w[c]]
    requires (v[c].Page? && v[c].tombstoned) || (w[c].Page? && w[c].tombstoned) ==>
               v[c].Page? && w[c].Page? && v[c].tombstoned == w[c].tombstoned && v[c].header == w[c].header
    ensures forall g :: Doomed(w, g) <==> Doomed(v, g)
  {
    forall g
      ensures Doomed(w, g) <==> Doomed(v, g)
    {
      if Doomed(v, g) {
        var j: nat :| Owns(v, g, j) && v[j].tombstoned;
        assert Owns(w, g, j) && w[j].tombstoned;
      }
      if Doomed(w, g) {
        var j: nat :| Owns(w, g, j) && w[j].tombstoned;
        assert Owns(v, g, j) && v[j].tombstoned;
      }
    }
  }

  /** What a new record in page `c` follows: everything its session already exposes. */
  ghost predicate NextIn(v: Views, c: nat, sequence: nat)
    requires Live(v, c)
  {
    (forall i: nat, r :: Owns(v, v[c].header.historyId, i) && r in v[i].content ==> r.sequence < sequence)
    && (forall i: nat :: Live(v, i) && Precedes(v, c, i) ==> v[i].content == [])
  }

  /** A record written behind the last one of a page, whole or not at all. */
  lemma RecordKeeps(v: Views, w: Views, c: nat, x: Observation, ledger: Ledger, submitted: set<Observation>)
    requires Durable(v, ledger, submitted) && c < |v| == |w| && w == v[c := w[c]]
    requires Visible(v, c) && ledger[c] == Some(Promise(v[c].header, v[c].content))
    requires w[c] == v[c] || w[c] == v[c].(content := v[c].content + [x])
    requires x in submitted && x.historyId == v[c].header.historyId && NextIn(v, c, x.sequence)
    ensures Durable(w, ledger, submitted) && SameElsewhere(v, w, c) && Visible(w, c)
    ensures Durable(w, ledger[c := Some(Promise(v[c].header, w[c].content))], submitted)
    ensures forall g :: Doomed(w, g) <==> Doomed(v, g)
  {
    SameDoom(v, w, c);
    assert forall i: nat :: Visible(v, i) <==> Visible(w, i);
    assert Sound(w[c], submitted) by {
      RecordSound(v, w, c, x, submitted);
    }
    forall i: nat, j: nat | Visible(w, i) && Visible(w, j) && Precedes(w, i, j)
      ensures AllBelow(w[i].content, w[j].content)
    {
      assert Precedes(v, i, j) && AllBelow(v[i].content, v[j].content);
      if i == c {
        assert v[j].content == [];
      } else if j == c {
        assert Owns(v, v[c].header.historyId, i);
      }
    }
  }

  lemma RecordSound(v: Views, w: Views, c: nat, x: Observation, submitted: set<Observation>)
    requires Live(v, c) && Live(w, c) && Sound(v[c], submitted)
    requires w[c] == v[c] || w[c] == v[c].(content := v[c].content + [x])
    requires x in submitted && x.historyId == v[c].header.historyId && NextIn(v, c, x.sequence)
    ensures Sound(w[c], submitted)
  {
    assert Owns(v, v[c].header.historyId, c);
    assert forall k :: 0 <= k < |v[c].content| ==> v[c].content[k] in v[c].content;
  }

  /** Marking a session nothing is promised about any more: untouched, or gone as a whole. */
  lemma MarkKeeps(v: Views, w: Views, p: nat, ledger: Ledger, submitted: set<Observation>)
    requires Durable(v, ledger, submitted) && p < |v| == |w| && w == v[p := w[p]]
    requires Live(v, p) && Live(w, p) && w[p].header == v[p].header && w[p].writable
    requires w[p] == v[p] || w[p].tombstoned
    requires forall i: nat :: i < |v| && ledger[i].Some? ==>
               ledger[i].value.header.historyId != v[p].header.historyId
    ensures Durable(w, ledger, submitted)
    ensures w == v || Doomed(w, v[p].header.historyId)
    ensures forall g :: g != v[p].header.historyId ==> (Doomed(w, g) <==> Doomed(v, g))
    ensures forall i: nat :: Live(v, i) && v[i].header.historyId != v[p].header.historyId ==>
              (Visible(w, i) <==> Visible(v, i)) && i != p
  {
    var h := v[p].header.historyId;
    if w[p] == v[p] {
      assert w == v;
    } else {
      MarkDooms(v, w, p);
      assert forall i: nat :: Visible(w, i) ==> i != p && w[i] == v[i] && Visible(v, i);
      forall i: nat | i < |w| && ledger[i].Some?
        ensures Visible(w, i) && w[i] == v[i]
      {
        assert Visible(v, i) && Holds(v[i], ledger[i].value);
      }
    }
  }

  lemma MarkDooms(v: Views, w: Views, p: nat)
    requires p < |v| == |w| && w == v[p := w[p]]
    requires Live(v, p) && Live(w, p) && w[p].header == v[p].header && w[p].tombstoned
    ensures Doomed(w, v[p].header.historyId)
    ensures forall g :: g != v[p].header.historyId ==> (Doomed(w, g) <==> Doomed(v, g))
  {
    assert Owns(w, v[p].header.historyId, p) && w[p].tombstoned;
    forall g | g != v[p].header.historyId
      ensures Doomed(w, g) <==> Doomed(v, g)
    {
      if Doomed(v, g) {
        var j: nat :| Owns(v, g, j) && v[j].tombstoned;
        assert Owns(w, g, j) && w[j].tombstoned;
      }
      if Doomed(w, g) {
        var j: nat :| Owns(w, g, j) && w[j].tombstoned;
        assert Owns(v, g, j) && v[j].tombstoned;
      }
    }
  }
}
