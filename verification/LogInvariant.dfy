/** The full invariant of the history log: RAM table, flash bytes, promises and counters together. */
module LogInvariant {
  import opened Bytes
  import opened Domain
  import opened Codec
  import opened Durability
  import opened LogState
  import opened PageFormat
  import opened NorFlash

  /** What a query reads out of a page whose table entry says `used`. */
  function ReadBack(b: Sector, at: nat, used: nat): Option<seq<Observation>>
    decreases PAGE_BYTES - at
  {
    if at + RECORD_HEADER > used then Some([])
    else match RecordAt(b, at)
      case None => None
      case Some(e) =>
        if at + e.size > used then None
        else match ReadBack(b, at + e.size, used)
          case None => None
          case Some(rest) => Some([e.observation] + rest)
  }

  lemma {:induction false} ReadBackAll(b: Sector, at: nat)
    ensures ReadBack(b, at, Used(b, at)) == Some(Records(b, at))
    decreases PAGE_BYTES - at
  {
    hide RecordAt;
    if RecordAt(b, at).Some? {
      ReadBackAll(b, at + RecordAt(b, at).value.size);
    }
  }

  lemma {:induction false} ReadBackKept(b: Sector, c: Sector, at: nat, used: nat)
    requires used <= PAGE_BYTES && Agree(b, c, at, used) && ReadBack(b, at, used).Some?
    ensures ReadBack(c, at, used) == ReadBack(b, at, used)
    decreases PAGE_BYTES - at
  {
    hide RecordAt;
    if at + RECORD_HEADER <= used {
      SameRecord(b, c, at);
      ReadBackKept(b, c, at + RecordAt(b, at).value.size, used);
    }
  }

  /** The table entry a scan of one sector yields. */
  function ScanInfo(b: Sector): PageInfo {
    match HeaderAt(b)
    case None => NO_PAGE
    case Some(h) =>
      PageInfo(h.generation, h.historyId, h.pageIndex, Used(b, HEADER_BYTES), true,
               Tombstoned(b), MarkerWritable(TombstoneWord(b)))
  }

  /** The table says what a rescan would say, about every sector but possibly `except`. */
  predicate InSync(pages: Table, s: seq<Sector>, except: Option<nat>) {
    |pages| == |s|
    && forall i: nat :: i < |s| && except != Some(i) ==>
         pages[i].valid == ScanInfo(s[i]).valid && (pages[i].valid ==> pages[i] == ScanInfo(s[i]))
  }

  /** `full` says that every listed page of a session that is not being evicted is promised. */
  datatype Ram = Ram(
    full: bool,
    pages: Table,
    current: Option<nat>,
    active: Option<u64>,
    nextHistoryId: nat,
    nextGeneration: nat,
    nextSequence: nat)

  /** The open session's current page, when appends may go to it. */
  predicate AppendTarget(r: Ram, c: nat) {
    r.current == Some(c) && c < |r.pages| && r.pages[c].valid
    && r.active == Some(r.pages[c].historyId)
  }

  /** Page `c` ends exactly where the table says, and nothing newer of its session holds records. */
  ghost predicate Ready(r: Ram, s: seq<Sector>, ledger: Ledger, c: nat)
    requires c < |r.pages| == |s| == |ledger|
  {
    ledger[c] == Some(Promise(Identity(r.pages[c]), Records(s[c], HEADER_BYTES)))
    && Used(s[c], HEADER_BYTES) == r.pages[c].used <= PAGE_BYTES
    && Blank(s[c], r.pages[c].used, PAGE_BYTES)
    && NothingNewer(ViewsOf(s), Identity(r.pages[c]))
  }

  ghost predicate NothingNewer(v: Views, h: PageHeader) {
    forall i: nat :: Owns(v, h.historyId, i) && v[i].header.generation > h.generation ==> v[i].content == []
  }

  /** Queries on a promised page return exactly its acknowledged records. */
  predicate Readable(pages: Table, s: seq<Sector>, ledger: Ledger) {
    |pages| == |s| == |ledger|
    && forall i :: 0 <= i < |s| && ledger[i].Some? ==>
         pages[i].used <= PAGE_BYTES
         && ReadBack(s[i], HEADER_BYTES, pages[i].used) == Some(ledger[i].value.acked)
  }

  /** Every listed page is known to take a tombstone. */
  predicate MarkersWritable(pages: Table) {
    forall i :: 0 <= i < |pages| && pages[i].valid ==> pages[i].evictionMarkerWritable
  }

  ghost predicate Consistent(r: Ram, s: seq<Sector>, ledger: Ledger, submitted: set<Observation>) {
    |r.pages| == |s| && |s| > 0 && MarkersWritable(r.pages)
    && Coherent(r.pages, ViewsOf(s), ledger, submitted)
    && (r.full ==> Full(r.pages, ViewsOf(s), ledger))
    && CountersAhead(r.pages, ViewsOf(s), r.nextHistoryId, r.nextGeneration)
    && (r.active.Some? ==>
          r.active.value < r.nextHistoryId
          && SessionOpen(r.pages, ViewsOf(s), r.active.value, r.nextSequence))
    && Readable(r.pages, s, ledger)
    && forall c: nat :: AppendTarget(r, c) ==> Ready(r, s, ledger, c)
  }

  // ---------------------------------------------------------------- steps

  /** Erasing a sector nothing is promised about does not disturb anything else. */
  lemma QuietErase(r: Ram, s: seq<Sector>, t: seq<Sector>, i: nat, ledger: Ledger, submitted: set<Observation>)
    requires Consistent(r, s, ledger, submitted) && i < |s| == |t| && t == s[i := t[i]]
    requires ledger[i] == None && ErasedView(ViewOf(s[i]), ViewOf(t[i]))
    requires Coherent(r.pages, ViewsOf(t), ledger, submitted)
    requires ViewsOf(s)[i].Page? && ViewsOf(s)[i].tombstoned ==> Pending(r.pages, ViewsOf(s)[i].header.historyId)
    ensures Consistent(r, t, ledger, submitted)
  {
    hide ViewOf, ReadBack, Records, Used, Coherent, Full;
    var v, w := ViewsOf(s), ViewsOf(t);
    OneSector(s, i, t[i]);
    if r.full {
      FullErased(r.pages, v, w, i, ledger);
    }
    assert forall h, k: nat :: Owns(w, h, k) ==> Owns(v, h, k);
    assert forall h, j: nat :: Owns(w, h, j) && w[j].tombstoned ==> Owns(v, h, j) && v[j].tombstoned;
    assert forall h, k: nat :: Owns(w, h, k) && w[k] != v[k] ==> Owns(v, h, k) && v[k].tombstoned;
    forall c: nat | AppendTarget(r, c)
      ensures Ready(r, t, ledger, c)
    {
      assert Ready(r, s, ledger, c) && c != i;
    }
  }

  /** Striking an unpromised entry from the table. */
  lemma QuietUnlist(r: Ram, s: seq<Sector>, i: nat, p: PageInfo, ledger: Ledger, submitted: set<Observation>)
    requires Consistent(r, s, ledger, submitted) && i < |s| && ledger[i] == None && !p.valid
    requires Coherent(r.pages[i := p], ViewsOf(s), ledger, submitted)
    requires forall k: nat :: k < |r.pages| && k != i && r.pages[k].valid && Pending(r.pages, r.pages[k].historyId) ==>
               Pending(r.pages[i := p], r.pages[k].historyId)
    ensures Consistent(r.(pages := r.pages[i := p]), s, ledger, submitted)
  {
    hide ViewOf, ReadBack, Records, Used, Coherent, Full;
    var q := r.(pages := r.pages[i := p]);
    if r.full {
      FullReplaced(r.pages, ViewsOf(s), ViewsOf(s), i, p, ledger, ledger);
    }
    assert forall h, j: nat :: Marks(q.pages, h, j) ==> Marks(r.pages, h, j);
    forall c: nat | AppendTarget(q, c)
      ensures Ready(q, s, ledger, c)
    {
      assert AppendTarget(r, c) && Ready(r, s, ledger, c) && c != i;
    }
  }

  /** Withdrawing promises leaves the invariant, as long as the open session's page keeps its own. */
  lemma QuietDrop(r: Ram, s: seq<Sector>, ledger: Ledger, fewer: Ledger, submitted: set<Observation>)
    requires Consistent(r, s, ledger, submitted) && |fewer| == |ledger|
    requires forall i: nat :: i < |ledger| ==> fewer[i] == ledger[i] || fewer[i] == None
    requires forall c: nat :: AppendTarget(r, c) ==> fewer[c] == ledger[c]
    ensures Consistent(r.(full := false), s, fewer, submitted)
  {
    hide ViewOf, ReadBack, Records, Used;
    DropPromises(r.pages, ViewsOf(s), ledger, fewer, submitted);
    forall c: nat | AppendTarget(r.(full := false), c)
      ensures Ready(r.(full := false), s, fewer, c)
    {
      assert AppendTarget(r, c) && Ready(r, s, ledger, c);
    }
  }

  /** The first lines of a fresh page: its header and nothing else. */
  predicate FreshSector(b: Sector, h: PageHeader) {
    HeaderAt(b) == Some(h) && Blank(b, 36, PAGE_BYTES)
  }

  lemma FreshView(b: Sector, h: PageHeader)
    requires FreshSector(b, h)
    ensures ViewOf(b) == Page(h, false, true, []) && Used(b, HEADER_BYTES) == HEADER_BYTES
    ensures ReadBack(b, HEADER_BYTES, HEADER_BYTES) == Some([])
    ensures ScanInfo(b) == PageInfo(h.generation, h.historyId, h.pageIndex, HEADER_BYTES, true, false, true)
  {
    BlankIsNoRecord(b, HEADER_BYTES);
    assert TombstoneWord(b) == ERASED_WORD;
    AndMarker();
  }

  lemma AndMarker()
    ensures MarkerWritable(ERASED_WORD)
  {
    var e, m := [255, 255, 255, 255], Le32(EVICTION_MARKER);
    assert m[0..4] == m;
    Get32Of(m, 0, EVICTION_MARKER);
    AndErased(m[0]);
    AndErased(m[1]);
    AndErased(m[2]);
    AndErased(m[3]);
    WordCovers(e, 0, m);
  }

  /** A page header written on an erased sector, committed or not. */
  lemma FreshStep(r: Ram, s: seq<Sector>, t: seq<Sector>, c: nat, p: PageInfo, ledger: Ledger, submitted: set<Observation>)
    requires Consistent(r, s, ledger, submitted) && c < |s| == |t| && t == s[c := t[c]]
    requires Reusable(r.pages, ledger, c) && ViewOf(s[c]) == Dead
    requires FreshSector(t[c], Identity(p)) || (ViewOf(t[c]) == Dead && !p.valid)
    requires r.active == Some(p.historyId) && p.generation == r.nextGeneration
    requires !p.evictionMarker && p.evictionMarkerWritable && p.used == HEADER_BYTES
    ensures Consistent(r.(pages := r.pages[c := p], nextGeneration := r.nextGeneration + 1,
                          current := if p.valid then Some(c) else r.current),
                       t, ledger[c := if p.valid then Some(Promise(Identity(p), [])) else None], submitted)
    ensures SameElsewhere(ViewsOf(s), ViewsOf(t), c)
  {
    hide ViewOf, ReadBack, Records, Used, Coherent, HeaderAt, Blank, ScanInfo, Full;
    var v, w := ViewsOf(s), ViewsOf(t);
    OneSector(s, c, t[c]);
    if FreshSector(t[c], Identity(p)) {
      FreshView(t[c], Identity(p));
    }
    FreshPage(r.pages, v, w, c, p, ledger, submitted);
    PendingAfterReuse(r.pages, c, p, ledger);
    if r.full {
      FullReplaced(r.pages, v, w, c, p, ledger, ledger[c := if p.valid then Some(Promise(Identity(p), [])) else None]);
    }
    assert forall h, k: nat :: Owns(w, h, k) ==> Owns(v, h, k) || (k == c && w[k].content == []);
    var q := r.(pages := r.pages[c := p], nextGeneration := r.nextGeneration + 1,
                current := if p.valid then Some(c) else r.current);
    var kept := ledger[c := if p.valid then Some(Promise(Identity(p), [])) else None];
    forall d: nat | AppendTarget(q, d)
      ensures Ready(q, t, kept, d)
    {
      if d == c {
        FreshReady(q, t, kept, c, w);
      } else {
        assert AppendTarget(r, d) && Ready(r, s, ledger, d);
      }
    }
  }

  lemma FreshReady(q: Ram, t: seq<Sector>, kept: Ledger, c: nat, w: Views)
    requires c < |t| == |q.pages| == |kept| && w == ViewsOf(t)
    requires FreshSector(t[c], Identity(q.pages[c])) && q.pages[c].used == HEADER_BYTES
    requires kept[c] == Some(Promise(Identity(q.pages[c]), []))
    requires forall i: nat :: i != c && Live(w, i) ==> w[i].header.generation < q.pages[c].generation
    ensures Ready(q, t, kept, c)
  {
    FreshView(t[c], Identity(q.pages[c]));
  }

  /** The open session gives up its oldest page for reuse. */
  lemma ClaimStep(r: Ram, s: seq<Sector>, c: nat, ledger: Ledger, submitted: set<Observation>)
    requires Consistent(r, s, ledger, submitted) && c < |s| && r.pages[c].valid
    requires r.active == Some(r.pages[c].historyId)
    ensures Consistent(r.(pages := r.pages[c := r.pages[c].(valid := false)]), s, ledger[c := None], submitted)
    ensures Reusable(r.pages[c := r.pages[c].(valid := false)], ledger[c := None], c)
  {
    hide ViewOf, ReadBack, Records, Used, Coherent, Full;
    var q := r.(pages := r.pages[c := r.pages[c].(valid := false)]);
    PageClaimed(r.pages, ViewsOf(s), c, ledger, submitted);
    if r.full {
      FullReplaced(r.pages, ViewsOf(s), ViewsOf(s), c, r.pages[c].(valid := false), ledger, ledger[c := None]);
    }
    forall d: nat | AppendTarget(q, d)
      ensures Ready(q, s, ledger[c := None], d)
    {
      assert AppendTarget(r, d) && Ready(r, s, ledger, d) && c != d;
    }
  }

  /** Marking a victim session, with any outcome of the program and of the read-back. */
  lemma MarkedStep(r: Ram, s: seq<Sector>, t: seq<Sector>, p: nat, ok: bool, readBack: bool,
                   ledger: Ledger, submitted: set<Observation>)
    requires Consistent(r, s, ledger, submitted) && p < |s| == |t| && t == s[p := t[p]]
    requires forall i: nat :: i < |s| ==> r.pages[i].valid
    requires !Pending(r.pages, r.pages[p].historyId) && r.active != Some(r.pages[p].historyId)
    requires forall i: nat :: i < |s| && r.pages[i].historyId == r.pages[p].historyId ==> ledger[i] == None
    requires Programs(s[p], t[p], 36, Le32(EVICTION_MARKER), ok) && !r.full
    ensures var q := AfterMark(r.pages, p, readBack, Tombstoned(t[p]), MarkerWritable(TombstoneWord(t[p])));
            Consistent(r.(pages := q), t, ledger, submitted)
            && (readBack && Tombstoned(t[p]) ==> FirstMark(q, r.pages[p].historyId, p))
            && forall g :: g != r.pages[p].historyId ==> (Pending(q, g) <==> Pending(r.pages, g))
    ensures t == s || Doomed(ViewsOf(t), r.pages[p].historyId)
    ensures forall g :: g != r.pages[p].historyId ==> (Doomed(ViewsOf(t), g) <==> Doomed(ViewsOf(s), g))
    ensures forall i: nat :: i != p && i < |s| ==> ViewsOf(t)[i] == ViewsOf(s)[i]
    ensures ok ==> Tombstoned(t[p])
  {
    hide ReadBack, Used, Coherent, Programs, HeaderAt, Tombstoned, MarkerWritable, TombstoneWord, Le32;
    var v, w := ViewsOf(s), ViewsOf(t);
    assert Agrees(r.pages, v, p) && v[p].Page? && v[p].writable && MarkerWritable(TombstoneWord(s[p])) by {
      LivePage(r, s, p, ledger, submitted);
    }
    OneSector(s, p, t[p]);
    Marked(s[p], t[p], ok);
    assert w[p].Page? && w[p].header == v[p].header && w[p].content == Records(t[p], HEADER_BYTES);
    var q := AfterMark(r.pages, p, readBack, w[p].tombstoned, w[p].writable);
    MarkStep(r.pages, v, w, p, q, readBack, ledger, submitted);
    if t[p] == s[p] {
      assert t == s;
    }
    MarkConsistent(r, s, t, p, q, ledger, submitted);
  }

  lemma LivePage(r: Ram, s: seq<Sector>, p: nat, ledger: Ledger, submitted: set<Observation>)
    requires Consistent(r, s, ledger, submitted) && p < |s| && r.pages[p].valid
    requires !Pending(r.pages, r.pages[p].historyId)
    ensures Agrees(r.pages, ViewsOf(s), p) && HeaderAt(s[p]) == Some(Identity(r.pages[p]))
    ensures MarkerWritable(TombstoneWord(s[p]))
  {
    hide HeaderAt, Tombstoned, MarkerWritable, TombstoneWord, Records;
    assert Agrees(r.pages, ViewsOf(s), p);
    assert Live(ViewsOf(s), p);
  }

  lemma MarkConsistent(r: Ram, s: seq<Sector>, t: seq<Sector>, p: nat, q: Table, ledger: Ledger, submitted: set<Observation>)
    requires Consistent(r, s, ledger, submitted) && p < |s| == |t| == |q| && t == s[p := t[p]]
    requires q == r.pages[p := q[p]] && Identity(q[p]) == Identity(r.pages[p])
    requires q[p].valid == r.pages[p].valid == true && q[p].used == r.pages[p].used && q[p].evictionMarkerWritable
    requires Coherent(q, ViewsOf(t), ledger, submitted) && ledger[p] == None
    requires r.active != Some(r.pages[p].historyId) && !r.full
    requires Live(ViewsOf(s), p) && Live(ViewsOf(t), p)
    requires ViewsOf(t)[p].header == ViewsOf(s)[p].header == Identity(r.pages[p])
    requires forall g :: g != r.pages[p].historyId ==> (Doomed(ViewsOf(t), g) <==> Doomed(ViewsOf(s), g))
    requires forall g :: g != r.pages[p].historyId ==> (Pending(q, g) <==> Pending(r.pages, g))
    ensures Consistent(r.(pages := q), t, ledger, submitted)
  {
    hide ViewOf, ReadBack, Records, Used, Coherent;
    var v, w := ViewsOf(s), ViewsOf(t);
    OneSector(s, p, t[p]);
    assert forall h, k: nat :: Owns(w, h, k) && h != r.pages[p].historyId ==> Owns(v, h, k) && w[k] == v[k];
    forall c: nat | AppendTarget(r.(pages := q), c)
      ensures Ready(r.(pages := q), t, ledger, c)
    {
      assert AppendTarget(r, c) && Ready(r, s, ledger, c) && c != p;
    }
  }

  // ---------------------------------------------------------------- appending

  /** An observation is about to be written: it counts as submitted, and no later number is lower. */
  lemma SubmitStep(r: Ram, s: seq<Sector>, y: Observation, n: nat, ledger: Ledger, submitted: set<Observation>)
    requires Consistent(r, s, ledger, submitted) && n >= r.nextSequence
    ensures Consistent(r.(nextSequence := n), s, ledger, submitted + {y})
  {
    hide ViewOf, ReadBack, Records, Used, Full;
    assert Durable(ViewsOf(s), ledger, submitted + {y});
    var q := r.(nextSequence := n);
    forall c: nat | AppendTarget(q, c)
      ensures Ready(q, s, ledger, c)
    {
      assert AppendTarget(r, c) && Ready(r, s, ledger, c);
    }
  }

  /** The bytes behind the last record of page `c` have been written to, up to a possible new record `y`. */
  ghost predicate Written(s: seq<Sector>, t: seq<Sector>, c: nat, used: nat, y: Observation) {
    c < |s| == |t| && t == s[c := t[c]] && used <= PAGE_BYTES && Agree(s[c], t[c], 0, used)
    && ViewOf(s[c]).Page? && ViewOf(t[c]).Page?
    && (ViewOf(t[c]) == ViewOf(s[c])
        || ViewOf(t[c]) == ViewOf(s[c]).(content := ViewOf(s[c]).content + [y]))
  }

  lemma TargetFacts(r: Ram, s: seq<Sector>, c: nat, ledger: Ledger, submitted: set<Observation>)
    requires Consistent(r, s, ledger, submitted) && AppendTarget(r, c)
    ensures c < |s| && Visible(ViewsOf(s), c) && ViewsOf(s)[c].header == Identity(r.pages[c])
    ensures ledger[c] == Some(Promise(ViewsOf(s)[c].header, ViewsOf(s)[c].content))
    ensures NextIn(ViewsOf(s), c, r.nextSequence) && !Pending(r.pages, r.pages[c].historyId)
    ensures ViewsOf(s)[c].content == Records(s[c], HEADER_BYTES) && r.pages[c].used <= PAGE_BYTES
  {
    hide ReadBack, Used, HeaderAt, Tombstoned, MarkerWritable, TombstoneWord;
    assert Ready(r, s, ledger, c);
    assert Agrees(r.pages, ViewsOf(s), c);
    assert Owns(ViewsOf(s), r.pages[c].historyId, c);
  }

  lemma RecordCoherent(r: Ram, s: seq<Sector>, t: seq<Sector>, c: nat, y: Observation, kept: Ledger,
                       ledger: Ledger, submitted: set<Observation>)
    requires Consistent(r, s, ledger, submitted) && AppendTarget(r, c)
    requires Written(s, t, c, r.pages[c].used, y) && y in submitted
    requires y.historyId == r.pages[c].historyId && y.sequence == r.nextSequence
    requires kept == ledger || kept == ledger[c := Some(Promise(Identity(r.pages[c]), ViewsOf(t)[c].content))]
    ensures Coherent(r.pages, ViewsOf(t), kept, submitted)
    ensures forall g :: Doomed(ViewsOf(t), g) <==> Doomed(ViewsOf(s), g)
    ensures SameElsewhere(ViewsOf(s), ViewsOf(t), c) && Visible(ViewsOf(t), c)
  {
    hide ViewOf, ReadBack, Records, Used;
    var v, w := ViewsOf(s), ViewsOf(t);
    OneSector(s, c, t[c]);
    TargetFacts(r, s, c, ledger, submitted);
    RecordKeeps(v, w, c, y, ledger, submitted);
    forall k: nat | k < |r.pages|
      ensures Agrees(r.pages, w, k)
    {
      assert Agrees(r.pages, v, k);
    }
    forall h, m: nat | FirstMark(r.pages, h, m)
      ensures (Owns(w, h, m) && w[m].tombstoned) || forall i: nat :: !Owns(w, h, i)
    {
      assert (Owns(v, h, m) && v[m].tombstoned) || forall i: nat :: !Owns(v, h, i);
      assert forall i: nat :: Owns(w, h, i) ==> Owns(v, h, i);
    }
  }

  lemma SequencesAfter(r: Ram, s: seq<Sector>, t: seq<Sector>, c: nat, y: Observation,
                       ledger: Ledger, submitted: set<Observation>)
    requires Consistent(r, s, ledger, submitted) && AppendTarget(r, c)
    requires Written(s, t, c, r.pages[c].used, y)
    requires y.historyId == r.pages[c].historyId && y.sequence == r.nextSequence
    ensures forall i: nat, q :: Owns(ViewsOf(t), r.pages[c].historyId, i) && q in ViewsOf(t)[i].content ==>
              q.sequence < r.nextSequence + 1
    ensures CountersAhead(r.pages, ViewsOf(t), r.nextHistoryId, r.nextGeneration)
  {
    hide ViewOf, ReadBack, Records, Used, Coherent;
    var v, w := ViewsOf(s), ViewsOf(t);
    OneSector(s, c, t[c]);
    assert forall h, i: nat :: Owns(w, h, i) <==> Owns(v, h, i);
  }

  /** The write failed somewhere: the page keeps its promise, and is not written to again. */
  lemma AbandonStep(r: Ram, s: seq<Sector>, t: seq<Sector>, c: nat, y: Observation,
                    ledger: Ledger, submitted: set<Observation>)
    requires Consistent(r, s, ledger, submitted) && AppendTarget(r, c)
    requires Written(s, t, c, r.pages[c].used, y) && y in submitted
    requires y.historyId == r.pages[c].historyId && y.sequence == r.nextSequence
    ensures Consistent(r.(nextSequence := r.nextSequence + 1, current := None), t, ledger, submitted)
    ensures SameElsewhere(ViewsOf(s), ViewsOf(t), c) && Visible(ViewsOf(t), c)
  {
    hide ViewOf, Records, Used, Coherent, Full;
    RecordCoherent(r, s, t, c, y, ledger, ledger, submitted);
    if r.full {
      assert r.pages[c := r.pages[c]] == r.pages;
      FullReplaced(r.pages, ViewsOf(s), ViewsOf(t), c, r.pages[c], ledger, ledger);
    }
    SequencesAfter(r, s, t, c, y, ledger, submitted);
    if ledger[c].Some? {
      ReadBackKept(s[c], t[c], HEADER_BYTES, r.pages[c].used);
    }
  }

  /** The write succeeded: the page's promise grows by the new record. */
  lemma AppendStep(r: Ram, s: seq<Sector>, t: seq<Sector>, c: nat, y: Observation, used: nat,
                   ledger: Ledger, submitted: set<Observation>)
    requires Consistent(r, s, ledger, submitted) && AppendTarget(r, c)
    requires Written(s, t, c, r.pages[c].used, y) && y in submitted
    requires y.historyId == r.pages[c].historyId && y.sequence == r.nextSequence
    requires Records(t[c], HEADER_BYTES) == Records(s[c], HEADER_BYTES) + [y]
    requires Used(t[c], HEADER_BYTES) == used <= PAGE_BYTES && Blank(t[c], used, PAGE_BYTES)
    ensures ledger[c].Some?
    ensures Consistent(r.(nextSequence := r.nextSequence + 1, pages := r.pages[c := r.pages[c].(used := used)]),
                       t, ledger[c := Some(ledger[c].value.(acked := ledger[c].value.acked + [y]))], submitted)
    ensures SameElsewhere(ViewsOf(s), ViewsOf(t), c) && Visible(ViewsOf(t), c)
  {
    hide ReadBack, Records, Used, Coherent, HeaderAt, Tombstoned, MarkerWritable, TombstoneWord, Full;
    TargetFacts(r, s, c, ledger, submitted);
    var kept := ledger[c := Some(ledger[c].value.(acked := ledger[c].value.acked + [y]))];
    RecordCoherent(r, s, t, c, y, kept, ledger, submitted);
    SequencesAfter(r, s, t, c, y, ledger, submitted);
    var q := r.(nextSequence := r.nextSequence + 1, pages := r.pages[c := r.pages[c].(used := used)]);
    UsedOnly(r.pages, c, used, ViewsOf(t), kept, submitted);
    if r.full {
      FullReplaced(r.pages, ViewsOf(s), ViewsOf(t), c, r.pages[c].(used := used), ledger, kept);
    }
    ReadBackAll(t[c], HEADER_BYTES);
    assert Ready(r, s, ledger, c);
    OneSector(s, c, t[c]);
    forall d: nat | AppendTarget(q, d)
      ensures Ready(q, t, kept, d)
    {
      assert d == c;
    }
  }

  lemma UsedOnly(pages: Table, c: nat, used: nat, w: Views, ledger: Ledger, submitted: set<Observation>)
    requires Coherent(pages, w, ledger, submitted) && c < |pages|
    ensures Coherent(pages[c := pages[c].(used := used)], w, ledger, submitted)
    ensures forall h :: Pending(pages[c := pages[c].(used := used)], h) <==> Pending(pages, h)
  {
    var q := pages[c := pages[c].(used := used)];
    assert forall h, j: nat :: Marks(q, h, j) <==> Marks(pages, h, j);
    assert forall h :: Pending(q, h) <==> Pending(pages, h);
    assert forall h, m: nat :: FirstMark(q, h, m) <==> FirstMark(pages, h, m);
    forall k: nat | k < |pages|
      ensures Agrees(q, w, k)
    {
      assert Agrees(pages, w, k);
    }
  }
}
