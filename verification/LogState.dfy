/** How the RAM page table of the history log relates to the flash, and how each step keeps it so. */
module LogState {
  import opened Bytes
  import opened Domain
  import opened Codec
  import opened Durability

  datatype PageInfo = PageInfo(
    generation: u64,
    historyId: u64,
    pageIndex: u32,
    used: nat,
    valid: bool,
    evictionMarker: bool,
    evictionMarkerWritable: bool)

  const NO_PAGE := PageInfo(0, 0, 0, 0, false, false, true)

  type Table = seq<PageInfo>

  function Identity(p: PageInfo): PageHeader {
    PageHeader(p.generation, p.historyId, p.pageIndex)
  }

  predicate Marks(pages: Table, session: u64, j: nat) {
    j < |pages| && pages[j].valid && pages[j].historyId == session && pages[j].evictionMarker
  }

  /** A session whose eviction this boot knows to be committed. */
  ghost predicate Pending(pages: Table, session: u64) {
    exists j: nat :: Marks(pages, session, j)
  }

  predicate FirstMark(pages: Table, session: u64, m: nat) {
    Marks(pages, session, m) && forall k: nat :: k < m ==> !Marks(pages, session, k)
  }

  /** What the RAM table may say about one sector. */
  ghost predicate Agrees(pages: Table, v: Views, i: nat)
    requires i < |pages| == |v|
  {
    (pages[i].valid ==>
       (v[i].Page? ==> v[i].header == Identity(pages[i]))
       && (v[i].Page? || Pending(pages, pages[i].historyId)))
    && (!pages[i].valid && v[i].Page? ==> !v[i].tombstoned && !Pending(pages, v[i].header.historyId))
  }

  /** The first marker of a pending session is on flash, or nothing of the session is. */
  ghost predicate MarkersHold(pages: Table, v: Views) {
    forall h, m: nat :: FirstMark(pages, h, m) ==>
      (Owns(v, h, m) && v[m].tombstoned) || forall i: nat :: !Owns(v, h, i)
  }

  ghost predicate PromisesListed(pages: Table, ledger: Ledger) {
    |ledger| == |pages|
    && forall i: nat :: i < |pages| && ledger[i].Some? ==>
         pages[i].valid && Identity(pages[i]) == ledger[i].value.header
         && !Pending(pages, pages[i].historyId)
  }

  ghost predicate CountersAhead(pages: Table, v: Views, nextHistoryId: nat, nextGeneration: nat) {
    |pages| == |v|
    && forall i: nat :: i < |pages| ==>
         (pages[i].valid ==> pages[i].historyId < nextHistoryId && pages[i].generation < nextGeneration)
         && (v[i].Page? ==> v[i].header.historyId < nextHistoryId && v[i].header.generation < nextGeneration)
  }

  ghost predicate SessionOpen(pages: Table, v: Views, session: u64, nextSequence: nat) {
    !Pending(pages, session) && !Doomed(v, session)
    && forall i: nat, r :: Owns(v, session, i) && r in v[i].content ==> r.sequence < nextSequence
  }

  ghost predicate Coherent(pages: Table, v: Views, ledger: Ledger, submitted: set<Observation>) {
    |pages| == |v| && Durable(v, ledger, submitted)
    && (forall i: nat :: i < |pages| ==> Agrees(pages, v, i))
    && MarkersHold(pages, v)
    && PromisesListed(pages, ledger)
  }

  // ---------------------------------------------------------------- every readable page is promised

  /** Every listed page of a session that is not being evicted is promised. */
  ghost predicate Full(pages: Table, v: Views, ledger: Ledger) {
    |pages| == |v| == |ledger|
    && forall i: nat :: i < |pages| && pages[i].valid && !Pending(pages, pages[i].historyId)
                        && !Doomed(v, pages[i].historyId) ==>
         ledger[i].Some?
  }

  /** A tombstone in a sector that is unlisted, or listed for a pending session, belongs to a pending session. */
  lemma TombstonePending(pages: Table, v: Views, c: nat, ledger: Ledger, submitted: set<Observation>)
    requires Coherent(pages, v, ledger, submitted) && c < |pages|
    requires pages[c].valid ==> Pending(pages, pages[c].historyId)
    ensures v[c].Page? && v[c].tombstoned ==> Pending(pages, v[c].header.historyId)
  {
    assert Agrees(pages, v, c);
  }

  /** Erasing a sector, with any outcome, where only a pending session can lose its tombstone. */
  lemma FullErased(pages: Table, v: Views, w: Views, c: nat, ledger: Ledger)
    requires Full(pages, v, ledger) && c < |v| == |w| && w == v[c := w[c]]
    requires v[c].Page? && v[c].tombstoned ==> Pending(pages, v[c].header.historyId)
    ensures Full(pages, w, ledger)
  {
    forall i: nat | i < |pages| && pages[i].valid && !Pending(pages, pages[i].historyId)
                    && !Doomed(w, pages[i].historyId)
      ensures ledger[i].Some?
    {
      var h := pages[i].historyId;
      forall j: nat
        ensures !(Owns(v, h, j) && v[j].tombstoned)
      {
        assert j != c ==> (Owns(v, h, j) && v[j].tombstoned <==> Owns(w, h, j) && w[j].tombstoned);
      }
      assert !Doomed(v, h);
    }
  }

  /** Replacing one entry where no other page's session stops being pending. */
  lemma FullReplaced(pages: Table, v: Views, w: Views, c: nat, p: PageInfo, ledger: Ledger, after: Ledger)
    requires Full(pages, v, ledger) && |w| == |v| && c < |pages| && |after| == |ledger| && after == ledger[c := after[c]]
    requires forall g :: Doomed(w, g) <==> Doomed(v, g)
    requires forall k: nat :: k < |pages| && k != c && pages[k].valid && Pending(pages, pages[k].historyId) ==>
               Pending(pages[c := p], pages[k].historyId)
    requires p.valid ==> after[c].Some?
    ensures Full(pages[c := p], w, after)
  {
  }

  /** The victim's tombstone is on flash and its promises are gone. */
  lemma FullMarked(pages: Table, q: Table, v: Views, w: Views, victim: u64, ledger: Ledger, after: Ledger)
    requires Full(pages, v, ledger) && |q| == |pages| && |w| == |v| && |after| == |ledger| && Doomed(w, victim)
    requires forall i: nat :: i < |q| ==> q[i].valid == pages[i].valid && q[i].historyId == pages[i].historyId
    requires forall g :: g != victim ==> (Doomed(w, g) <==> Doomed(v, g)) && (Pending(q, g) <==> Pending(pages, g))
    requires forall i: nat :: i < |q| && q[i].valid && q[i].historyId != victim ==> after[i] == ledger[i]
    ensures Full(q, w, after)
  {
  }

  lemma FullRecovered(pages: Table, v: Views)
    requires Scanned(pages, v)
    ensures Full(pages, v, Recovered(v))
  {
  }

  // ---------------------------------------------------------------- what callers may conclude

  /** The same exposed pages, with the same content. */
  ghost predicate SameExposed(v: Views, w: Views) {
    |v| == |w|
    && forall i: nat :: (Visible(v, i) <==> Visible(w, i)) && (Visible(v, i) ==> v[i] == w[i])
  }

  /** Dropping promises never endangers the remaining ones. */
  lemma DropPromises(pages: Table, v: Views, ledger: Ledger, fewer: Ledger, submitted: set<Observation>)
    requires Coherent(pages, v, ledger, submitted)
    requires |fewer| == |ledger| && forall i: nat :: i < |ledger| ==> fewer[i] == ledger[i] || fewer[i] == None
    ensures Coherent(pages, v, fewer, submitted)
  {
  }

  // ---------------------------------------------------------------- completing an eviction

  /** A page of a pending session other than its first marker can be erased with any outcome. */
  lemma VictimErase(pages: Table, v: Views, w: Views, i: nat, m: nat, session: u64,
                    ledger: Ledger, submitted: set<Observation>)
    requires Coherent(pages, v, ledger, submitted)
    requires FirstMark(pages, session, m) && i < |pages| == |w| && i != m
    requires pages[i].valid && pages[i].historyId == session
    requires w == v[i := w[i]] && ErasedView(v[i], w[i])
    ensures Coherent(pages, w, ledger, submitted) && SameExposed(v, w)
  {
    assert Pending(pages, session);
    assert Agrees(pages, v, i);
    assert v[i].Page? ==> Owns(v, session, i) && Owns(v, session, m) && v[m].tombstoned;
    EraseKeeps(v, w, i, ledger, submitted);
    VictimHidden(pages, v, i, m, session, ledger, submitted);
    assert !Visible(w, i);
    forall h, n: nat | FirstMark(pages, h, n)
      ensures (Owns(w, h, n) && w[n].tombstoned) || forall k: nat :: !Owns(w, h, k)
    {
      assert n != i;
      assert forall k: nat :: Owns(w, h, k) ==> Owns(v, h, k);
    }
    forall k: nat | k < |pages|
      ensures Agrees(pages, w, k)
    {
      assert Agrees(pages, v, k);
    }
  }

  lemma VictimHidden(pages: Table, v: Views, i: nat, m: nat, session: u64, ledger: Ledger, submitted: set<Observation>)
    requires Coherent(pages, v, ledger, submitted) && FirstMark(pages, session, m)
    requires i < |pages| && pages[i].valid && pages[i].historyId == session
    ensures !Visible(v, i) && ledger[i] == None
  {
    assert Agrees(pages, v, i) && Pending(pages, session);
    if Live(v, i) {
      assert Owns(v, session, i);
    }
  }

  /** A page of a pending session that is erased leaves the table. */
  lemma VictimGone(pages: Table, v: Views, i: nat, m: nat, session: u64, p: PageInfo,
                   ledger: Ledger, submitted: set<Observation>)
    requires Coherent(pages, v, ledger, submitted) && FirstMark(pages, session, m)
    requires i < |pages| && i != m && pages[i].valid && pages[i].historyId == session
    requires v[i] == Dead && !p.valid
    ensures Coherent(pages[i := p], v, ledger, submitted) && FirstMark(pages[i := p], session, m)
    ensures forall h :: Pending(pages[i := p], h) <==> Pending(pages, h)
  {
    var q := pages[i := p];
    assert Marks(q, session, m);
    forall h
      ensures Pending(q, h) <==> Pending(pages, h)
    {
      if Pending(pages, h) {
        var j: nat :| Marks(pages, h, j);
        assert Marks(q, h, if h == session then m else j);
      }
      if Pending(q, h) {
        var j: nat :| Marks(q, h, j);
        assert Marks(pages, h, j);
      }
    }
    forall h, n: nat | FirstMark(q, h, n)
      ensures FirstMark(pages, h, n)
    {
      forall k: nat | k < n
        ensures !Marks(pages, h, k)
      {
        assert !Marks(q, h, k);
        assert Marks(pages, h, k) ==> k == i && h == session;
      }
    }
    forall k: nat | k < |q|
      ensures Agrees(q, v, k)
    {
      assert Agrees(pages, v, k);
    }
    VictimHidden(pages, v, i, m, session, ledger, submitted);
    forall k: nat | k < m
      ensures !Marks(q, session, k)
    {
      assert !Marks(pages, session, k);
    }
  }

  // ---------------------------------------------------------------- reusing a sector

  /** A sector the allocation path may erase: unlisted, or the last page of a pending session. */
  ghost predicate Reusable(pages: Table, ledger: Ledger, c: nat) {
    c < |pages| == |ledger| && ledger[c] == None
    && (pages[c].valid ==>
          FirstMark(pages, pages[c].historyId, c)
          && forall i: nat :: i < |pages| && i != c && pages[i].valid ==>
               pages[i].historyId != pages[c].historyId)
  }

  lemma NothingRelies(pages: Table, v: Views, c: nat, ledger: Ledger, submitted: set<Observation>)
    requires Coherent(pages, v, ledger, submitted) && Reusable(pages, ledger, c)
    ensures NoReliance(v, c)
    ensures v[c].Page? && v[c].tombstoned ==> forall k: nat :: k != c ==> !Owns(v, v[c].header.historyId, k)
    ensures pages[c].valid ==> forall k: nat :: k != c ==> !Owns(v, pages[c].historyId, k)
  {
    assert Agrees(pages, v, c);
    if pages[c].valid {
      assert Pending(pages, pages[c].historyId);
      forall k: nat | k != c
        ensures !Owns(v, pages[c].historyId, k)
      {
        if Live(v, k) {
          assert Agrees(pages, v, k);
        }
      }
    }
  }

  lemma ReuseErase(pages: Table, v: Views, w: Views, c: nat, ledger: Ledger, submitted: set<Observation>)
    requires Coherent(pages, v, ledger, submitted) && Reusable(pages, ledger, c)
    requires |w| == |v| && w == v[c := w[c]] && ErasedView(v[c], w[c])
    ensures Coherent(pages, w, ledger, submitted) && SameElsewhere(v, w, c)
    ensures Visible(w, c) ==> w == v
  {
    NothingRelies(pages, v, c, ledger, submitted);
    EraseKeeps(v, w, c, ledger, submitted);
    assert forall h, k: nat :: Owns(w, h, k) ==> Owns(v, h, k);
    forall h, n: nat | FirstMark(pages, h, n)
      ensures (Owns(w, h, n) && w[n].tombstoned) || forall k: nat :: !Owns(w, h, k)
    {
      assert n == c ==> h == pages[c].historyId;
    }
    forall k: nat | k < |pages|
      ensures Agrees(pages, w, k)
    {
      assert Agrees(pages, v, k);
    }
  }

  /** Which sessions are pending once the entry of a reused sector is replaced. */
  lemma PendingAfterReuse(pages: Table, c: nat, p: PageInfo, ledger: Ledger)
    requires Reusable(pages, ledger, c) && !p.evictionMarker
    ensures forall h :: Pending(pages[c := p], h) <==> Pending(pages, h) && !(pages[c].valid && pages[c].historyId == h)
    ensures forall h, n: nat :: FirstMark(pages[c := p], h, n) ==> n != c && FirstMark(pages, h, n)
  {
    var q := pages[c := p];
    forall h
      ensures Pending(q, h) <==> Pending(pages, h) && !(pages[c].valid && pages[c].historyId == h)
    {
      if Pending(q, h) {
        var j: nat :| Marks(q, h, j);
        assert Marks(pages, h, j);
      }
      if Pending(pages, h) && !(pages[c].valid && pages[c].historyId == h) {
        var j: nat :| Marks(pages, h, j);
        assert Marks(q, h, j);
      }
    }
    forall h, n: nat | FirstMark(q, h, n)
      ensures n != c && FirstMark(pages, h, n)
    {
      forall k: nat | k < n
        ensures !Marks(pages, h, k)
      {
        assert !Marks(q, h, k);
      }
    }
  }

  /** An erased sector leaves the table. */
  lemma Unlisted(pages: Table, v: Views, c: nat, p: PageInfo, ledger: Ledger, submitted: set<Observation>)
    requires Coherent(pages, v, ledger, submitted) && Reusable(pages, ledger, c)
    requires v[c] == Dead && !p.valid && !p.evictionMarker
    ensures Coherent(pages[c := p], v, ledger, submitted)
  {
    var q := pages[c := p];
    PendingAfterReuse(pages, c, p, ledger);
    forall k: nat | k < |pages|
      ensures Agrees(q, v, k)
    {
      assert Agrees(pages, v, k);
    }
  }

  /** A page header was written on an erased sector: the page is listed, or left for a later reuse. */
  lemma FreshPage(pages: Table, v: Views, w: Views, c: nat, p: PageInfo, ledger: Ledger, submitted: set<Observation>)
    requires Coherent(pages, v, ledger, submitted) && Reusable(pages, ledger, c) && v[c] == Dead
    requires |w| == |v| && w == v[c := w[c]]
    requires w[c] == Page(Identity(p), false, true, []) || (w[c] == Dead && !p.valid)
    requires !p.evictionMarker && !Pending(pages, p.historyId) && !Doomed(v, p.historyId)
    requires forall i: nat :: Live(v, i) ==> v[i].header.generation < p.generation
    ensures Coherent(pages[c := p], w,
              ledger[c := if p.valid then Some(Promise(Identity(p), [])) else None], submitted)
    ensures SameElsewhere(v, w, c) && forall g :: Doomed(w, g) <==> Doomed(v, g)
    ensures !Pending(pages[c := p], p.historyId)
  {
    var q := pages[c := p];
    HeaderKeeps(v, w, c, Identity(p), ledger, submitted);
    PendingAfterReuse(pages, c, p, ledger);
    forall k: nat | k < |pages|
      ensures Agrees(q, w, k)
    {
      assert Agrees(pages, v, k);
    }
    forall h, n: nat | FirstMark(q, h, n)
      ensures (Owns(w, h, n) && w[n].tombstoned) || forall k: nat :: !Owns(w, h, k)
    {
      assert FirstMark(pages, h, n) && n != c && Marks(pages, h, n) && h != p.historyId;
      assert (Owns(v, h, n) && v[n].tombstoned) || forall k: nat :: !Owns(v, h, k);
      assert forall k: nat :: Owns(w, h, k) ==> Owns(v, h, k);
    }
    if p.valid {
      assert Visible(w, c) && Holds(w[c], Promise(Identity(p), []));
    }
  }

  /** The single remaining session gives up its oldest page. */
  lemma PageClaimed(pages: Table, v: Views, c: nat, ledger: Ledger, submitted: set<Observation>)
    requires Coherent(pages, v, ledger, submitted) && c < |pages| && pages[c].valid
    requires !Pending(pages, pages[c].historyId) && !Doomed(v, pages[c].historyId)
    ensures Coherent(pages[c := pages[c].(valid := false)], v, ledger[c := None], submitted)
    ensures Reusable(pages[c := pages[c].(valid := false)], ledger[c := None], c)
    ensures forall h :: Pending(pages[c := pages[c].(valid := false)], h) <==> Pending(pages, h)
  {
    var q, session := pages[c := pages[c].(valid := false)], pages[c].historyId;
    assert forall h, j: nat :: Marks(q, h, j) ==> Marks(pages, h, j);
    forall h, j: nat | Marks(pages, h, j)
      ensures Marks(q, h, j)
    {
      assert Pending(pages, h) && h != session;
    }
    assert forall h :: Pending(q, h) <==> Pending(pages, h);
    assert forall h, n: nat :: FirstMark(q, h, n) <==> FirstMark(pages, h, n);
    assert Agrees(pages, v, c);
    assert Owns(v, session, c);
    forall k: nat | k < |pages|
      ensures Agrees(q, v, k)
    {
      assert Agrees(pages, v, k);
    }
  }

  // ---------------------------------------------------------------- marking a victim

  /** The table once the tombstone word of page `p` has been read back, or could not be. */
  function AfterMark(pages: Table, p: nat, readBack: bool, tombstoned: bool, writable: bool): Table
    requires p < |pages|
  {
    if readBack
    then pages[p := pages[p].(evictionMarker := tombstoned, evictionMarkerWritable := writable)]
    else pages
  }

  /** Marking with any outcome, whether or not the word could be read back. */
  lemma MarkStep(pages: Table, v: Views, w: Views, p: nat, q: Table, readBack: bool,
                 ledger: Ledger, submitted: set<Observation>)
    requires Coherent(pages, v, ledger, submitted) && p < |pages| == |w|
    requires forall i: nat :: i < |pages| ==> pages[i].valid
    requires !Pending(pages, pages[p].historyId)
    requires forall i: nat :: i < |pages| && pages[i].historyId == pages[p].historyId ==> ledger[i] == None
    requires w == v[p := w[p]] && w[p].Page? && w[p].writable
    requires v[p].Page? && w[p].header == v[p].header && (w[p] == v[p] || w[p].tombstoned)
    requires q == AfterMark(pages, p, readBack, w[p].tombstoned, w[p].writable)
    ensures Coherent(q, w, ledger, submitted)
    ensures w == v || Doomed(w, pages[p].historyId)
    ensures forall g :: g != pages[p].historyId ==> (Doomed(w, g) <==> Doomed(v, g))
    ensures forall g :: g != pages[p].historyId ==> (Pending(q, g) <==> Pending(pages, g))
    ensures readBack && w[p].tombstoned ==> FirstMark(q, pages[p].historyId, p)
  {
    var session := pages[p].historyId;
    assert Agrees(pages, v, p);
    forall i: nat | i < |v| && ledger[i].Some?
      ensures ledger[i].value.header.historyId != session
    {
      assert Identity(pages[i]) == ledger[i].value.header;
    }
    MarkKeeps(v, w, p, ledger, submitted);
    assert forall k: nat :: !Marks(pages, session, k);
    forall k: nat | k != p
      ensures !Marks(q, session, k)
    {
      assert !Marks(pages, session, k);
    }
    assert forall h, k: nat :: h != session ==> (Marks(q, h, k) <==> Marks(pages, h, k));
    forall g | g != session
      ensures Pending(q, g) <==> Pending(pages, g)
    {
    }
    forall k: nat | k < |pages|
      ensures Agrees(q, w, k)
    {
      assert Agrees(pages, v, k);
    }
    forall h, n: nat | FirstMark(q, h, n)
      ensures (Owns(w, h, n) && w[n].tombstoned) || forall k: nat :: !Owns(w, h, k)
    {
      if h != session {
        assert FirstMark(pages, h, n) && n != p;
        assert forall k: nat :: Owns(w, h, k) ==> Owns(v, h, k);
      }
    }
  }

  // ---------------------------------------------------------------- boot

  /** The table a scan builds. */
  predicate Scanned(pages: Table, v: Views) {
    |pages| == |v|
    && forall i: nat :: i < |pages| ==>
         (pages[i].valid <==> v[i].Page?)
         && (v[i].Page? ==> v[i].header == Identity(pages[i]) && pages[i].evictionMarker == v[i].tombstoned)
  }

  lemma ScanCoherent(pages: Table, v: Views, ledger: Ledger, none: Ledger, submitted: set<Observation>)
    requires Durable(v, ledger, submitted) && Scanned(pages, v)
    requires |none| == |v| && forall i: nat :: i < |none| ==> none[i] == None
    ensures Coherent(pages, v, none, submitted)
  {
    forall h, m: nat | FirstMark(pages, h, m)
      ensures Owns(v, h, m) && v[m].tombstoned
    {
    }
  }

  /** Everything exposed after recovery is promised from then on. */
  function Recovered(v: Views): (ledger: Ledger)
    ensures |ledger| == |v|
  {
    seq(|v|, i requires 0 <= i < |v| =>
      if v[i].Page? then Some(Promise(v[i].header, v[i].content)) else None)
  }

  lemma RecoveredCoherent(pages: Table, v: Views, none: Ledger, submitted: set<Observation>)
    requires Coherent(pages, v, none, submitted) && Scanned(pages, v)
    requires forall h :: !Pending(pages, h)
    ensures Coherent(pages, v, Recovered(v), submitted)
    ensures forall h :: !Doomed(v, h)
  {
    forall h
      ensures !Doomed(v, h)
    {
      if Doomed(v, h) {
        var j: nat :| Owns(v, h, j) && v[j].tombstoned;
        assert Marks(pages, h, j);
        assert Pending(pages, h);
      }
    }
    forall i: nat | i < |v| && Recovered(v)[i].Some?
      ensures Visible(v, i) && Holds(v[i], Recovered(v)[i].value)
    {
    }
  }
}
