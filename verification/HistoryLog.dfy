/** The circular history log: boot recovery, page allocation, whole-session eviction, and appends. */
module HistoryLog {
  import opened Bytes
  import opened Domain
  import opened Codec
  import opened Durability
  import opened LogState
  import opened PageFormat
  import opened NorFlash
  import opened LogInvariant
  import opened HistoryQueries

  // ---------------------------------------------------------------- what an operation may do to promises

  predicate PromisedTo(ledger: Ledger, session: u64, i: nat) {
    i < |ledger| && ledger[i].Some? && ledger[i].value.header.historyId == session
  }

  ghost predicate SessionKept(before: Ledger, after: Ledger, session: u64) {
    |before| == |after|
    && forall i: nat :: PromisedTo(before, session, i) || PromisedTo(after, session, i) ==> after[i] == before[i]
  }

  ghost predicate SessionDropped(after: Ledger, session: u64) {
    forall i: nat :: !PromisedTo(after, session, i)
  }

  /** No page of the session is exposed any more. */
  ghost predicate Gone(w: Views, session: u64) {
    forall i: nat :: Owns(w, session, i) ==> !Visible(w, i)
  }

  /** What is promised and what is exposed at one moment. */
  datatype Standing = Standing(ledger: Ledger, views: Views)

  /** Nothing of a session other than `own` is exposed that was not exposed before. */
  ghost predicate NothingReturns(v: Views, w: Views, own: u64) {
    |v| == |w| && forall i: nat :: Visible(w, i) && !Owns(w, own, i) ==> Visible(v, i) && w[i] == v[i]
  }

  /**
   * Sessions other than `own` keep all their promises, or lost every one of them together with their
   * last exposed page; and none of their pages comes back.
   */
  ghost predicate OthersWhole(before: Standing, after: Ledger, w: Views, own: u64) {
    (forall g: u64 :: g != own ==>
       SessionKept(before.ledger, after, g) || (SessionDropped(after, g) && Gone(w, g)))
    && NothingReturns(before.views, w, own)
  }

  /** Every page belongs to `own`, and page `i` is the oldest. */
  predicate OldestOfAll(pages: Table, i: nat, own: u64) {
    i < |pages|
    && forall j :: 0 <= j < |pages| ==>
         pages[j].valid && pages[j].historyId == own && pages[i].generation <= pages[j].generation
  }

  /** A page of the writing session loses its promise only when it is the oldest in a log it fills. */
  ghost predicate OwnKept(pages: Table, before: Ledger, after: Ledger, own: u64) {
    |before| == |after|
    && forall i: nat :: PromisedTo(before, own, i) ==> after[i] == before[i] || OldestOfAll(pages, i, own)
  }

  lemma UntouchedOthers(before: Ledger, w: Views, own: u64)
    ensures OthersWhole(Standing(before, w), before, w, own)
  {
    assert forall g: u64 :: SessionKept(before, before, g);
  }

  function Strike(ledger: Ledger, session: u64): (fewer: Ledger)
    ensures |fewer| == |ledger|
  {
    seq(|ledger|, i requires 0 <= i < |ledger| =>
      if PromisedTo(ledger, session, i) then None else ledger[i])
  }

  /** A sector that is unpromised, or promised to `own`, is erased or written for `own`. */
  lemma OthersStep(before: Standing, mid: Ledger, later: Ledger, w: Views, x: Views, c: nat, own: u64)
    requires OthersWhole(before, mid, w, own) && SameElsewhere(w, x, c)
    requires |before.ledger| == |mid| == |later| == |w| && later == mid[c := later[c]]
    requires (mid[c] == None || PromisedTo(mid, own, c)) && (later[c] == None || PromisedTo(later, own, c))
    requires Visible(x, c) && !Owns(x, own, c) ==> x == w
    requires Live(x, c) ==> Owns(x, own, c) || (Live(w, c) && x[c].header == w[c].header)
    ensures OthersWhole(before, later, x, own)
  {
    forall g: u64 | g != own
      ensures SessionKept(before.ledger, later, g) || (SessionDropped(later, g) && Gone(x, g))
    {
      assert forall i: nat :: PromisedTo(later, g, i) <==> i != c && PromisedTo(mid, g, i);
      if SessionKept(before.ledger, mid, g) {
        assert !PromisedTo(mid, g, c) && !PromisedTo(before.ledger, g, c);
        assert SessionKept(before.ledger, later, g);
      } else {
        assert forall i: nat :: Owns(x, g, i) ==> Owns(w, g, i);
      }
    }
  }

  /** The same pages stay exposed. */
  lemma OthersSame(before: Standing, after: Ledger, w: Views, x: Views, own: u64)
    requires OthersWhole(before, after, w, own) && SameExposed(w, x)
    ensures OthersWhole(before, after, x, own)
  {
    forall g: u64 | g != own && Gone(w, g)
      ensures Gone(x, g)
    {
      assert forall i: nat :: Owns(x, g, i) && Visible(x, i) ==> Owns(w, g, i);
    }
  }

  /** The victim's tombstone is on flash, and its promises are struck. */
  lemma OthersMarked(ledger: Ledger, v: Views, w: Views, p: nat, victim: u64, own: u64)
    requires PromisesHold(v, ledger) && |v| == |w| && Owns(v, victim, p) && victim != own
    requires w == v[p := w[p]] && w[p].Page? && w[p].header == v[p].header && Doomed(w, victim)
    requires forall g :: g != victim ==> (Doomed(w, g) <==> Doomed(v, g))
    ensures OthersWhole(Standing(ledger, v), Strike(ledger, victim), w, own)
  {
    forall g: u64 | g != own
      ensures SessionKept(ledger, Strike(ledger, victim), g)
              || (SessionDropped(Strike(ledger, victim), g) && Gone(w, g))
    {
      if g != victim {
        assert SessionKept(ledger, Strike(ledger, victim), g);
      }
    }
  }

  // ---------------------------------------------------------------- reading one sector

  /** Walks the records below `used`; on a damaged one the records before it are still returned. */
  method ReadRecords(bytes: Sector, used: nat) returns (ok: bool, records: seq<Observation>)
    ensures ok <==> ReadBack(bytes, HEADER_BYTES, used).Some?
    ensures ok ==> ReadBack(bytes, HEADER_BYTES, used) == Some(records)
  {
    hide RecordAt;
    records := [];
    var cursor := HEADER_BYTES;
    PrependNothing(ReadBack(bytes, cursor, used));
    while cursor + RECORD_HEADER <= used
      invariant ReadBack(bytes, HEADER_BYTES, used) == Prepend(records, ReadBack(bytes, cursor, used))
      decreases PAGE_BYTES - cursor
    {
      var entry := RecordAt(bytes, cursor);
      if entry == None || cursor + entry.value.size > used { return false, records; }
      PrependStep(records, entry.value.observation, ReadBack(bytes, cursor + entry.value.size, used));
      records := records + [entry.value.observation];
      cursor := cursor + entry.value.size;
    }
    assert records + [] == records;
    ok := true;
  }

  /** Walks the committed records of a sector; bytes behind them that are not blank are damage. */
  method ScanRecords(bytes: Sector) returns (used: nat, damaged: bool)
    ensures used == Used(bytes, HEADER_BYTES)
    ensures damaged <==> used + RECORD_HEADER <= PAGE_BYTES && !Blank(bytes, used, PAGE_BYTES)
  {
    hide RecordAt;
    used := HEADER_BYTES;
    while used + RECORD_HEADER <= PAGE_BYTES
      invariant used <= PAGE_BYTES && Used(bytes, HEADER_BYTES) == Used(bytes, used)
      decreases PAGE_BYTES - used
    {
      var entry := RecordAt(bytes, used);
      if entry == None {
        return used, !Blank(bytes, used, PAGE_BYTES);
      }
      used := used + entry.value.size;
    }
    NoRoomNoRecord(bytes, used);
    damaged := false;
  }

  lemma NoRoomNoRecord(b: Sector, at: nat)
    requires at + RECORD_HEADER > PAGE_BYTES
    ensures RecordAt(b, at) == None
  {
  }

  /** The bytes behind the committed records are not blank, although another record would fit. */
  predicate TornTail(b: Sector) {
    var used := Used(b, HEADER_BYTES);
    used + RECORD_HEADER <= PAGE_BYTES && !Blank(b, used, PAGE_BYTES)
  }

  /** The tombstone was accepted in a state that only a stopped program or erase leaves. */
  predicate TornTombstone(b: Sector) {
    Tombstoned(b) && TombstoneWord(b) != EVICTION_MARKER
  }

  /** What a scan of one sector counts as damage. */
  function Damages(b: Sector): nat {
    if HeaderAt(b) == None then if Get32(b, 0) == PAGE_MAGIC then 1 else 0
    else (if TornTail(b) then 1 else 0) + if TornTombstone(b) then 1 else 0
  }

  method ScanSector(bytes: Sector) returns (page: PageInfo, damages: nat)
    ensures page == ScanInfo(bytes)
    ensures damages == Damages(bytes)
  {
    if Get32(bytes, 0) != PAGE_MAGIC { return NO_PAGE, 0; }
    var header := HeaderAt(bytes);
    if header == None { return NO_PAGE, 1; }
    var word := TombstoneWord(bytes);
    var used, damaged := ScanRecords(bytes);
    damages := (if damaged then 1 else 0)
    + (if IsEvictionMarkerState(word) && word != EVICTION_MARKER then 1 else 0);
    page := PageInfo(header.value.generation, header.value.historyId, header.value.pageIndex, used,
                     true, IsEvictionMarkerState(word), MarkerWritable(word));
  }

  /** The first page that marks a pending session. */
  method FindMarker(pages: Table, session: u64) returns (marker: nat)
    requires Pending(pages, session)
    ensures FirstMark(pages, session, marker)
  {
    marker := 0;
    while !Marks(pages, session, marker)
      invariant marker <= |pages| && forall k: nat :: k < marker ==> !Marks(pages, session, k)
      decreases |pages| - marker
    {
      MarkAhead(pages, session, marker);
      marker := marker + 1;
    }
  }

  /** Some page that marks a pending session, if there is one. */
  method FindPending(pages: Table) returns (found: Option<nat>)
    ensures found.Some? ==> found.value < |pages| && Marks(pages, pages[found.value].historyId, found.value)
    ensures found == None ==> forall h :: !Pending(pages, h)
  {
    for i := 0 to |pages|
      invariant forall h, k: nat :: k < i ==> !Marks(pages, h, k)
    {
      if pages[i].valid && pages[i].evictionMarker { return Some(i); }
    }
    found := None;
  }

  method FindUnlisted(pages: Table) returns (found: Option<nat>)
    ensures found.Some? ==> found.value < |pages| && !pages[found.value].valid
    ensures found == None ==> forall i: nat :: i < |pages| ==> pages[i].valid
  {
    for i := 0 to |pages|
      invariant forall k: nat :: k < i ==> pages[k].valid
    {
      if !pages[i].valid { return Some(i); }
    }
    found := None;
  }

  /** A page whose session may be evicted for `own`. */
  predicate Eligible(p: PageInfo, completed: set<u64>, onlyCompleted: bool, own: u64) {
    p.historyId != own && (onlyCompleted ==> p.historyId in completed)
  }

  predicate OldestEligible(pages: Table, completed: set<u64>, onlyCompleted: bool, own: u64, session: u64) {
    exists i :: 0 <= i < |pages| && pages[i].historyId == session
      && Eligible(pages[i], completed, onlyCompleted, own)
      && forall j :: 0 <= j < |pages| && Eligible(pages[j], completed, onlyCompleted, own) ==>
           pages[i].generation <= pages[j].generation
  }

  /** With every sector listed, the oldest completed session goes first; only without one, the oldest other. */
  predicate VictimRule(pages: Table, completed: set<u64>, own: u64, session: u64) {
    (forall i :: 0 <= i < |pages| ==> pages[i].valid)
    && (OldestEligible(pages, completed, true, own, session)
        || ((forall i :: 0 <= i < |pages| ==> !Eligible(pages[i], completed, true, own))
            && OldestEligible(pages, completed, false, own, session)))
  }

  method ChooseOldest(pages: Table, completed: set<u64>, onlyCompleted: bool, own: u64) returns (chosen: Option<u64>)
    ensures chosen.Some? ==> OldestEligible(pages, completed, onlyCompleted, own, chosen.value)
    ensures chosen == None ==>
              forall i :: 0 <= i < |pages| ==> !Eligible(pages[i], completed, onlyCompleted, own)
  {
    var best: Option<nat> := None;
    for i := 0 to |pages|
      invariant best.Some? ==> best.value < i && Eligible(pages[best.value], completed, onlyCompleted, own)
      invariant forall j :: 0 <= j < i && Eligible(pages[j], completed, onlyCompleted, own) ==>
                  best.Some? && pages[best.value].generation <= pages[j].generation
    {
      if Eligible(pages[i], completed, onlyCompleted, own)
         && (best == None || pages[i].generation < pages[best.value].generation) {
        best := Some(i);
      }
    }
    chosen := if best.Some? then Some(pages[best.value].historyId) else None;
  }

  method FindMarkerPage(pages: Table, victim: u64) returns (found: Option<nat>)
    ensures found.Some? ==> found.value < |pages| && pages[found.value].historyId == victim
    ensures found == None ==> forall i :: 0 <= i < |pages| && pages[i].valid && pages[i].evictionMarkerWritable ==>
                                pages[i].historyId != victim
  {
    for i := 0 to |pages|
      invariant forall j :: 0 <= j < i && pages[j].valid && pages[j].evictionMarkerWritable ==>
                  pages[j].historyId != victim
    {
      if pages[i].valid && pages[i].historyId == victim && pages[i].evictionMarkerWritable { return Some(i); }
    }
    found := None;
  }

  method OldestPage(pages: Table) returns (oldest: nat)
    requires |pages| > 0
    ensures oldest < |pages|
    ensures forall j :: 0 <= j < |pages| ==> pages[oldest].generation <= pages[j].generation
  {
    oldest := 0;
    for i := 0 to |pages|
      invariant oldest < |pages|
      invariant forall j :: 0 <= j < i ==> pages[oldest].generation <= pages[j].generation
    {
      if pages[i].generation < pages[oldest].generation { oldest := i; }
    }
  }

  /** A listed page of a session that is not the last one a 32-bit number can name. */
  predicate Numbered(pages: Table, i: int, own: u64) {
    0 <= i < |pages| && pages[i].valid && pages[i].historyId == own && pages[i].pageIndex < 0xFFFF_FFFF
  }

  lemma ExposedReflexive(v: Views)
    ensures SameExposed(v, v)
  {
  }

  lemma ExposedTransitive(u: Views, v: Views, w: Views)
    requires SameExposed(u, v) && SameExposed(v, w)
    ensures SameExposed(u, w)
  {
    forall i: nat
      ensures (Visible(u, i) <==> Visible(w, i)) && (Visible(u, i) ==> u[i] == w[i])
    {
      assert Visible(v, i) <==> Visible(u, i);
    }
  }

  lemma MarkerReusable(r: Ram, s: seq<Sector>, session: u64, m: nat, ledger: Ledger, submitted: set<Observation>)
    requires Consistent(r, s, ledger, submitted) && FirstMark(r.pages, session, m)
    requires forall i :: 0 <= i < |r.pages| && i != m && r.pages[i].valid ==> r.pages[i].historyId != session
    ensures m < |r.pages| && Reusable(r.pages, ledger, m) && r.pages[m].valid && r.pages[m].historyId == session
  {
    hide Records, Used, ReadBack, ViewOf, Durable;
    assert Marks(r.pages, session, m) && Pending(r.pages, session);
  }

  // ---------------------------------------------------------------- the log

  class CircularHistoryLog {
    const flash: Device
    var pages: Table
    var currentPage: Option<nat>
    var activeHistoryId: Option<u64>
    var nextHistoryId: nat
    var nextGeneration: nat
    var nextSequence: nat
    var corruptRecords: nat
    var writeErrors: nat
    var consecutiveWriteErrors: nat
    var degraded: bool
    var lastQueryFailed: bool
    /** What must still be there after a reboot, and everything ever handed to a record write. */
    ghost var ledger: Ledger
    ghost var submitted: set<Observation>
    /** Above every sequence number the open session has used on flash. */
    ghost var sequenceFloor: nat
    /** The flash failure count for which the table is known to equal a rescan. */
    ghost var syncedAt: nat
    /** The sessions the last victim selection took as completed. */
    ghost var consulted: set<u64>

    ghost function Memory(): Ram
      reads this
    {
      Ram(true, pages, currentPage, activeHistoryId, nextHistoryId, nextGeneration, sequenceFloor)
    }

    ghost predicate Valid()
      reads this, flash
    {
      ValidExcept(None)
    }

    /** The invariant while the table entry of one sector about to be erased runs ahead of the flash. */
    ghost predicate ValidExcept(except: Option<nat>)
      reads this, flash
    {
      ValidAs(true, except)
    }

    /** While a boot completes evictions (`full` not given), listed pages need not be promised yet. */
    ghost predicate ValidAs(full: bool, except: Option<nat>)
      reads this, flash
    {
      Consistent(Memory().(full := full), flash.sectors, ledger, submitted)
      && syncedAt <= flash.failures && sequenceFloor <= nextSequence
      && (flash.failures == syncedAt ==> InSync(pages, flash.sectors, except))
    }

    ghost function Now(): Standing
      reads this, flash
    {
      Standing(ledger, Exposed())
    }

    ghost function Exposed(): Views
      reads flash
    {
      ViewsOf(flash.sectors)
    }

    constructor (device: Device, ghost promises: Ledger, ghost written: set<Observation>)
      ensures flash == device && pages == [] && currentPage == None && activeHistoryId == None
      ensures nextHistoryId == nextGeneration == 1 && nextSequence == sequenceFloor == 0
      ensures ledger == promises && submitted == written 
    {
      flash := device;
      pages, currentPage, activeHistoryId := [], None, None;
      nextHistoryId, nextGeneration, nextSequence := 1, 1, 0;
      corruptRecords, writeErrors, consecutiveWriteErrors := 0, 0, 0;
      degraded, lastQueryFailed := false, false;
      ledger, submitted, syncedAt, consulted, sequenceFloor := promises, written, 0, {}, 0;
    }

    method NoteWriteError()
      modifies this`writeErrors, this`consecutiveWriteErrors, this`degraded
      ensures writeErrors == old(writeErrors) + 1 && degraded
      ensures consecutiveWriteErrors == old(consecutiveWriteErrors) + if old(consecutiveWriteErrors) < 0xFFFF_FFFF then 1 else 0
    {
      writeErrors := writeErrors + 1;
      if consecutiveWriteErrors < 0xFFFF_FFFF {
        consecutiveWriteErrors := consecutiveWriteErrors + 1;
      }
      degraded := true;
    }

    method NoteCorruptRecord()
      modifies this`corruptRecords, this`degraded, this`lastQueryFailed
      ensures degraded && lastQueryFailed && corruptRecords == old(corruptRecords) + 1
    {
      corruptRecords := corruptRecords + 1;
      degraded := true;
      lastQueryFailed := true;
    }

    /** Reads one page back; on a damaged record the records before it are still returned. */
    method ReadPageRecords(index: nat) returns (ok: bool, records: seq<Observation>)
      requires index < |pages| == |flash.sectors|
      modifies this`corruptRecords, this`degraded, this`lastQueryFailed, flash`failures
      ensures ok ==> ReadBack(flash.sectors[index], HEADER_BYTES, pages[index].used) == Some(records)
      ensures !ok && flash.failures == old(flash.failures) ==>
                ReadBack(flash.sectors[index], HEADER_BYTES, pages[index].used) == None
      ensures flash.failures >= old(flash.failures)
      ensures ok ==> flash.failures == old(flash.failures)
      ensures if ok then lastQueryFailed == old(lastQueryFailed) else lastQueryFailed
      ensures corruptRecords == old(corruptRecords) + if ok then 0 else 1
    {
      var bytes;
      ok, bytes := flash.Read(index, 0, PAGE_BYTES);
      records := [];
      if ok {
        assert bytes == flash.sectors[index];
        ok, records := ReadRecords(bytes, pages[index].used);
      }
      if !ok {
        NoteCorruptRecord();
      }
    }

    /** Rebuilds one table entry from the bytes of its sector. */
    method ScanPage(index: nat) returns (ok: bool, page: PageInfo)
      requires index < |flash.sectors|
      modifies this`writeErrors, this`consecutiveWriteErrors, this`degraded, this`corruptRecords, flash`failures
      ensures ok ==> page == ScanInfo(flash.sectors[index])
      ensures corruptRecords == old(corruptRecords) + if ok then Damages(flash.sectors[index]) else 0
      ensures flash.failures == old(flash.failures) + if ok then 0 else 1
    {
      var bytes, damages;
      ok, bytes := flash.Read(index, 0, PAGE_BYTES);
      page := NO_PAGE;
      if !ok {
        NoteWriteError();
        return;
      }
      assert bytes == flash.sectors[index];
      page, damages := ScanSector(bytes);
      degraded, corruptRecords := degraded || damages > 0, corruptRecords + damages;
    }

    // -------------------------------------------------------------- eviction

    /** The fields an eviction step leaves alone. */
    twostate predicate OnlyTable()
      reads this
    {
      currentPage == old(currentPage) && activeHistoryId == old(activeHistoryId)
      && nextHistoryId == old(nextHistoryId) && nextGeneration == old(nextGeneration)
      && nextSequence == old(nextSequence) && sequenceFloor == old(sequenceFloor) && ledger == old(ledger) && submitted == old(submitted)
      && |pages| == |old(pages)| && consulted == old(consulted) && corruptRecords == old(corruptRecords)
      && syncedAt == old(syncedAt)
    }

    /** The same, where promises may be withdrawn. */
    twostate predicate OnlyTableAndPromises()
      reads this
    {
      currentPage == old(currentPage) && activeHistoryId == old(activeHistoryId)
      && nextHistoryId == old(nextHistoryId) && nextGeneration == old(nextGeneration)
      && nextSequence == old(nextSequence) && sequenceFloor == old(sequenceFloor) && submitted == old(submitted)
      && |pages| == |old(pages)| && |ledger| == |old(ledger)| && syncedAt == old(syncedAt)
    }

    /** Erases a sector nothing is promised about, and strikes its entry once it is gone. */
    method EraseAndStrike(index: nat, ghost m: nat, ghost full: bool) returns (ok: bool)
      requires ValidAs(full, None) && index < |pages| && pages[index].valid
      requires m < |pages| && FirstMark(pages, pages[index].historyId, m)
      requires index == m ==> Reusable(pages, ledger, index)
      modifies this, flash
      ensures ValidAs(full, None) && OnlyTable() && SameExposed(old(Exposed()), Exposed())
      ensures pages == if ok then old(pages)[index := pages[index]] else old(pages)
      ensures ok ==> !pages[index].valid
      ensures index != m ==> FirstMark(pages, old(pages)[index].historyId, m)
      ensures if ok then flash.failures == old(flash.failures) else flash.failures > old(flash.failures)
    {
      hide Consistent, ViewsOf, FirstMark, Reusable, SameExposed, ScanInfo;
      SameLength(Memory().(full := full), flash.sectors, ledger, submitted);
      ghost var s, session := flash.sectors, pages[index].historyId;
      ok := flash.EraseSector(index);
      EraseStep(Memory().(full := full), s, flash.sectors, index, m, ledger, submitted);
      if ok {
        var struck := pages[index].(valid := false, evictionMarker := false, evictionMarkerWritable := true);
        StrikeStep(Memory().(full := full), flash.sectors, index, m, struck, ledger, submitted);
        pages := pages[index := struck];
      } else {
        NoteWriteError();
      }
    }

    /** Erases every page of a pending session, its marker page last, and that one only on request. */
    method CompletePendingEviction(session: u64, keepMarkerForReuse: bool, ghost full: bool) returns (result: Option<nat>)
      requires ValidAs(full, None) && Pending(pages, session)
      modifies this, flash
      ensures ValidAs(full, None) && OnlyTable() && SameExposed(old(Exposed()), Exposed())
      ensures forall i :: 0 <= i < |pages| ==>
                pages[i] == old(pages)[i] || (!pages[i].valid && old(pages)[i].valid && old(pages)[i].historyId == session)
      ensures result.Some? && keepMarkerForReuse ==> Reusable(pages, ledger, result.value) && pages[result.value].valid
      ensures result.Some? && !keepMarkerForReuse ==>
                result.value < |pages| && old(pages)[result.value].valid && !pages[result.value].valid
      ensures if result.Some? then flash.failures == old(flash.failures) else flash.failures > old(flash.failures)
    {
      hide Consistent, ViewsOf, SameExposed, ScanInfo;
      SameLength(Memory().(full := full), flash.sectors, ledger, submitted);
      ExposedReflexive(Exposed());
      var marker := FindMarker(pages, session);
      for index := 0 to |pages|
        invariant ValidAs(full, None) && OnlyTable() && SameExposed(old(Exposed()), Exposed())
        invariant FirstMark(pages, session, marker) && flash.failures == old(flash.failures)
        invariant forall i :: 0 <= i < |pages| ==>
                    pages[i] == old(pages)[i] || (!pages[i].valid && old(pages)[i].valid && old(pages)[i].historyId == session)
        invariant forall i :: 0 <= i < index && i != marker && pages[i].valid ==> pages[i].historyId != session
      {
        if index != marker && pages[index].valid && pages[index].historyId == session {
          ghost var v := Exposed();
          var ok := EraseAndStrike(index, marker, full);
          ExposedTransitive(old(Exposed()), v, Exposed());
          if !ok { return None; }
        }
      }
      MarkerReusable(Memory().(full := full), flash.sectors, session, marker, ledger, submitted);
      if keepMarkerForReuse { return Some(marker); }
      ghost var v := Exposed();
      var ok := EraseAndStrike(marker, marker, full);
      ExposedTransitive(old(Exposed()), v, Exposed());
      result := if ok then Some(marker) else None;
    }

    /** Programs the tombstone of a victim; its promises end exactly when a tombstone is on flash. */
    method MarkSessionForEviction(p: nat, ghost own: u64) returns (marked: bool)
      requires Valid() && p < |pages| && forall i: nat :: i < |pages| ==> pages[i].valid
      requires !Pending(pages, pages[p].historyId) && activeHistoryId == Some(own) && own != pages[p].historyId
      modifies this, flash
      ensures Valid() && OnlyTableAndPromises() && consulted == old(consulted) && corruptRecords == old(corruptRecords)
      ensures if Doomed(Exposed(), old(pages)[p].historyId) then ledger == Strike(old(ledger), old(pages)[p].historyId)
              else ledger == old(ledger) && pages == old(pages) && flash.sectors == old(flash.sectors)
      ensures OthersWhole(old(Now()), ledger, Exposed(), own)
      ensures marked ==> FirstMark(pages, old(pages)[p].historyId, p)
      ensures flash.failures >= old(flash.failures) && (!marked ==> flash.failures > old(flash.failures))
    {
      hide Consistent, ViewsOf, FirstMark, ScanInfo, Strike, Programs, OthersWhole, HeaderAt, InSync,
           Get32, TombstoneWord, IsEvictionMarkerState, MarkerWritable, Doomed;
      SameLength(Memory(), flash.sectors, ledger, submitted);
      ghost var s, r := flash.sectors, Memory();
      var writeSucceeded := flash.Write(p, 36, Le32(EVICTION_MARKER));
      ghost var t := flash.sectors;
      var readSucceeded, stored := flash.Read(p, 36, 4);
      MarkedPromises(r, s, t, p, own, writeSucceeded, readSucceeded, ledger, submitted);
      ledger := AfterMarking(ledger, t, pages[p].historyId);
      if !readSucceeded {
        NoteWriteError();
        return false;
      }
      var word := Get32(stored, 0);
      WordRead(t[p]);
      MarkedInSync(pages, s, t, p, writeSucceeded);
      pages := pages[p := pages[p].(evictionMarker := IsEvictionMarkerState(word),
                                    evictionMarkerWritable := MarkerWritable(word))];
      marked := pages[p].evictionMarker;
      if !writeSucceeded || !marked {
        NoteWriteError();
      }
    }

    /** The sessions whose retained records include their End, as far as the pages can be read. */
    method CompletedSessions() returns (completed: set<u64>)
      requires Valid()
      modifies this`corruptRecords, this`degraded, this`lastQueryFailed, flash`failures
      ensures Valid() && flash.failures >= old(flash.failures)
      ensures corruptRecords >= old(corruptRecords)
      ensures Knows(pages, flash.sectors, completed, corruptRecords > old(corruptRecords),
                    flash.failures > old(flash.failures))
      ensures |ledger| == |pages| == |flash.sectors|
      // A session with an acknowledged End on a promised page is among them, ...
      ensures corruptRecords == old(corruptRecords) ==>
                forall i: nat, r :: i < |ledger| && ledger[i].Some? && r in ledger[i].value.acked && r.kind == End ==>
                  pages[i].historyId in completed
      // ... and a session is among them only if one of its readable records is an End.
      ensures corruptRecords == old(corruptRecords) ==>
                forall g :: g in completed ==>
                  exists i: nat, r :: i < |pages| && pages[i].historyId == g
                    && ReadBack(flash.sectors[i], HEADER_BYTES, pages[i].used).Some?
                    && r in ReadBack(flash.sectors[i], HEADER_BYTES, pages[i].used).value && r.kind == End
    {
      hide Consistent, ViewsOf, ScanInfo, ReadBack;
      SameLength(Memory(), flash.sectors, ledger, submitted);
      EndsAreAcked(Memory(), flash.sectors, ledger, submitted);
      EndsAreRead(pages, flash.sectors);
      completed := {};
      for index := 0 to |pages|
        invariant Valid() && flash.failures >= old(flash.failures)
        invariant corruptRecords >= old(corruptRecords)
        invariant corruptRecords == old(corruptRecords) ==> completed == EndedIn(pages, flash.sectors, index)
        invariant corruptRecords > old(corruptRecords) ==>
                    flash.failures > old(flash.failures) || Unreadable(pages, flash.sectors, index)
      {
        var ok, records := ReadPageRecords(index);
        var k := 0;
        ghost var before := completed;
        while k < |records|
          invariant k <= |records|
          invariant completed == before + if HasEnd(records[..k]) then {pages[index].historyId} else {}
        {
          assert records[..k + 1] == records[..k] + [records[k]];
          if records[k].kind.End? {
            completed := completed + {pages[index].historyId};
          }
          k := k + 1;
        }
        assert records[..|records|] == records;
        if ok {
          EndedStep(pages, flash.sectors, index, records);
        }
      }
    }

    /** What selecting or allocating a page for `own` may have done to the promises. */
    twostate predicate Evicted(own: u64)
      reads this, flash
    {
      OthersWhole(old(Now()), ledger, Exposed(), own)
      && OwnKept(old(pages), old(ledger), ledger, own)
      && forall g, i: nat :: g != own && PromisedTo(old(ledger), g, i) && ledger[i] != old(ledger)[i] ==>
           VictimRule(old(pages), consulted, own, g)
    }

    /** A victim was chosen knowing which sessions had ended, unless a page could not be read. */
    twostate predicate Informed(own: u64)
      reads this, flash
    {
      corruptRecords >= old(corruptRecords)
      && forall g, i: nat ::
           g != own && PromisedTo(old(ledger), g, i) && i < |ledger| && ledger[i] != old(ledger)[i] ==>
             Knows(old(pages), old(flash.sectors), consulted, corruptRecords > old(corruptRecords),
                   flash.failures > old(flash.failures))
    }

    /** A sector that may be erased for session `own`, evicting a whole other session if need be. */
    method SelectPageForReuse(own: u64) returns (selected: Option<nat>)
      requires Valid() && activeHistoryId == Some(own)
      modifies this, flash
      ensures ValidExcept(selected) && OnlyTableAndPromises() && Evicted(own) && Informed(own)
      ensures forall i: nat :: i < |ledger| ==> ledger[i] == old(ledger)[i] || ledger[i] == None
      ensures selected.Some? ==> Reusable(pages, ledger, selected.value)
      ensures flash.failures >= old(flash.failures) && (selected == None ==> flash.failures > old(flash.failures))
    {
      hide Unreadable, Consistent, ViewsOf, ScanInfo, OthersWhole, SameExposed, Strike, ReadBack, InSync, EndedIn;
      SameLength(Memory(), flash.sectors, ledger, submitted);
      StillWhole(Memory(), flash.sectors, ledger, submitted, own);
      var pending: Option<nat> := FindPending(pages);
      if pending.Some? {
        assert Pending(pages, pages[pending.value].historyId);
        ghost var v := Exposed();
        selected := CompletePendingEviction(pages[pending.value].historyId, true, true);
        OthersSame(old(Now()), ledger, v, Exposed(), own);
        RelaxSync(pages, flash.sectors, selected);
        return;
      }
      selected := FindUnlisted(pages);
      if selected.Some? {
        UnlistedUnpromised(Memory(), flash.sectors, selected.value, ledger, submitted);
        RelaxSync(pages, flash.sectors, selected);
        return;
      }
      selected := EvictOrReclaim(own);
    }

    /** Every sector holds a listed page: evict the victim session, or reclaim the own oldest page. */
    method EvictOrReclaim(own: u64) returns (selected: Option<nat>)
      requires Valid() && activeHistoryId == Some(own)
      requires (forall i: nat :: i < |pages| ==> pages[i].valid) && forall h :: !Pending(pages, h)
      modifies this, flash
      ensures ValidExcept(selected) && OnlyTableAndPromises() && Evicted(own) && Informed(own)
      ensures forall i: nat :: i < |ledger| ==> ledger[i] == old(ledger)[i] || ledger[i] == None
      ensures selected.Some? ==> Reusable(pages, ledger, selected.value)
      ensures flash.failures >= old(flash.failures) && (selected == None ==> flash.failures > old(flash.failures))
    {
      hide Unreadable, Consistent, ViewsOf, ScanInfo, OthersWhole, SameExposed, Strike, ReadBack, Reusable,
           OldestEligible, InSync, EndedIn;
      SameLength(Memory(), flash.sectors, ledger, submitted);
      StillWhole(Memory(), flash.sectors, ledger, submitted, own);
      var completed := CompletedSessions();
      consulted := completed;
      var victim := ChooseOldest(pages, completed, true, own);
      if victim == None {
        victim := ChooseOldest(pages, completed, false, own);
      }
      if victim.Some? {
        selected := EvictVictim(victim.value, own);
        RelaxSync(pages, flash.sectors, selected);
        return;
      }
      selected := ReclaimOldest(own);
    }

    /** The session owns every page: it gives up its oldest one. */
    method ReclaimOldest(own: u64) returns (selected: Option<nat>)
      requires Valid() && activeHistoryId == Some(own)
      requires forall i: nat :: i < |pages| ==> pages[i].valid && pages[i].historyId == own
      modifies this`pages, this`ledger
      ensures selected.Some? && ValidExcept(selected) && |pages| == |old(pages)| == |ledger| == |old(ledger)|
      ensures OthersWhole(old(Now()), ledger, Exposed(), own) && Reusable(pages, ledger, selected.value)
      ensures OldestOfAll(old(pages), selected.value, own) && ledger == old(ledger)[selected.value := None]
      ensures PromisedTo(old(ledger), own, selected.value) || old(ledger)[selected.value] == None
    {
      hide Consistent, ViewsOf, ScanInfo, OthersWhole, InSync, Reusable;
      SameLength(Memory(), flash.sectors, ledger, submitted);
      var oldest := OldestPage(pages);
      PromiseOwner(Memory(), flash.sectors, oldest, ledger, submitted);
      ClaimStep(Memory(), flash.sectors, oldest, ledger, submitted);
      OthersClaimed(ledger, Exposed(), oldest, own);
      ClaimedSync(pages, flash.sectors, oldest);
      pages := pages[oldest := pages[oldest].(valid := false)];
      ledger := ledger[oldest := None];
      selected := Some(oldest);
    }

    method EvictVictim(victim: u64, own: u64) returns (selected: Option<nat>)
      requires Valid() && activeHistoryId == Some(own) && VictimRule(pages, consulted, own, victim)
      requires (forall i: nat :: i < |pages| ==> pages[i].valid) && forall h :: !Pending(pages, h)
      modifies this, flash
      ensures Valid() && OnlyTableAndPromises() && Evicted(own)
      ensures consulted == old(consulted) && corruptRecords == old(corruptRecords)
      ensures forall i: nat :: i < |ledger| ==> ledger[i] == old(ledger)[i] || ledger[i] == None
      ensures selected.Some? ==> Reusable(pages, ledger, selected.value)
      ensures flash.failures >= old(flash.failures) && (selected == None ==> flash.failures > old(flash.failures))
    {
      hide Consistent, ViewsOf, ScanInfo, OthersWhole, SameExposed, ReadBack, Reusable, FirstMark;
      SameLength(Memory(), flash.sectors, ledger, submitted);
      StillWhole(Memory(), flash.sectors, ledger, submitted, own);
      assert victim != own;
      selected := None;
      var markerPage := FindMarkerPage(pages, victim);
      VictimMarkable(Memory(), flash.sectors, ledger, submitted, consulted, own, victim);
      var marked := MarkSessionForEviction(markerPage.value, own);
      if !marked { return; }
      MarkedIsPending(pages, victim, markerPage.value);
      ghost var v := Exposed();
      selected := CompletePendingEviction(victim, true, true);
      OthersSame(old(Now()), ledger, v, Exposed(), own);
    }

    // -------------------------------------------------------------- allocation

    /** The number of the next page of a session: one past the highest listed, in 32 bits. */
    method NextPageIndex(own: u64, sessionStart: bool) returns (n: u32)
      ensures sessionStart ==> n == 0
      ensures forall i :: !sessionStart && Numbered(pages, i, own) ==> pages[i].pageIndex < n
      ensures n > 0 ==> exists i :: 0 <= i < |pages| && pages[i].valid && pages[i].historyId == own
                                    && pages[i].pageIndex + 1 == n
    {
      n := 0;
      if !sessionStart {
        for i := 0 to |pages|
          invariant forall j :: j < i && Numbered(pages, j, own) ==> pages[j].pageIndex < n
          invariant n > 0 ==> exists j :: 0 <= j < i && pages[j].valid && pages[j].historyId == own
                                          && pages[j].pageIndex + 1 == n
        {
          if pages[i].valid && pages[i].historyId == own {
            var following := (pages[i].pageIndex + 1) % 0x1_0000_0000;
            n := if following > n then following else n;
          }
        }
      }
    }

    /** Body first, commit word last. */
    method WritePageHeader(c: nat, h: PageHeader) returns (ok: bool)
      requires c < |flash.sectors| && flash.sectors[c] == ERASED
      modifies flash
      ensures |flash.sectors| == |old(flash.sectors)| && flash.sectors == old(flash.sectors)[c := flash.sectors[c]]
      ensures FreshSector(flash.sectors[c], h) || (!ok && HeaderAt(flash.sectors[c]) == None)
      ensures flash.failures == old(flash.failures) + if ok then 0 else 1
    {
      hide HeaderImage, HeaderAt, Programs;
      ghost var s0 := flash.sectors[c];
      ok := flash.Write(c, 0, HeaderImage(h));
      HeaderTorn(s0, flash.sectors[c], h, ok);
      if ok {
        ghost var s1 := flash.sectors[c];
        ok := flash.Write(c, 32, Le32(COMMIT_MARKER));
        HeaderCommitted(s1, flash.sectors[c], h, ok);
      }
    }

    /** What allocating or appending for `own` leaves alone besides promises. */
    twostate predicate OnlyPagesAndPromises()
      reads this
    {
      activeHistoryId == old(activeHistoryId) && nextHistoryId == old(nextHistoryId)
      && |pages| == |old(pages)| && |ledger| == |old(ledger)| && syncedAt == old(syncedAt)
      && old(nextGeneration) <= nextGeneration <= old(nextGeneration) + 1
    }

    /** Erases a sector selected for reuse, with any outcome. */
    method EraseForReuse(c: nat, ghost own: u64, ghost before: Standing) returns (ok: bool)
      requires ValidExcept(Some(c)) && Reusable(pages, ledger, c) && c < |flash.sectors|
      requires |before.ledger| == |ledger| && OthersWhole(before, ledger, Exposed(), own)
      modifies this`writeErrors, this`consecutiveWriteErrors, this`degraded, flash
      ensures ValidExcept(Some(c)) && (!ok ==> Valid()) && OthersWhole(before, ledger, Exposed(), own)
      ensures |flash.sectors| == |old(flash.sectors)| && flash.failures >= old(flash.failures)
      ensures !ok ==> flash.failures > old(flash.failures)
      ensures ok ==> flash.sectors[c] == ERASED && ViewOf(flash.sectors[c]) == Dead
    {
      hide Consistent, ViewsOf, ViewOf, ScanInfo, OthersWhole, InSync, Reusable, Visible, PromisedTo, CutErase;
      SameLength(Memory(), flash.sectors, ledger, submitted);
      ghost var s := flash.sectors;
      ok := flash.EraseSector(c);
      AllocErase(Memory(), s, flash.sectors, c, before, ledger, submitted, own);
      ErasedSync(pages, s, flash.sectors, c);
      if !ok {
        NoteWriteError();
      }
    }

    /** Erases sector `c` and writes the header of a page for `own` on it. */
    method InitializePage(c: nat, own: u64, sessionStart: bool, ghost before: Standing) returns (ok: bool)
      requires ValidExcept(Some(c)) && Reusable(pages, ledger, c)
      requires activeHistoryId == Some(own) && nextGeneration < 0x1_0000_0000_0000_0000
      requires |before.ledger| == |ledger| && OthersWhole(before, ledger, Exposed(), own)
      modifies this, flash
      ensures Valid() && OnlyPagesAndPromises() && OthersWhole(before, ledger, Exposed(), own)
      ensures nextSequence == old(nextSequence) && sequenceFloor == old(sequenceFloor)
      ensures submitted == old(submitted) && consulted == old(consulted)
      ensures corruptRecords == old(corruptRecords)
      ensures pages == old(pages)[c := pages[c]] && flash.failures >= old(flash.failures)
      ensures ok ==> ledger == old(ledger)[c := Some(Promise(Identity(pages[c]), []))] && currentPage == Some(c)
      ensures ok ==> pages[c].valid && pages[c].historyId == own && pages[c].used == HEADER_BYTES
                     && pages[c].generation == old(nextGeneration) && (sessionStart ==> pages[c].pageIndex == 0)
      ensures !ok ==> ledger == old(ledger) && currentPage == old(currentPage) && flash.failures > old(flash.failures)
    {
      hide Consistent, ViewsOf, ViewOf, ScanInfo, OthersWhole, InSync, Reusable, Visible, PromisedTo;
      ReusableListed(pages, ledger, c);
      SameLength(Memory(), flash.sectors, ledger, submitted);
      ok := EraseForReuse(c, own, before);
      if !ok { return; }
      ok := ListFreshPage(c, own, sessionStart, before);
    }

    /** Writes the header of a page for `own` on an erased sector, and lists the page once it is committed. */
    method ListFreshPage(c: nat, own: u64, sessionStart: bool, ghost before: Standing) returns (ok: bool)
      requires ValidExcept(Some(c)) && Reusable(pages, ledger, c) && c < |pages| == |flash.sectors| == |ledger|
      requires flash.sectors[c] == ERASED && ViewOf(flash.sectors[c]) == Dead && ledger[c] == None
      requires activeHistoryId == Some(own) && nextGeneration < 0x1_0000_0000_0000_0000
      requires |before.ledger| == |ledger| && OthersWhole(before, ledger, Exposed(), own)
      modifies this, flash
      ensures Valid() && OnlyPagesAndPromises() && OthersWhole(before, ledger, Exposed(), own)
      ensures nextSequence == old(nextSequence) && sequenceFloor == old(sequenceFloor)
      ensures submitted == old(submitted) && consulted == old(consulted) && corruptRecords == old(corruptRecords)
      ensures pages == old(pages)[c := pages[c]]
      ensures flash.failures == old(flash.failures) + if ok then 0 else 1
      ensures ok ==> ledger == old(ledger)[c := Some(Promise(Identity(pages[c]), []))] && currentPage == Some(c)
      ensures ok ==> pages[c].valid && pages[c].historyId == own && pages[c].used == HEADER_BYTES
                     && pages[c].generation == old(nextGeneration) && (sessionStart ==> pages[c].pageIndex == 0)
      ensures !ok ==> ledger == old(ledger) && currentPage == old(currentPage)
    {
      hide Consistent, ViewsOf, ViewOf, OthersWhole, InSync, Reusable, Numbered, AsListed;
      var pageIndex := NextPageIndex(own, sessionStart);
      var page := PageInfo(nextGeneration, own, pageIndex, HEADER_BYTES, true, false, true);
      ok := WriteFreshHeader(c, own, page, before);
      page := page.(valid := ok);
      ListPage(c, page, before, own);
      if !ok {
        NoteWriteError();
      }
    }

    /** What will hold once `page` is entered into the table for sector `c`. */
    ghost predicate AsListed(c: nat, page: PageInfo, before: Standing, own: u64)
      reads this, flash
    {
      c < |pages| == |ledger| == |flash.sectors|
      && var later := ledger[c := if page.valid then Some(Promise(Identity(page), [])) else None];
         Consistent(Memory().(pages := pages[c := page], current := if page.valid then Some(c) else currentPage),
                    flash.sectors, later, submitted)
         && OthersWhole(before, later, Exposed(), own)
         && syncedAt <= flash.failures && sequenceFloor <= nextSequence
         && (flash.failures == syncedAt ==> InSync(pages[c := page], flash.sectors, None))
    }

    /** Writes the header of `page` on an erased sector, committed or not. */
    method WriteFreshHeader(c: nat, own: u64, page: PageInfo, ghost before: Standing) returns (ok: bool)
      requires ValidExcept(Some(c)) && Reusable(pages, ledger, c) && c < |pages| == |flash.sectors| == |ledger|
      requires flash.sectors[c] == ERASED && ViewOf(flash.sectors[c]) == Dead
      requires activeHistoryId == Some(own) && nextGeneration < 0x1_0000_0000_0000_0000
      requires page == PageInfo(nextGeneration, own, page.pageIndex, HEADER_BYTES, true, false, true)
      requires |before.ledger| == |ledger| && OthersWhole(before, ledger, Exposed(), own)
      modifies this`nextGeneration, flash
      ensures AsListed(c, page.(valid := ok), before, own) && nextGeneration == old(nextGeneration) + 1
      ensures flash.failures == old(flash.failures) + if ok then 0 else 1
    {
      hide Consistent, ViewsOf, ViewOf, ScanInfo, OthersWhole, InSync, HeaderAt, FreshSector, Reusable;
      ghost var r, t := Memory(), flash.sectors;
      nextGeneration := nextGeneration + 1;
      ok := WritePageHeader(c, Identity(page));
      AllocHeader(r, t, flash.sectors, c, page.(valid := ok), before, ledger, submitted, own);
      if ok {
        AllocSync(pages, t, flash.sectors, c, page);
      }
    }

    /** Enters a page into the table, and makes it the current one if its header was committed. */
    method ListPage(c: nat, page: PageInfo, ghost before: Standing, ghost own: u64)
      requires c < |pages| == |ledger| && ledger[c] == None && AsListed(c, page, before, own)
      modifies this`pages, this`ledger, this`currentPage
      ensures Valid() && OthersWhole(before, ledger, Exposed(), own)
      ensures pages == old(pages)[c := page]
      ensures ledger == old(ledger)[c := if page.valid then Some(Promise(Identity(page), [])) else None]
      ensures currentPage == (if page.valid then Some(c) else old(currentPage))
      ensures !page.valid ==> ledger == old(ledger)
    {
      hide Consistent, ViewsOf, OthersWhole, InSync;
      assert ledger == ledger[c := None];
      pages := pages[c := page];
      if page.valid {
        ledger := ledger[c := Some(Promise(Identity(page), []))];
        currentPage := Some(c);
      }
    }

    /** Gives session `own` an empty page to append to. */
    method AllocatePage(own: u64, sessionStart: bool) returns (ok: bool)
      requires Valid() && activeHistoryId == Some(own) && nextGeneration < 0x1_0000_0000_0000_0000
      modifies this, flash
      ensures Valid() && OnlyPagesAndPromises() && Evicted(own) && Informed(own)
      ensures nextSequence == old(nextSequence) && sequenceFloor == old(sequenceFloor) && submitted == old(submitted)
      ensures ok ==> currentPage.Some? && AppendTarget(Memory(), currentPage.value)
                     && pages[currentPage.value].used == HEADER_BYTES
                     && ledger[currentPage.value] == Some(Promise(Identity(pages[currentPage.value]), []))
      ensures ok ==> pages[currentPage.value].generation == old(nextGeneration)
                     && (sessionStart ==> pages[currentPage.value].pageIndex == 0)
      ensures !ok ==> currentPage == old(currentPage)
      ensures forall i: nat :: i < |ledger| && !(ok && currentPage == Some(i)) ==>
                ledger[i] == old(ledger)[i] || ledger[i] == None
      ensures flash.failures >= old(flash.failures) && (!ok ==> flash.failures > old(flash.failures))
    {
      hide Unreadable, Consistent, ViewsOf, ViewOf, OthersWhole, InSync, EndedIn, OldestEligible, Reusable;
      var selected := SelectPageForReuse(own);
      if selected == None {
        NoteWriteError();
        return false;
      }
      var c := selected.value;
      SameLength(Memory(), flash.sectors, ledger, submitted);
      ReusableListed(pages, ledger, c);
      ok := InitializePage(c, own, sessionStart, old(Now()));
    }

    // -------------------------------------------------------------- appending

    /** Header, payload, and only then the commit word, behind the last record of page `c`. */
    method WriteRecord(c: nat, at: nat, x: Observation, payload: seq<byte>) returns (ok: bool)
      requires c < |flash.sectors| && Used(flash.sectors[c], HEADER_BYTES) == at
      requires at + RECORD_HEADER + |payload| <= PAGE_BYTES && Blank(flash.sectors[c], at, PAGE_BYTES)
      requires Stampable(x) && Codable(x) && payload == Encoded(x)
      modifies flash
      ensures |flash.sectors| == |old(flash.sectors)| && flash.sectors == old(flash.sectors)[c := flash.sectors[c]]
      ensures RecordAdded(old(flash.sectors)[c], flash.sectors[c], at, Stored(x), ok)
      ensures ok ==> Used(flash.sectors[c], HEADER_BYTES) == at + RECORD_HEADER + |payload|
                     && Blank(flash.sectors[c], at + RECORD_HEADER + |payload|, PAGE_BYTES)
      ensures flash.failures == old(flash.failures) + if ok then 0 else 1
    {
      hide HeaderAt, Records, Used, RecordImage, Encoded, Codable, Stored;
      ghost var s0 := flash.sectors[c];
      ok := flash.Write(c, at, RecordImage(x, payload));
      ghost var s1 := flash.sectors[c];
      HeaderStage(s0, s1, at, RecordImage(x, payload), ok, Stored(x));
      if !ok { return; }
      ok := flash.Write(c, at + RECORD_HEADER, payload);
      ghost var s2 := flash.sectors[c];
      PayloadStage(s0, s1, s2, at, RecordImage(x, payload), payload, ok, Stored(x));
      if !ok { return; }
      ok := flash.Write(c, at + 36, Le32(COMMIT_MARKER));
      CommitStage(s0, s2, flash.sectors[c], at, x, payload, ok);
    }

    /** What one append for `own` did to the promises: own pages kept, or grown by `y`. */
    twostate predicate Appended(own: u64, y: Observation, ok: bool)
      reads this, flash
    {
      OnlyPagesAndPromises() && Informed(own)
      && AppendEffect(old(pages), old(currentPage), old(ledger), ledger, currentPage, own, y, ok, consulted)
    }

    /** The open session's current page is still empty. */
    ghost predicate OnEmptyPage()
      reads this
    {
      currentPage.Some? && AppendTarget(Memory(), currentPage.value) && pages[currentPage.value].used == HEADER_BYTES
    }

    /** One append that did not move to another page. */
    twostate predicate InPlace(y: Observation, ok: bool)
      reads this
    {
      consulted == old(consulted) && corruptRecords == old(corruptRecords) && nextGeneration == old(nextGeneration)
      && (ok ==> currentPage == old(currentPage))
      && ledger == if ok then GrownAt(old(ledger), currentPage, y) else old(ledger)
    }

    /**
     * Numbers, encodes and writes one record of the open session. `before` is the ledger when the
     * whole operation began, earlier than this call only for a session's first record.
     */
    method AppendAssigned(own: u64, x: Observation, ghost before: Standing) returns (ok: bool)
      requires |before.ledger| == |ledger| && OthersWhole(before, ledger, Exposed(), own)
      requires before == Now() || OnEmptyPage()
      requires Valid() && activeHistoryId == Some(own) && x.historyId == own && Codable(x)
      requires (nextGeneration < 0x1_0000_0000_0000_0000 || OnEmptyPage()) && nextSequence < 0x1_0000_0000
      modifies this, flash
      ensures Valid() && Appended(own, Stored(x.(sequence := old(nextSequence))), ok)
      ensures OthersWhole(before, ledger, Exposed(), own)
      ensures old(OnEmptyPage()) ==> InPlace(Stored(x.(sequence := old(nextSequence))), ok)
      ensures nextSequence == old(nextSequence) + 1
      ensures submitted == old(submitted) + {Stored(x.(sequence := old(nextSequence)))}
      ensures flash.failures >= old(flash.failures) && (!ok ==> flash.failures > old(flash.failures) || TooLarge(x))
    {
      hide Unreadable, Consistent, ViewsOf, ViewOf, ScanInfo, OthersWhole, InSync, EndedIn, OldestEligible, Encoded,
           Records, Used, Stored, OldestOfAll, VictimRule, AppendEffect;
      var y := x.(sequence := nextSequence);
      SubmitStep(Memory(), flash.sectors, Stored(y), nextSequence, ledger, submitted);
      sequenceFloor, submitted := nextSequence, submitted + {Stored(y)};
      nextSequence := nextSequence + 1;
      var payload := EncodeObservation(y);
      if |payload| > 0xFFFF || RECORD_HEADER + |payload| > PAGE_BYTES - HEADER_BYTES {
        NotAppended(pages, currentPage, ledger, ledger, currentPage, own, Stored(y), consulted);
        NoteWriteError();
        return false;
      }
      ok := PlaceRecord(own, y, payload, before);
    }

    /** Writes one encoded record to the current page, or to a fresh one when it has no room there. */
    method PlaceRecord(own: u64, y: Observation, payload: seq<byte>, ghost before: Standing) returns (ok: bool)
      requires Valid() && activeHistoryId == Some(own) && y.historyId == own && Codable(y)
      requires |before.ledger| == |ledger| && OthersWhole(before, ledger, Exposed(), own)
      requires before == Now() || OnEmptyPage()
      requires nextGeneration < 0x1_0000_0000_0000_0000 || OnEmptyPage()
      requires y.sequence < 0x1_0000_0000 && y.sequence + 1 == nextSequence && sequenceFloor == y.sequence
      requires payload == Encoded(y) && Stored(y) in submitted
      requires RECORD_HEADER + |payload| <= PAGE_BYTES - HEADER_BYTES
      modifies this, flash
      ensures Valid() && Appended(own, Stored(y), ok) && OthersWhole(before, ledger, Exposed(), own)
      ensures old(OnEmptyPage()) ==> InPlace(Stored(y), ok)
      ensures nextSequence == old(nextSequence) && submitted == old(submitted)
      ensures flash.failures >= old(flash.failures) && (!ok ==> flash.failures > old(flash.failures))
    {
      hide Unreadable, Consistent, ViewsOf, ViewOf, ScanInfo, OthersWhole, InSync, EndedIn, OldestEligible, Encoded,
           Records, Used, Stored, OldestOfAll, VictimRule, AppendEffect, Codable;
      StoredSize(y);
      var isNew;
      ok, isNew := EnsureRoom(own, |payload|);
      if !ok {
        NotAppended(old(pages), old(currentPage), old(ledger), ledger, currentPage, own, Stored(y), consulted);
        return;
      }
      ghost var c, mid := currentPage.value, ledger;
      ok := FinishAppend(own, y, payload, before);
      AppendCombined(old(pages), old(currentPage), old(ledger), mid, ledger, c, isNew, own, Stored(y), ok, consulted);
    }

    /** Moves on to a fresh page unless the current one is the session's and has room for the payload. */
    method EnsureRoom(own: u64, size: nat) returns (ok: bool, isNew: bool)
      requires Valid() && activeHistoryId == Some(own)
      requires nextGeneration < 0x1_0000_0000_0000_0000 || OnEmptyPage()
      requires RECORD_HEADER + size <= PAGE_BYTES - HEADER_BYTES
      modifies this, flash
      ensures Valid() && OnlyPagesAndPromises() && Evicted(own) && Informed(own)
      ensures nextSequence == old(nextSequence) && sequenceFloor == old(sequenceFloor) && submitted == old(submitted)
      ensures ok ==> currentPage.Some? && AppendTarget(Memory(), currentPage.value)
                     && pages[currentPage.value].used + RECORD_HEADER + size <= PAGE_BYTES
                     && PromisedTo(ledger, own, currentPage.value)
      ensures ok && isNew ==>
                ledger[currentPage.value].value.acked == []
                && (old(ledger)[currentPage.value].Some? ==>
                      old(ledger)[currentPage.value].value.header != ledger[currentPage.value].value.header)
      ensures old(currentPage.Some? && AppendTarget(Memory(), currentPage.value)
                  && pages[currentPage.value].used + RECORD_HEADER + size <= PAGE_BYTES) ==>
                ok && !isNew && ledger == old(ledger) && pages == old(pages) && currentPage == old(currentPage)
                && flash.sectors == old(flash.sectors) && consulted == old(consulted)
                && corruptRecords == old(corruptRecords) && nextGeneration == old(nextGeneration)
      ensures ok && !isNew ==> ledger == old(ledger) && flash.sectors == old(flash.sectors)
      ensures forall i: nat :: i < |ledger| && !(ok && isNew && currentPage == Some(i)) ==>
                ledger[i] == old(ledger)[i] || ledger[i] == None
      ensures flash.failures >= old(flash.failures) && (!ok ==> flash.failures > old(flash.failures))
    {
      hide Unreadable, Consistent, ViewsOf, ViewOf, ScanInfo, OthersWhole, InSync, EndedIn, OldestEligible, Records, Used;
      SameLength(Memory(), flash.sectors, ledger, submitted);
      StillWhole(Memory(), flash.sectors, ledger, submitted, own);
      isNew := currentPage == None || currentPage.value >= |pages| || !pages[currentPage.value].valid
               || pages[currentPage.value].historyId != own
               || pages[currentPage.value].used + RECORD_HEADER + size > PAGE_BYTES;
      if isNew {
        PromiseAge(Memory(), flash.sectors, ledger, submitted);
        ok := AllocatePage(own, false);
      } else {
        TargetPromised(Memory(), flash.sectors, currentPage.value, ledger, submitted);
        ok := true;
      }
    }

    /** The current page has room: writes the record there. */
    method FinishAppend(own: u64, y: Observation, payload: seq<byte>, ghost before: Standing) returns (ok: bool)
      requires Valid() && activeHistoryId == Some(own) && y.historyId == own && Codable(y)
      requires y.sequence < 0x1_0000_0000 && y.sequence + 1 == nextSequence && sequenceFloor == y.sequence
      requires payload == Encoded(y) && Stored(y) in submitted
      requires currentPage.Some? && AppendTarget(Memory(), currentPage.value)
      requires pages[currentPage.value].used + RECORD_HEADER + |payload| <= PAGE_BYTES
      requires |before.ledger| == |ledger| && OthersWhole(before, ledger, Exposed(), own)
      modifies this, flash
      ensures Valid() && OthersWhole(before, ledger, Exposed(), own)
      ensures activeHistoryId == old(activeHistoryId) && nextHistoryId == old(nextHistoryId)
      ensures nextGeneration == old(nextGeneration) && nextSequence == old(nextSequence)
      ensures syncedAt == old(syncedAt)
      ensures |pages| == |old(pages)| && submitted == old(submitted) && consulted == old(consulted)
      ensures corruptRecords == old(corruptRecords)
      ensures ok ==> currentPage == old(currentPage) && old(ledger)[currentPage.value].Some?
                     && ledger == old(ledger)[currentPage.value
                                  := Some(Grown(old(ledger)[currentPage.value].value, Stored(y)))]
      ensures ok ==> pages == old(pages)[currentPage.value := old(pages)[currentPage.value].(
                                         used := old(pages)[currentPage.value].used + RECORD_HEADER + |payload|)]
      ensures !ok ==> ledger == old(ledger) && pages == old(pages) && currentPage == None
      ensures flash.failures == old(flash.failures) + if ok then 0 else 1
    {
      hide Consistent, ViewsOf, ViewOf, ScanInfo, OthersWhole, InSync, Encoded, Records, Used, RecordAdded, Codable,
           Blank, PromisedTo, Grown;
      var c := currentPage.value;
      SameLength(Memory(), flash.sectors, ledger, submitted);
      RoomToWrite(Memory(), flash.sectors, c, ledger, submitted);
      ghost var s := flash.sectors;
      ok := WriteRecord(c, pages[c].used, y, payload);
      if !ok {
        AppendAbandoned(Memory(), s, flash.sectors, c, Stored(y), before, ledger, submitted, own);
        currentPage := None;
        sequenceFloor := nextSequence;
        NoteWriteError();
        return;
      }
      Acknowledge(own, c, pages[c].used + RECORD_HEADER + |payload|, s, Stored(y), before);
    }

    /** The record is on flash: the page grows by it, and so does its promise. */
    method Acknowledge(own: u64, c: nat, used: nat, ghost s: seq<Sector>, ghost y: Observation, ghost before: Standing)
      requires Consistent(Memory(), s, ledger, submitted) && AppendTarget(Memory(), c) && activeHistoryId == Some(own)
      requires c < |s| == |flash.sectors| && flash.sectors == s[c := flash.sectors[c]]
      requires RecordAdded(s[c], flash.sectors[c], pages[c].used, y, true)
      requires Used(flash.sectors[c], HEADER_BYTES) == used <= PAGE_BYTES && Blank(flash.sectors[c], used, PAGE_BYTES)
      requires y in submitted && y.historyId == own && y.sequence == sequenceFloor && nextSequence == sequenceFloor + 1
      requires |before.ledger| == |ledger| && OthersWhole(before, ledger, ViewsOf(s), own)
      requires syncedAt <= flash.failures && (flash.failures == syncedAt ==> InSync(pages, s, None))
      modifies this`ledger, this`pages, this`sequenceFloor, this`consecutiveWriteErrors
      ensures Valid() && OthersWhole(before, ledger, Exposed(), own)
      ensures c < |old(ledger)| && old(ledger)[c].Some?
              && ledger == old(ledger)[c := Some(Grown(old(ledger)[c].value, y))]
      ensures c < |old(pages)| && pages == old(pages)[c := old(pages)[c].(used := used)]
    {
      hide Consistent, ViewsOf, OthersWhole, InSync, Records, Used, RecordAdded, Blank, Grown;
      SameLength(Memory(), s, ledger, submitted);
      AppendDone(Memory(), s, flash.sectors, c, y, used, before, ledger, submitted, own);
      AppendSync(pages, s, flash.sectors, c, pages[c].used, y, used);
      ledger := ledger[c := Some(Grown(ledger[c].value, y))];
      pages := pages[c := pages[c].(used := used)];
      sequenceFloor := nextSequence;
      consecutiveWriteErrors := 0;
    }

    // -------------------------------------------------------------- sessions

    /** Makes a fresh id the open session; nothing is promised to it yet. */
    method TakeHistoryId() returns (own: u64)
      requires Valid() && nextHistoryId < 0x1_0000_0000_0000_0000
      modifies this`nextHistoryId, this`activeHistoryId, this`nextSequence, this`sequenceFloor
      ensures Valid() && own == old(nextHistoryId) && activeHistoryId == Some(own) && nextHistoryId == own + 1
      ensures nextSequence == sequenceFloor == 0 && OthersWhole(Now(), ledger, Exposed(), own) && |ledger| == |pages|
      ensures forall i: nat :: !PromisedTo(ledger, own, i)
    {
      hide Consistent, ViewsOf, ViewOf, OthersWhole, InSync;
      own := nextHistoryId;
      SameLength(Memory(), flash.sectors, ledger, submitted);
      PromiseSessions(Memory(), flash.sectors, ledger, submitted);
      OpenStep(Memory(), flash.sectors, ledger, submitted);
      nextHistoryId := nextHistoryId + 1;
      activeHistoryId := Some(own);
      nextSequence, sequenceFloor := 0, 0;
    }

    /** Opens a session under a fresh id and stores its Start record. */
    method BeginSession(x: Observation) returns (id: Option<u64>)
      requires Valid() && Codable(x)
      requires nextHistoryId < 0x1_0000_0000_0000_0000 && nextGeneration < 0x1_0000_0000_0000_0000
      modifies this, flash
      ensures Valid() && |ledger| == |old(ledger)| && activeHistoryId == id && syncedAt == old(syncedAt)
      ensures nextHistoryId == old(nextHistoryId) + 1 && old(nextGeneration) <= nextGeneration <= old(nextGeneration) + 1
      ensures var g: u64 := old(nextHistoryId);
              OthersWhole(old(Now()), ledger, Exposed(), g) && Informed(g)
              && forall h, i: nat :: PromisedTo(old(ledger), h, i) && ledger[i] != old(ledger)[i] ==>
                   VictimRule(old(pages), consulted, g, h)
      ensures id.Some? ==>
                id.value == old(nextHistoryId) && nextSequence == 1 && currentPage.Some?
                && currentPage.value < |ledger|
                && ledger[currentPage.value]
                   == Some(Promise(PageHeader(old(nextGeneration), id.value, 0), [FirstRecord(x, id.value)]))
      ensures forall i: nat :: i < |ledger| && !(id.Some? && currentPage == Some(i)) ==>
                ledger[i] == old(ledger)[i] || ledger[i] == None
                || (PromisedTo(ledger, old(nextHistoryId), i) && ledger[i].value.acked == [])
      ensures submitted <= old(submitted) + {FirstRecord(x, old(nextHistoryId))}
      ensures flash.failures >= old(flash.failures) && (id == None ==> flash.failures > old(flash.failures) || TooLarge(x))
    {
      hide Knows, Consistent, ViewsOf, ViewOf, ScanInfo, OthersWhole, InSync, EndedIn, OldestEligible, Records, Used,
           ReadBack, VictimRule, OldestOfAll, Stored, Codable, TooLarge, AppendEffect, Unreadable, FirstMark, Pending,
           PageOwners;
      var own: u64 := TakeHistoryId();
      var ok := AllocatePage(own, true);
      if ok {
        ghost var c, mid := currentPage.value, ledger;
        ghost var failed := flash.failures > old(flash.failures);
        CodableStamp(x, Start, 0, own);
        ok := AppendAssigned(own, x.(kind := Start, historyId := own), old(Now()));
        FirstGrown(mid, c, FirstRecord(x, own));
        KnowsLater(old(pages), old(flash.sectors), consulted, corruptRecords > old(corruptRecords), failed,
                   flash.failures > old(flash.failures));
      }
      if !ok {
        Close();
        return None;
      }
      id := Some(own);
    }

    /** No session is open any more. */
    method Close()
      requires Valid()
      modifies this`activeHistoryId
      ensures Valid() && activeHistoryId == None
    {
      hide Consistent, ViewsOf, InSync;
      CloseStep(Memory(), flash.sectors, ledger, submitted);
      activeHistoryId := None;
    }

    /** Appends to the open session; `at` is the page that holds the record, and an End closes the session. */
    method Append(x: Observation) returns (ok: bool, ghost at: nat)
      requires Valid() && Codable(x)
      requires nextGeneration < 0x1_0000_0000_0000_0000 && nextSequence < 0x1_0000_0000
      modifies this, flash
      ensures Valid() && |ledger| == |old(ledger)| && nextHistoryId == old(nextHistoryId) && syncedAt == old(syncedAt)
      ensures old(nextGeneration) <= nextGeneration <= old(nextGeneration) + 1
      ensures ok ==> old(activeHistoryId).Some?
      ensures old(activeHistoryId) == None ==> ledger == old(ledger) && flash.sectors == old(flash.sectors)
      ensures old(activeHistoryId).Some? ==>
                var own := old(activeHistoryId).value;
                OthersWhole(old(Now()), ledger, Exposed(), own) && Informed(own)
                && AppendEffect(old(pages), old(currentPage), old(ledger), ledger, Some(at), own,
                                NextRecord(x, own, old(nextSequence)), ok, consulted)
      ensures activeHistoryId == if ok && x.kind.End? then None else old(activeHistoryId)
      ensures nextSequence == old(nextSequence) + if old(activeHistoryId).Some? then 1 else 0
      ensures submitted <= old(submitted) + (if old(activeHistoryId).Some?
                then {NextRecord(x, old(activeHistoryId).value, old(nextSequence))} else {})
      ensures flash.failures >= old(flash.failures)
      ensures !ok && old(activeHistoryId).Some? ==> flash.failures > old(flash.failures) || TooLarge(x)
    {
      hide Unreadable, EndedIn, Consistent, ViewsOf, ViewOf, ScanInfo, OthersWhole, InSync, OldestEligible, Records, Used,
           ReadBack, VictimRule, OldestOfAll, Stored, Codable, TooLarge, AppendEffect, NextRecord;
      at := 0;
      if activeHistoryId == None { return false, 0; }
      var own := activeHistoryId.value;
      SameLength(Memory(), flash.sectors, ledger, submitted);
      StillWhole(Memory(), flash.sectors, ledger, submitted, own);
      CodableStamp(x, x.kind, x.sequence, own);
      ok := AppendAssigned(own, x.(historyId := own), Now());
      NumberedRecord(x, own, old(nextSequence));
      AppendPlace(old(pages), old(currentPage), old(ledger), ledger, currentPage, own,
                  NextRecord(x, own, old(nextSequence)), ok, consulted);
      if ok {
        at := currentPage.value;
        if x.kind.End? {
          CloseStep(Memory(), flash.sectors, ledger, submitted);
          activeHistoryId, currentPage := None, None;
        }
      }
    }

    // -------------------------------------------------------------- boot

    /** Reads every sector into the table; an unreadable one leaves the log uninitialized. */
    method ScanAll() returns (ok: bool)
      requires |flash.sectors| > 0
      modifies this, flash`failures
      ensures currentPage == old(currentPage) && activeHistoryId == old(activeHistoryId)
      ensures ledger == old(ledger) && submitted == old(submitted) && nextSequence == old(nextSequence)
      ensures sequenceFloor == old(sequenceFloor) && flash.failures >= old(flash.failures)
      ensures !ok ==> flash.failures > old(flash.failures)
      ensures ok ==> InSync(pages, flash.sectors, None) && AllAhead(pages, nextHistoryId, nextGeneration)
    {
      hide ScanInfo, Damages;
      pages := seq(|flash.sectors|, _ => NO_PAGE);
      for index := 0 to |pages|
        invariant |pages| == |flash.sectors| && flash.failures >= old(flash.failures)
        invariant currentPage == old(currentPage) && activeHistoryId == old(activeHistoryId)
        invariant ledger == old(ledger) && submitted == old(submitted) && nextSequence == old(nextSequence)
        invariant sequenceFloor == old(sequenceFloor)
        invariant forall i :: 0 <= i < index ==> pages[i] == ScanInfo(flash.sectors[i])
        invariant forall i :: index <= i < |pages| ==> pages[i] == NO_PAGE
        invariant AllAhead(pages, nextHistoryId, nextGeneration)
      {
        var page;
        ok, page := ScanPage(index);
        if !ok { return; }
        pages := pages[index := page];
        if page.valid {
          if nextGeneration < page.generation + 1 { nextGeneration := page.generation + 1; }
          if nextHistoryId < page.historyId + 1 { nextHistoryId := page.historyId + 1; }
        }
      }
      ok := true;
    }

    /**
     * Boot: rebuilds the table and completes every eviction that was committed. From then on
     * everything exposed is promised.
     */
    method Initialize() returns (ok: bool)
      requires Durable(Exposed(), ledger, submitted)
      requires activeHistoryId == None && currentPage == None && sequenceFloor <= nextSequence
      modifies this, flash
      ensures SameExposed(old(Exposed()), Exposed()) && Durable(Exposed(), ledger, submitted)
      ensures submitted == old(submitted) && activeHistoryId == None && currentPage == None
      ensures sequenceFloor <= nextSequence
      ensures if ok then Valid() && ledger == Recovered(Exposed()) && KeptThrough(old(ledger), ledger)
              else ledger == old(ledger)
      ensures ok ==> InSync(pages, flash.sectors, None) && syncedAt == flash.failures
      ensures ok ==> (forall g :: !Doomed(Exposed(), g)) && forall g :: !Pending(pages, g)
      ensures flash.failures >= old(flash.failures)
      ensures !ok && |flash.sectors| > 0 ==> flash.failures > old(flash.failures)
    {
      hide Consistent, ViewsOf, ViewOf, ScanInfo, InSync, Durable, SameExposed, Recovered, Doomed;
      ExposedReflexive(Exposed());
      if |flash.sectors| == 0 {
        NoteWriteError();
        return false;
      }
      ghost var v, promised := Exposed(), ledger;
      ok := ScanAll();
      if !ok { return; }
      ledger := seq(|flash.sectors|, _ => None);
      BootStep(Memory().(full := false), flash.sectors, promised, ledger, submitted);
      syncedAt := flash.failures;
      var pending: Option<nat> := FindPending(pages);
      while pending.Some?
        invariant ValidAs(false, None) && SameExposed(v, Exposed()) && submitted == old(submitted)
        invariant activeHistoryId == None && currentPage == None && sequenceFloor <= nextSequence
        invariant syncedAt == flash.failures >= old(flash.failures)
        invariant forall i :: 0 <= i < |ledger| ==> ledger[i] == None
        invariant pending.Some? ==> pending.value < |pages| && Marks(pages, pages[pending.value].historyId, pending.value)
        invariant pending == None ==> forall h :: !Pending(pages, h)
        decreases Listed(pages)
      {
        ghost var was, u := pages, Exposed();
        assert Pending(pages, pages[pending.value].historyId);
        var done: Option<nat> := CompletePendingEviction(pages[pending.value].historyId, false, false);
        ExposedTransitive(v, u, Exposed());
        if done == None {
          StillPromised(Memory().(full := false), flash.sectors, v, promised, ledger, submitted);
          ledger := promised;
          return false;
        }
        FewerListed(was, pages, done.value);
        pending := FindPending(pages);
      }
      RecoveredStep(Memory().(full := false), flash.sectors, v, promised, ledger, submitted);
      ledger := Recovered(Exposed());
    }

    // -------------------------------------------------------------- queries

    method SessionIsPending(session: u64) returns (pending: bool)
      ensures pending <==> Pending(pages, session)
    {
      for i := 0 to |pages|
        invariant forall k: nat :: k < i ==> !Marks(pages, session, k)
      {
        if pages[i].valid && pages[i].historyId == session && pages[i].evictionMarker {
          assert Marks(pages, session, i);
          return true;
        }
      }
      pending := false;
    }

    /** One page of a sample query: thinned by the stride over the whole session, then cut at the limit. */
    method Samples(session: u64, after: Option<nat>, limit: nat, stride: nat)
      returns (answer: Answer, ghost order: seq<nat>)
      requires Valid()
      modifies this`corruptRecords, this`degraded, this`lastQueryFailed, flash`failures
      ensures Valid() && |pages| == |flash.sectors| && flash.failures >= old(flash.failures)
      ensures if Pending(pages, session) || limit == 0 then order == [] else InOrder(pages, session, order)
      ensures limit == 0 ==> answer == Answer([], None) && !lastQueryFailed
      ensures lastQueryFailed ==> answer == Answer([], None)
      ensures limit > 0 && !lastQueryFailed && Joined(pages, flash.sectors, order).Some? ==>
                answer == AnswerOf(Chosen(Joined(pages, flash.sectors, order).value,
                                          if stride >= 1 then stride else 1, after), limit)
      ensures flash.failures == old(flash.failures) && Joined(pages, flash.sectors, order).Some? ==> !lastQueryFailed
    {
      hide Consistent, ScanInfo, ReadBack, Chosen, SamplesIn, InSync;
      SameLength(Memory(), flash.sectors, ledger, submitted);
      lastQueryFailed := false;
      order := [];
      answer := Answer([], None);
      if limit == 0 { return; }
      var pending := SessionIsPending(session);
      var pagesInOrder: seq<nat> := [];
      if !pending {
        pagesInOrder := PagesInOrder(pages, session);
      }
      order := pagesInOrder;
      var result: seq<Observation>, passed: nat := [], 0;
      ghost var done: seq<Observation> := [];
      NothingChosen(Positive(stride), after);
      for k := 0 to |pagesInOrder|
        invariant Valid() && |pages| == |flash.sectors| && !lastQueryFailed && order == pagesInOrder
        invariant flash.failures == old(flash.failures)
        invariant forall i :: 0 <= i < |order| ==> order[i] < |pages|
        invariant Joined(pages, flash.sectors, order[..k]) == Some(done) && passed == SamplesIn(done)
        invariant result == Chosen(done, Positive(stride), after) && |result| <= limit
      {
        ghost var s := flash.sectors;
        var ok, records := ReadPageRecords(pagesInOrder[k]);
        JoinedStep(pages, s, order, k, done);
        if !ok { return; }
        var full;
        ghost var seen;
        result, passed, full, seen := TakeFrom(records, result, passed, Positive(stride), after, limit, done);
        if full {
          answer := Answer(result, Some(result[limit - 1].sequence));
          Settled(pages, s, order, k, done, records, seen, Positive(stride), after, limit);
          return;
        }
        done := done + records;
      }
      assert order[..|order|] == order;
      answer := Answer(result, None);
    }

    /** A query of a session that is not being evicted sees exactly its acknowledged records. */
    lemma SamplesAreAcked(session: u64, order: seq<nat>)
      requires Valid() && InOrder(pages, session, order)
      requires !Pending(pages, session) && !Doomed(Exposed(), session)
      ensures PromisedAll(ledger, order)
      ensures |pages| == |flash.sectors| && Joined(pages, flash.sectors, order) == Some(Acked(ledger, order))
      ensures Increasing(Acked(ledger, order))
    {
      hide ReadBack, ViewOf, Records, Used, Durable, InSync;
      SameLength(Memory(), flash.sectors, ledger, submitted);
      ListedPromised(Memory(), flash.sectors, session, order, ledger, submitted);
      JoinedIsAcked(pages, flash.sectors, ledger, order);
      OrderedPromises(Memory(), flash.sectors, session, order, ledger, submitted);
      AckedIncreasing(Exposed(), ledger, submitted, session, order);
    }
  }

  lemma ListedPromised(r: Ram, s: seq<Sector>, session: u64, order: seq<nat>, ledger: Ledger, submitted: set<Observation>)
    requires Consistent(r, s, ledger, submitted) && r.full && InOrder(r.pages, session, order)
    requires !Pending(r.pages, session) && !Doomed(ViewsOf(s), session)
    ensures PromisedAll(ledger, order)
  {
    hide ReadBack, ViewOf, Records, Used, Durable, Coherent;
    forall k | 0 <= k < |order|
      ensures order[k] < |ledger| && ledger[order[k]].Some?
    {
      assert Listing(r.pages, session, order[k]);
    }
  }

  function Positive(stride: nat): nat {
    if stride == 0 then 1 else stride
  }

  lemma NothingChosen(stride: nat, after: Option<nat>)
    requires stride > 0
    ensures Chosen([], stride, after) == [] && SamplesIn([]) == 0
  {
  }

  lemma JoinedStep(pages: Table, s: seq<Sector>, order: seq<nat>, k: nat, done: seq<Observation>)
    requires |pages| == |s| && k < |order| && forall i :: 0 <= i < |order| ==> order[i] < |pages|
    requires Joined(pages, s, order[..k]) == Some(done)
    ensures var records := ReadBack(s[order[k]], HEADER_BYTES, pages[order[k]].used);
            (records == None ==> Joined(pages, s, order) == None)
            && (records.Some? ==> Joined(pages, s, order[..k + 1]) == Some(done + records.value)
                                  && (Joined(pages, s, order).Some? ==> done + records.value <= Joined(pages, s, order).value))
  {
    hide ReadBack, Joined;
    var front, one, back := order[..k], [order[k]], order[k + 1..];
    JoinedOne(pages, s, order[k]);
    JoinedConcat(pages, s, front, one);
    assert order[..k + 1] == front + one;
    JoinedConcat(pages, s, front + one, back);
    assert order == (front + one) + back;
  }

  lemma PrefixOfPrefix<T>(all: seq<T>, done: seq<T>, records: seq<T>, seen: nat)
    requires done + records <= all && seen <= |records|
    ensures all == (done + records[..seen]) + all[|done + records[..seen]|..]
  {
    assert done + records[..seen] == (done + records)[..|done| + seen] == all[..|done| + seen];
  }

  lemma Settled(pages: Table, s: seq<Sector>, order: seq<nat>, k: nat, done: seq<Observation>,
                records: seq<Observation>, seen: nat, stride: nat, after: Option<nat>, limit: nat)
    requires |pages| == |s| && k < |order| && forall i :: 0 <= i < |order| ==> order[i] < |pages|
    requires Joined(pages, s, order[..k]) == Some(done) && stride > 0 && limit > 0 && seen <= |records|
    requires ReadBack(s[order[k]], HEADER_BYTES, pages[order[k]].used) == Some(records)
    requires |Chosen(done + records[..seen], stride, after)| > limit
    ensures Joined(pages, s, order).Some? ==>
              AnswerOf(Chosen(Joined(pages, s, order).value, stride, after), limit)
              == AnswerOf(Chosen(done + records[..seen], stride, after), limit)
  {
    hide ReadBack, Chosen, Joined;
    JoinedStep(pages, s, order, k, done);
    if Joined(pages, s, order).Some? {
      var all, some := Joined(pages, s, order).value, done + records[..seen];
      PrefixOfPrefix(all, done, records, seen);
      AnswerSettled(some, all[|some|..], stride, after, limit);
    }
  }

  /** Promised pages of one session, listed in order, have strictly increasing generations. */
  lemma OrderedPromises(r: Ram, s: seq<Sector>, session: u64, order: seq<nat>, ledger: Ledger, submitted: set<Observation>)
    requires Consistent(r, s, ledger, submitted) && InOrder(r.pages, session, order) && PromisedAll(ledger, order)
    ensures forall k :: 0 <= k < |order| ==> ledger[order[k]].value.header.historyId == session
    ensures forall j, k :: 0 <= j < k < |order| ==>
              ledger[order[j]].value.header.generation < ledger[order[k]].value.header.generation
  {
    hide ViewOf, Records, Used, ReadBack;
    forall j, k | 0 <= j < k < |order|
      ensures ledger[order[j]].value.header.generation < ledger[order[k]].value.header.generation
    {
      var v, a, b := ViewsOf(s), order[j], order[k];
      assert Visible(v, a) && Holds(v[a], ledger[a].value) && Visible(v, b) && Holds(v[b], ledger[b].value);
      assert Live(v, a) && Live(v, b) && a != b;
    }
  }

  /** A record that no page has room for. */
  predicate TooLarge(x: Observation) {
    RECORD_HEADER + |Encoded(x)| > PAGE_BYTES - HEADER_BYTES
  }

  lemma VictimMarkable(r: Ram, s: seq<Sector>, ledger: Ledger, submitted: set<Observation>, completed: set<u64>,
                       own: u64, victim: u64)
    requires Consistent(r, s, ledger, submitted) && VictimRule(r.pages, completed, own, victim)
    requires forall i: nat :: i < |r.pages| ==> r.pages[i].valid
    ensures exists i :: 0 <= i < |r.pages| && r.pages[i].valid && r.pages[i].evictionMarkerWritable
              && r.pages[i].historyId == victim
  {
    hide Records, Used, ReadBack, ViewOf, Coherent;
  }

  /** A session's record as the log stores it under the given number. */
  function NextRecord(x: Observation, own: u64, sequence: nat): Observation {
    Stored(x.(historyId := own).(sequence := sequence))
  }

  function FirstRecord(x: Observation, own: nat): Observation {
    Stored(x.(kind := Start, historyId := own).(sequence := 0))
  }

  lemma FirstGrown(ledger: Ledger, c: nat, y: Observation)
    requires c < |ledger| && ledger[c].Some? && ledger[c].value.acked == []
    ensures GrownAt(ledger, Some(c), y) == ledger[c := Some(Promise(ledger[c].value.header, [y]))]
  {
    assert [] + [y] == [y];
  }

  lemma CodableStamp(x: Observation, kind: Kind, sequence: nat, own: nat)
    requires Codable(x)
    ensures Codable(x.(kind := kind, historyId := own)) && Codable(x.(historyId := own))
    ensures Codable(x.(sequence := sequence))
    ensures TooLarge(x.(kind := kind, historyId := own)) == TooLarge(x.(historyId := own)) == TooLarge(x)
  {
  }

  /** A fresh session id: nothing on flash or in the table belongs to it. */
  lemma OpenStep(r: Ram, s: seq<Sector>, ledger: Ledger, submitted: set<Observation>)
    requires Consistent(r, s, ledger, submitted) && r.nextHistoryId < 0x1_0000_0000_0000_0000
    ensures Consistent(r.(active := Some(r.nextHistoryId), nextHistoryId := r.nextHistoryId + 1, nextSequence := 0),
                       s, ledger, submitted)
    ensures OthersWhole(Standing(ledger, ViewsOf(s)), ledger, ViewsOf(s), r.nextHistoryId)
  {
    hide ViewOf, Records, Used, ReadBack, Durable;
    StillWhole(r, s, ledger, submitted, r.nextHistoryId);
    assert forall i: nat :: !Owns(ViewsOf(s), r.nextHistoryId, i);
    assert forall j: nat :: !Marks(r.pages, r.nextHistoryId, j);
  }

  lemma CloseStep(r: Ram, s: seq<Sector>, ledger: Ledger, submitted: set<Observation>)
    requires Consistent(r, s, ledger, submitted)
    ensures Consistent(r.(active := None), s, ledger, submitted)
    ensures Consistent(r.(active := None, current := None), s, ledger, submitted)
  {
    hide ViewOf, Records, Used, ReadBack, Coherent;
  }

  lemma PromiseSessions(r: Ram, s: seq<Sector>, ledger: Ledger, submitted: set<Observation>)
    requires Consistent(r, s, ledger, submitted)
    ensures forall i: nat :: i < |ledger| && ledger[i].Some? ==> ledger[i].value.header.historyId < r.nextHistoryId
  {
    hide ViewOf, Records, Used, ReadBack, Blank, Durable;
  }

  /** The next generation and the next history id are above every listed one. */
  predicate AllAhead(pages: Table, nextHistoryId: nat, nextGeneration: nat) {
    forall i :: 0 <= i < |pages| && pages[i].valid ==>
      pages[i].historyId < nextHistoryId && pages[i].generation < nextGeneration
  }

  /** Every promise survives with its page's identity and all its acknowledged records, in order. */
  ghost predicate KeptThrough(before: Ledger, after: Ledger) {
    |before| == |after|
    && forall i: nat :: i < |before| && before[i].Some? ==>
         after[i].Some? && after[i].value.header == before[i].value.header
         && before[i].value.acked <= after[i].value.acked && |after[i].value.acked| <= |before[i].value.acked| + 1
  }

  function Listed(pages: Table): nat {
    if pages == [] then 0 else (if pages[0].valid then 1 else 0) + Listed(pages[1..])
  }

  lemma {:induction false} FewerListed(was: Table, pages: Table, gone: nat)
    requires |was| == |pages| && forall i :: 0 <= i < |pages| ==> pages[i] == was[i] || !pages[i].valid
    ensures Listed(pages) <= Listed(was)
    ensures gone < |was| && was[gone].valid && !pages[gone].valid ==> Listed(pages) < Listed(was)
  {
    if |was| > 0 {
      FewerListed(was[1..], pages[1..], if gone > 0 then gone - 1 else |was|);
    }
  }

  lemma SyncScanned(pages: Table, s: seq<Sector>)
    requires InSync(pages, s, None)
    ensures Scanned(pages, ViewsOf(s))
  {
    hide Tombstoned, MarkerWritable, Records, Used, HeaderAt;
  }

  lemma SyncWritable(pages: Table, s: seq<Sector>, ledger: Ledger, submitted: set<Observation>)
    requires InSync(pages, s, None) && Durable(ViewsOf(s), ledger, submitted)
    ensures MarkersWritable(pages)
  {
    hide Tombstoned, MarkerWritable, Records, Used, HeaderAt, ReadBack;
    forall i | 0 <= i < |pages| && pages[i].valid
      ensures pages[i].evictionMarkerWritable
    {
      assert Live(ViewsOf(s), i);
    }
  }

  lemma BootStep(r: Ram, s: seq<Sector>, ledger: Ledger, none: Ledger, submitted: set<Observation>)
    requires InSync(r.pages, s, None) && AllAhead(r.pages, r.nextHistoryId, r.nextGeneration) && |s| > 0
    requires Durable(ViewsOf(s), ledger, submitted) && r.active == None && !r.full
    requires |none| == |s| && forall i :: 0 <= i < |none| ==> none[i] == None
    ensures Consistent(r, s, none, submitted)
  {
    hide ScanInfo, Durable, ViewOf;
    SyncWritable(r.pages, s, ledger, submitted);
    SyncScanned(r.pages, s);
    ScanCoherent(r.pages, ViewsOf(s), ledger, none, submitted);
  }

  lemma StillPromised(r: Ram, s: seq<Sector>, v: Views, promised: Ledger, none: Ledger, submitted: set<Observation>)
    requires Consistent(r, s, none, submitted) && Durable(v, promised, submitted) && SameExposed(v, ViewsOf(s))
    ensures Durable(ViewsOf(s), promised, submitted)
  {
    hide ViewOf, Records, Used, ReadBack;
  }

  lemma RecoveredStep(r: Ram, s: seq<Sector>, v: Views, promised: Ledger, none: Ledger, submitted: set<Observation>)
    requires Consistent(r, s, none, submitted) && Durable(v, promised, submitted) && SameExposed(v, ViewsOf(s))
    requires InSync(r.pages, s, None) && r.active == None && forall h :: !Pending(r.pages, h)
    ensures Consistent(r.(full := true), s, Recovered(ViewsOf(s)), submitted)
    ensures Durable(ViewsOf(s), Recovered(ViewsOf(s)), submitted)
    ensures KeptThrough(promised, Recovered(ViewsOf(s)))
    ensures forall g :: !Doomed(ViewsOf(s), g)
  {
    hide ScanInfo, ReadBack, Records, Used;
    var w := ViewsOf(s);
    StillPromised(r, s, v, promised, none, submitted);
    SyncScanned(r.pages, s);
    RecoveredCoherent(r.pages, w, none, submitted);
    RecoveredReadable(r.pages, s);
    FullRecovered(r.pages, w);
    assert forall i: nat :: i < |promised| && promised[i].Some? ==> Visible(w, i) && Holds(w[i], promised[i].value);
  }

  lemma RecoveredReadable(pages: Table, s: seq<Sector>)
    requires InSync(pages, s, None)
    ensures Readable(pages, s, Recovered(ViewsOf(s)))
  {
    hide Tombstoned, MarkerWritable, Records, Used, HeaderAt, ReadBack;
    forall i: nat | i < |s| && Recovered(ViewsOf(s))[i].Some?
      ensures pages[i].used <= PAGE_BYTES
      ensures ReadBack(s[i], HEADER_BYTES, pages[i].used) == Some(Recovered(ViewsOf(s))[i].value.acked)
    {
      ReadBackAll(s[i], HEADER_BYTES);
    }
  }

  /** A promise with one more acknowledged record. */
  function Grown(promise: Promise, y: Observation): Promise {
    promise.(acked := promise.acked + [y])
  }

  function GrownAt(ledger: Ledger, current: Option<nat>, y: Observation): Ledger {
    if current.Some? && current.value < |ledger| && ledger[current.value].Some?
    then ledger[current.value := Some(Grown(ledger[current.value].value, y))]
    else ledger
  }

  /** What the page in sector `i` with header `h` had acknowledged before. */
  function PriorAcks(before: Ledger, h: PageHeader, i: nat): seq<Observation> {
    if i < |before| && before[i].Some? && before[i].value.header == h then before[i].value.acked else []
  }

  /** The session's current page takes one more record of the given size. */
  predicate HasRoom(pages: Table, current: Option<nat>, own: u64, size: nat) {
    current.Some? && current.value < |pages| && pages[current.value].valid && pages[current.value].historyId == own
    && pages[current.value].used + RECORD_HEADER + size <= PAGE_BYTES
  }

  /** A record that fits a page, but not the current one: a page has to be allocated for it. */
  predicate NeedsPage(pages: Table, current: Option<nat>, own: u64, y: Observation) {
    !TooLarge(y) && !HasRoom(pages, current, own, |Encoded(y)|)
  }

  lemma StoredSize(y: Observation)
    ensures |Encoded(Stored(y))| == |Encoded(y)|
  {
    hide Encoded;
  }

  /** What is promised of one page is as before, or has grown by the acknowledged record. */
  predicate KeptOrGrown(before: Option<Promise>, after: Option<Promise>, y: Observation, grows: bool) {
    after == before || (grows && before.Some? && after == Some(Grown(before.value, y)))
  }

  /**
   * Promises before and after one append for `own` that took `consulted` for the completed sessions:
   * nothing is lost unless a page had to be allocated.
   */
  ghost predicate AppendEffect(pages: Table, was: Option<nat>, before: Ledger, after: Ledger, current: Option<nat>,
                               own: u64, y: Observation, ok: bool, consulted: set<u64>) {
    |before| == |after|
    && (!NeedsPage(pages, was, own, y) ==>
          (ok ==> current == was)
          && forall i: nat :: i < |after| ==> KeptOrGrown(before[i], after[i], y, ok && current == Some(i)))
    && (forall g, i: nat :: g != own && PromisedTo(before, g, i) && after[i] != before[i] ==>
          VictimRule(pages, consulted, own, g))
    && (forall i: nat :: PromisedTo(before, own, i) ==>
          OldestOfAll(pages, i, own) || KeptOrGrown(before[i], after[i], y, ok && current == Some(i)))
    && (forall i: nat :: i < |after| && !(ok && current == Some(i)) ==>
          after[i] == before[i] || after[i] == None || (PromisedTo(after, own, i) && after[i].value.acked == []))
    && (ok ==> current.Some? && PromisedTo(after, own, current.value)
               && after[current.value].value.acked
                  == PriorAcks(before, after[current.value].value.header, current.value) + [y])
  }

  /** Allocation, if any, then one record: `mid` is the ledger between the two. */
  lemma AppendCombined(pages: Table, was: Option<nat>, before: Ledger, mid: Ledger, after: Ledger, c: nat, isNew: bool,
                       own: u64, y: Observation, ok: bool, consulted: set<u64>)
    requires |before| == |mid| == |after| && c < |mid| && OwnKept(pages, before, mid, own)
    requires !NeedsPage(pages, was, own, y) ==> was == Some(c) && mid == before && !isNew
    requires forall g, i: nat :: g != own && PromisedTo(before, g, i) && mid[i] != before[i] ==>
               VictimRule(pages, consulted, own, g)
    requires forall i: nat :: i < |mid| && !(isNew && i == c) ==> mid[i] == before[i] || mid[i] == None
    requires PromisedTo(mid, own, c)
    requires isNew ==> mid[c].value.acked == []
                       && (before[c].Some? ==> before[c].value.header != mid[c].value.header)
    requires after == if ok then mid[c := Some(Grown(mid[c].value, y))] else mid
    ensures AppendEffect(pages, was, before, after, if ok then Some(c) else None, own, y, ok, consulted)
  {
    hide VictimRule, OldestOfAll, NeedsPage;
    if isNew {
      assert PriorAcks(before, mid[c].value.header, c) == [];
    } else {
      assert before[c] == mid[c];
    }
  }

  lemma NotAppended(pages: Table, was: Option<nat>, before: Ledger, after: Ledger, current: Option<nat>, own: u64,
                    y: Observation, consulted: set<u64>)
    requires |before| == |after| && OwnKept(pages, before, after, own)
    requires !NeedsPage(pages, was, own, y) ==> after == before
    requires forall g, i: nat :: g != own && PromisedTo(before, g, i) && after[i] != before[i] ==>
               VictimRule(pages, consulted, own, g)
    requires forall i: nat :: i < |after| ==> after[i] == before[i] || after[i] == None
    ensures AppendEffect(pages, was, before, after, current, own, y, false, consulted)
  {
    hide VictimRule, OldestOfAll, NeedsPage;
  }

  /** An acknowledged record has a page; without one, the place does not matter. */
  lemma AppendPlace(pages: Table, was: Option<nat>, before: Ledger, after: Ledger, current: Option<nat>, own: u64,
                    y: Observation, ok: bool, consulted: set<u64>)
    requires AppendEffect(pages, was, before, after, current, own, y, ok, consulted)
    ensures ok ==> current.Some?
    ensures !ok ==> forall at :: AppendEffect(pages, was, before, after, Some(at), own, y, false, consulted)
  {
    hide VictimRule, OldestOfAll, NeedsPage;
  }

  lemma NumberedRecord(x: Observation, own: u64, sequence: nat)
    ensures NextRecord(x, own, sequence) == Stored(x.(historyId := own).(sequence := sequence))
  {
  }

  lemma PromiseAge(r: Ram, s: seq<Sector>, ledger: Ledger, submitted: set<Observation>)
    requires Consistent(r, s, ledger, submitted)
    ensures forall i: nat :: i < |ledger| && ledger[i].Some? ==> ledger[i].value.header.generation < r.nextGeneration
  {
    hide ViewOf, Records, Used, ReadBack, Blank, Durable;
  }

  lemma TargetPromised(r: Ram, s: seq<Sector>, c: nat, ledger: Ledger, submitted: set<Observation>)
    requires Consistent(r, s, ledger, submitted) && AppendTarget(r, c)
    ensures PromisedTo(ledger, r.pages[c].historyId, c)
  {
    hide ViewOf, Records, Used, ReadBack, Blank, Coherent;
    assert Ready(r, s, ledger, c);
  }

  lemma RoomToWrite(r: Ram, s: seq<Sector>, c: nat, ledger: Ledger, submitted: set<Observation>)
    requires Consistent(r, s, ledger, submitted) && AppendTarget(r, c)
    ensures c < |s| == |r.pages| && Used(s[c], HEADER_BYTES) == r.pages[c].used <= PAGE_BYTES
    ensures Blank(s[c], r.pages[c].used, PAGE_BYTES)
  {
    hide ViewOf, Records, Used, ReadBack, Blank, Coherent;
    assert Ready(r, s, ledger, c);
  }

  lemma AddedIsWritten(r: Ram, s: seq<Sector>, t: seq<Sector>, c: nat, y: Observation, ok: bool,
                       ledger: Ledger, submitted: set<Observation>)
    requires Consistent(r, s, ledger, submitted) && AppendTarget(r, c)
    requires c < |s| == |t| && t == s[c := t[c]] && RecordAdded(s[c], t[c], r.pages[c].used, y, ok)
    ensures Written(s, t, c, r.pages[c].used, y) && r.active == Some(r.pages[c].historyId)
    ensures Owns(ViewsOf(s), r.pages[c].historyId, c) && Owns(ViewsOf(t), r.pages[c].historyId, c)
    ensures c < |ledger| && PromisedTo(ledger, r.pages[c].historyId, c)
  {
    hide Records, Used, ReadBack, HeaderAt, TombstoneWord, MarkerWritable, IsEvictionMarkerState, Consistent;
    SameLength(r, s, ledger, submitted);
    TargetFacts(r, s, c, ledger, submitted);
  }

  lemma AppendAbandoned(r: Ram, s: seq<Sector>, t: seq<Sector>, c: nat, y: Observation, before: Standing,
                        ledger: Ledger, submitted: set<Observation>, own: u64)
    requires Consistent(r, s, ledger, submitted) && AppendTarget(r, c) && r.active == Some(own)
    requires c < |s| == |t| && t == s[c := t[c]] && RecordAdded(s[c], t[c], r.pages[c].used, y, false)
    requires y in submitted && y.historyId == own && y.sequence == r.nextSequence
    requires |before.ledger| == |ledger| && OthersWhole(before, ledger, ViewsOf(s), own)
    ensures Consistent(r.(nextSequence := r.nextSequence + 1, current := None), t, ledger, submitted)
    ensures OthersWhole(before, ledger, ViewsOf(t), own)
  {
    hide Consistent, ViewsOf, RecordAdded, OthersWhole, Written;
    SameLength(r, s, ledger, submitted);
    AddedIsWritten(r, s, t, c, y, false, ledger, submitted);
    AbandonStep(r, s, t, c, y, ledger, submitted);
    OthersStep(before, ledger, ledger, ViewsOf(s), ViewsOf(t), c, own);
  }

  lemma AppendDone(r: Ram, s: seq<Sector>, t: seq<Sector>, c: nat, y: Observation, used: nat, before: Standing,
                   ledger: Ledger, submitted: set<Observation>, own: u64)
    requires Consistent(r, s, ledger, submitted) && AppendTarget(r, c) && r.active == Some(own)
    requires c < |s| == |t| && t == s[c := t[c]] && RecordAdded(s[c], t[c], r.pages[c].used, y, true)
    requires Used(t[c], HEADER_BYTES) == used <= PAGE_BYTES && Blank(t[c], used, PAGE_BYTES)
    requires y in submitted && y.historyId == own && y.sequence == r.nextSequence
    requires |before.ledger| == |ledger| && OthersWhole(before, ledger, ViewsOf(s), own)
    ensures c < |ledger| && ledger[c].Some?
    ensures var later := ledger[c := Some(Grown(ledger[c].value, y))];
            Consistent(r.(nextSequence := r.nextSequence + 1, pages := r.pages[c := r.pages[c].(used := used)]),
                       t, later, submitted)
            && OthersWhole(before, later, ViewsOf(t), own)
  {
    hide Consistent, ViewsOf, OthersWhole, Written, Records, Used, Blank;
    SameLength(r, s, ledger, submitted);
    AddedIsWritten(r, s, t, c, y, true, ledger, submitted);
    AppendStep(r, s, t, c, y, used, ledger, submitted);
    OthersStep(before, ledger, ledger[c := Some(Grown(ledger[c].value, y))], ViewsOf(s), ViewsOf(t), c, own);
  }

  lemma AppendSync(pages: Table, s: seq<Sector>, t: seq<Sector>, c: nat, at: nat, y: Observation, used: nat)
    requires c < |pages| == |s| == |t| && t == s[c := t[c]] && RecordAdded(s[c], t[c], at, y, true)
    requires Used(t[c], HEADER_BYTES) == used
    ensures InSync(pages, s, None) ==> InSync(pages[c := pages[c].(used := used)], t, None)
  {
    hide HeaderAt, TombstoneWord, Used, Records;
  }

  /** The record behind offset `at` is there whole, or not at all; nothing in front of it changed. */
  predicate RecordAdded(before: Sector, after: Sector, at: nat, x: Observation, ok: bool) {
    at <= PAGE_BYTES && Agree(before, after, 0, at)
    && HeaderAt(after) == HeaderAt(before) && TombstoneWord(after) == TombstoneWord(before)
    && (Records(after, HEADER_BYTES) == Records(before, HEADER_BYTES) + [x]
        || (!ok && Records(after, HEADER_BYTES) == Records(before, HEADER_BYTES)))
  }

  lemma HeaderStage(s0: Sector, s1: Sector, at: nat, image: seq<byte>, ok: bool, x: Observation)
    requires Used(s0, HEADER_BYTES) == at && at + RECORD_HEADER <= PAGE_BYTES && Blank(s0, at, PAGE_BYTES)
    requires |image| == 36 && Programs(s0, s1, at, image, ok)
    ensures RecordAdded(s0, s1, at, x, false)
    ensures ok ==> s1[at..at + 36] == image && Agree(s0, s1, 0, at) && Blank(s1, at + 36, PAGE_BYTES)
  {
    hide HeaderAt, Records, Used, TombstoneWord;
    RecordTorn(s0, s1, at);
    if ok {
      ProgramsBlank(s0, s1, at, image);
    }
  }

  lemma PayloadStage(s0: Sector, s1: Sector, s2: Sector, at: nat, image: seq<byte>, payload: seq<byte>,
                     ok: bool, x: Observation)
    requires Used(s0, HEADER_BYTES) == at && at + RECORD_HEADER + |payload| <= PAGE_BYTES
    requires |image| == 36 && s1[at..at + 36] == image && Agree(s0, s1, 0, at) && Blank(s1, at + 36, PAGE_BYTES)
    requires Programs(s1, s2, at + RECORD_HEADER, payload, ok)
    ensures RecordAdded(s0, s2, at, x, false)
    ensures ok ==> s2[at..at + 36] == image && s2[at + RECORD_HEADER..at + RECORD_HEADER + |payload|] == payload
    ensures ok ==> Agree(s0, s2, 0, at) && Blank(s2, at + 36, at + 40)
                   && Blank(s2, at + RECORD_HEADER + |payload|, PAGE_BYTES)
  {
    hide HeaderAt, Records, Used, TombstoneWord;
    RecordTorn(s0, s2, at);
    if ok {
      ProgramsBlank(s1, s2, at + RECORD_HEADER, payload);
      assert s2[at..at + 36] == s1[at..at + 36];
    }
  }

  lemma CommitStage(s0: Sector, s2: Sector, s3: Sector, at: nat, x: Observation, payload: seq<byte>, ok: bool)
    requires Stampable(x) && payload == Encoded(x) && |payload| < 0x1_0000 && Codable(x)
    requires Used(s0, HEADER_BYTES) == at && at + RECORD_HEADER + |payload| <= PAGE_BYTES
    requires s2[at..at + 36] == RecordImage(x, payload) && Agree(s0, s2, 0, at)
    requires s2[at + RECORD_HEADER..at + RECORD_HEADER + |payload|] == payload
    requires Blank(s2, at + 36, at + 40) && Blank(s2, at + RECORD_HEADER + |payload|, PAGE_BYTES)
    requires Programs(s2, s3, at + 36, Le32(COMMIT_MARKER), ok)
    ensures RecordAdded(s0, s3, at, Stored(x), ok)
    ensures ok ==> Used(s3, HEADER_BYTES) == at + RECORD_HEADER + |payload|
    ensures Blank(s3, at + RECORD_HEADER + |payload|, PAGE_BYTES)
  {
    hide HeaderAt, Records, Used, TombstoneWord, RecordImage, Encoded, Codable, Stored, Le32, Programs, Get32;
    CommitStored(s2, s3, at + 36, ok);
    assert s3[at..at + 36] == s2[at..at + 36] by {
      SubSlice(s2, 0, at + 36, at, at + 36);
    }
    var n := at + RECORD_HEADER;
    assert s3[n..n + |payload|] == s2[n..n + |payload|];
    RecordCommitted(s0, s3, at, x, payload);
  }

  /** The selected sector is erased, with any outcome. */
  lemma AllocErase(r: Ram, s: seq<Sector>, t: seq<Sector>, c: nat, before: Standing, ledger: Ledger,
                   submitted: set<Observation>, own: u64)
    requires Consistent(r, s, ledger, submitted) && Reusable(r.pages, ledger, c)
    requires c < |s| == |t| && t == s[c := t[c]] && (t[c] == ERASED || CutErase(s[c], t[c]))
    requires |before.ledger| == |ledger| && OthersWhole(before, ledger, ViewsOf(s), own)
    ensures Consistent(r, t, ledger, submitted) && OthersWhole(before, ledger, ViewsOf(t), own)
    ensures t[c] == ERASED ==> ViewOf(t[c]) == Dead
  {
    hide ViewOf, Records, Used, ReadBack, Durable, CutErase, OthersWhole;
    SameLength(r, s, ledger, submitted);
    ErasedViews(s[c], t[c]);
    OneSector(s, c, t[c]);
    ReuseErase(r.pages, ViewsOf(s), ViewsOf(t), c, ledger, submitted);
    assert r.pages[c].valid ==> Pending(r.pages, r.pages[c].historyId);
    TombstonePending(r.pages, ViewsOf(s), c, ledger, submitted);
    QuietErase(r, s, t, c, ledger, submitted);
    OthersStep(before, ledger, ledger, ViewsOf(s), ViewsOf(t), c, own);
  }

  /** The header of a page for `own` is written there, committed or not. */
  lemma AllocHeader(r: Ram, s: seq<Sector>, t: seq<Sector>, c: nat, p: PageInfo, before: Standing, ledger: Ledger,
                    submitted: set<Observation>, own: u64)
    requires Consistent(r, s, ledger, submitted) && Reusable(r.pages, ledger, c) && c < |s| == |t| && t == s[c := t[c]]
    requires ViewOf(s[c]) == Dead && OthersWhole(before, ledger, ViewsOf(s), own) && |before.ledger| == |ledger|
    requires FreshSector(t[c], Identity(p)) || (HeaderAt(t[c]) == None && !p.valid)
    requires r.active == Some(own) && p.historyId == own && p.generation == r.nextGeneration
    requires !p.evictionMarker && p.evictionMarkerWritable && p.used == HEADER_BYTES
    ensures var later := ledger[c := if p.valid then Some(Promise(Identity(p), [])) else None];
            Consistent(r.(pages := r.pages[c := p], nextGeneration := r.nextGeneration + 1,
                          current := if p.valid then Some(c) else r.current), t, later, submitted)
            && OthersWhole(before, later, ViewsOf(t), own)
  {
    hide Records, Used, ReadBack, Consistent, OthersWhole, FreshSector, HeaderAt;
    SameLength(r, s, ledger, submitted);
    if FreshSector(t[c], Identity(p)) {
      FreshView(t[c], Identity(p));
    }
    OneSector(s, c, t[c]);
    FreshStep(r, s, t, c, p, ledger, submitted);
    var later := ledger[c := if p.valid then Some(Promise(Identity(p), [])) else None];
    OthersStep(before, ledger, later, ViewsOf(s), ViewsOf(t), c, own);
  }

  lemma AllocSync(pages: Table, s: seq<Sector>, t: seq<Sector>, c: nat, p: PageInfo)
    requires c < |pages| == |s| == |t| && t == s[c := t[c]] && FreshSector(t[c], Identity(p))
    requires p == PageInfo(p.generation, p.historyId, p.pageIndex, HEADER_BYTES, true, false, true)
    ensures InSync(pages, s, Some(c)) ==> InSync(pages[c := p], t, None)
  {
    hide ScanInfo;
    FreshView(t[c], Identity(p));
  }

  lemma ErasedSync(pages: Table, s: seq<Sector>, t: seq<Sector>, c: nat)
    requires c < |pages| == |s| == |t| && t == s[c := t[c]]
    ensures InSync(pages, s, Some(c)) ==> InSync(pages, t, Some(c))
  {
    hide ScanInfo;
  }

  lemma ReusableListed(pages: Table, ledger: Ledger, c: nat)
    requires Reusable(pages, ledger, c)
    ensures c < |pages| == |ledger| && ledger[c] == None
  {
  }

  lemma RelaxSync(pages: Table, s: seq<Sector>, except: Option<nat>)
    ensures InSync(pages, s, None) ==> InSync(pages, s, except)
  {
  }

  lemma ClaimedSync(pages: Table, s: seq<Sector>, c: nat)
    requires c < |pages|
    ensures InSync(pages, s, None) ==> InSync(pages[c := pages[c].(valid := false)], s, Some(c))
  {
    hide ScanInfo;
  }

  lemma StillWhole(r: Ram, s: seq<Sector>, ledger: Ledger, submitted: set<Observation>, own: u64)
    requires Consistent(r, s, ledger, submitted)
    ensures OthersWhole(Standing(ledger, ViewsOf(s)), ledger, ViewsOf(s), own)
  {
    hide ViewOf, Records, Used, ReadBack;
    UntouchedOthers(ledger, ViewsOf(s), own);
  }

  lemma UnlistedUnpromised(r: Ram, s: seq<Sector>, c: nat, ledger: Ledger, submitted: set<Observation>)
    requires Consistent(r, s, ledger, submitted) && c < |r.pages| && !r.pages[c].valid
    ensures Reusable(r.pages, ledger, c)
  {
    hide ViewOf, Records, Used, ReadBack, Durable;
  }

  lemma PromiseOwner(r: Ram, s: seq<Sector>, c: nat, ledger: Ledger, submitted: set<Observation>)
    requires Consistent(r, s, ledger, submitted) && c < |r.pages|
    ensures ledger[c] == None || PromisedTo(ledger, r.pages[c].historyId, c)
  {
    hide ViewOf, Records, Used, ReadBack, Durable;
  }

  lemma OthersClaimed(ledger: Ledger, w: Views, c: nat, own: u64)
    requires c < |ledger| && (ledger[c] == None || PromisedTo(ledger, own, c))
    ensures OthersWhole(Standing(ledger, w), ledger[c := None], w, own)
  {
    var later := ledger[c := None];
    assert forall g: u64 :: g != own ==> SessionKept(ledger, later, g);
  }

  lemma MarkedIsPending(pages: Table, session: u64, m: nat)
    requires FirstMark(pages, session, m)
    ensures Pending(pages, session)
  {
  }

  predicate HasEnd(records: seq<Observation>) {
    exists k :: 0 <= k < |records| && records[k].kind.End?
  }

  predicate Ends(pages: Table, s: seq<Sector>, i: nat, session: u64)
    requires i < |pages| == |s|
  {
    pages[i].historyId == session
    && match ReadBack(s[i], HEADER_BYTES, pages[i].used) case None => false case Some(rs) => HasEnd(rs)
  }

  function PageOwners(pages: Table): set<u64> {
    set i | 0 <= i < |pages| :: pages[i].historyId
  }

  /** The sessions that one of the first `n` pages shows to have ended. */
  ghost function EndedIn(pages: Table, s: seq<Sector>, n: nat): set<u64>
    requires n <= |pages| == |s|
  {
    set g | g in PageOwners(pages) && exists i :: 0 <= i < n && Ends(pages, s, i, g)
  }

  /** One of the first `n` pages cannot be read back. */
  predicate Unreadable(pages: Table, s: seq<Sector>, n: nat)
    requires n <= |pages| == |s|
  {
    exists i :: 0 <= i < n && ReadBack(s[i], HEADER_BYTES, pages[i].used) == None
  }

  /**
   * The sessions taken as completed are those that have ended, unless damage was counted, because a
   * flash call failed or a page cannot be read back.
   */
  ghost predicate Knows(pages: Table, s: seq<Sector>, completed: set<u64>, damaged: bool, failed: bool) {
    |pages| == |s|
    && (completed == EndedIn(pages, s, |pages|) || (damaged && (failed || Unreadable(pages, s, |pages|))))
  }

  lemma KnowsLater(pages: Table, s: seq<Sector>, completed: set<u64>, damaged: bool, failed: bool, later: bool)
    requires failed ==> later
    ensures Knows(pages, s, completed, damaged, failed) ==> Knows(pages, s, completed, damaged, later)
  {
  }

  lemma EndedStep(pages: Table, s: seq<Sector>, n: nat, records: seq<Observation>)
    requires n < |pages| == |s| && ReadBack(s[n], HEADER_BYTES, pages[n].used) == Some(records)
    ensures EndedIn(pages, s, n + 1)
         == EndedIn(pages, s, n) + if HasEnd(records) then {pages[n].historyId} else {}
  {
    hide ReadBack;
    var fewer, more := EndedIn(pages, s, n), EndedIn(pages, s, n + 1);
    if HasEnd(records) {
      assert Ends(pages, s, n, pages[n].historyId) && pages[n].historyId in PageOwners(pages);
    }
    forall g
      ensures g in more <==> g in fewer + if HasEnd(records) then {pages[n].historyId} else {}
    {
      if g in more {
        var i :| 0 <= i < n + 1 && Ends(pages, s, i, g);
      }
    }
  }

  /** A session with an acknowledged End counts as ended. */
  lemma EndsAreAcked(r: Ram, s: seq<Sector>, ledger: Ledger, submitted: set<Observation>)
    requires Consistent(r, s, ledger, submitted)
    ensures |r.pages| == |s| == |ledger|
    ensures forall i: nat, x :: i < |ledger| && ledger[i].Some? && x in ledger[i].value.acked && x.kind == End ==>
              r.pages[i].historyId in EndedIn(r.pages, s, |r.pages|)
  {
    hide ViewOf, Records, Used, ReadBack, Durable, Full;
    forall i: nat, x | i < |ledger| && ledger[i].Some? && x in ledger[i].value.acked && x.kind == End
      ensures r.pages[i].historyId in EndedIn(r.pages, s, |r.pages|)
    {
      assert Ends(r.pages, s, i, r.pages[i].historyId);
    }
  }

  lemma EndsAreRead(pages: Table, s: seq<Sector>)
    requires |pages| == |s|
    ensures forall g :: g in EndedIn(pages, s, |pages|) ==>
              exists i: nat, r :: i < |pages| && pages[i].historyId == g
                && ReadBack(s[i], HEADER_BYTES, pages[i].used).Some?
                && r in ReadBack(s[i], HEADER_BYTES, pages[i].used).value && r.kind == End
  {
    hide ReadBack;
    forall g | g in EndedIn(pages, s, |pages|)
      ensures exists i: nat, r :: i < |pages| && pages[i].historyId == g
                && ReadBack(s[i], HEADER_BYTES, pages[i].used).Some?
                && r in ReadBack(s[i], HEADER_BYTES, pages[i].used).value && r.kind == End
    {
      var i: nat :| i < |pages| && Ends(pages, s, i, g);
      var rs := ReadBack(s[i], HEADER_BYTES, pages[i].used).value;
      var k :| 0 <= k < |rs| && rs[k].kind.End?;
      assert rs[k] in rs && rs[k].kind == End;
    }
  }

  /** Some promised page of the session has an acknowledged End. */
  ghost predicate AckedEnd(ledger: Ledger, session: u64) {
    exists i: nat, x :: PromisedTo(ledger, session, i) && x in ledger[i].value.acked && x.kind == End
  }

  /** All listed pages of a promised session are promised, as listed and as they read back. */
  lemma PromisedPages(r: Ram, s: seq<Sector>, ledger: Ledger, submitted: set<Observation>, session: u64, i: nat)
    requires Consistent(r, s, ledger, submitted) && r.full && PromisedTo(ledger, session, i)
    ensures |r.pages| == |s| == |ledger|
    ensures forall k: nat :: k < |r.pages| && r.pages[k].valid && r.pages[k].historyId == session ==>
              PromisedTo(ledger, session, k) && ledger[k].value.header.generation == r.pages[k].generation
              && ReadBack(s[k], HEADER_BYTES, r.pages[k].used) == Some(ledger[k].value.acked)
    ensures forall k: nat :: PromisedTo(ledger, session, k) ==> r.pages[k].valid && r.pages[k].historyId == session
  {
    hide ViewOf, Records, Used, ReadBack;
    assert Visible(ViewsOf(s), i);
    assert r.pages[i].historyId == session;
  }

  /** A session that is still promised counts as ended exactly if its End was acknowledged. */
  lemma EndedMeans(r: Ram, s: seq<Sector>, ledger: Ledger, submitted: set<Observation>, session: u64, i: nat)
    requires Consistent(r, s, ledger, submitted) && r.full && PromisedTo(ledger, session, i)
    requires forall k: nat :: k < |r.pages| ==> r.pages[k].valid
    ensures |r.pages| == |s| && (session in EndedIn(r.pages, s, |r.pages|) <==> AckedEnd(ledger, session))
  {
    hide ViewOf, Records, Used, ReadBack, Durable, Consistent;
    PromisedPages(r, s, ledger, submitted, session, i);
    EndsAreAcked(r, s, ledger, submitted);
    EndsAreRead(r.pages, s);
  }

  /** The victim has ended if any other session has, and was the oldest eligible one of its kind. */
  lemma VictimsKind(pages: Table, completed: set<u64>, own: u64, victim: u64, j: nat)
    returns (onlyCompleted: bool)
    requires VictimRule(pages, completed, own, victim) && j < |pages| && pages[j].historyId != own
    ensures pages[j].historyId in completed ==> victim in completed
    ensures (pages[j].historyId in completed <==> victim in completed) ==>
              OldestEligible(pages, completed, onlyCompleted, own, victim) && Eligible(pages[j], completed, onlyCompleted, own)
  {
    onlyCompleted := OldestEligible(pages, completed, true, own, victim);
  }

  /** What the oldest eligible session owns is promised, and older than any promised page of another one. */
  lemma OldestPromised(r: Ram, s: seq<Sector>, ledger: Ledger, submitted: set<Observation>, completed: set<u64>,
                       onlyCompleted: bool, own: u64, victim: u64, i: nat, j: nat)
    requires Consistent(r, s, ledger, submitted) && r.full && PromisedTo(ledger, victim, i)
    requires forall k: nat :: k < |r.pages| ==> r.pages[k].valid
    requires OldestEligible(r.pages, completed, onlyCompleted, own, victim)
    requires j < |ledger| && ledger[j].Some? && j < |r.pages| && Eligible(r.pages[j], completed, onlyCompleted, own)
    ensures exists q: nat :: PromisedTo(ledger, victim, q)
              && ledger[q].value.header.generation <= ledger[j].value.header.generation
  {
    hide ViewOf, Records, Used, ReadBack, Durable, Consistent;
    PromisedPages(r, s, ledger, submitted, victim, i);
    PromisedPages(r, s, ledger, submitted, ledger[j].value.header.historyId, j);
    var q :| 0 <= q < |r.pages| && r.pages[q].historyId == victim && Eligible(r.pages[q], completed, onlyCompleted, own)
      && forall k :: 0 <= k < |r.pages| && Eligible(r.pages[k], completed, onlyCompleted, own) ==>
           r.pages[q].generation <= r.pages[k].generation;
    assert PromisedTo(ledger, victim, q);
  }

  lemma StrikeVictim(r: Ram, s: seq<Sector>, victim: u64, ledger: Ledger, submitted: set<Observation>)
    requires Consistent(r, s, ledger, submitted) && r.active != Some(victim)
    ensures Consistent(r.(full := false), s, Strike(ledger, victim), submitted)
    ensures forall i: nat :: i < |s| && r.pages[i].valid && r.pages[i].historyId == victim ==> Strike(ledger, victim)[i] == None
  {
    hide Records, Used, ReadBack, ViewOf, Durable;
    forall c: nat | AppendTarget(r, c)
      ensures Strike(ledger, victim)[c] == ledger[c]
    {
      assert Ready(r, s, ledger, c);
    }
    QuietDrop(r, s, ledger, Strike(ledger, victim), submitted);
  }

  /** The promises once a tombstone was programmed, with any outcome. */
  ghost function AfterMarking(ledger: Ledger, t: seq<Sector>, victim: u64): (fewer: Ledger)
    ensures |fewer| == |ledger|
  {
    if Doomed(ViewsOf(t), victim) then Strike(ledger, victim) else ledger
  }

  /** A mark that took keeps the invariant without the victim's promises; one that did not changed nothing. */
  lemma MarkedPromises(r: Ram, s: seq<Sector>, t: seq<Sector>, p: nat, own: u64, ok: bool, readBack: bool,
                       ledger: Ledger, submitted: set<Observation>)
    requires Consistent(r, s, ledger, submitted) && p < |s| == |t| == |r.pages| && t == s[p := t[p]]
    requires forall i: nat :: i < |s| ==> r.pages[i].valid
    requires r.active == Some(own) && own != r.pages[p].historyId && !Pending(r.pages, r.pages[p].historyId)
    requires Programs(s[p], t[p], 36, Le32(EVICTION_MARKER), ok)
    ensures var victim := r.pages[p].historyId;
            var q := AfterMark(r.pages, p, readBack, Tombstoned(t[p]), MarkerWritable(TombstoneWord(t[p])));
            Consistent(r.(pages := q), t, AfterMarking(ledger, t, victim), submitted)
            && OthersWhole(Standing(ledger, ViewsOf(s)), AfterMarking(ledger, t, victim), ViewsOf(t), own)
            && (readBack && Tombstoned(t[p]) ==> FirstMark(q, victim, p))
            && (Doomed(ViewsOf(t), victim) || (t == s && q == r.pages))
            && (ok ==> Tombstoned(t[p]))
  {
    hide Consistent, ViewsOf, Programs, OthersWhole, HeaderAt, Tombstoned, MarkerWritable, TombstoneWord, Strike,
         FirstMark, Doomed, Pending;
    var victim, q := r.pages[p].historyId,
                     AfterMark(r.pages, p, readBack, Tombstoned(t[p]), MarkerWritable(TombstoneWord(t[p])));
    StrikeVictim(r, s, victim, ledger, submitted);
    MarkedStep(r.(full := false), s, t, p, ok, readBack, Strike(ledger, victim), submitted);
    if Doomed(ViewsOf(t), victim) {
      MarkedOthers(r, s, t, p, own, ledger, submitted, ok);
      StruckElsewhere(r, s, victim, ledger, submitted);
      StillFull(r, s, t, q, victim, ledger, submitted);
    } else {
      NotMarked(r, s, p, ledger, submitted);
      assert r.pages[p].(evictionMarker := false, evictionMarkerWritable := true) == r.pages[p];
      assert r.pages[p := r.pages[p]] == r.pages;
      assert r.(pages := r.pages) == r;
      StillWhole(r, s, ledger, submitted, own);
    }
  }

  /** Striking the victim leaves the promises of the listed pages of all other sessions. */
  lemma StruckElsewhere(r: Ram, s: seq<Sector>, victim: u64, ledger: Ledger, submitted: set<Observation>)
    requires Consistent(r, s, ledger, submitted)
    ensures |r.pages| == |ledger|
    ensures forall i: nat :: i < |r.pages| && r.pages[i].valid && r.pages[i].historyId != victim ==>
              Strike(ledger, victim)[i] == ledger[i]
  {
    hide ViewOf, Records, Used, ReadBack, Durable;
  }

  lemma StillFull(r: Ram, s: seq<Sector>, t: seq<Sector>, q: Table, victim: u64, ledger: Ledger, submitted: set<Observation>)
    requires Consistent(r, s, ledger, submitted) && |t| == |s| && Doomed(ViewsOf(t), victim)
    requires Consistent(r.(full := false, pages := q), t, Strike(ledger, victim), submitted)
    requires |q| == |r.pages| == |ledger|
    requires forall i: nat :: i < |q| ==> q[i].valid == r.pages[i].valid && q[i].historyId == r.pages[i].historyId
    requires forall g :: g != victim ==> (Doomed(ViewsOf(t), g) <==> Doomed(ViewsOf(s), g))
    requires forall g :: g != victim ==> (Pending(q, g) <==> Pending(r.pages, g))
    requires forall i: nat :: i < |q| && q[i].valid && q[i].historyId != victim ==> Strike(ledger, victim)[i] == ledger[i]
    ensures Consistent(r.(pages := q), t, Strike(ledger, victim), submitted)
  {
    hide ViewOf, Records, Used, ReadBack, Durable, Coherent, Strike, Doomed, Pending;
    if r.full {
      FullMarked(r.pages, q, ViewsOf(s), ViewsOf(t), victim, ledger, Strike(ledger, victim));
    }
    var u := r.(full := false, pages := q);
    forall c: nat | AppendTarget(r.(pages := q), c)
      ensures Ready(r.(pages := q), t, Strike(ledger, victim), c)
    {
      assert AppendTarget(u, c) && Ready(u, t, Strike(ledger, victim), c);
    }
  }

  /** A page of a session without a tombstone on flash reads back as the table has it. */
  lemma NotMarked(r: Ram, s: seq<Sector>, p: nat, ledger: Ledger, submitted: set<Observation>)
    requires Consistent(r, s, ledger, submitted) && p < |s| && r.pages[p].valid
    requires !Pending(r.pages, r.pages[p].historyId) && !Doomed(ViewsOf(s), r.pages[p].historyId)
    ensures p < |r.pages| && !r.pages[p].evictionMarker && r.pages[p].evictionMarkerWritable
    ensures !Tombstoned(s[p]) && MarkerWritable(TombstoneWord(s[p]))
  {
    hide HeaderAt, MarkerWritable, TombstoneWord, Records, Used, ReadBack, Durable, Readable, Ready,
         IsEvictionMarkerState;
    LivePage(r, s, p, ledger, submitted);
    assert Marks(r.pages, r.pages[p].historyId, p) <==> r.pages[p].evictionMarker;
    assert Owns(ViewsOf(s), r.pages[p].historyId, p);
  }

  lemma MarkedOthers(r: Ram, s: seq<Sector>, t: seq<Sector>, p: nat, own: u64, before: Ledger,
                     submitted: set<Observation>, ok: bool)
    requires Consistent(r, s, before, submitted) && p < |s| == |t| == |r.pages| && t == s[p := t[p]]
    requires r.pages[p].valid && !Pending(r.pages, r.pages[p].historyId) && own != r.pages[p].historyId
    requires Programs(s[p], t[p], 36, Le32(EVICTION_MARKER), ok)
    requires Doomed(ViewsOf(t), r.pages[p].historyId)
    requires forall g :: g != r.pages[p].historyId ==> (Doomed(ViewsOf(t), g) <==> Doomed(ViewsOf(s), g))
    ensures OthersWhole(Standing(before, ViewsOf(s)), Strike(before, r.pages[p].historyId), ViewsOf(t), own)
  {
    hide Records, Used, ReadBack, HeaderAt, Programs, Tombstoned, MarkerWritable, TombstoneWord, OthersWhole;
    LivePage(r, s, p, before, submitted);
    Marked(s[p], t[p], ok);
    OneSector(s, p, t[p]);
    OthersMarked(before, ViewsOf(s), ViewsOf(t), p, r.pages[p].historyId, own);
  }

  /** Programming the tombstone word changes nothing else a scan reads. */
  lemma MarkedScan(before: Sector, after: Sector, ok: bool)
    requires Programs(before, after, 36, Le32(EVICTION_MARKER), ok)
    ensures ScanInfo(before).valid ==>
              ScanInfo(after) == ScanInfo(before).(evictionMarker := Tombstoned(after),
                                                   evictionMarkerWritable := MarkerWritable(TombstoneWord(after)))
    ensures ScanInfo(before).valid == ScanInfo(after).valid
  {
    hide RecordAt, Tombstoned, MarkerWritable, TombstoneWord, HeaderValid, And;
    assert before[..36] == after[..36];
    SameHeader(before, after);
    SameTail(before, after, HEADER_BYTES);
  }

  lemma WordRead(b: Sector)
    ensures Get32(b[36..40], 0) == TombstoneWord(b)
  {
  }

  /** Marking and reading the word back keeps the table equal to a rescan. */
  lemma MarkedInSync(pages: Table, s: seq<Sector>, t: seq<Sector>, p: nat, ok: bool)
    requires p < |s| == |t| == |pages| && t == s[p := t[p]]
    requires Programs(s[p], t[p], 36, Le32(EVICTION_MARKER), ok)
    requires pages[p].valid
    ensures InSync(pages, s, None) ==>
              InSync(AfterMark(pages, p, true, Tombstoned(t[p]), MarkerWritable(TombstoneWord(t[p]))), t, None)
  {
    hide ScanInfo, Programs, Tombstoned, MarkerWritable, TombstoneWord;
    MarkedScan(s[p], t[p], ok);
  }

  lemma {:induction false} SameTail(b: Sector, c: Sector, at: nat)
    requires at <= PAGE_BYTES && Agree(b, c, at, PAGE_BYTES)
    ensures Used(b, at) == Used(c, at)
    decreases PAGE_BYTES - at
  {
    hide RecordAt;
    if RecordAt(b, at).Some? {
      SameRecord(b, c, at);
      SameTail(b, c, at + RecordAt(b, at).value.size);
    } else if RecordAt(c, at).Some? {
      SameRecord(c, b, at);
    }
  }

  lemma SameLength(r: Ram, s: seq<Sector>, ledger: Ledger, submitted: set<Observation>)
    requires Consistent(r, s, ledger, submitted)
    ensures |r.pages| == |s| == |ledger| > 0
  {
    hide Records, Used, ReadBack, ViewOf;
  }

  lemma EraseStep(r: Ram, s: seq<Sector>, t: seq<Sector>, index: nat, m: nat, ledger: Ledger, submitted: set<Observation>)
    requires Consistent(r, s, ledger, submitted) && index < |s| == |t| == |r.pages| && t == s[index := t[index]]
    requires r.pages[index].valid && m < |r.pages| && FirstMark(r.pages, r.pages[index].historyId, m)
    requires index == m ==> Reusable(r.pages, ledger, index)
    requires t[index] == ERASED || CutErase(s[index], t[index])
    ensures Consistent(r, t, ledger, submitted) && SameExposed(ViewsOf(s), ViewsOf(t))
    ensures t[index] == ERASED ==> ViewsOf(t)[index] == Dead && !ScanInfo(t[index]).valid
  {
    hide ViewOf, Records, Used, ReadBack, Durable;
    var session := r.pages[index].historyId;
    ErasedViews(s[index], t[index]);
    OneSector(s, index, t[index]);
    VictimHidden(r.pages, ViewsOf(s), index, m, session, ledger, submitted);
    if index == m {
      ReuseErase(r.pages, ViewsOf(s), ViewsOf(t), index, ledger, submitted);
    } else {
      VictimErase(r.pages, ViewsOf(s), ViewsOf(t), index, m, session, ledger, submitted);
    }
    assert Marks(r.pages, session, m) && Pending(r.pages, session);
    TombstonePending(r.pages, ViewsOf(s), index, ledger, submitted);
    QuietErase(r, s, t, index, ledger, submitted);
  }

  lemma StrikeStep(r: Ram, t: seq<Sector>, index: nat, m: nat, struck: PageInfo, ledger: Ledger, submitted: set<Observation>)
    requires Consistent(r, t, ledger, submitted) && index < |t| == |r.pages|
    requires r.pages[index].valid && m < |r.pages| && FirstMark(r.pages, r.pages[index].historyId, m)
    requires index == m ==> Reusable(r.pages, ledger, index)
    requires ViewsOf(t)[index] == Dead && !struck.valid && !struck.evictionMarker
    ensures Consistent(r.(pages := r.pages[index := struck]), t, ledger, submitted)
    ensures index != m ==> FirstMark(r.pages[index := struck], r.pages[index].historyId, m)
  {
    hide ViewOf, Records, Used, ReadBack, Durable;
    var session := r.pages[index].historyId;
    VictimHidden(r.pages, ViewsOf(t), index, m, session, ledger, submitted);
    if index == m {
      Unlisted(r.pages, ViewsOf(t), index, struck, ledger, submitted);
      PendingAfterReuse(r.pages, index, struck, ledger);
    } else {
      VictimGone(r.pages, ViewsOf(t), index, m, session, struck, ledger, submitted);
    }
    QuietUnlist(r, t, index, struck, ledger, submitted);
  }

  lemma MarkAhead(pages: Table, session: u64, from: nat)
    requires Pending(pages, session) && forall k: nat :: k <= from ==> !Marks(pages, session, k)
    ensures from < |pages|
  {
  }

  lemma ErasedViews(before: Sector, after: Sector)
    requires after == ERASED || CutErase(before, after)
    ensures ErasedView(ViewOf(before), ViewOf(after))
    ensures after == ERASED ==> ViewOf(after) == Dead && !ScanInfo(after).valid
  {
    hide Records, Used;
    if after == ERASED {
      NoCommitNoHeader(after);
    }
  }
}
