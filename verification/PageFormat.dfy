/** The byte layout of a history sector: page header, tombstone word, records, and what a scan sees. */
module PageFormat {
  import opened Bytes
  import opened Domain
  import opened Codec
  import opened Durability

  const PAGE_BYTES := 4096
  const HEADER_BYTES := 40
  const RECORD_HEADER := 40
  const PAGE_MAGIC: u32 := 0x4750_5348
  const RECORD_MAGIC: u32 := 0x4345_5248
  const COMMIT_MARKER: u32 := 0x5449_4D43
  const EVICTION_MARKER: u32 := 0x5443_5645
  const ERASED_WORD: u32 := 0xFFFF_FFFF

  type Sector = s: seq<byte> | |s| == PAGE_BYTES witness seq(PAGE_BYTES, _ => 255)

  const ERASED: Sector := seq(PAGE_BYTES, _ => 255)

  predicate Blank(b: seq<byte>, from: nat, to: nat)
    requires from <= to <= |b|
  {
    forall i :: from <= i < to ==> b[i] == 255
  }

  // ---------------------------------------------------------------- NOR programming

  /** Programming only clears bits: a byte ends between its old value and old-AND-source. */
  predicate ByteBetween(before: byte, source: byte, after: byte) {
    And(before, after) == after && And(after, And(before, source)) == And(before, source)
  }

  /**
   * One program operation of `source` at `at`: exact when it reports success, and when it
   * fails (or power is cut in it) any subset of the requested bits may have been cleared.
   */
  predicate Programs(before: seq<byte>, after: seq<byte>, at: nat, source: seq<byte>, ok: bool)
  {
    |after| == |before| && at + |source| <= |before|
    && (forall i :: 0 <= i < |before| && !(at <= i < at + |source|) ==> after[i] == before[i])
    && (forall i :: at <= i < at + |source| ==>
          if ok then after[i] == And(before[i], source[i - at])
          else ByteBetween(before[i], source[i - at], after[i]))
  }

  /** On blank bytes a successful program stores its source. */
  lemma ProgramsBlank(before: seq<byte>, after: seq<byte>, at: nat, source: seq<byte>)
    requires Programs(before, after, at, source, true) && Blank(before, at, at + |source|)
    ensures after[at..at + |source|] == source
  {
    forall i | at <= i < at + |source|
      ensures after[i] == source[i - at]
    {
      AndErased(source[i - at]);
    }
  }

  // ---------------------------------------------------------------- page header

  function HeaderFields(h: PageHeader): (s: seq<byte>)
    ensures |s| == 28
  {
    Le32(PAGE_MAGIC) + Le16(1) + Le16(HEADER_BYTES) + Le64(h.generation) + Le64(h.historyId)
    + Le32(h.pageIndex)
  }

  function HeaderImage(h: PageHeader): (s: seq<byte>)
    ensures |s| == 32
  {
    HeaderFields(h) + Le32(Crc32(HeaderFields(h)))
  }

  predicate HeaderValid(b: Sector) {
    Get32(b, 0) == PAGE_MAGIC && Get16(b, 4) == 1 && Get16(b, 6) == HEADER_BYTES
    && Get32(b, 32) == COMMIT_MARKER && Get32(b, 28) == Crc32(b[..28])
  }

  /** The page a scan finds in a sector, if any. */
  function HeaderAt(b: Sector): Option<PageHeader> {
    if HeaderValid(b) then Some(PageHeader(Get64(b, 8), Get64(b, 16), Get32(b, 24))) else None
  }

  /** The word behind the commit marker, where a tombstone is programmed. */
  function TombstoneWord(b: Sector): u32 {
    Get32(b, 36)
  }

  predicate MarkerWritable(word: u32) {
    And(word, EVICTION_MARKER) == EVICTION_MARKER
  }

  predicate IsEvictionMarkerState(word: u32) {
    word != ERASED_WORD && MarkerWritable(word)
  }

  predicate Tombstoned(b: Sector) {
    IsEvictionMarkerState(TombstoneWord(b))
  }

  lemma SameHeader(b: Sector, c: Sector)
    requires b[..36] == c[..36]
    ensures HeaderAt(b) == HeaderAt(c)
  {
    assert forall i {:trigger c[i]} :: 0 <= i < 36 ==> b[i] == b[..36][i] == c[..36][i] == c[i];
    assert b[..28] == b[..36][..28] == c[..28];
  }

  lemma NoCommitNoHeader(b: Sector)
    requires Blank(b, 32, 36)
    ensures HeaderAt(b) == None
  {
  }

  lemma HeaderStored(b: Sector, h: PageHeader)
    requires b[..32] == HeaderImage(h)
    ensures HeaderAt(b) == if Get32(b, 32) == COMMIT_MARKER then Some(h) else None
  {
    var w, f := HeaderImage(h), HeaderFields(h);
    assert f[0..4] == Le32(PAGE_MAGIC) && f[4..6] == Le16(1) && f[6..8] == Le16(HEADER_BYTES);
    assert f[8..16] == Le64(h.generation) && f[16..24] == Le64(h.historyId) && f[24..28] == Le32(h.pageIndex);
    assert w[..28] == f && w[28..32] == Le32(Crc32(f));
    assert b[..28] == b[..32][..28] == f;
    assert b[28..32] == b[..32][28..32];
    assert b[0..4] == b[..28][0..4] && b[4..6] == b[..28][4..6] && b[6..8] == b[..28][6..8];
    assert b[8..16] == b[..28][8..16] && b[16..24] == b[..28][16..24] && b[24..28] == b[..28][24..28];
    Get32Of(b, 0, PAGE_MAGIC);
    Get16Of(b, 4, 1);
    Get16Of(b, 6, HEADER_BYTES);
    Get64Of(b, 8, h.generation);
    Get64Of(b, 16, h.historyId);
    Get32Of(b, 24, h.pageIndex);
    Get32Of(b, 28, Crc32(f));
  }

  // ---------------------------------------------------------------- records

  datatype Entry = Entry(observation: Observation, size: nat)

  /** The record fields carried by the record header rather than by the payload. */
  function Stamped(x: Observation, kind: Kind, sequence: u32, historyId: u64): Observation {
    x.(kind := kind, sequence := sequence, historyId := historyId)
  }

  function RecordFields(x: Observation, payload: seq<byte>): (s: seq<byte>)
    requires x.sequence < 0x1_0000_0000 && x.historyId < 0x1_0000_0000_0000_0000 && |payload| < 0x1_0000
    ensures |s| == 28
  {
    Le32(RECORD_MAGIC) + Le16(1) + [KindCode(x.kind), 255] + Le16(|payload|) + Le16(RECORD_HEADER)
    + Le32(x.sequence) + Le64(x.historyId) + Le32(Crc32(payload))
  }

  function RecordImage(x: Observation, payload: seq<byte>): (s: seq<byte>)
    requires x.sequence < 0x1_0000_0000 && x.historyId < 0x1_0000_0000_0000_0000 && |payload| < 0x1_0000
    ensures |s| == 36
  {
    RecordFields(x, payload) + Le32(Crc32(RecordFields(x, payload))) + [255, 255, 255, 255]
  }

  /** The 40 bytes in front of a payload, word by word. */
  datatype RecordWords = RecordWords(
    magic: u32, version: u16, kind: byte, size: u16, headerBytes: u16, sequence: u32,
    historyId: u64, payloadCrc: u32, headerCrc: u32, commit: u32)

  function ReadWords(h: seq<byte>): RecordWords
    requires |h| == RECORD_HEADER
  {
    RecordWords(Get32(h, 0), Get16(h, 4), h[6], Get16(h, 8), Get16(h, 10), Get32(h, 12),
                Get64(h, 16), Get32(h, 24), Get32(h, 28), Get32(h, 36))
  }

  predicate RecordHeaderValid(h: seq<byte>)
    requires |h| == RECORD_HEADER
  {
    var w := ReadWords(h);
    w.magic == RECORD_MAGIC && w.version == 1 && w.kind <= 3 && w.headerBytes == RECORD_HEADER
    && w.commit == COMMIT_MARKER && w.headerCrc == Crc32(h[..28])
  }

  /** The observation of a record whose payload passes its checksum and the parser. */
  function ObservationOf(w: RecordWords, payload: seq<byte>): Option<Observation> {
    if Crc32(payload) != w.payloadCrc then None
    else match Decoded(payload)
      case None => None
      case Some(x) => Some(Stamped(x, KindOf(w.kind), w.sequence, w.historyId))
  }

  /** The committed, undamaged record that starts at `at`, if there is one. */
  function RecordAt(b: Sector, at: nat): (r: Option<Entry>)
    ensures r.Some? ==> r.value.size >= RECORD_HEADER && at + r.value.size <= PAGE_BYTES
  {
    if at + RECORD_HEADER > PAGE_BYTES || !RecordHeaderValid(b[at..at + RECORD_HEADER]) then None
    else
      var w := ReadWords(b[at..at + RECORD_HEADER]);
      if at + RECORD_HEADER + w.size > PAGE_BYTES then None
      else match ObservationOf(w, b[at + RECORD_HEADER..at + RECORD_HEADER + w.size])
        case None => None
        case Some(x) => Some(Entry(x, RECORD_HEADER + w.size))
  }

  /** The committed prefix of records from `at` on. */
  function Records(b: Sector, at: nat): seq<Observation>
    decreases PAGE_BYTES - at
  {
    match RecordAt(b, at)
    case None => []
    case Some(e) => [e.observation] + Records(b, at + e.size)
  }

  /** Where that prefix ends. */
  function Used(b: Sector, at: nat): (u: nat)
    ensures at <= u && (at <= PAGE_BYTES ==> u <= PAGE_BYTES)
    decreases PAGE_BYTES - at
  {
    match RecordAt(b, at)
    case None => at
    case Some(e) => Used(b, at + e.size)
  }

  /** One sector as a scan sees it. */
  function ViewOf(b: Sector): View {
    match HeaderAt(b)
    case None => Dead
    case Some(h) => Page(h, Tombstoned(b), MarkerWritable(TombstoneWord(b)), Records(b, HEADER_BYTES))
  }

  function ViewsOf(s: seq<Sector>): (v: Views)
    ensures |v| == |s|
  {
    seq(|s|, i requires 0 <= i < |s| => ViewOf(s[i]))
  }

  lemma OneSector(s: seq<Sector>, c: nat, b: Sector)
    requires c < |s|
    ensures ViewsOf(s[c := b]) == ViewsOf(s)[c := ViewOf(b)]
  {
  }

  lemma BlankIsNoRecord(b: Sector, at: nat)
    requires at <= PAGE_BYTES && Blank(b, at, PAGE_BYTES)
    ensures RecordAt(b, at) == None && Records(b, at) == [] && Used(b, at) == at
  {
  }

  lemma NoCommitNoRecord(b: Sector, at: nat)
    requires at + RECORD_HEADER <= PAGE_BYTES && Blank(b, at + 36, at + 40)
    ensures RecordAt(b, at) == None
  {
    var h := b[at..at + RECORD_HEADER];
    assert h[36] == b[at + 36] && h[37] == b[at + 37] && h[38] == b[at + 38] && h[39] == b[at + 39];
  }

  predicate Agree(b: seq<byte>, c: seq<byte>, from: nat, to: nat)
    requires to <= |b| && to <= |c|
  {
    forall i :: from <= i < to ==> b[i] == c[i]
  }

  /** A record depends only on its own bytes. */
  lemma SameRecord(b: Sector, c: Sector, at: nat)
    requires RecordAt(b, at).Some? && Agree(b, c, at, at + RecordAt(b, at).value.size)
    ensures RecordAt(c, at) == RecordAt(b, at)
  {
    hide Crc32, ReadWords, ObservationOf;
    var n := RecordAt(b, at).value.size;
    assert b[at..at + RECORD_HEADER] == c[at..at + RECORD_HEADER];
    assert b[at + RECORD_HEADER..at + n] == c[at + RECORD_HEADER..at + n];
  }

  /** Bytes behind the committed prefix can only add records behind it. */
  lemma {:induction false} PrefixKept(b: Sector, c: Sector, at: nat)
    requires at <= PAGE_BYTES && Agree(b, c, at, Used(b, at))
    ensures Records(c, at) == Records(b, at) + Records(c, Used(b, at))
    ensures Used(c, at) == Used(c, Used(b, at))
    decreases PAGE_BYTES - at
  {
    hide RecordAt;
    if RecordAt(b, at).Some? {
      var x, next := RecordAt(b, at).value.observation, at + RecordAt(b, at).value.size;
      assert Used(b, at) == Used(b, next) && next <= Used(b, next);
      assert Agree(b, c, at, next) && Agree(b, c, next, Used(b, next));
      SameRecord(b, c, at);
      PrefixKept(b, c, next);
      assert Records(b, at) == [x] + Records(b, next) && Records(c, at) == [x] + Records(c, next);
      assert [x] + (Records(b, next) + Records(c, Used(b, next)))
          == ([x] + Records(b, next)) + Records(c, Used(b, next));
    }
  }

  /** What a stored record reads back as: all but the timer's start instant. */
  function Stored(x: Observation): Observation {
    x.(timer := x.timer.(startedAt := None))
  }

  predicate Stampable(x: Observation) {
    x.sequence < 0x1_0000_0000 && x.historyId < 0x1_0000_0000_0000_0000
  }

  lemma RecordStored(b: Sector, at: nat, x: Observation, payload: seq<byte>)
    requires Stampable(x) && payload == Encoded(x) && |payload| < 0x1_0000 && Codable(x)
    requires at + RECORD_HEADER + |payload| <= PAGE_BYTES
    requires b[at..at + 36] == RecordImage(x, payload)
    requires b[at + RECORD_HEADER..at + RECORD_HEADER + |payload|] == payload
    ensures RecordAt(b, at) == if Get32(b, at + 36) == COMMIT_MARKER
                               then Some(Entry(Stored(x), RECORD_HEADER + |payload|)) else None
  {
    hide Crc32, ObservationOf, RecordImage, Encoded;
    var h := b[at..at + RECORD_HEADER];
    SubSlice(b, at, RECORD_HEADER, 0, 36);
    StoredWords(h, x, payload);
    assert ReadWords(h).commit == Get32(b, at + 36) by {
      assert h[36] == b[at + 36] && h[37] == b[at + 37] && h[38] == b[at + 38] && h[39] == b[at + 39];
    }
    StoredObservation(ReadWords(h), x, payload);
  }

  /**
   * A fully committed record is read back exactly when its observation is one the parser accepts;
   * the size check in front of every write does not decide that.
   */
  lemma CommittedIsReadableIff(b: Sector, at: nat, x: Observation, payload: seq<byte>)
    requires Stampable(x) && payload == Encoded(x) && |payload| < 0x1_0000
    requires at + RECORD_HEADER + |payload| <= PAGE_BYTES
    requires b[at..at + 36] == RecordImage(x, payload) && Get32(b, at + 36) == COMMIT_MARKER
    requires b[at + RECORD_HEADER..at + RECORD_HEADER + |payload|] == payload
    ensures RecordAt(b, at).Some? <==> Codable(x)
  {
    hide Crc32, ObservationOf, RecordImage, Encoded, Codable;
    if Codable(x) {
      RecordStored(b, at, x, payload);
    } else {
      var h := b[at..at + RECORD_HEADER];
      SubSlice(b, at, RECORD_HEADER, 0, 36);
      StoredWords(h, x, payload);
      UnreadableObservation(ReadWords(h), x, payload);
    }
  }

  lemma UnreadableObservation(w: RecordWords, x: Observation, payload: seq<byte>)
    requires payload == Encoded(x) && !Codable(x)
    ensures ObservationOf(w, payload) == None
  {
    UncodableRejected(x);
  }

  /** Two alarms for each of 128 probes, and one for the timer. */
  function NumberedAlarm(k: nat): Alarm {
    if k < 256 then Alarm(k + 1, if k < 128 then ProbeTargetAlarm else ProbeDisconnectedAlarm, Some(if k < 128 then k else k - 128), false)
    else Alarm(257, TimerCompletedAlarm, None, false)
  }

  function NumberedProbe(k: nat): Probe {
    Probe(k % 128, Meat, None, None, true, true)
  }

  /** Every alarm the application can have with 128 probes. */
  function AllAlarms(): (alarms: seq<Alarm>)
    ensures |alarms| == 257
  {
    seq(257, k requires 0 <= k => NumberedAlarm(k))
  }

  function AllProbes(): (probes: seq<Probe>)
    ensures |probes| == 128
  {
    seq(128, k requires 0 <= k => NumberedProbe(k))
  }

  /** The first record of a page, written in full and committed. */
  predicate FirstCommitted(b: Sector, x: Observation) {
    Stampable(x) && HEADER_BYTES + RECORD_HEADER + |Encoded(x)| <= PAGE_BYTES
    && b[HEADER_BYTES..HEADER_BYTES + 36] == RecordImage(x, Encoded(x))
    && Get32(b, HEADER_BYTES + 36) == COMMIT_MARKER
    && b[HEADER_BYTES + RECORD_HEADER..HEADER_BYTES + RECORD_HEADER + |Encoded(x)|] == Encoded(x)
  }

  lemma CommittedSector(x: Observation) returns (b: Sector)
    requires Stampable(x) && HEADER_BYTES + RECORD_HEADER + |Encoded(x)| <= PAGE_BYTES
    ensures FirstCommitted(b, x)
  {
    hide RecordImage, Encoded;
    var n, m := |Encoded(x)|, Le32(COMMIT_MARKER);
    b := ERASED[..HEADER_BYTES] + RecordImage(x, Encoded(x)) + m + Encoded(x) + ERASED[HEADER_BYTES + RECORD_HEADER + n..];
    assert b[HEADER_BYTES + 36..HEADER_BYTES + 40] == m;
    Get32Of(b, HEADER_BYTES + 36, COMMIT_MARKER);
  }

  /**
   * With 128 probes the application can have 257 alarms of distinct causes. Their observation passes the
   * size check and can be committed in full, and no scan or query finds it again.
   */
  lemma FittingButUnreadable()
    ensures exists x: Observation ::
              x.probes == AllProbes() && x.alarms == AllAlarms()
              && RECORD_HEADER + |Encoded(x)| <= PAGE_BYTES - HEADER_BYTES && (exists b :: FirstCommitted(b, x))
              && forall b :: FirstCommitted(b, x) ==> RecordAt(b, HEADER_BYTES) == None
    ensures forall j, k :: 0 <= j < k < |AllAlarms()| ==>
              AllAlarms()[j].code != AllAlarms()[k].code || AllAlarms()[j].probeId != AllAlarms()[k].probeId
  {
    hide RecordAt, FirstCommitted, Encoded, RecordImage, AllAlarms, AllProbes, Get32;
    DistinctCauses();
    var demand: HeaterDemand :| true;
    var x := Observation(Sample, 1, 1, 1, Running, NoReason, 0, None, None, None, demand, Timer(false, false, None, 0),
                         AllProbes(), AllAlarms(), None);
    var sector := CommittedSector(x);
    assert FirstCommitted(sector, x);
    forall b | FirstCommitted(b, x)
      ensures RecordAt(b, HEADER_BYTES) == None
    {
      CommittedUnreadable(b, x);
    }
  }

  lemma DistinctCauses()
    ensures forall j, k :: 0 <= j < k < |AllAlarms()| ==>
              AllAlarms()[j].code != AllAlarms()[k].code || AllAlarms()[j].probeId != AllAlarms()[k].probeId
  {
    assert forall k :: 0 <= k < |AllAlarms()| ==> AllAlarms()[k] == NumberedAlarm(k);
  }

  lemma CommittedUnreadable(b: Sector, x: Observation)
    requires !Codable(x) && FirstCommitted(b, x)
    ensures RecordAt(b, HEADER_BYTES) == None
  {
    hide RecordAt, RecordImage, Encoded;
    CommittedIsReadableIff(b, HEADER_BYTES, x, Encoded(x));
  }

  lemma StoredObservation(w: RecordWords, x: Observation, payload: seq<byte>)
    requires payload == Encoded(x) && Codable(x) && w.payloadCrc == Crc32(payload)
    requires w.kind == KindCode(x.kind) && w.sequence == x.sequence && w.historyId == x.historyId
    ensures ObservationOf(w, payload) == Some(Stored(x))
  {
    CodableRoundTrip(x);
    KindRoundTrip(x.kind);
  }

  lemma KindRoundTrip(k: Kind)
    ensures KindOf(KindCode(k)) == k
  {
  }

  lemma StoredWords(h: seq<byte>, x: Observation, payload: seq<byte>)
    requires Stampable(x) && |payload| < 0x1_0000
    requires |h| == RECORD_HEADER && h[..36] == RecordImage(x, payload)
    ensures ReadWords(h) == RecordWords(RECORD_MAGIC, 1, KindCode(x.kind), |payload|, RECORD_HEADER,
                                        x.sequence, x.historyId, Crc32(payload), Crc32(h[..28]),
                                        Get32(h, 36))
  {
    var f := RecordFields(x, payload);
    assert h[..28] == h[..36][..28] == f && h[28..32] == h[..36][28..32] == Le32(Crc32(f));
    Get32Of(h, 28, Crc32(f));
    FieldWords(h, x, payload);
  }

  lemma FieldWords(h: seq<byte>, x: Observation, payload: seq<byte>)
    requires Stampable(x) && |payload| < 0x1_0000
    requires |h| == RECORD_HEADER && h[..28] == RecordFields(x, payload)
    ensures Get32(h, 0) == RECORD_MAGIC && Get16(h, 4) == 1 && h[6] == KindCode(x.kind)
    ensures Get16(h, 8) == |payload| && Get16(h, 10) == RECORD_HEADER
    ensures Get32(h, 12) == x.sequence && Get64(h, 16) == x.historyId && Get32(h, 24) == Crc32(payload)
  {
    var f := RecordFields(x, payload);
    assert f[0..4] == Le32(RECORD_MAGIC) && f[4..6] == Le16(1) && f[6] == KindCode(x.kind);
    assert f[8..10] == Le16(|payload|) && f[10..12] == Le16(RECORD_HEADER);
    assert f[12..16] == Le32(x.sequence) && f[16..24] == Le64(x.historyId) && f[24..28] == Le32(Crc32(payload));
    assert h[0..4] == h[..28][0..4] && h[4..6] == h[..28][4..6] && h[6] == h[..28][6];
    assert h[8..10] == h[..28][8..10] && h[10..12] == h[..28][10..12] && h[12..16] == h[..28][12..16];
    assert h[16..24] == h[..28][16..24] && h[24..28] == h[..28][24..28];
    Get32Of(h, 0, RECORD_MAGIC);
    Get16Of(h, 4, 1);
    Get16Of(h, 8, |payload|);
    Get16Of(h, 10, RECORD_HEADER);
    Get32Of(h, 12, x.sequence);
    Get64Of(h, 16, x.historyId);
    Get32Of(h, 24, Crc32(payload));
  }

  // ---------------------------------------------------------------- tombstone word

  function Pow2(k: nat): nat {
    if k == 0 then 1 else 2 * Pow2(k - 1)
  }

  lemma AndStep(a: nat, b: nat)
    ensures And(a, b) == 2 * And(a / 2, b / 2) + (if a % 2 == 1 && b % 2 == 1 then 1 else 0)
  {
    if a == 0 || b == 0 {
      assert a / 2 == 0 || b / 2 == 0;
    }
  }

  lemma AndStepAt(a: nat, x: nat, c: nat, y: nat)
    ensures And(a + 2 * x, c + 2 * y)
         == 2 * And(a / 2 + x, c / 2 + y) + (if a % 2 == 1 && c % 2 == 1 then 1 else 0)
  {
    AndStep(a + 2 * x, c + 2 * y);
    assert (a + 2 * x) / 2 == a / 2 + x && (c + 2 * y) / 2 == c / 2 + y;
  }

  function Shift(k: nat, b: nat): nat {
    if k == 0 then b else 2 * Shift(k - 1, b)
  }

  /** AND works on the low k bits and on the rest separately. */
  lemma {:induction false} AndSplit(k: nat, a: nat, b: nat, c: nat, d: nat)
    requires a < Pow2(k) && c < Pow2(k)
    ensures And(a + Shift(k, b), c + Shift(k, d)) == And(a, c) + Shift(k, And(b, d))
  {
    if k > 0 {
      AndSplit(k - 1, a / 2, b, c / 2, d);
      AndStep(a, c);
      AndStepAt(a, Shift(k - 1, b), c, Shift(k - 1, d));
    } else {
      assert And(0, 0) == 0;
    }
  }

  lemma Shift8(x: nat)
    ensures Shift(8, x) == 256 * x
  {
    assert Shift(1, x) == 2 * x && Shift(2, x) == 4 * x && Shift(3, x) == 8 * x;
    assert Shift(4, x) == 16 * x && Shift(5, x) == 32 * x && Shift(6, x) == 64 * x;
    assert Shift(7, x) == 128 * x;
  }

  lemma AndBytes(a: byte, b: nat, c: byte, d: nat)
    ensures And(a + 256 * b, c + 256 * d) == And(a, c) + 256 * And(b, d)
  {
    assert Pow2(8) == 256;
    Shift8(b);
    Shift8(d);
    Shift8(And(b, d));
    AndSplit(8, a, b, c, d);
  }

  function Word(b0: nat, b1: nat, b2: nat, b3: nat): nat {
    b0 + 256 * (b1 + 256 * (b2 + 256 * b3))
  }

  lemma AndWord(b0: byte, b1: byte, b2: byte, b3: byte, m0: byte, m1: byte, m2: byte, m3: byte)
    ensures And(Word(b0, b1, b2, b3), Word(m0, m1, m2, m3))
         == Word(And(b0, m0), And(b1, m1), And(b2, m2), And(b3, m3))
  {
    hide And;
    AndBytes(b2, b3, m2, m3);
    AndBytes(b1, b2 as int + 256 * (b3 as int), m1, m2 as int + 256 * (m3 as int));
    AndBytes(b0, b1 as int + 256 * (b2 as int + 256 * (b3 as int)),
             m0, m1 as int + 256 * (m2 as int + 256 * (m3 as int)));
  }

  lemma SameWord(a0: nat, a1: nat, a2: nat, a3: nat, m0: byte, m1: byte, m2: byte, m3: byte)
    requires a0 <= m0 && a1 <= m1 && a2 <= m2 && a3 <= m3
    ensures Word(a0, a1, a2, a3) == Word(m0, m1, m2, m3)
       <==> a0 == m0 && a1 == m1 && a2 == m2 && a3 == m3
  {
  }

  /** The word test is the test of its four bytes. */
  lemma WordCovers(b: seq<byte>, at: nat, m: seq<byte>)
    requires at + 4 <= |b| && |m| == 4
    ensures And(Get32(b, at), Get32(m, 0)) == Get32(m, 0)
       <==> And(b[at], m[0]) == m[0] && And(b[at + 1], m[1]) == m[1]
            && And(b[at + 2], m[2]) == m[2] && And(b[at + 3], m[3]) == m[3]
  {
    hide And;
    AndWord(b[at], b[at + 1], b[at + 2], b[at + 3], m[0], m[1], m[2], m[3]);
    AndBounded(b[at], m[0]);
    AndBounded(b[at + 1], m[1]);
    AndBounded(b[at + 2], m[2]);
    AndBounded(b[at + 3], m[3]);
    SameWord(And(b[at], m[0]), And(b[at + 1], m[1]), And(b[at + 2], m[2]), And(b[at + 3], m[3]),
             m[0], m[1], m[2], m[3]);
  }
}
