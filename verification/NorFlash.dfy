/**
 * The flash device under the history log, and what each of its operations can leave behind.
 *
 * Every call may fail. A power cut is the case of a call that fails part-way and of later calls
 * that all fail without effect, so a property that holds after an operation under arbitrary
 * failures holds at every point where power can be lost in it.
 */
module NorFlash {
  import opened Bytes
  import opened Domain
  import opened Codec
  import opened Durability
  import opened PageFormat

  /**
   * The assumed erase fault model: a cut erase leaves the sector unchanged, or without a header
   * that validates (fully erased included), or with its header and a tombstone word that is
   * still in the accepted state.
   */
  predicate CutErase(before: Sector, after: Sector) {
    after == before
    || HeaderAt(after) == None
    || (HeaderAt(after) == HeaderAt(before) && Tombstoned(before) && Tombstoned(after))
  }

  class Device {
    var sectors: seq<Sector>
    /** Calls that reported failure so far. */
    ghost var failures: nat

    constructor (initial: seq<Sector>)
      ensures sectors == initial && failures == 0
    {
      sectors := initial;
      failures := 0;
    }

    method Read(index: nat, at: nat, count: nat) returns (ok: bool, data: seq<byte>)
      requires index < |sectors| && at + count <= PAGE_BYTES
      modifies this`failures
      ensures ok ==> data == sectors[index][at..at + count]
      ensures failures == old(failures) + if ok then 0 else 1
    {
      ok, data := *, [];
      if ok {
        data := sectors[index][at..at + count];
      } else {
        failures := failures + 1;
      }
    }

    method Write(index: nat, at: nat, source: seq<byte>) returns (ok: bool)
      requires index < |sectors| && at + |source| <= PAGE_BYTES
      modifies this
      ensures |sectors| == |old(sectors)| && sectors == old(sectors)[index := sectors[index]]
      ensures Programs(old(sectors)[index], sectors[index], at, source, ok)
      ensures failures == old(failures) + if ok then 0 else 1
    {
      var before := sectors[index];
      var after: Sector := *;
      ok := *;
      if !Programs(before, after, at, source, ok) {
        ok, after := false, before;
        NothingProgrammed(before, at, source);
      }
      sectors := sectors[index := after];
      if !ok {
        failures := failures + 1;
      }
    }

    method EraseSector(index: nat) returns (ok: bool)
      requires index < |sectors|
      modifies this
      ensures |sectors| == |old(sectors)| && sectors == old(sectors)[index := sectors[index]]
      ensures ok ==> sectors[index] == ERASED
      ensures !ok ==> CutErase(old(sectors)[index], sectors[index])
      ensures failures == old(failures) + if ok then 0 else 1
    {
      var after: Sector := *;
      ok := *;
      if ok {
        after := ERASED;
      } else {
        if !CutErase(sectors[index], after) {
          after := sectors[index];
        }
        failures := failures + 1;
      }
      sectors := sectors[index := after];
    }
  }

  lemma NothingProgrammed(before: seq<byte>, at: nat, source: seq<byte>)
    requires at + |source| <= |before|
    ensures Programs(before, before, at, source, false)
  {
    forall i | at <= i < at + |source|
      ensures ByteBetween(before[i], source[i - at], before[i])
    {
      AndSelf(before[i]);
      AndAgain(before[i], source[i - at]);
    }
  }

  lemma {:induction false} AndAgain(a: nat, b: nat)
    ensures And(a, And(a, b)) == And(a, b)
  {
    if a != 0 && b != 0 {
      AndAgain(a / 2, b / 2);
      var n := And(a, b);
      if n != 0 {
        assert n / 2 == And(a / 2, b / 2);
        AndStep(a, n);
      }
    }
  }

  // ---------------------------------------------------------------- one page header

  lemma HeaderTorn(before: Sector, after: Sector, h: PageHeader, ok: bool)
    requires Blank(before, 0, PAGE_BYTES) && Programs(before, after, 0, HeaderImage(h), ok)
    ensures HeaderAt(after) == None && Blank(after, 32, PAGE_BYTES)
    ensures ok ==> after[..32] == HeaderImage(h)
  {
    if ok {
      ProgramsBlank(before, after, 0, HeaderImage(h));
      assert after[0..32] == after[..32];
    }
    NoCommitNoHeader(after);
  }

  lemma HeaderCommitted(before: Sector, after: Sector, h: PageHeader, ok: bool)
    requires before[..32] == HeaderImage(h) && Blank(before, 32, PAGE_BYTES)
    requires Programs(before, after, 32, Le32(COMMIT_MARKER), ok)
    ensures HeaderAt(after) == None || HeaderAt(after) == Some(h)
    ensures ok ==> HeaderAt(after) == Some(h)
    ensures Blank(after, 36, PAGE_BYTES) && TombstoneWord(after) == ERASED_WORD
  {
    hide HeaderImage, HeaderValid, Programs;
    assert after[..32] == before[..32] && Blank(after, 36, PAGE_BYTES)
           && (ok ==> Get32(after, 32) == COMMIT_MARKER) by {
      CommitStored(before, after, 32, ok);
    }
    HeaderStored(after, h);
  }

  lemma CommitStored(before: Sector, after: Sector, at: nat, ok: bool)
    requires at + 4 <= PAGE_BYTES && Blank(before, at, at + 4)
    requires Programs(before, after, at, Le32(COMMIT_MARKER), ok)
    ensures Agree(before, after, 0, at) && Agree(before, after, at + 4, PAGE_BYTES)
    ensures after[..at] == before[..at]
    ensures ok ==> Get32(after, at) == COMMIT_MARKER
  {
    if ok {
      ProgramsBlank(before, after, at, Le32(COMMIT_MARKER));
      Get32Of(after, at, COMMIT_MARKER);
    }
  }

  // ---------------------------------------------------------------- one record

  /** Until its commit word is programmed, a record is not there, however much of it is. */
  lemma RecordTorn(before: Sector, after: Sector, at: nat)
    requires at + RECORD_HEADER <= PAGE_BYTES && Used(before, HEADER_BYTES) == at
    requires Agree(before, after, 0, at) && Blank(after, at + 36, at + 40)
    ensures HeaderAt(after) == HeaderAt(before) && TombstoneWord(after) == TombstoneWord(before)
    ensures Records(after, HEADER_BYTES) == Records(before, HEADER_BYTES)
    ensures Used(after, HEADER_BYTES) == at
  {
    hide RecordAt;
    SamePage(before, after, at);
    PrefixKept(before, after, HEADER_BYTES);
    NoCommitNoRecord(after, at);
    assert Records(before, HEADER_BYTES) + [] == Records(before, HEADER_BYTES);
  }

  lemma SamePage(before: Sector, after: Sector, at: nat)
    requires HEADER_BYTES <= at <= PAGE_BYTES && Agree(before, after, 0, at)
    ensures HeaderAt(after) == HeaderAt(before) && TombstoneWord(after) == TombstoneWord(before)
  {
    assert before[..36] == after[..36];
    SameHeader(before, after);
  }

  /** A complete record body with a commit word that may be torn: the record is there whole, or not. */
  lemma RecordCommitted(before: Sector, after: Sector, at: nat, x: Observation, payload: seq<byte>)
    requires Stampable(x) && payload == Encoded(x) && |payload| < 0x1_0000 && Codable(x)
    requires Used(before, HEADER_BYTES) == at && at + RECORD_HEADER + |payload| <= PAGE_BYTES
    requires Agree(before, after, 0, at)
    requires after[at..at + 36] == RecordImage(x, payload)
    requires after[at + RECORD_HEADER..at + RECORD_HEADER + |payload|] == payload
    requires Blank(after, at + RECORD_HEADER + |payload|, PAGE_BYTES)
    ensures HeaderAt(after) == HeaderAt(before) && TombstoneWord(after) == TombstoneWord(before)
    ensures Get32(after, at + 36) == COMMIT_MARKER ==>
              Records(after, HEADER_BYTES) == Records(before, HEADER_BYTES) + [Stored(x)]
              && Used(after, HEADER_BYTES) == at + RECORD_HEADER + |payload|
    ensures Get32(after, at + 36) != COMMIT_MARKER ==>
              Records(after, HEADER_BYTES) == Records(before, HEADER_BYTES)
  {
    hide RecordAt, RecordImage, Encoded, HeaderAt, TombstoneWord, Get32;
    SamePage(before, after, at);
    PrefixKept(before, after, HEADER_BYTES);
    RecordStored(after, at, x, payload);
    BlankIsNoRecord(after, at + RECORD_HEADER + |payload|);
    assert Records(before, HEADER_BYTES) + [] == Records(before, HEADER_BYTES);
    assert [Stored(x)] + [] == [Stored(x)];
  }

  // ---------------------------------------------------------------- the tombstone

  /** Marking leaves the sector as it was, or leaves a word every reader takes as a tombstone. */
  lemma Marked(before: Sector, after: Sector, ok: bool)
    requires MarkerWritable(TombstoneWord(before))
    requires Programs(before, after, 36, Le32(EVICTION_MARKER), ok)
    ensures HeaderAt(after) == HeaderAt(before) && MarkerWritable(TombstoneWord(after))
    ensures ok ==> Tombstoned(after)
    ensures after == before || Tombstoned(after)
  {
    hide And, HeaderAt, Programs, Le32;
    var m := Le32(EVICTION_MARKER);
    Get32Of(m, 0, EVICTION_MARKER);
    assert m[0..4] == m;
    WordCovers(before, 36, m);
    WordCovers(after, 36, m);
    MarkedBytes(before, after, m, ok);
    SameHeader(before, after);
  }

  lemma MarkedBytes(before: Sector, after: Sector, m: seq<byte>, ok: bool)
    requires |m| == 4 && m[0] != 255
    requires forall i :: 0 <= i < 4 ==> And(before[36 + i], m[i]) == m[i]
    requires Programs(before, after, 36, m, ok)
    ensures before[..36] == after[..36]
    ensures forall i :: 0 <= i < 4 ==> And(after[36 + i], m[i]) == m[i]
    ensures ok ==> Get32(after, 36) != ERASED_WORD
    ensures Get32(after, 36) == ERASED_WORD ==> after == before
  {
    hide And;
    forall i | 0 <= i < 4
      ensures And(after[36 + i], m[i]) == m[i]
      ensures ok ==> after[36 + i] == m[i]
      ensures after[36 + i] <= before[36 + i]
    {
      var k := 36 + i;
      assert m[k - 36] == m[i];
      AndSelf(m[i]);
      AndBounded(before[k], m[i]);
      AndBounded(before[k], after[k]);
    }
    if Get32(after, 36) == ERASED_WORD {
      assert after[36 + 0] == 255 && after[36 + 1] == 255 && after[36 + 2] == 255 && after[36 + 3] == 255;
    }
  }
}
