/** The wrapping 32-bit sequences with which the mailboxes number their entries, and the slots these name. */
module RingSequences {

  const RING_SLOTS := 16
  const WRAP := 0x1_0000_0000

  /** The wrapped difference of two sequences no further apart than a mailbox is long. */
  lemma PendingCount(write: nat, read: nat)
    requires read <= write <= read + RING_SLOTS
    ensures (write % WRAP - read % WRAP) % WRAP == write - read
  {
  }

  /** The slot of the n-th entry; sequences wrap at a multiple of the number of slots. */
  function Place(n: nat): (i: nat)
    ensures i < RING_SLOTS
  {
    n % RING_SLOTS
  }

  lemma SlotIndex(n: nat)
    ensures Place(n % WRAP) == Place(n)
    ensures (n % WRAP + 1) % WRAP == (n + 1) % WRAP
  {
    hide Place;
    WholeTurns(n / WRAP, n % WRAP);
    NextSequence(n);
  }

  lemma WholeTurns(q: nat, r: nat)
    ensures Place(q * WRAP + r) == Place(r)
  {
    assert q * WRAP + r == (0x1000_0000 * q) * RING_SLOTS + r;
    SameRemainder(0x1000_0000 * q, r);
  }

  lemma SameRemainder(k: nat, r: nat)
    ensures (k * RING_SLOTS + r) % RING_SLOTS == r % RING_SLOTS
  {
  }

  lemma NextSequence(n: nat)
    ensures (n % WRAP + 1) % WRAP == (n + 1) % WRAP
  {
  }

  /** The next entry's slot is none of the last ones'. */
  lemma OwnPlaces(from: nat, n: nat)
    requires from <= n < from + RING_SLOTS
    ensures forall i :: from <= i < n ==> Place(i) != Place(n)
  {
  }
}
