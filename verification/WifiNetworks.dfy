/** The curated list of scanned networks: sanitized, de-duplicated, the strongest twenty, sorted. */
module WifiNetworks {
  import opened Bytes
  import opened Domain

  const SSID_BYTES := 32
  const LIST_CAPACITY := 20

  datatype RawNetwork = RawNetwork(ssid: seq<byte>, length: nat, rssi: int, channel: byte, security: byte)

  datatype Network = Network(name: seq<byte>, rssi: int, channel: byte, security: byte)

  datatype NetworkList = NetworkList(networks: seq<Network>, truncated: bool)

  // ---------------------------------------------------------------- names

  const QUESTION: byte := 63

  predicate Printable(b: byte) {
    0x20 <= b <= 0x7E
  }

  function SequenceLength(first: byte): nat {
    if 0xC2 <= first <= 0xDF then 2
    else if 0xE0 <= first <= 0xEF then 3
    else if 0xF0 <= first <= 0xF4 then 4
    else 0
  }

  predicate Continues(b: byte) {
    0x80 <= b <= 0xBF
  }

  /** A well-formed multi-byte sequence at the front: shortest form, no surrogates, in range. */
  predicate WellFormedSequence(s: seq<byte>) {
    s != []
    && var n := SequenceLength(s[0]);
      n >= 2 && n <= |s|
      && (forall i :: 1 <= i < n ==> Continues(s[i]))
      && (n == 3 ==> !(s[0] == 0xE0 && s[1] < 0xA0) && !(s[0] == 0xED && s[1] >= 0xA0))
      && (n == 4 ==> !(s[0] == 0xF0 && s[1] < 0x90) && !(s[0] == 0xF4 && s[1] > 0x8F))
  }

  /** How many bytes the sanitizer takes at the front of a name. */
  function UnitLength(s: seq<byte>): (n: nat)
    requires s != []
    ensures 1 <= n <= |s|
  {
    if !Printable(s[0]) && WellFormedSequence(s) then SequenceLength(s[0]) else 1
  }

  /** What it writes for them: themselves, or one question mark for a byte that is not text. */
  function Unit(s: seq<byte>): (u: seq<byte>)
    requires s != []
    ensures |u| == UnitLength(s)
  {
    if Printable(s[0]) || WellFormedSequence(s) then s[..UnitLength(s)] else [QUESTION]
  }

  function Clean(s: seq<byte>): (c: seq<byte>)
    ensures |c| == |s|
    decreases |s|
  {
    if s == [] then [] else Unit(s) + Clean(s[UnitLength(s)..])
  }

  lemma CleanUnit(s: seq<byte>, t: seq<byte>)
    requires s != []
    ensures UnitLength(Unit(s) + t) == UnitLength(s) && Unit(Unit(s) + t) == Unit(s)
  {
    var u := Unit(s) + t;
    if !Printable(s[0]) && WellFormedSequence(s) {
      var n := SequenceLength(s[0]);
      assert forall i :: 0 <= i < n ==> u[i] == s[i];
    }
  }

  /** Sanitizing twice changes nothing more: the result is already clean text. */
  lemma {:induction false} CleanTwice(s: seq<byte>)
    ensures Clean(Clean(s)) == Clean(s)
    decreases |s|
  {
    if s != [] {
      var rest := Clean(s[UnitLength(s)..]);
      CleanTwice(s[UnitLength(s)..]);
      CleanUnit(s, rest);
      assert Clean(s)[UnitLength(s)..] == rest;
    }
  }

  /** Clean text has no terminator inside, and only bytes of printable characters or sequences. */
  lemma {:induction false} CleanBytes(s: seq<byte>)
    ensures forall i :: 0 <= i < |s| ==> Printable(Clean(s)[i]) || Clean(s)[i] >= 0x80
    decreases |s|
  {
    if s != [] {
      CleanBytes(s[UnitLength(s)..]);
    }
  }

  function Minimum(a: nat, b: nat): nat {
    if a < b then a else b
  }

  predicate Scanned(r: RawNetwork) {
    |r.ssid| == SSID_BYTES
  }

  function CleanName(r: RawNetwork): seq<byte>
    requires Scanned(r)
  {
    Clean(r.ssid[..Minimum(r.length, SSID_BYTES)])
  }

  method SanitizeSsid(r: RawNetwork) returns (output: seq<byte>)
    requires Scanned(r)
    ensures output == CleanName(r) && |output| <= SSID_BYTES
    ensures forall i :: 0 <= i < |output| ==> Printable(output[i]) || output[i] >= 0x80
  {
    hide Clean, Unit, WellFormedSequence;
    var input := r.ssid[..Minimum(r.length, SSID_BYTES)];
    var offset := 0;
    output := [];
    assert input[0..] == input && [] + Clean(input) == Clean(input);
    while offset < |input|
      invariant offset == |output| <= |input|
      invariant output + Clean(input[offset..]) == Clean(input)
    {
      var rest := input[offset..];
      OneUnit(input, offset, output);
      UnitCases(rest);
      if Printable(rest[0]) {
        output := output + [rest[0]];
        offset := offset + 1;
      } else if WellFormedSequence(rest) {
        var n := SequenceLength(rest[0]);
        output := output + rest[..n];
        offset := offset + n;
      } else {
        output := output + [QUESTION];
        offset := offset + 1;
      }
    }
    assert input[offset..] == [] && output + Clean([]) == output;
    CleanBytes(input);
  }

  lemma CleanStep(s: seq<byte>)
    requires s != []
    ensures Clean(s) == Unit(s) + Clean(s[UnitLength(s)..])
  {
    hide WellFormedSequence, Unit, UnitLength;
  }

  lemma OneUnit(input: seq<byte>, offset: nat, output: seq<byte>)
    requires offset < |input| && output + Clean(input[offset..]) == Clean(input)
    ensures (output + Unit(input[offset..])) + Clean(input[offset + UnitLength(input[offset..])..]) == Clean(input)
  {
    hide Clean, WellFormedSequence, Unit, UnitLength;
    var rest := input[offset..];
    var u, n := Unit(rest), UnitLength(rest);
    var tail := Clean(rest[n..]);
    CleanStep(rest);
    assert rest[n..] == input[offset + n..];
    assert output + (u + tail) == (output + u) + tail;
  }

  lemma UnitCases(rest: seq<byte>)
    requires rest != []
    ensures Unit(rest) == if Printable(rest[0]) then [rest[0]]
                          else if WellFormedSequence(rest) then rest[..SequenceLength(rest[0])] else [QUESTION]
  {
    assert rest[..1] == [rest[0]];
  }

  // ---------------------------------------------------------------- what the list must hold

  function Candidate(r: RawNetwork): Network
    requires Scanned(r)
  {
    Network(CleanName(r), r.rssi, r.channel, r.security)
  }

  /** Records without a name are passed over. */
  function Named(records: seq<RawNetwork>): seq<Network>
    requires forall k :: 0 <= k < |records| ==> Scanned(records[k])
  {
    if records == [] then []
    else
      Named(records[..|records| - 1])
      + if records[|records| - 1].length == 0 then [] else [Candidate(records[|records| - 1])]
  }

  function Names(ns: seq<Network>): set<seq<byte>> {
    set k | 0 <= k < |ns| :: ns[k].name
  }

  predicate DistinctNames(ns: seq<Network>) {
    forall j, k :: 0 <= j < k < |ns| ==> ns[j].name != ns[k].name
  }

  predicate NotStronger(n: Network, kept: seq<Network>) {
    forall k :: 0 <= k < |kept| ==> n.rssi <= kept[k].rssi
  }

  /** A record is represented by a kept network of its name that is as strong, or by none and is too weak. */
  predicate Represented(n: Network, kept: seq<Network>) {
    (exists k :: 0 <= k < |kept| && kept[k].name == n.name && kept[k].rssi >= n.rssi)
    || (|kept| == LIST_CAPACITY && n.name !in Names(kept) && NotStronger(n, kept))
  }

  predicate AllRepresented(seen: seq<Network>, kept: seq<Network>) {
    forall k :: 0 <= k < |seen| ==> Represented(seen[k], kept)
  }

  predicate AllSeen(seen: seq<Network>, kept: seq<Network>) {
    forall k :: 0 <= k < |kept| ==> kept[k] in seen
  }

  /** Kept networks are records seen, with distinct names; every record seen is represented. */
  predicate Curated(seen: seq<Network>, kept: seq<Network>, discarded: bool) {
    |kept| <= LIST_CAPACITY && DistinctNames(kept) && AllSeen(seen, kept) && AllRepresented(seen, kept)
    && (discarded <==> |Names(seen)| > LIST_CAPACITY)
    && (discarded ==> |kept| == LIST_CAPACITY)
    && (!discarded ==> Names(kept) == Names(seen))
  }

  lemma {:induction false} NamesCounted(ns: seq<Network>)
    requires DistinctNames(ns)
    ensures |Names(ns)| == |ns|
  {
    if ns == [] {
      assert Names(ns) == {};
    } else {
      var n := |ns| - 1;
      NamesCounted(ns[..n]);
      assert Names(ns) == Names(ns[..n]) + {ns[n].name};
    }
  }

  lemma NamesGrow(seen: seq<Network>, c: Network)
    ensures Names(seen + [c]) == Names(seen) + {c.name}
  {
    assert (seen + [c])[|seen|] == c;
    forall x | x in Names(seen) + {c.name}
      ensures x in Names(seen + [c])
    {
      if x in Names(seen) {
        var k :| 0 <= k < |seen| && seen[k].name == x;
        assert (seen + [c])[k].name == x;
      }
    }
  }

  lemma NameIn(ns: seq<Network>, k: nat)
    requires k < |ns|
    ensures ns[k].name in Names(ns)
  {
  }

  lemma SeenGrows(seen: seq<Network>, kept: seq<Network>, c: Network, after: seq<Network>)
    requires AllSeen(seen, kept) && forall k :: 0 <= k < |after| ==> after[k] in kept || after[k] == c
    ensures AllSeen(seen + [c], after)
  {
    assert (seen + [c])[|seen|] == c;
    forall k | 0 <= k < |after|
      ensures after[k] in seen + [c]
    {
      if after[k] in kept {
        var j :| 0 <= j < |kept| && kept[j] == after[k];
        assert kept[j] in seen;
      }
    }
  }

  lemma RepresentedGrows(seen: seq<Network>, c: Network, after: seq<Network>)
    requires AllRepresented(seen, after) && Represented(c, after)
    ensures AllRepresented(seen + [c], after)
  {
    hide Represented;
  }

  /** A record of a kept name: it replaces the kept one when stronger. */
  lemma DuplicateStep(seen: seq<Network>, kept: seq<Network>, discarded: bool, c: Network, d: nat)
    requires Curated(seen, kept, discarded) && d < |kept| && kept[d].name == c.name
    ensures Curated(seen + [c], if c.rssi > kept[d].rssi then kept[d := c] else kept, discarded)
  {
    hide AllSeen, AllRepresented, DistinctNames, Represented, Names;
    var after := if c.rssi > kept[d].rssi then kept[d := c] else kept;
    NamesGrow(seen, c);
    SameNames(kept, after);
    NameSeen(seen, kept, d);
    assert Names(seen) + {c.name} == Names(seen);
    SeenGrows(seen, kept, c, after);
    StrongerAll(seen, kept, after, c, d);
    RepresentedGrows(seen, c, after);
  }

  lemma NameSeen(seen: seq<Network>, kept: seq<Network>, d: nat)
    requires AllSeen(seen, kept) && d < |kept|
    ensures kept[d].name in Names(seen)
  {
    assert kept[d] in seen;
    var k :| 0 <= k < |seen| && seen[k] == kept[d];
    NameIn(seen, k);
  }

  lemma StrongerAll(seen: seq<Network>, kept: seq<Network>, after: seq<Network>, c: Network, d: nat)
    requires AllRepresented(seen, kept) && d < |kept| && kept[d].name == c.name
    requires after == if c.rssi > kept[d].rssi then kept[d := c] else kept
    ensures AllRepresented(seen, after) && Represented(c, after)
  {
    SameNames(kept, after);
    forall k | 0 <= k < |seen|
      ensures Represented(seen[k], after)
    {
      assert Represented(seen[k], kept);
      Stronger(seen[k], kept, after);
    }
    assert after[d].name == c.name && after[d].rssi >= c.rssi;
  }

  lemma Stronger(n: Network, kept: seq<Network>, after: seq<Network>)
    requires Represented(n, kept) && |after| == |kept| && Names(after) == Names(kept)
    requires forall k :: 0 <= k < |kept| ==> after[k].name == kept[k].name && after[k].rssi >= kept[k].rssi
    ensures Represented(n, after)
  {
    if exists k :: 0 <= k < |kept| && kept[k].name == n.name && kept[k].rssi >= n.rssi {
      var k :| 0 <= k < |kept| && kept[k].name == n.name && kept[k].rssi >= n.rssi;
      assert after[k].name == n.name && after[k].rssi >= n.rssi;
    } else {
      forall k | 0 <= k < |after|
        ensures n.rssi <= after[k].rssi
      {
        assert n.rssi <= kept[k].rssi;
      }
    }
  }

  lemma SameNames(a: seq<Network>, b: seq<Network>)
    requires |a| == |b| && forall k :: 0 <= k < |a| ==> a[k].name == b[k].name
    ensures Names(a) == Names(b) && (DistinctNames(a) ==> DistinctNames(b))
  {
    forall x
      ensures x in Names(a) <==> x in Names(b)
    {
      if x in Names(a) {
        var k :| 0 <= k < |a| && a[k].name == x;
        NameIn(b, k);
      }
      if x in Names(b) {
        var k :| 0 <= k < |b| && b[k].name == x;
        NameIn(a, k);
      }
    }
  }

  /** A new name while there is room. */
  lemma RoomStep(seen: seq<Network>, kept: seq<Network>, discarded: bool, c: Network)
    requires Curated(seen, kept, discarded) && c.name !in Names(kept) && |kept| < LIST_CAPACITY
    ensures Curated(seen + [c], kept + [c], discarded)
  {
    hide AllSeen, AllRepresented, DistinctNames, Represented, Names;
    var after := kept + [c];
    NamesGrow(seen, c);
    NamesGrow(kept, c);
    DistinctGrows(kept, c);
    NamesCounted(after);
    SeenGrows(seen, kept, c, after);
    RoomAll(seen, kept, c);
    RepresentedGrows(seen, c, after);
  }

  lemma DistinctGrows(kept: seq<Network>, c: Network)
    requires DistinctNames(kept) && c.name !in Names(kept)
    ensures DistinctNames(kept + [c])
  {
    forall k | 0 <= k < |kept|
      ensures kept[k].name != c.name
    {
      NameIn(kept, k);
    }
  }

  lemma RoomAll(seen: seq<Network>, kept: seq<Network>, c: Network)
    requires AllRepresented(seen, kept) && |kept| < LIST_CAPACITY
    ensures AllRepresented(seen, kept + [c]) && Represented(c, kept + [c])
  {
    var after := kept + [c];
    forall k | 0 <= k < |seen|
      ensures Represented(seen[k], after)
    {
      assert Represented(seen[k], kept);
      var j :| 0 <= j < |kept| && kept[j].name == seen[k].name && kept[j].rssi >= seen[k].rssi;
      assert after[j] == kept[j];
    }
    assert after[|kept|] == c;
  }

  /** A new name when the list is full: the weakest makes way for a stronger one. */
  lemma FullStep(seen: seq<Network>, kept: seq<Network>, discarded: bool, c: Network, w: nat)
    requires Curated(seen, kept, discarded) && c.name !in Names(kept) && |kept| == LIST_CAPACITY
    requires w < |kept| && NotStronger(kept[w], kept)
    ensures Curated(seen + [c], if c.rssi > kept[w].rssi then kept[w := c] else kept, true)
  {
    hide AllSeen, AllRepresented, DistinctNames, Represented, Names, NotStronger;
    var after := if c.rssi > kept[w].rssi then kept[w := c] else kept;
    MoreThanFull(seen, kept, c);
    DistinctReplaced(kept, c, w);
    SeenGrows(seen, kept, c, after);
    FullAll(seen, kept, after, c, w);
    RepresentedGrows(seen, c, after);
  }

  lemma DistinctReplaced(kept: seq<Network>, c: Network, w: nat)
    requires DistinctNames(kept) && c.name !in Names(kept) && w < |kept|
    ensures DistinctNames(kept[w := c])
  {
    forall k | 0 <= k < |kept|
      ensures kept[k].name != c.name
    {
      NameIn(kept, k);
    }
  }

  lemma FullAll(seen: seq<Network>, kept: seq<Network>, after: seq<Network>, c: Network, w: nat)
    requires AllRepresented(seen, kept) && |kept| == LIST_CAPACITY && c.name !in Names(kept)
    requires w < |kept| && NotStronger(kept[w], kept) && DistinctNames(kept)
    requires after == if c.rssi > kept[w].rssi then kept[w := c] else kept
    ensures AllRepresented(seen, after) && Represented(c, after)
  {
    hide Names, NotStronger, DistinctNames;
    forall k | 0 <= k < |seen|
      ensures Represented(seen[k], after)
    {
      assert Represented(seen[k], kept);
      if after != kept {
        Replaced(kept, c, w, seen[k]);
      }
    }
    if after == kept {
      TooWeak(kept, c, w);
    } else {
      assert after[w] == c;
    }
  }

  lemma TooWeak(kept: seq<Network>, c: Network, w: nat)
    requires |kept| == LIST_CAPACITY && c.name !in Names(kept) && w < |kept| && NotStronger(kept[w], kept)
    requires c.rssi <= kept[w].rssi
    ensures Represented(c, kept)
  {
    hide Names;
  }

  /** When the weakest makes way, whatever was represented still is. */
  lemma Replaced(kept: seq<Network>, c: Network, w: nat, n: Network)
    requires |kept| == LIST_CAPACITY && w < |kept| && NotStronger(kept[w], kept) && DistinctNames(kept)
    requires c.name !in Names(kept) && c.rssi > kept[w].rssi && Represented(n, kept)
    ensures Represented(n, kept[w := c])
  {
    var after := kept[w := c];
    assert after[w] == c;
    if exists j :: 0 <= j < |kept| && j != w && kept[j].name == n.name && kept[j].rssi >= n.rssi {
      var j :| 0 <= j < |kept| && j != w && kept[j].name == n.name && kept[j].rssi >= n.rssi;
      assert after[j] == kept[j];
    } else {
      assert n.rssi <= kept[w].rssi;
      if n.name == c.name {
        assert after[w].name == n.name && after[w].rssi >= n.rssi;
      } else {
        NameGone(kept, c, w, n);
      }
    }
  }

  lemma NameGone(kept: seq<Network>, c: Network, w: nat, n: Network)
    requires w < |kept| && DistinctNames(kept) && n.name != c.name && n.rssi <= kept[w].rssi
    requires NotStronger(kept[w], kept) && c.rssi > kept[w].rssi
    requires kept[w].name == n.name || n.name !in Names(kept)
    ensures n.name !in Names(kept[w := c]) && NotStronger(n, kept[w := c])
  {
    var after := kept[w := c];
    forall k | 0 <= k < |after|
      ensures after[k].name != n.name
    {
      NameIn(kept, k);
    }
  }

  lemma MoreThanFull(seen: seq<Network>, kept: seq<Network>, c: Network)
    requires |kept| == LIST_CAPACITY && DistinctNames(kept) && c.name !in Names(kept) && AllSeen(seen, kept)
    ensures |Names(seen + [c])| > LIST_CAPACITY
  {
    NamesCounted(kept);
    NamesGrow(seen, c);
    var all := Names(kept) + {c.name};
    forall x | x in all
      ensures x in Names(seen + [c])
    {
      if x in Names(kept) {
        var k :| 0 <= k < |kept| && kept[k].name == x;
        NameSeen(seen, kept, k);
      }
    }
    SubsetSize(all, Names(seen + [c]));
  }

  lemma {:induction false} SubsetSize<T>(a: set<T>, b: set<T>)
    requires a <= b
    ensures |a| <= |b|
  {
    if a != {} {
      var x :| x in a;
      SubsetSize(a - {x}, b - {x});
    }
  }

  // ---------------------------------------------------------------- order

  /** Byte-wise order of names, a prefix first. */
  predicate NameBefore(a: seq<byte>, b: seq<byte>) {
    b != [] && (a == [] || a[0] < b[0] || (a[0] == b[0] && NameBefore(a[1..], b[1..])))
  }

  predicate Before(a: Network, b: Network) {
    a.rssi > b.rssi || (a.rssi == b.rssi && NameBefore(a.name, b.name))
  }

  predicate Sorted(ns: seq<Network>) {
    forall j, k :: 0 <= j < k < |ns| ==> Before(ns[j], ns[k])
  }

  lemma {:induction false} NamesCompare(a: seq<byte>, b: seq<byte>)
    ensures a == b || NameBefore(a, b) || NameBefore(b, a)
  {
    if a != [] && b != [] && a[0] == b[0] {
      NamesCompare(a[1..], b[1..]);
      assert a == [a[0]] + a[1..] && b == [b[0]] + b[1..];
    }
  }

  lemma {:induction false} NamesTransitive(a: seq<byte>, b: seq<byte>, c: seq<byte>)
    requires NameBefore(a, b) && NameBefore(b, c)
    ensures NameBefore(a, c)
  {
    if a != [] && a[0] == b[0] && b[0] == c[0] {
      NamesTransitive(a[1..], b[1..], c[1..]);
    }
  }

  lemma BeforeTransitive(a: Network, b: Network, c: Network)
    requires Before(a, b) && Before(b, c)
    ensures Before(a, c)
  {
    if a.rssi == b.rssi == c.rssi {
      NamesTransitive(a.name, b.name, c.name);
    }
  }

  /** Places one network into a sorted list. */
  method InsertNetwork(sorted: seq<Network>, x: Network) returns (longer: seq<Network>)
    requires Sorted(sorted) && x.name !in Names(sorted)
    ensures Sorted(longer) && multiset(longer) == multiset(sorted) + multiset{x}
  {
    var at := 0;
    while at < |sorted| && Before(sorted[at], x)
      invariant at <= |sorted| && forall k :: 0 <= k < at ==> Before(sorted[k], x)
    {
      at := at + 1;
    }
    longer := sorted[..at] + [x] + sorted[at..];
    assert sorted == sorted[..at] + sorted[at..];
    forall k | at <= k < |sorted|
      ensures Before(x, sorted[k])
    {
      assert sorted[at].name in Names(sorted);
      NamesCompare(x.name, sorted[at].name);
      if k > at {
        BeforeTransitive(x, sorted[at], sorted[k]);
      }
    }
  }

  method SortNetworks(ns: seq<Network>) returns (sorted: seq<Network>)
    requires DistinctNames(ns)
    ensures Sorted(sorted) && multiset(sorted) == multiset(ns)
  {
    sorted := [];
    for k := 0 to |ns|
      invariant Sorted(sorted) && multiset(sorted) == multiset(ns[..k])
    {
      assert ns[..k + 1] == ns[..k] + [ns[k]];
      NotAmong(ns, k, sorted);
      sorted := InsertNetwork(sorted, ns[k]);
    }
    assert ns[..|ns|] == ns;
  }

  lemma NotAmong(ns: seq<Network>, k: nat, sorted: seq<Network>)
    requires DistinctNames(ns) && k < |ns| && multiset(sorted) == multiset(ns[..k])
    ensures ns[k].name !in Names(sorted)
  {
    forall j | 0 <= j < |sorted|
      ensures sorted[j].name != ns[k].name
    {
      assert sorted[j] in multiset(sorted);
      assert sorted[j] in ns[..k];
    }
  }

  lemma CuratedPermuted(seen: seq<Network>, kept: seq<Network>, sorted: seq<Network>, discarded: bool)
    requires Curated(seen, kept, discarded) && multiset(kept) == multiset(sorted) && Sorted(sorted)
    ensures Curated(seen, sorted, discarded)
  {
    hide AllRepresented, DistinctNames, Represented, Names, Sorted;
    SameLength(kept, sorted);
    SameMembers(kept, sorted);
    MembersGiveNames(kept, sorted);
    MembersGiveNames(sorted, kept);
    SortedDistinct(kept, sorted);
    PermutedAll(seen, kept, sorted);
    assert AllSeen(seen, sorted) by {
      forall k | 0 <= k < |sorted|
        ensures sorted[k] in seen
      {
        assert sorted[k] in kept;
        var j :| 0 <= j < |kept| && kept[j] == sorted[k];
      }
    }
  }

  lemma SameMembers(a: seq<Network>, b: seq<Network>)
    requires multiset(a) == multiset(b)
    ensures forall x :: x in a <==> x in b
  {
    assert forall x :: x in a <==> x in multiset(a);
    assert forall x :: x in b <==> x in multiset(b);
  }

  lemma PermutedAll(seen: seq<Network>, kept: seq<Network>, sorted: seq<Network>)
    requires AllRepresented(seen, kept) && |sorted| == |kept| && Names(sorted) == Names(kept)
    requires forall x :: x in kept <==> x in sorted
    ensures AllRepresented(seen, sorted)
  {
    hide Names;
    forall k | 0 <= k < |seen|
      ensures Represented(seen[k], sorted)
    {
      assert Represented(seen[k], kept);
      if exists j :: 0 <= j < |kept| && kept[j].name == seen[k].name && kept[j].rssi >= seen[k].rssi {
        var j :| 0 <= j < |kept| && kept[j].name == seen[k].name && kept[j].rssi >= seen[k].rssi;
        assert kept[j] in sorted;
      } else {
        forall i | 0 <= i < |sorted|
          ensures seen[k].rssi <= sorted[i].rssi
        {
          assert sorted[i] in kept;
        }
      }
    }
  }

  lemma SameLength(a: seq<Network>, b: seq<Network>)
    requires multiset(a) == multiset(b)
    ensures |a| == |b|
  {
    assert |multiset(a)| == |a| && |multiset(b)| == |b|;
  }

  lemma MembersGiveNames(a: seq<Network>, b: seq<Network>)
    requires forall x :: x in a ==> x in b
    ensures Names(a) <= Names(b)
  {
    forall x | x in Names(a)
      ensures x in Names(b)
    {
      var k :| 0 <= k < |a| && a[k].name == x;
      assert a[k] in b;
    }
  }

  lemma SortedDistinct(kept: seq<Network>, sorted: seq<Network>)
    requires DistinctNames(kept) && multiset(kept) == multiset(sorted)
    ensures DistinctNames(sorted)
  {
    SameLength(kept, sorted);
    NamesCounted(kept);
    SameMembers(kept, sorted);
    MembersGiveNames(kept, sorted);
    if !DistinctNames(sorted) {
      var j, k :| 0 <= j < k < |sorted| && sorted[j].name == sorted[k].name;
      var shorter := sorted[..k] + sorted[k + 1..];
      NamesWithout(sorted, j, k);
      NamesAtMost(shorter);
      SubsetSize(Names(kept), Names(shorter));
    }
  }

  lemma NamesWithout(ns: seq<Network>, j: nat, k: nat)
    requires j < k < |ns| && ns[j].name == ns[k].name
    ensures Names(ns) <= Names(ns[..k] + ns[k + 1..])
  {
    var shorter := ns[..k] + ns[k + 1..];
    forall x | x in Names(ns)
      ensures x in Names(shorter)
    {
      var i :| 0 <= i < |ns| && ns[i].name == x;
      var at := if i < k then i else if i == k then j else i - 1;
      assert shorter[at].name == x;
    }
  }

  lemma {:induction false} NamesAtMost(ns: seq<Network>)
    ensures |Names(ns)| <= |ns|
  {
    if ns == [] {
      assert Names(ns) == {};
    } else {
      var n := |ns| - 1;
      NamesAtMost(ns[..n]);
      assert ns == ns[..n] + [ns[n]];
      NamesGrow(ns[..n], ns[n]);
    }
  }

  // ---------------------------------------------------------------- the curation

  method Weakest(kept: seq<Network>) returns (w: nat)
    requires |kept| > 0
    ensures w < |kept| && NotStronger(kept[w], kept)
  {
    w := 0;
    for k := 0 to |kept|
      invariant w < |kept| && forall j :: 0 <= j < k ==> kept[w].rssi <= kept[j].rssi
    {
      if kept[k].rssi < kept[w].rssi { w := k; }
    }
  }

  method FindName(kept: seq<Network>, name: seq<byte>) returns (found: Option<nat>)
    ensures found.Some? ==> found.value < |kept| && kept[found.value].name == name
    ensures found == None ==> name !in Names(kept)
  {
    for k := 0 to |kept|
      invariant forall j :: 0 <= j < k ==> kept[j].name != name
    {
      if kept[k].name == name { return Some(k); }
    }
    found := None;
  }

  /**
   * The list holds at most twenty networks with distinct names, each the strongest record of its
   * name, sorted; nothing omitted is stronger than anything kept; and it is marked truncated
   * exactly when there were more than twenty names.
   */
  method CurateWifiNetworks(records: seq<RawNetwork>) returns (list: NetworkList)
    requires forall k :: 0 <= k < |records| ==> Scanned(records[k])
    ensures Sorted(list.networks) && Curated(Named(records), list.networks, list.truncated)
  {
    var strongest, discarded := [], false;
    assert Names([]) == {};
    for index := 0 to |records|
      invariant Curated(Named(records[..index]), strongest, discarded)
    {
      var record := records[index];
      ghost var seen := Named(records[..index]);
      assert records[..index + 1][..index] == records[..index];
      if record.length == 0 {
        assert Named(records[..index + 1]) == seen + [] == seen;
        continue;
      }
      var name := SanitizeSsid(record);
      var candidate := Network(name, record.rssi, record.channel, record.security);
      assert Named(records[..index + 1]) == seen + [candidate];
      var duplicate := FindName(strongest, candidate.name);
      if duplicate.Some? {
        DuplicateStep(seen, strongest, discarded, candidate, duplicate.value);
        if candidate.rssi > strongest[duplicate.value].rssi {
          strongest := strongest[duplicate.value := candidate];
        }
      } else if |strongest| < LIST_CAPACITY {
        RoomStep(seen, strongest, discarded, candidate);
        strongest := strongest + [candidate];
      } else {
        var weakest := Weakest(strongest);
        FullStep(seen, strongest, discarded, candidate, weakest);
        if candidate.rssi > strongest[weakest].rssi {
          strongest := strongest[weakest := candidate];
        }
        discarded := true;
      }
    }
    assert records[..|records|] == records;
    var sorted := SortNetworks(strongest);
    CuratedPermuted(Named(records), strongest, sorted, discarded);
    list := NetworkList(sorted, discarded);
  }

  /** What being curated means for one scanned name: kept with its strongest record, or weaker than all kept. */
  lemma CuratedMeans(seen: seq<Network>, kept: seq<Network>, truncated: bool, n: Network)
    requires Curated(seen, kept, truncated) && n in seen
    ensures n.name in Names(kept) ==>
              exists k :: 0 <= k < |kept| && kept[k].name == n.name && kept[k] in seen && n.rssi <= kept[k].rssi
    ensures n.name !in Names(kept) ==> truncated && NotStronger(n, kept)
  {
    var i :| 0 <= i < |seen| && seen[i] == n;
    assert Represented(seen[i], kept);
    if exists k :: 0 <= k < |kept| && kept[k].name == n.name && kept[k].rssi >= n.rssi {
      var k :| 0 <= k < |kept| && kept[k].name == n.name && kept[k].rssi >= n.rssi;
      assert kept[k].name in Names(kept) && kept[k] in seen;
    }
    assert n.name in Names(seen);
  }
}
