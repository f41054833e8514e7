/** The calls a control application makes over its life, and which orders of them are lawful. */
module ControlTrace {
  import opened Bytes
  import opened Domain
  import opened ControlCore

  /** What held when the heater was written to. */
  datatype Scene = Scene(
    configured: bool, fault: Option<ActiveFault>, updating: bool, running: bool, chamber: Option<real>, maximum: real,
    target: Option<real>)

  /** The heater may be on. */
  predicate Heatable(s: Scene) {
    s.configured && s.fault == None && !s.updating && s.running && s.chamber.Some? && s.chamber.value <= s.maximum
    && s.target.Some?
  }

  /**
   * Controller requests carry the number of the run they serve; latching and clearing concern
   * ControlLoopFailure only.
   */
  datatype Call =
    | Request(run: nat, chamber: real, target: real, answer: Option<Percent>)
    | Reset(ok: bool)
    | Latch
    | Clear
    | Write(demand: Percent, scene: Scene)
    | Measured(reading: Option<real>)
    | Probed(probe: byte, temperature: Option<real>)

  /** A controller failure stays with the application until it was latched, resolved and cleared. */
  datatype Health = Sound | Broken(latched: bool, resolved: bool)

  function Last<T>(t: seq<T>): T
    requires t != []
  {
    t[|t| - 1]
  }

  function Front<T>(t: seq<T>): seq<T>
    requires t != []
  {
    t[..|t| - 1]
  }

  function HealthStep(h: Health, c: Call): Health {
    match c
    case Request(_, _, _, answer) => if answer.Some? then h else Broken(h.Broken? && h.latched, false)
    case Reset(ok) => if h.Broken? then Broken(h.latched, ok) else if ok then Sound else Broken(false, false)
    case Latch => if h.Broken? then Broken(true, h.resolved) else h
    case Clear => Sound
    case _ => h
  }

  function HealthAfter(t: seq<Call>): Health {
    if t == [] then Sound else HealthStep(HealthAfter(Front(t)), Last(t))
  }

  /** The runs the controller has served since it was last reset. */
  function Unreset(t: seq<Call>): set<nat> {
    if t == [] then {} else ServedAfter(Unreset(Front(t)), Last(t))
  }

  function ServedAfter(served: set<nat>, c: Call): set<nat> {
    if c.Request? then served + {c.run} else if c.Reset? then {} else served
  }

  /** The request made since the last write, if any. */
  function Offer(t: seq<Call>): Option<Call> {
    if t == [] then None else OfferAfter(Offer(Front(t)), Last(t))
  }

  function OfferAfter(offer: Option<Call>, c: Call): Option<Call> {
    if c.Request? then Some(c) else if c.Write? then None else offer
  }

  /** What the chamber sensor answered since the last write, if it was asked. */
  function Sight(t: seq<Call>): Option<Option<real>> {
    if t == [] then None else SightAfter(Sight(Front(t)), Last(t))
  }

  function SightAfter(sight: Option<Option<real>>, c: Call): Option<Option<real>> {
    if c.Measured? then Some(c.reading) else if c.Write? then None else sight
  }

  /** The heater is switched on only where it may be, with what the controller answered to these very readings. */
  predicate SafeWrite(offer: Option<Call>, sight: Option<Option<real>>, demand: Percent, scene: Scene) {
    demand != OFF ==>
      Heatable(scene) && offer.Some? && offer.value.Request? && offer.value.answer == Some(demand)
      && scene.chamber == Some(offer.value.chamber) && scene.target == Some(offer.value.target)
      && sight == Some(scene.chamber)
  }

  /**
   * No request while a failure stands, for another run than unreset ones, or with another reading than
   * the sensor's of this cycle; no early clearing; no unsafe heater write.
   */
  predicate Allowed(t: seq<Call>, c: Call) {
    match c
    case Request(run, chamber, _, _) =>
      HealthAfter(t) == Sound && Unreset(t) <= {run} && Sight(t) == Some(Some(chamber))
    case Clear => HealthAfter(t) == Broken(true, true)
    case Latch => HealthAfter(t).Broken? && !HealthAfter(t).latched
    case Write(demand, scene) => SafeWrite(Offer(t), Sight(t), demand, scene)
    case _ => true
  }

  predicate Lawful(t: seq<Call>) {
    t == [] || (Lawful(Front(t)) && Allowed(Front(t), Last(t)))
  }

  function Writes(t: seq<Call>): seq<Percent> {
    if t == [] then []
    else Writes(Front(t)) + if Last(t).Write? then [Last(t).demand] else []
  }

  lemma Extend(t: seq<Call>, c: Call)
    ensures HealthAfter(t + [c]) == HealthStep(HealthAfter(t), c)
    ensures Lawful(t + [c]) <==> Lawful(t) && Allowed(t, c)
    ensures Unreset(t + [c]) == ServedAfter(Unreset(t), c)
    ensures Writes(t + [c]) == Writes(t) + if c.Write? then [c.demand] else []
    ensures Offer(t + [c]) == OfferAfter(Offer(t), c) && Sight(t + [c]) == SightAfter(Sight(t), c)
  {
    assert Front(t + [c]) == t && Last(t + [c]) == c;
  }

  lemma {:induction false} LawfulPrefix(t: seq<Call>, n: nat)
    requires Lawful(t) && n <= |t|
    ensures Lawful(t[..n])
    ensures n < |t| ==> Allowed(t[..n], t[n])
  {
    if n == |t| {
      assert t[..n] == t;
    } else if n == |t| - 1 {
      assert t[..n] == Front(t);
    } else {
      LawfulPrefix(Front(t), n);
      assert Front(t)[..n] == t[..n];
    }
  }

  /** A run requested and not reset since is still on the controller. */
  lemma {:induction false} StillUnreset(t: seq<Call>, i: nat)
    requires i < |t| && t[i].Request? && forall k :: i < k < |t| ==> !t[k].Reset?
    ensures t[i].run in Unreset(t)
  {
    if i < |t| - 1 {
      assert Front(t)[i] == t[i];
      StillUnreset(Front(t), i);
    }
  }

  /** Between requests for different runs the controller was reset. */
  lemma ResetBetweenRuns(t: seq<Call>, i: nat, j: nat)
    requires Lawful(t) && i < j < |t| && t[i].Request? && t[j].Request? && t[i].run != t[j].run
    ensures exists k :: i < k < j && t[k].Reset?
  {
    LawfulPrefix(t, j);
    if forall k :: i < k < j ==> !t[k].Reset? {
      assert forall k :: i < k < j ==> t[..j][k] == t[k];
      StillUnreset(t[..j], i);
    }
  }

  lemma {:induction false} OfferIsRecent(t: seq<Call>)
    requires Offer(t).Some?
    ensures exists j :: 0 <= j < |t| && t[j].Request? && Offer(t) == Some(t[j]) && forall k :: j < k < |t| ==> !t[k].Write?
  {
    if !Last(t).Request? {
      OfferIsRecent(Front(t));
      var j :| 0 <= j < |t| - 1 && Front(t)[j].Request? && Offer(Front(t)) == Some(Front(t)[j])
        && forall k :: j < k < |t| - 1 ==> !Front(t)[k].Write?;
      assert t[j] == Front(t)[j] && forall k :: j < k < |t| - 1 ==> t[k] == Front(t)[k];
    }
  }

  /** The reading at `m` is the last one, and the heater was not written to since. */
  predicate SeenAt(t: seq<Call>, m: int, reading: Option<real>) {
    0 <= m < |t| && t[m] == Measured(reading) && forall k :: m < k < |t| ==> !t[k].Write? && !t[k].Measured?
  }

  lemma {:induction false} SightIsRecent(t: seq<Call>)
    requires Sight(t).Some?
    ensures exists m :: SeenAt(t, m, Sight(t).value)
  {
    if Last(t).Measured? {
      assert SeenAt(t, |t| - 1, Sight(t).value);
    } else {
      SightIsRecent(Front(t));
      var m :| SeenAt(Front(t), m, Sight(Front(t)).value);
      SeenLonger(t, m, Sight(Front(t)).value);
    }
  }

  lemma SeenLonger(t: seq<Call>, m: int, reading: Option<real>)
    requires t != [] && SeenAt(Front(t), m, reading) && !Last(t).Write? && !Last(t).Measured?
    ensures SeenAt(t, m, reading)
  {
    assert forall k :: 0 <= k < |t| - 1 ==> t[k] == Front(t)[k];
  }

  /** No heater write lies between two calls: they belong to one cycle. */
  predicate SameCycle(t: seq<Call>, i: int, k: int) {
    0 <= i < k <= |t| && forall l :: i < l < k ==> !t[l].Write?
  }

  /** Every request is made with what the chamber sensor last answered, in the same cycle. */
  lemma EveryRequestIsFresh(t: seq<Call>, j: nat)
    requires Lawful(t) && j < |t| && t[j].Request?
    ensures exists m :: SameCycle(t, m, j) && t[m] == Measured(Some(t[j].chamber))
                        && forall l :: m < l < j ==> !t[l].Measured?
  {
    LawfulPrefix(t, j);
    SightIsRecent(t[..j]);
    var m :| SeenAt(t[..j], m, Sight(t[..j]).value);
    assert forall i :: 0 <= i < j ==> t[..j][i] == t[i];
    assert SameCycle(t, m, j);
  }

  /**
   * In every history, a heater that is switched on is on where it may be, with the answer that the
   * controller gave in the same cycle to the reading that the sensor last gave in the same cycle.
   */
  lemma EveryWriteIsSafe(t: seq<Call>, k: nat)
    requires Lawful(t) && k < |t| && t[k].Write? && t[k].demand != OFF
    ensures Heatable(t[k].scene)
    ensures exists j, run ::
              SameCycle(t, j, k)
              && t[j] == Request(run, t[k].scene.chamber.value, t[k].scene.target.value, Some(t[k].demand))
    ensures exists m :: SameCycle(t, m, k) && t[m] == Measured(t[k].scene.chamber)
                        && forall l :: m < l < k ==> !t[l].Measured?
  {
    LawfulPrefix(t, k);
    assert forall i :: 0 <= i < k ==> t[..k][i] == t[i];
    OfferIsRecent(t[..k]);
    var j :| 0 <= j < k && t[..k][j].Request? && Offer(t[..k]) == Some(t[..k][j])
      && forall i :: j < i < k ==> !t[..k][i].Write?;
    assert SameCycle(t, j, k)
           && t[j] == Request(t[j].run, t[k].scene.chamber.value, t[k].scene.target.value, Some(t[k].demand));
    SightIsRecent(t[..k]);
    var m :| SeenAt(t[..k], m, Sight(t[..k]).value);
    assert SameCycle(t, m, k);
  }

  predicate Fails(c: Call) {
    (c.Request? && c.answer == None) || (c.Reset? && !c.ok)
  }

  /** What must have happened since a failure for the controller to be sound again. */
  lemma {:induction false} SoundAgain(t: seq<Call>, i: nat, n: nat)
    requires Lawful(t) && i < n <= |t| && Fails(t[i]) && HealthAfter(t[..n]) == Sound
    ensures exists r, c :: i < r < c < n && t[r] == Reset(true) && t[c] == Clear
    ensures HealthAfter(t[..i]) == Sound ==> exists l, c :: i < l < c < n && t[l] == Latch && t[c] == Clear
  {
    var m := n - 1;
    assert Front(t[..n]) == t[..m] && Last(t[..n]) == t[m];
    if i < m && HealthAfter(t[..m]) == Sound {
      SoundAgain(t, i, m);
    } else if i < m {
      assert t[m] == Clear;
      LawfulPrefix(t, m);
      Resolution(t, i, m);
      if HealthAfter(t[..i]) == Sound {
        Latching(t, i, m);
      }
    }
  }

  /** A resolved failure was resolved by a successful reset after the last failing call. */
  lemma {:induction false} Resolution(t: seq<Call>, i: nat, n: nat)
    requires Lawful(t) && i < n <= |t| && Fails(t[i])
    requires HealthAfter(t[..n]).Broken? && HealthAfter(t[..n]).resolved
    ensures exists r :: i < r < n && t[r] == Reset(true)
  {
    var m := n - 1;
    assert Front(t[..n]) == t[..m] && Last(t[..n]) == t[m];
    if i < m && t[m] != Reset(true) {
      Resolution(t, i, m);
    }
  }

  lemma {:induction false} Latching(t: seq<Call>, i: nat, n: nat)
    requires Lawful(t) && i < n <= |t| && HealthAfter(t[..i]) == Sound
    requires HealthAfter(t[..n]).Broken? && HealthAfter(t[..n]).latched
    ensures exists l :: i <= l < n && t[l] == Latch
  {
    var m := n - 1;
    assert Front(t[..n]) == t[..m] && Last(t[..n]) == t[m];
    if t[m] != Latch {
      if i < m {
        Latching(t, i, m);
      }
    }
  }

  /**
   * After a failed request, or the failed reset that first broke the controller, no request is made
   * until the failure was latched, a reset succeeded, and the failure was cleared.
   */
  lemma FailureForbidsRequests(t: seq<Call>, i: nat, j: nat)
    requires Lawful(t) && i < j < |t| && Fails(t[i]) && t[j].Request?
    ensures exists r, c :: i < r < c < j && t[r] == Reset(true) && t[c] == Clear
    ensures HealthAfter(t[..i]) == Sound ==> exists l, c :: i < l < c < j && t[l] == Latch && t[c] == Clear
  {
    LawfulPrefix(t, j);
    SoundAgain(t, i, j);
  }
}
