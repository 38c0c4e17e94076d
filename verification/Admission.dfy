/** Check before the provider call, record after it, several requests at once: how
    far a window's total can pass its cap. The rate-limit tracker and the spend
    ledger run the same protocol. */
module Admission {
  /** The cap every request is checked against, how many admitted requests may be
      unrecorded at a time, and the most one of them can cost. */
  datatype Terms = Terms(cap: nat, inFlight: nat, cost: nat) {
    /** What the gate's reading may reach after `late` requests that it did not hold back. */
    function Ceiling(late: nat): int { cap - 1 + (inFlight + late) * cost }

    /** What is used up anew each time the reading is wiped by a late record, whose own
        charge the reading never shows. */
    function Refill(): int { cap - 1 + inFlight * cost - cost }

    /** What may truly be used after that happened `slow` times. */
    function TrueCeiling(late: nat, slow: nat): int { slow * Refill() + Ceiling(late) }
  }

  /** What the gate reads, what was used beyond that, the requests admitted but not yet
      recorded, how many passed a gate that looked at something else, and how often the
      reading was wiped. */
  datatype Meter = Meter(reading: int, forgotten: int, pending: nat, late: nat, slow: nat)

  predicate Admit(t: Terms, a: Meter, b: Meter) {
    0 <= a.reading < t.cap && a.pending < t.inFlight && b == a.(pending := a.pending + 1)
  }

  /** The gate that admitted this request did not look at the current reading. */
  predicate AdmitLate(t: Terms, a: Meter, b: Meter) {
    a.pending < t.inFlight && b == a.(pending := a.pending + 1, late := a.late + 1)
  }

  /** A request completes, charging at most `cost` (nothing, if it failed). */
  predicate Land(t: Terms, a: Meter, b: Meter) {
    && a.pending > 0 && b.reading <= a.reading + t.cost
    && b == a.(reading := b.reading, pending := a.pending - 1)
  }

  /** A request completes too late for its charge to count, and wipes the reading. */
  predicate Forget(t: Terms, a: Meter, b: Meter) {
    && a.pending > 0
    && b == Meter(0, a.forgotten + a.reading, a.pending - 1, a.late, a.slow + 1)
  }

  /** Time passes; a later window reads lower. */
  predicate Fall(a: Meter, b: Meter) {
    b.reading <= a.reading && b == a.(reading := b.reading)
  }

  /** A new window opens, empty. */
  predicate Reopen(t: Terms, a: Meter, b: Meter) {
    b == Meter(0, 0, a.pending, 0, 0) && (t.cap == 0 ==> a.pending == 0)
  }

  predicate Step(t: Terms, a: Meter, b: Meter) {
    Admit(t, a, b) || AdmitLate(t, a, b) || Land(t, a, b) || Forget(t, a, b) || Fall(a, b) || Reopen(t, a, b)
  }

  predicate Bounded(t: Terms, m: Meter) {
    && t.inFlight * t.cost >= 1 && m.pending <= t.inFlight
    && m.reading + m.pending * t.cost <= t.Ceiling(m.late)
    && m.forgotten + m.reading + m.pending * t.cost <= t.TrueCeiling(m.late, m.slow)
    && m.forgotten <= m.slow * t.Refill() + m.late * t.cost
  }

  lemma Scale(a: nat, b: nat, c: nat)
    requires a <= b
    ensures a * c <= b * c
  {
  }

  lemma OneMore(n: nat, k: int)
    ensures (n + 1) * k == n * k + k
  {
  }

  lemma AtLeastOne(n: nat, k: nat)
    requires n * k >= 1
    ensures n >= 1 && k <= n * k
  {
  }

  lemma CeilingSplits(t: Terms, late: nat)
    ensures t.Ceiling(late) == t.cap - 1 + t.inFlight * t.cost + late * t.cost
  {
  }

  lemma AdmitKeepsBound(t: Terms, a: Meter, b: Meter)
    requires Bounded(t, a) && Admit(t, a, b)
    ensures Bounded(t, b)
  {
    Scale(b.pending, t.inFlight, t.cost);
    CeilingSplits(t, a.late);
    Scale(0, a.late, t.cost);
  }

  lemma AdmitLateKeepsBound(t: Terms, a: Meter, b: Meter)
    requires Bounded(t, a) && AdmitLate(t, a, b)
    ensures Bounded(t, b)
  {
    OneMore(a.pending, t.cost);
    OneMore(a.late, t.cost);
    CeilingSplits(t, a.late);
    CeilingSplits(t, b.late);
  }

  lemma LandKeepsBound(t: Terms, a: Meter, b: Meter)
    requires Bounded(t, a) && Land(t, a, b)
    ensures Bounded(t, b)
  {
    OneMore(b.pending, t.cost);
  }

  lemma ForgetKeepsBound(t: Terms, a: Meter, b: Meter)
    requires Bounded(t, a) && Forget(t, a, b) && t.cap >= 1
    ensures Bounded(t, b)
  {
    OneMore(b.pending, t.cost);
    OneMore(a.slow, t.Refill());
    AtLeastOne(t.inFlight, t.cost);
    Scale(b.pending, t.inFlight, t.cost);
    CeilingSplits(t, a.late);
    Scale(0, b.pending, t.cost);
    Scale(0, a.late, t.cost);
  }

  lemma ReopenKeepsBound(t: Terms, a: Meter, b: Meter)
    requires Bounded(t, a) && Reopen(t, a, b)
    ensures Bounded(t, b)
  {
    Scale(b.pending, t.inFlight, t.cost);
    CeilingSplits(t, 0);
  }

  /** Every move keeps the bounds on what is read and on what is used. */
  lemma StepKeepsBound(t: Terms, a: Meter, b: Meter)
    requires Bounded(t, a) && Step(t, a, b) && (Forget(t, a, b) ==> t.cap >= 1)
    ensures Bounded(t, b)
  {
    if Admit(t, a, b) {
      AdmitKeepsBound(t, a, b);
    } else if AdmitLate(t, a, b) {
      AdmitLateKeepsBound(t, a, b);
    } else if Land(t, a, b) {
      LandKeepsBound(t, a, b);
    } else if Forget(t, a, b) {
      ForgetKeepsBound(t, a, b);
    } else if Reopen(t, a, b) {
      ReopenKeepsBound(t, a, b);
    }
  }

  lemma BoundedReading(t: Terms, m: Meter)
    requires Bounded(t, m)
    ensures m.reading <= t.Ceiling(m.late) && m.forgotten + m.reading <= t.TrueCeiling(m.late, m.slow)
  {
    Scale(0, m.pending, t.cost);
  }

  lemma ZeroIsBounded(t: Terms)
    requires t.inFlight * t.cost >= 1
    ensures Bounded(t, Meter(0, 0, 0, 0, 0))
  {
  }

  predicate Keeps<S>(inv: S -> bool, states: seq<S>, i: nat) {
    i + 1 < |states| && inv(states[i]) ==> inv(states[i + 1])
  }

  /** What every step keeps, a run keeps. */
  lemma KeptThroughout<S>(inv: S -> bool, states: seq<S>)
    requires states != [] && inv(states[0]) && forall i: nat :: Keeps(inv, states, i)
    ensures forall i | 0 <= i < |states| :: inv(states[i])
  {
    for n := 1 to |states|
      invariant forall i | 0 <= i < n :: inv(states[i])
    {
      assert Keeps(inv, states, n - 1);
    }
  }

  // A run onto the ceiling ------------------------------------------------

  /** Where a run can get to: `true` while the gate holds, `false` once it can be passed by. */
  type Reach = (bool, Meter) -> bool

  predicate CanAdmit(t: Terms, reach: Reach, m: Meter) {
    reach(true, m) && 0 <= m.reading < t.cap && m.pending < t.inFlight ==> reach(true, m.(pending := m.pending + 1))
  }

  predicate CanPassBy(t: Terms, reach: Reach, m: Meter) {
    reach(true, m) && m.late == 0 ==> reach(false, m)
  }

  predicate CanAdmitLate(t: Terms, reach: Reach, m: Meter) {
    reach(false, m) && m.reading > 0 && m.pending < t.inFlight ==>
      reach(false, m.(pending := m.pending + 1, late := m.late + 1))
  }

  predicate CanLand(t: Terms, reach: Reach, holds: bool, m: Meter, cost: nat) {
    reach(holds, m) && m.pending > 0 && 0 < cost <= t.cost ==>
      reach(holds, m.(reading := m.reading + cost, pending := m.pending - 1))
  }

  predicate CanForget(t: Terms, reach: Reach, m: Meter) {
    reach(true, m) && m.pending > 0 ==>
      reach(true, Meter(0, m.forgotten + m.reading, m.pending - 1, m.late, m.slow + 1))
  }

  /** From nothing, each of these moves can be made wherever a run stands. */
  ghost predicate Playable(t: Terms, reach: Reach) {
    && t.cap >= 1 && t.inFlight >= 1 && t.cost >= 1 && reach(true, Meter(0, 0, 0, 0, 0))
    && (forall m :: CanAdmit(t, reach, m))
    && (forall m :: CanPassBy(t, reach, m))
    && (forall m :: CanAdmitLate(t, reach, m))
    && (forall holds, m, cost: nat :: CanLand(t, reach, holds, m, cost))
  }

  /** Small requests, one after the other. */
  lemma {:induction false} FillUp(t: Terms, reach: Reach, m: Meter, k: nat)
    requires Playable(t, reach) && reach(true, m) && m.pending == 0 && m.reading >= 0 && m.reading + k < t.cap
    ensures reach(true, m.(reading := m.reading + k))
  {
    if k > 0 {
      var filled := m.(reading := m.reading + (k - 1));
      FillUp(t, reach, m, k - 1);
      assert CanAdmit(t, reach, filled);
      assert CanLand(t, reach, true, filled.(pending := 1), 1);
    }
  }

  lemma {:induction false} AdmitMany(t: Terms, reach: Reach, m: Meter, k: nat)
    requires Playable(t, reach) && reach(true, m) && 0 <= m.reading < t.cap && m.pending + k <= t.inFlight
    ensures reach(true, m.(pending := m.pending + k))
  {
    if k > 0 {
      AdmitMany(t, reach, m, k - 1);
      assert CanAdmit(t, reach, m.(pending := m.pending + (k - 1)));
    }
  }

  lemma {:induction false} LandMany(t: Terms, reach: Reach, holds: bool, m: Meter, k: nat)
    requires Playable(t, reach) && reach(holds, m) && k <= m.pending
    ensures reach(holds, m.(reading := m.reading + k * t.cost, pending := m.pending - k))
  {
    if k > 0 {
      LandMany(t, reach, holds, m, k - 1);
      OneMore(k - 1, t.cost);
      var before := m.(reading := m.reading + (k - 1) * t.cost, pending := m.pending - (k - 1));
      assert CanLand(t, reach, holds, before, t.cost);
    }
  }

  /** The window full to one below the cap, and every slot taken. */
  lemma FillAndAdmit(t: Terms, reach: Reach, m: Meter)
    requires Playable(t, reach) && reach(true, m) && m.pending == 0 && m.reading == 0
    ensures reach(true, m.(reading := t.cap - 1, pending := t.inFlight))
  {
    FillUp(t, reach, m, t.cap - 1);
    AdmitMany(t, reach, m.(reading := t.cap - 1), t.inFlight);
  }

  /** `k` times: fill up, let all but one of the admitted requests land, and the last late. */
  lemma {:induction false} WipeMany(t: Terms, reach: Reach, k: nat)
    requires Playable(t, reach) && (k > 0 ==> forall m :: CanForget(t, reach, m))
    ensures reach(true, Meter(0, k * t.Refill(), 0, 0, k))
  {
    if k > 0 {
      var j := k - 1;
      var forgotten := j * t.Refill();
      WipeMany(t, reach, j);
      FillAndAdmit(t, reach, Meter(0, forgotten, 0, 0, j));
      LandMany(t, reach, true, Meter(t.cap - 1, forgotten, t.inFlight, 0, j), t.inFlight - 1);
      OneMore(t.inFlight - 1, t.cost);
      OneMore(j, t.Refill());
      assert CanForget(t, reach, Meter(t.Refill(), forgotten, 1, 0, j));
    }
  }

  /** One request lands and a late one gets in, as often as wanted. */
  lemma {:induction false} SwapMany(t: Terms, reach: Reach, m: Meter, k: nat)
    requires Playable(t, reach) && reach(false, m) && m.pending == t.inFlight && m.reading >= 0
    ensures reach(false, m.(reading := m.reading + k * t.cost, late := m.late + k))
  {
    if k > 0 {
      var j := k - 1;
      SwapMany(t, reach, m, j);
      OneMore(j, t.cost);
      Scale(0, j, t.cost);
      var swapped := m.(reading := m.reading + j * t.cost, late := m.late + j);
      assert CanLand(t, reach, false, swapped, t.cost);
      assert CanAdmitLate(t, reach, swapped.(reading := m.reading + k * t.cost, pending := m.pending - 1));
    }
  }

  /** Both ceilings at once. */
  lemma CeilingInReach(t: Terms, reach: Reach, late: nat, slow: nat)
    requires Playable(t, reach) && (slow > 0 ==> forall m :: CanForget(t, reach, m))
    ensures late == 0 ==> reach(true, Meter(t.Ceiling(0), slow * t.Refill(), 0, 0, slow))
    ensures reach(false, Meter(t.Ceiling(late), slow * t.Refill(), 0, late, slow))
  {
    var forgotten := slow * t.Refill();
    WipeMany(t, reach, slow);
    FillAndAdmit(t, reach, Meter(0, forgotten, 0, 0, slow));
    var full := Meter(t.cap - 1, forgotten, t.inFlight, 0, slow);
    CeilingSplits(t, late);
    LandMany(t, reach, true, full, t.inFlight);
    assert CanPassBy(t, reach, full);
    SwapMany(t, reach, full, late);
    LandMany(t, reach, false, full.(reading := t.cap - 1 + late * t.cost, late := late), t.inFlight);
  }
}
