/** The spend ledger under concurrent requests: one token, any interleaving of gates,
    charges and administration, revocation included. */
module SpendRuns {
  import opened Admission
  import opened Outcomes
  import B = TokenStore
  import Calendar

  /** `late` counts the gates passed since the token was revoked. */
  datatype Spender = Spender(tables: B.Tables, pending: nat, now: nat, late: nat)

  /** The gate's query and the charge's insert use a clock value `at` read earlier.
      `Moved` is any other activity on the tables that charges this token nothing,
      its own revocation included. */
  datatype SpendEvent =
    | Passed(to: nat)
    | Gated(at: nat)
    | Charged(microUsd: nat, at: nat)
    | GaveUp
    | Moved(tables: B.Tables)

  /** The gate waves a revoked token's requests through: refusing those is up to `verify`,
      which ran earlier. */
  predicate SpendStep(t: Terms, id: B.TokenId, a: Spender, e: SpendEvent, b: Spender) {
    match e
    case Passed(to) => a.now <= to <= Calendar.MAX_TIMESTAMP && b == a.(now := to)
    case Gated(at) =>
      && at <= a.now && !B.Exceeded(a.tables, id, at) && a.pending < t.inFlight
      && b == a.(pending := a.pending + 1, late := if Live(a.tables, id) then a.late else a.late + 1)
    case Charged(microUsd, at) =>
      && at <= a.now && a.pending > 0 && 0 < microUsd <= t.cost
      && var charge := B.Charge(id, microUsd, ToI64(at));
         b == a.(tables := a.tables.(usage := a.tables.usage + [charge]), pending := a.pending - 1)
    case GaveUp => a.pending > 0 && b == a.(pending := a.pending - 1)
    case Moved(tables) =>
      && B.Advances(a.tables, tables) && B.WellFormed(tables)
      && (forall i | |a.tables.usage| <= i < |tables.usage| :: tables.usage[i].token != id)
      && b == a.(tables := tables)
  }

  /** The token exists and is not revoked. */
  predicate Live(tables: B.Tables, id: B.TokenId) {
    id in tables.tokens && tables.tokens[id].revokedAt.None?
  }

  /** The token exists, revoked or not, and carries `budget`. */
  predicate Carries(tables: B.Tables, id: B.TokenId, budget: B.Budget) {
    id in tables.tokens && tables.tokens[id].Cap() == budget
  }

  function MeterOf(s: Spender, id: B.TokenId, budget: B.Budget): Meter {
    Meter(Sum(s.tables, id, budget, s.now), 0, s.pending, s.late, 0)
  }

  lemma ChargeAdds(usage: seq<B.Charge>, c: B.Charge, id: B.TokenId, since: int)
    ensures B.SpendSince(usage + [c], id, since) ==
            B.SpendSince(usage, id, since) + if c.token == id && c.at >= since then c.cost else 0
  {
    assert (usage + [c])[..|usage|] == usage;
  }

  lemma {:induction false} OthersDoNotCount(usage: seq<B.Charge>, more: seq<B.Charge>, id: B.TokenId, since: int)
    requires usage <= more && forall i | |usage| <= i < |more| :: more[i].token != id
    ensures B.SpendSince(more, id, since) == B.SpendSince(usage, id, since)
    decreases |more|
  {
    if usage != more {
      assert usage <= more[..|more| - 1];
      OthersDoNotCount(usage, more[..|more| - 1], id, since);
    }
  }

  predicate SpenderOk(s: Spender, id: B.TokenId, budget: B.Budget) {
    && B.WellFormed(s.tables) && Carries(s.tables, id, budget) && s.now <= Calendar.MAX_TIMESTAMP
    && (Live(s.tables, id) ==> s.late == 0)
  }

  /** The sum over the window open at `now`, read from a given ledger. */
  function Sum(tables: B.Tables, id: B.TokenId, budget: B.Budget, now: nat): int {
    B.SpendSince(tables.usage, id, B.WindowOpens(budget, now))
  }

  lemma SpendStepKeepsOk(t: Terms, id: B.TokenId, budget: B.Budget, a: Spender, e: SpendEvent, b: Spender)
    requires SpendStep(t, id, a, e, b) && SpenderOk(a, id, budget)
    ensures SpenderOk(b, id, budget) && a.now <= b.now
  {
  }

  /** A later window holds a part of the ledger an earlier one held. */
  lemma WindowFalls(tables: B.Tables, id: B.TokenId, budget: B.Budget, now: nat, later: nat)
    requires B.WellFormed(tables) && now <= later <= Calendar.MAX_TIMESTAMP
    ensures 0 <= Sum(tables, id, budget, later) <= Sum(tables, id, budget, now)
  {
    hide Calendar.MonthStartSecs;
    Calendar.MonthStartLaws(now, later);
    B.SpendNarrows(tables.usage, id, B.WindowOpens(budget, now), B.WindowOpens(budget, later));
  }

  lemma GateRefines(t: Terms, id: B.TokenId, budget: B.Budget, a: Spender, at: nat, b: Spender)
    requires !budget.Unlimited? && budget.limit == t.cap
    requires SpendStep(t, id, a, Gated(at), b) && SpenderOk(a, id, budget)
    ensures if Live(a.tables, id) then Admit(t, MeterOf(a, id, budget), MeterOf(b, id, budget))
            else AdmitLate(t, MeterOf(a, id, budget), MeterOf(b, id, budget))
  {
    hide Calendar.MonthStartSecs;
    WindowFalls(a.tables, id, budget, at, a.now);
  }

  lemma ChargeRefines(
      t: Terms, id: B.TokenId, budget: B.Budget, a: Spender, microUsd: nat, at: nat, b: Spender)
    requires SpendStep(t, id, a, Charged(microUsd, at), b)
    ensures Land(t, MeterOf(a, id, budget), MeterOf(b, id, budget))
    ensures ToI64(at) >= B.WindowOpens(budget, a.now) ==>
              MeterOf(b, id, budget).reading == MeterOf(a, id, budget).reading + microUsd
  {
    hide Calendar.MonthStartSecs;
    ChargeAdds(a.tables.usage, B.Charge(id, microUsd, ToI64(at)), id, B.WindowOpens(budget, a.now));
  }

  /** Every ledger event is a move of the abstract meter. A gate on an earlier clock sums
      over an earlier window, so it is only stricter. */
  lemma SpendStepRefines(t: Terms, id: B.TokenId, budget: B.Budget, a: Spender, e: SpendEvent, b: Spender)
    requires !budget.Unlimited? && budget.limit == t.cap
    requires SpendStep(t, id, a, e, b) && SpenderOk(a, id, budget)
    ensures Step(t, MeterOf(a, id, budget), MeterOf(b, id, budget))
    ensures !Forget(t, MeterOf(a, id, budget), MeterOf(b, id, budget))
  {
    hide Calendar.MonthStartSecs;
    match e
    case Passed(to) => WindowFalls(a.tables, id, budget, a.now, to);
    case Gated(at) => GateRefines(t, id, budget, a, at, b);
    case Charged(microUsd, at) => ChargeRefines(t, id, budget, a, microUsd, at, b);
    case GaveUp =>
    case Moved(tables) => OthersDoNotCount(a.tables.usage, tables.usage, id, B.WindowOpens(budget, a.now));
  }

  predicate SpendRun(t: Terms, id: B.TokenId, states: seq<Spender>, events: seq<SpendEvent>) {
    && |states| == |events| + 1
    && forall i | 0 <= i < |events| :: SpendStep(t, id, states[i], events[i], states[i + 1])
  }

  function SpendInvariant(t: Terms, id: B.TokenId, budget: B.Budget): Spender -> bool {
    (s: Spender) => SpenderOk(s, id, budget) && Bounded(t, MeterOf(s, id, budget))
  }

  lemma SpendStepKeepsBound(
      t: Terms, id: B.TokenId, budget: B.Budget, states: seq<Spender>, events: seq<SpendEvent>, j: nat)
    requires !budget.Unlimited? && budget.limit == t.cap && SpendRun(t, id, states, events)
    ensures Keeps(SpendInvariant(t, id, budget), states, j)
  {
    hide Calendar.MonthStartSecs;
    if j < |events| && SpendInvariant(t, id, budget)(states[j]) {
      var a, b := states[j], states[j + 1];
      SpendStepKeepsOk(t, id, budget, a, events[j], b);
      SpendStepRefines(t, id, budget, a, events[j], b);
      StepKeepsBound(t, MeterOf(a, id, budget), MeterOf(b, id, budget));
    }
  }

  /** Nothing spent, nothing in flight, and not revoked. */
  predicate FreshSpender(s: Spender, id: B.TokenId, budget: B.Budget) {
    SpenderOk(s, id, budget) && Live(s.tables, id) && MeterOf(s, id, budget) == Meter(0, 0, 0, 0, 0)
  }

  lemma SpendBoundAt(t: Terms, id: B.TokenId, budget: B.Budget, s: Spender)
    requires SpendInvariant(t, id, budget)(s)
    ensures MeterOf(s, id, budget).reading <= t.Ceiling(s.late)
    ensures Live(s.tables, id) ==> s.late == 0
  {
    BoundedReading(t, MeterOf(s, id, budget));
  }

  lemma SpendStart(t: Terms, id: B.TokenId, budget: B.Budget, s: Spender)
    requires t.inFlight * t.cost >= 1 && FreshSpender(s, id, budget)
    ensures SpendInvariant(t, id, budget)(s)
  {
    ZeroIsBounded(t);
  }

  /** The same bound for a total or monthly budget, from the token's first use: while the
      token is live `cap - 1 + inFlight * cost`, and another `cost` for every gate passed
      after its revocation. */
  lemma BudgetOvershootBound(
      t: Terms, id: B.TokenId, budget: B.Budget, states: seq<Spender>, events: seq<SpendEvent>, i: nat)
    requires t.inFlight * t.cost >= 1 && !budget.Unlimited? && budget.limit == t.cap
    requires SpendRun(t, id, states, events) && i < |states| && FreshSpender(states[0], id, budget)
    ensures Sum(states[i].tables, id, budget, states[i].now) <= t.Ceiling(states[i].late)
    ensures Live(states[i].tables, id) ==>
              Sum(states[i].tables, id, budget, states[i].now) <= t.cap - 1 + t.inFlight * t.cost
  {
    hide Calendar.MonthStartSecs;
    var inv := SpendInvariant(t, id, budget);
    SpendStart(t, id, budget, states[0]);
    forall j: nat ensures Keeps(inv, states, j) {
      SpendStepKeepsBound(t, id, budget, states, events, j);
    }
    KeptThroughout(inv, states);
    SpendBoundAt(t, id, budget, states[i]);
  }

  // The bound is reached ------------------------------------------------

  /** A run from a fresh token ends in `s`, at the epoch. */
  ghost predicate Ran(t: Terms, id: B.TokenId, budget: B.Budget, s: Spender) {
    && s.now == 0 && SpenderOk(s, id, budget)
    && exists states, events ::
         SpendRun(t, id, states, events) && FreshSpender(states[0], id, budget) && states[|states| - 1] == s
  }

  /** Such a run ends on the meter `m`, with the token live or revoked. */
  ghost predicate Spends(t: Terms, id: B.TokenId, budget: B.Budget, live: bool, m: Meter) {
    exists s :: Ran(t, id, budget, s) && Live(s.tables, id) == live && MeterOf(s, id, budget) == m
  }

  lemma RanNext(t: Terms, id: B.TokenId, budget: B.Budget, s: Spender, e: SpendEvent, next: Spender)
    requires Ran(t, id, budget, s) && SpendStep(t, id, s, e, next) && next.now == 0
    ensures Ran(t, id, budget, next)
  {
    hide Calendar.MonthStartSecs;
    var states, events :|
      SpendRun(t, id, states, events) && FreshSpender(states[0], id, budget) && states[|states| - 1] == s;
    SpendStepKeepsOk(t, id, budget, s, e, next);
    assert SpendRun(t, id, states + [next], events + [e]);
  }

  /** A token just minted. */
  function Minted(budget: B.Budget): B.TokenRow {
    B.TokenRow(budget.ToDb().0.AsStr(), budget.ToDb().1, 0, "", None, "", None, "")
  }

  lemma MintedIsFresh(id: B.TokenId, budget: B.Budget)
    ensures FreshSpender(Spender(B.Tables(map[id := Minted(budget)], []), 0, 0, 0), id, budget)
  {
    hide Calendar.MonthStartSecs;
    B.BudgetRoundTrip(budget);
  }

  lemma SpendOpening(t: Terms, id: B.TokenId, budget: B.Budget)
    ensures Spends(t, id, budget, true, Meter(0, 0, 0, 0, 0))
  {
    hide Calendar.MonthStartSecs;
    var s := Spender(B.Tables(map[id := Minted(budget)], []), 0, 0, 0);
    MintedIsFresh(id, budget);
    assert SpendRun(t, id, [s], []) && [s][0] == s;
    assert Ran(t, id, budget, s);
  }

  lemma EpochOpens(budget: B.Budget)
    ensures B.WindowOpens(budget, 0) <= 0
  {
    hide Calendar.MonthStartSecs;
    Calendar.MonthStartIsGreatestBoundary(0);
  }

  lemma ChargeRan(t: Terms, id: B.TokenId, budget: B.Budget, s: Spender, microUsd: nat, next: Spender)
    requires Ran(t, id, budget, s) && SpendStep(t, id, s, Charged(microUsd, 0), next)
    ensures Ran(t, id, budget, next) && Live(next.tables, id) == Live(s.tables, id)
    ensures var m := MeterOf(s, id, budget);
            MeterOf(next, id, budget) == m.(reading := m.reading + microUsd, pending := m.pending - 1)
  {
    hide Calendar.MonthStartSecs;
    EpochOpens(budget);
    ChargeRefines(t, id, budget, s, microUsd, 0, next);
    RanNext(t, id, budget, s, Charged(microUsd, 0), next);
  }

  lemma SpendCharge(t: Terms, id: B.TokenId, budget: B.Budget, live: bool, m: Meter, microUsd: nat)
    requires Spends(t, id, budget, live, m) && m.pending > 0 && 0 < microUsd <= t.cost
    ensures Spends(t, id, budget, live, m.(reading := m.reading + microUsd, pending := m.pending - 1))
  {
    hide Calendar.MonthStartSecs, B.WellFormed, SpendRun, FreshSpender;
    var s :| Ran(t, id, budget, s) && Live(s.tables, id) == live && MeterOf(s, id, budget) == m;
    var usage := s.tables.usage + [B.Charge(id, microUsd, ToI64(0))];
    ChargeRan(t, id, budget, s, microUsd, s.(tables := s.tables.(usage := usage), pending := s.pending - 1));
  }

  /** A gate: under the cap while the token is live, and in any case afterwards. */
  lemma SpendGate(t: Terms, id: B.TokenId, budget: B.Budget, live: bool, m: Meter)
    requires Spends(t, id, budget, live, m) && m.pending < t.inFlight
    requires !budget.Unlimited? && (live ==> m.reading < budget.limit)
    ensures Spends(t, id, budget, live, m.(pending := m.pending + 1, late := if live then m.late else m.late + 1))
  {
    hide Calendar.MonthStartSecs, B.WellFormed, SpendRun, FreshSpender;
    var s :| Ran(t, id, budget, s) && Live(s.tables, id) == live && MeterOf(s, id, budget) == m;
    var next := s.(pending := m.pending + 1, late := if live then m.late else m.late + 1);
    RanNext(t, id, budget, s, Gated(0), next);
  }

  lemma RevokeAdvances(tables: B.Tables, id: B.TokenId)
    requires B.WellFormed(tables) && Live(tables, id)
    ensures var revoked := tables.(tokens := tables.tokens[id := tables.tokens[id].(revokedAt := Some(0))]);
            && B.Advances(tables, revoked) && B.WellFormed(revoked) && !Live(revoked, id)
            && revoked.usage == tables.usage
  {
    hide B.SpendSince;
  }

  lemma SpendRevoke(t: Terms, id: B.TokenId, budget: B.Budget, m: Meter)
    requires Spends(t, id, budget, true, m)
    ensures Spends(t, id, budget, false, m)
  {
    hide Calendar.MonthStartSecs, SpendRun, FreshSpender, B.SpendSince, B.WellFormed;
    var s :| Ran(t, id, budget, s) && Live(s.tables, id) && MeterOf(s, id, budget) == m;
    var tables := s.tables.(tokens := s.tables.tokens[id := s.tables.tokens[id].(revokedAt := Some(0))]);
    RevokeAdvances(s.tables, id);
    RanNext(t, id, budget, s, Moved(tables), s.(tables := tables));
  }

  ghost function SpendReach(t: Terms, id: B.TokenId, budget: B.Budget): Reach {
    (live, m) => Spends(t, id, budget, live, m)
  }

  lemma SpendPlayable(t: Terms, id: B.TokenId, budget: B.Budget)
    requires t.cap >= 1 && t.inFlight >= 1 && t.cost >= 1 && !budget.Unlimited? && budget.limit == t.cap
    ensures Playable(t, SpendReach(t, id, budget))
  {
    hide Spends;
    var reach := SpendReach(t, id, budget);
    SpendOpening(t, id, budget);
    forall m ensures CanAdmit(t, reach, m) {
      if Spends(t, id, budget, true, m) && 0 <= m.reading < t.cap && m.pending < t.inFlight {
        SpendGate(t, id, budget, true, m);
      }
    }
    forall m ensures CanPassBy(t, reach, m) {
      if Spends(t, id, budget, true, m) {
        SpendRevoke(t, id, budget, m);
      }
    }
    forall m ensures CanAdmitLate(t, reach, m) {
      if Spends(t, id, budget, false, m) && m.pending < t.inFlight {
        SpendGate(t, id, budget, false, m);
      }
    }
    forall live, m, cost: nat ensures CanLand(t, reach, live, m, cost) {
      if Spends(t, id, budget, live, m) && m.pending > 0 && 0 < cost <= t.cost {
        SpendCharge(t, id, budget, live, m, cost);
      }
    }
  }

  /** Tight as well, for every cap, number of requests, cost and number of gates passed
      after a revocation; for a live token too. */
  lemma BudgetCeilingIsReached(t: Terms, id: B.TokenId, budget: B.Budget, live: bool, late: nat)
      returns (states: seq<Spender>, events: seq<SpendEvent>)
    requires t.cap >= 1 && t.inFlight >= 1 && t.cost >= 1
    requires !budget.Unlimited? && budget.limit == t.cap && (live ==> late == 0)
    ensures SpendRun(t, id, states, events) && FreshSpender(states[0], id, budget)
    ensures var s := states[|states| - 1];
            Live(s.tables, id) == live && s.late == late && Sum(s.tables, id, budget, s.now) == t.Ceiling(late)
  {
    hide Calendar.MonthStartSecs;
    var m := Meter(t.Ceiling(late), 0, 0, late, 0);
    SpendPlayable(t, id, budget);
    CeilingInReach(t, SpendReach(t, id, budget), late, 0);
    var s :| Ran(t, id, budget, s) && Live(s.tables, id) == live && MeterOf(s, id, budget) == m;
    states, events :|
      SpendRun(t, id, states, events) && FreshSpender(states[0], id, budget) && states[|states| - 1] == s;
  }

  /** A total of 1, one request at a time, one micro-dollar each: two requests waved through
      after the revocation bring the spend to 3. */
  lemma RevokedTokenOvershoots(id: B.TokenId)
    ensures exists states: seq<Spender>, events ::
              && SpendRun(Terms(1, 1, 1), id, states, events) && FreshSpender(states[0], id, B.Total(1))
              && Sum(states[|states| - 1].tables, id, B.Total(1), states[|states| - 1].now) == 3
  {
    var states, events := BudgetCeilingIsReached(Terms(1, 1, 1), id, B.Total(1), false, 2);
  }
}
