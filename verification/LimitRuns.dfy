/** The rate-limit tracker under concurrent requests: one user, one window kind, any
    interleaving of clock reads, checks and records. */
module LimitRuns {
  import opened Admission
  import opened Outcomes
  import L = Tracker

  /** The statements landed so far; since the current window opened, `late` checks were
      admitted on an older window and `slow` records landed for one. */
  datatype Limiter = Limiter(log: seq<L.Upsert>, pending: nat, now: nat, late: nat, slow: nat) {
    function Rows(): L.Rows { L.Replay(log) }
  }

  /** A call reads the clock once and its statements land later: `Checked(at)` is the
      `SELECT` of an admitted request and `Recorded` its `UPSERT`, each for the clock
      value `at` read at some earlier moment. Everyone else's statements are
      `Elsewhere`. */
  datatype LimitEvent =
    | Tick(to: nat)
    | Checked(at: nat)
    | Recorded(tokens: nat, at: nat)
    | Abandoned
    | Elsewhere(statement: L.Upsert)

  predicate SameWindow(kind: L.WindowKind, a: nat, b: nat) {
    L.Start(kind, a) == L.Start(kind, b)
  }

  function Misses(kind: L.WindowKind, at: nat, now: nat): nat {
    if SameWindow(kind, at, now) then 0 else 1
  }

  predicate LimitStep(t: Terms, user: string, kind: L.WindowKind, a: Limiter, e: LimitEvent, b: Limiter) {
    match e
    case Tick(to) =>
      && a.now <= to <= I64_MAX
      && b == if SameWindow(kind, a.now, to) then a.(now := to) else a.(now := to, late := 0, slow := 0)
    case Checked(at) =>
      && at <= a.now && a.pending < t.inFlight
      && L.Count(a.Rows(), user, kind, L.Start(kind, at)) < t.cap
      && b == a.(pending := a.pending + 1, late := a.late + Misses(kind, at, a.now))
    case Recorded(tokens, at) =>
      && at <= a.now && a.pending > 0 && 0 < tokens <= t.cost && tokens <= I64_MAX
      && b == a.(log := a.log + [L.Upsert(user, kind, tokens, at)], pending := a.pending - 1,
                 slow := a.slow + Misses(kind, at, a.now))
    case Abandoned => a.pending > 0 && b == a.(pending := a.pending - 1)
    case Elsewhere(u) => !L.Touches(u, user, kind) && b == a.(log := a.log + [u])
  }

  /** What the tracker reads for the current window. */
  function Reading(s: Limiter, user: string, kind: L.WindowKind): nat {
    L.Count(s.Rows(), user, kind, L.Start(kind, s.now))
  }

  /** What the user truly spent in it. */
  function Spent(s: Limiter, user: string, kind: L.WindowKind): nat {
    L.Used(s.log, user, kind, L.Start(kind, s.now))
  }

  function MeterAt(s: Limiter, user: string, kind: L.WindowKind): Meter {
    var reading := Reading(s, user, kind);
    Meter(reading, Spent(s, user, kind) - reading, s.pending, s.late, s.slow)
  }

  /** The stored row is never from a window later than the clock, and no statement was. */
  predicate NothingAhead(s: Limiter, user: string, kind: L.WindowKind) {
    && s.now <= I64_MAX
    && ((user, kind) in s.Rows() ==>
          var row := s.Rows()[(user, kind)];
          row.count > 0 && row.start <= L.Start(kind, s.now))
    && (forall u | u in s.log && L.Touches(u, user, kind) :: u.at <= s.now)
  }

  /** A cap of 0 admits nobody. */
  predicate LimiterOk(t: Terms, s: Limiter, user: string, kind: L.WindowKind) {
    NothingAhead(s, user, kind) && (t.cap == 0 ==> s.pending == 0)
  }

  lemma StartMonotone(kind: L.WindowKind, a: nat, b: nat)
    requires a <= b
    ensures L.Start(kind, a) <= L.Start(kind, b)
  {
    match kind
    case Hour => assert a / 3_600 <= b / 3_600;
    case Day => assert a / 86_400 <= b / 86_400;
    case Month => assert a / 2_592_000 <= b / 2_592_000;
  }

  lemma {:induction false} UnusedAhead(log: seq<L.Upsert>, user: string, kind: L.WindowKind, now: nat, start: nat)
    requires forall u | u in log && L.Touches(u, user, kind) :: u.at <= now
    requires now < start
    ensures L.Used(log, user, kind, start) == 0
  {
    if log != [] {
      UnusedAhead(log[..|log| - 1], user, kind, now, start);
    }
  }

  lemma TickRefines(t: Terms, user: string, kind: L.WindowKind, a: Limiter, to: nat, b: Limiter)
    requires LimitStep(t, user, kind, a, Tick(to), b) && LimiterOk(t, a, user, kind)
    ensures LimiterOk(t, b, user, kind)
    ensures Step(t, MeterAt(a, user, kind), MeterAt(b, user, kind))
    ensures !Forget(t, MeterAt(a, user, kind), MeterAt(b, user, kind)) || t.cap >= 1
  {
    StartMonotone(kind, a.now, to);
    if !SameWindow(kind, a.now, to) {
      L.StartIsAligned(kind, to);
      L.SameWindow(kind, L.Start(kind, to), a.now);
      UnusedAhead(a.log, user, kind, a.now, L.Start(kind, to));
      assert Reopen(t, MeterAt(a, user, kind), MeterAt(b, user, kind));
    } else {
      assert Fall(MeterAt(a, user, kind), MeterAt(b, user, kind));
    }
  }

  /** What a record does to the reading and to the spend. */
  lemma RecordEffect(s: Limiter, user: string, kind: L.WindowKind, tokens: nat, at: nat)
    requires NothingAhead(s, user, kind) && at <= s.now && 0 < tokens <= I64_MAX
    ensures var log := s.log + [L.Upsert(user, kind, tokens, at)];
            var start, key := L.Start(kind, s.now), (user, kind);
            && L.Used(log, user, kind, start) ==
               Spent(s, user, kind) + (if SameWindow(kind, at, s.now) then tokens else 0)
            && L.Count(L.Replay(log), user, kind, start) ==
               (if SameWindow(kind, at, s.now) then Reading(s, user, kind) + tokens else 0)
            && key in L.Replay(log) && L.Replay(log)[key].count > 0 && L.Replay(log)[key].start <= start
  {
    hide L.Replay, L.Used;
    var u, start := L.Upsert(user, kind, tokens, at), L.Start(kind, s.now);
    L.StartIsAligned(kind, s.now);
    L.SameWindow(kind, start, at);
    StartMonotone(kind, at, s.now);
    L.CountAfter(s.Rows(), u, user, kind, start);
    L.UsedAppend(s.log, u, user, kind, start);
    L.ReplayNext(s.log, u);
  }

  lemma RecordRefines(t: Terms, user: string, kind: L.WindowKind, a: Limiter, tokens: nat, at: nat, b: Limiter)
    requires LimitStep(t, user, kind, a, Recorded(tokens, at), b) && LimiterOk(t, a, user, kind)
    ensures LimiterOk(t, b, user, kind)
    ensures var x, y := MeterAt(a, user, kind), MeterAt(b, user, kind);
            if SameWindow(kind, at, a.now)
            then Land(t, x, y) && y.reading == x.reading + tokens
            else Forget(t, x, y)
  {
    hide L.Replay, L.Used, L.Count;
    RecordEffect(a, user, kind, tokens, at);
  }

  lemma ElsewhereRefines(t: Terms, user: string, kind: L.WindowKind, a: Limiter, u: L.Upsert, b: Limiter)
    requires LimitStep(t, user, kind, a, Elsewhere(u), b) && LimiterOk(t, a, user, kind)
    ensures LimiterOk(t, b, user, kind)
    ensures MeterAt(b, user, kind) == MeterAt(a, user, kind)
  {
    L.ReplayNext(a.log, u);
    L.UsedAppend(a.log, u, user, kind, L.Start(kind, a.now));
  }

  /** Every tracker event is a move of the abstract meter. */
  lemma LimitStepRefines(t: Terms, user: string, kind: L.WindowKind, a: Limiter, e: LimitEvent, b: Limiter)
    requires LimitStep(t, user, kind, a, e, b) && LimiterOk(t, a, user, kind)
    ensures LimiterOk(t, b, user, kind)
    ensures Step(t, MeterAt(a, user, kind), MeterAt(b, user, kind))
    ensures Forget(t, MeterAt(a, user, kind), MeterAt(b, user, kind)) ==> t.cap >= 1
  {
    var x, y := MeterAt(a, user, kind), MeterAt(b, user, kind);
    match e
    case Tick(to) => TickRefines(t, user, kind, a, to, b);
    case Checked(at) => assert if SameWindow(kind, at, a.now) then Admit(t, x, y) else AdmitLate(t, x, y);
    case Recorded(tokens, at) => RecordRefines(t, user, kind, a, tokens, at, b);
    case Abandoned => assert Land(t, x, y);
    case Elsewhere(u) =>
      ElsewhereRefines(t, user, kind, a, u, b);
      assert Fall(x, y);
  }

  predicate LimitRun(t: Terms, user: string, kind: L.WindowKind, states: seq<Limiter>, events: seq<LimitEvent>) {
    && |states| == |events| + 1
    && forall i | 0 <= i < |events| :: LimitStep(t, user, kind, states[i], events[i], states[i + 1])
  }

  predicate FreshLimiter(s: Limiter) {
    s.log == [] && s.pending == 0 && s.late == 0 && s.slow == 0 && s.now <= I64_MAX
  }

  function LimitInvariant(t: Terms, user: string, kind: L.WindowKind): Limiter -> bool {
    (s: Limiter) => LimiterOk(t, s, user, kind) && Bounded(t, MeterAt(s, user, kind))
  }

  lemma LimitStepKeepsBound(
      t: Terms, user: string, kind: L.WindowKind, states: seq<Limiter>, events: seq<LimitEvent>, j: nat)
    requires LimitRun(t, user, kind, states, events)
    ensures Keeps(LimitInvariant(t, user, kind), states, j)
  {
    if j < |events| && LimitInvariant(t, user, kind)(states[j]) {
      var a, b := states[j], states[j + 1];
      LimitStepRefines(t, user, kind, a, events[j], b);
      StepKeepsBound(t, MeterAt(a, user, kind), MeterAt(b, user, kind));
    }
  }

  lemma LimitStart(t: Terms, user: string, kind: L.WindowKind, s: Limiter)
    requires t.inFlight * t.cost >= 1 && FreshLimiter(s)
    ensures LimitInvariant(t, user, kind)(s) && MeterAt(s, user, kind) == Meter(0, 0, 0, 0, 0)
  {
    ZeroIsBounded(t);
  }

  lemma LimitBoundAt(t: Terms, user: string, kind: L.WindowKind, s: Limiter)
    requires LimitInvariant(t, user, kind)(s)
    ensures Reading(s, user, kind) <= t.Ceiling(s.late)
    ensures Spent(s, user, kind) <= t.TrueCeiling(s.late, s.slow)
  {
    BoundedReading(t, MeterAt(s, user, kind));
  }

  /** Overshoot bound: in every interleaving the window never reads more than
      `cap - 1 + (inFlight + late) * cost`, and the user never truly spends more in it than
      that plus one refill for each record that landed late. */
  lemma OvershootBound(
      t: Terms, user: string, kind: L.WindowKind, states: seq<Limiter>, events: seq<LimitEvent>, i: nat)
    requires t.inFlight * t.cost >= 1
    requires LimitRun(t, user, kind, states, events) && i < |states| && FreshLimiter(states[0])
    ensures Reading(states[i], user, kind) <= t.Ceiling(states[i].late)
    ensures Spent(states[i], user, kind) <= t.TrueCeiling(states[i].late, states[i].slow)
  {
    var inv := LimitInvariant(t, user, kind);
    LimitStart(t, user, kind, states[0]);
    forall j: nat ensures Keeps(inv, states, j) {
      LimitStepKeepsBound(t, user, kind, states, events, j);
    }
    KeptThroughout(inv, states);
    LimitBoundAt(t, user, kind, states[i]);
  }

  /** Event `i` is no check, or its `SELECT` lands in the window its clock named. */
  predicate CheckOnTime(kind: L.WindowKind, states: seq<Limiter>, events: seq<LimitEvent>, i: nat)
    requires i < |events| < |states|
  {
    events[i].Checked? ==> SameWindow(kind, events[i].at, states[i].now)
  }

  /** The same of a record's `UPSERT`. */
  predicate RecordOnTime(kind: L.WindowKind, states: seq<Limiter>, events: seq<LimitEvent>, i: nat)
    requires i < |events| < |states|
  {
    events[i].Recorded? ==> SameWindow(kind, events[i].at, states[i].now)
  }

  lemma {:induction false} ChecksOnTime(
      t: Terms, user: string, kind: L.WindowKind, states: seq<Limiter>, events: seq<LimitEvent>, i: nat)
    requires LimitRun(t, user, kind, states, events) && i < |states| && FreshLimiter(states[0])
    requires forall j | 0 <= j < i :: CheckOnTime(kind, states, events, j)
    ensures states[i].late == 0
  {
    if i > 0 {
      var j := i - 1;
      ChecksOnTime(t, user, kind, states, events, j);
      assert CheckOnTime(kind, states, events, j);
      assert LimitStep(t, user, kind, states[j], events[j], states[j + 1]);
    }
  }

  lemma {:induction false} RecordsOnTime(
      t: Terms, user: string, kind: L.WindowKind, states: seq<Limiter>, events: seq<LimitEvent>, i: nat)
    requires LimitRun(t, user, kind, states, events) && i < |states| && FreshLimiter(states[0])
    requires forall j | 0 <= j < i :: RecordOnTime(kind, states, events, j)
    ensures states[i].slow == 0
  {
    if i > 0 {
      var j := i - 1;
      RecordsOnTime(t, user, kind, states, events, j);
      assert RecordOnTime(kind, states, events, j);
      assert LimitStep(t, user, kind, states[j], events[j], states[j + 1]);
    }
  }

  /** With every check on time the window never reads more than `cap - 1 + inFlight * cost`,
      however late the records land; with every record on time as well, no more than that is
      truly spent. */
  lemma OnTimeBound(
      t: Terms, user: string, kind: L.WindowKind, states: seq<Limiter>, events: seq<LimitEvent>, i: nat)
    requires t.inFlight * t.cost >= 1
    requires LimitRun(t, user, kind, states, events) && i < |states| && FreshLimiter(states[0])
    requires forall j | 0 <= j < i :: CheckOnTime(kind, states, events, j)
    ensures Reading(states[i], user, kind) <= t.cap - 1 + t.inFlight * t.cost
    ensures (forall j | 0 <= j < i :: RecordOnTime(kind, states, events, j)) ==>
              Spent(states[i], user, kind) <= t.cap - 1 + t.inFlight * t.cost
  {
    OvershootBound(t, user, kind, states, events, i);
    ChecksOnTime(t, user, kind, states, events, i);
    if forall j | 0 <= j < i :: RecordOnTime(kind, states, events, j) {
      RecordsOnTime(t, user, kind, states, events, i);
    }
  }

  /** A check stuck across a rollover always gets through, once the new window has a row:
      the window its clock named reads 0. */
  lemma LateCheckPasses(t: Terms, user: string, kind: L.WindowKind, s: Limiter, at: nat)
    requires NothingAhead(s, user, kind) && Reading(s, user, kind) > 0
    requires at <= s.now && !SameWindow(kind, at, s.now) && 0 < t.cap && s.pending < t.inFlight
    ensures LimitStep(t, user, kind, s, Checked(at), s.(pending := s.pending + 1, late := s.late + 1))
  {
    StartMonotone(kind, at, s.now);
  }

  // Both ceilings are reached ---------------------------------------------

  /** A run from an empty table ends in `s`, one window after the epoch. */
  ghost predicate Reached(t: Terms, user: string, kind: L.WindowKind, s: Limiter) {
    && s.now == kind.Size() && LimiterOk(t, s, user, kind)
    && exists states, events ::
         LimitRun(t, user, kind, states, events) && FreshLimiter(states[0]) && states[|states| - 1] == s
  }

  ghost predicate Reaches(t: Terms, user: string, kind: L.WindowKind, m: Meter) {
    exists s :: Reached(t, user, kind, s) && MeterAt(s, user, kind) == m
  }

  lemma ReachNext(t: Terms, user: string, kind: L.WindowKind, s: Limiter, e: LimitEvent, next: Limiter)
    requires Reached(t, user, kind, s) && LimitStep(t, user, kind, s, e, next) && next.now == s.now
    ensures Reached(t, user, kind, next)
  {
    var states, events :|
      LimitRun(t, user, kind, states, events) && FreshLimiter(states[0]) && states[|states| - 1] == s;
    LimitStepRefines(t, user, kind, s, e, next);
    assert LimitRun(t, user, kind, states + [next], events + [e]);
  }

  lemma ReachOpening(t: Terms, user: string, kind: L.WindowKind)
    ensures Reaches(t, user, kind, Meter(0, 0, 0, 0, 0))
  {
    var s, first := Limiter([], 0, 0, 0, 0), Limiter([], 0, kind.Size(), 0, 0);
    assert LimitRun(t, user, kind, [s, first], [Tick(kind.Size())]);
    assert Reached(t, user, kind, first);
  }

  lemma ReachAdmit(t: Terms, user: string, kind: L.WindowKind, m: Meter)
    requires Reaches(t, user, kind, m) && m.reading < t.cap && m.pending < t.inFlight
    ensures Reaches(t, user, kind, m.(pending := m.pending + 1))
  {
    var s :| Reached(t, user, kind, s) && MeterAt(s, user, kind) == m;
    ReachNext(t, user, kind, s, Checked(s.now), s.(pending := s.pending + 1));
  }

  /** A check whose clock still named the window before. */
  lemma ReachAdmitLate(t: Terms, user: string, kind: L.WindowKind, m: Meter)
    requires Reaches(t, user, kind, m) && m.reading > 0 && m.pending < t.inFlight && t.cap > 0
    ensures Reaches(t, user, kind, m.(pending := m.pending + 1, late := m.late + 1))
  {
    hide LimitRun, FreshLimiter, L.Used;
    var s :| Reached(t, user, kind, s) && MeterAt(s, user, kind) == m;
    LateCheckPasses(t, user, kind, s, s.now - 1);
    ReachNext(t, user, kind, s, Checked(s.now - 1), s.(pending := s.pending + 1, late := s.late + 1));
  }

  lemma ReachLand(t: Terms, user: string, kind: L.WindowKind, m: Meter, tokens: nat)
    requires Reaches(t, user, kind, m) && m.pending > 0 && 0 < tokens <= t.cost && tokens <= I64_MAX
    ensures Reaches(t, user, kind, m.(reading := m.reading + tokens, pending := m.pending - 1))
  {
    hide LimitRun, FreshLimiter, L.Used;
    var s :| Reached(t, user, kind, s) && MeterAt(s, user, kind) == m;
    var next := s.(log := s.log + [L.Upsert(user, kind, tokens, s.now)], pending := s.pending - 1);
    RecordRefines(t, user, kind, s, tokens, s.now, next);
    ReachNext(t, user, kind, s, Recorded(tokens, s.now), next);
  }

  lemma ReachForget(t: Terms, user: string, kind: L.WindowKind, m: Meter)
    requires Reaches(t, user, kind, m) && m.pending > 0 && t.cost >= 1
    ensures Reaches(t, user, kind, Meter(0, m.forgotten + m.reading, m.pending - 1, m.late, m.slow + 1))
  {
    hide LimitRun, FreshLimiter, L.Used;
    var s :| Reached(t, user, kind, s) && MeterAt(s, user, kind) == m;
    var at := s.now - 1;
    var next := s.(log := s.log + [L.Upsert(user, kind, 1, at)], pending := s.pending - 1, slow := s.slow + 1);
    RecordRefines(t, user, kind, s, 1, at, next);
    ReachNext(t, user, kind, s, Recorded(1, at), next);
  }

  ghost function LimitReach(t: Terms, user: string, kind: L.WindowKind): Reach {
    (holds, m) => Reaches(t, user, kind, m)
  }

  lemma LimitPlayable(t: Terms, user: string, kind: L.WindowKind)
    requires t.cap >= 1 && t.inFlight >= 1 && 1 <= t.cost <= I64_MAX
    ensures Playable(t, LimitReach(t, user, kind))
  {
    var reach := LimitReach(t, user, kind);
    ReachOpening(t, user, kind);
    forall m ensures CanAdmit(t, reach, m) {
      if Reaches(t, user, kind, m) && 0 <= m.reading < t.cap && m.pending < t.inFlight {
        ReachAdmit(t, user, kind, m);
      }
    }
    forall m ensures CanAdmitLate(t, reach, m) {
      if Reaches(t, user, kind, m) && m.reading > 0 && m.pending < t.inFlight {
        ReachAdmitLate(t, user, kind, m);
      }
    }
    forall holds, m, cost: nat ensures CanLand(t, reach, holds, m, cost) {
      if Reaches(t, user, kind, m) && m.pending > 0 && 0 < cost <= t.cost {
        ReachLand(t, user, kind, m, cost);
      }
    }
  }

  lemma LimitForgets(t: Terms, user: string, kind: L.WindowKind)
    requires t.cost >= 1
    ensures forall m :: CanForget(t, LimitReach(t, user, kind), m)
  {
    forall m ensures CanForget(t, LimitReach(t, user, kind), m) {
      if Reaches(t, user, kind, m) && m.pending > 0 {
        ReachForget(t, user, kind, m);
      }
    }
  }

  /** Both bounds are tight, for every cap, number of requests, cost, late checks and late
      records: a run of the tracker from an empty table ends on them. */
  lemma CeilingIsReached(t: Terms, user: string, kind: L.WindowKind, late: nat, slow: nat)
      returns (states: seq<Limiter>, events: seq<LimitEvent>)
    requires t.cap >= 1 && t.inFlight >= 1 && 1 <= t.cost <= I64_MAX
    ensures LimitRun(t, user, kind, states, events) && FreshLimiter(states[0])
    ensures var s := states[|states| - 1];
            && s.late == late && s.slow == slow
            && Reading(s, user, kind) == t.Ceiling(late) && Spent(s, user, kind) == t.TrueCeiling(late, slow)
  {
    LimitPlayable(t, user, kind);
    LimitForgets(t, user, kind);
    CeilingInReach(t, LimitReach(t, user, kind), late, slow);
    var m := Meter(t.Ceiling(late), slow * t.Refill(), 0, late, slow);
    var s :| Reached(t, user, kind, s) && MeterAt(s, user, kind) == m;
    states, events :| LimitRun(t, user, kind, states, events) && FreshLimiter(states[0]) && states[|states| - 1] == s;
  }

  /** One late check is enough to read 2 under a cap of 1, and one late record to spend 3
      with two requests in flight. */
  lemma LateCallsOvershoot(user: string, kind: L.WindowKind)
    ensures exists states: seq<Limiter>, events :: LimitRun(Terms(1, 1, 1), user, kind, states, events) &&
              FreshLimiter(states[0]) && Reading(states[|states| - 1], user, kind) == 2
    ensures exists states: seq<Limiter>, events :: LimitRun(Terms(1, 2, 1), user, kind, states, events) &&
              FreshLimiter(states[0]) && Spent(states[|states| - 1], user, kind) == 3
  {
    var a, b := CeilingIsReached(Terms(1, 1, 1), user, kind, 1, 0);
    var c, d := CeilingIsReached(Terms(1, 2, 1), user, kind, 0, 1);
  }
}
