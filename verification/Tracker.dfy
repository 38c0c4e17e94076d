/** `limits::Tracker`: one `(start, count)` row per user and window kind stands
    in for the whole usage history. */
module Tracker {
  import opened Outcomes

  datatype WindowKind = Hour | Day | Month {
    function Size(): (s: nat)
      ensures s > 0
    {
      match this
      case Hour => 3_600
      case Day => 86_400
      case Month => 30 * 86_400
    }
  }

  /** The order in which `check` and `record` visit the windows. */
  const KINDS: seq<WindowKind> := [Hour, Day, Month]

  /** The window of `kind` that contains `now` starts here: `now - now % size`. */
  function Start(kind: WindowKind, now: nat): (start: nat)
    ensures InWindow(kind, start, now)
  {
    match kind
    case Hour => now - now % 3_600
    case Day => now - now % 86_400
    case Month => now - now % 2_592_000
  }

  predicate InWindow(kind: WindowKind, start: nat, at: nat) {
    start <= at < start + kind.Size()
  }

  datatype Row = Row(start: int, count: int)
  type Rows = map<(string, WindowKind), Row>

  /** One `INSERT … ON CONFLICT DO UPDATE` statement. `record` never issues one
      for zero tokens. */
  datatype Upsert = Upsert(user: string, kind: WindowKind, tokens: nat, at: nat)

  function Apply(rows: Rows, u: Upsert): Rows {
    var key := (u.user, u.kind);
    var start, count := ToI64(Start(u.kind, u.at)), ToI64(u.tokens);
    var before := if key in rows && rows[key].start == start then rows[key].count else 0;
    rows[key := Row(start, before + count)]
  }

  /** The table after the statements of `log`, in the order they landed. */
  function Replay(log: seq<Upsert>): Rows {
    if log == [] then map[] else Apply(Replay(log[..|log| - 1]), log[|log| - 1])
  }

  lemma ReplayNext(log: seq<Upsert>, u: Upsert)
    ensures Replay(log + [u]) == Apply(Replay(log), u)
  {
    assert (log + [u])[..|log|] == log;
  }

  lemma ReplayOneMore(log: seq<Upsert>, more: seq<Upsert>, i: nat)
    requires i < |more|
    ensures Replay(log + more[..i + 1]) == Apply(Replay(log + more[..i]), more[i])
  {
    assert log + more[..i + 1] == log + more[..i] + [more[i]];
    ReplayNext(log + more[..i], more[i]);
  }

  /** `Tracker::count`. */
  function Count(rows: Rows, user: string, kind: WindowKind, start: nat): nat {
    var key := (user, kind);
    if key in rows && rows[key].start == ToI64(start) && rows[key].count >= 0 then rows[key].count else 0
  }

  // ---------------------------------------------------------------------
  // The history the rows stand for
  // ---------------------------------------------------------------------

  predicate Touches(u: Upsert, user: string, kind: WindowKind) {
    u.user == user && u.kind == kind
  }

  /** What `user` truly spent in the window of `kind` starting at `start`. */
  function Used(log: seq<Upsert>, user: string, kind: WindowKind, start: nat): nat {
    if log == [] then 0 else
      var u := log[|log| - 1];
      Used(log[..|log| - 1], user, kind, start) +
      if Touches(u, user, kind) && InWindow(kind, start, u.at) then u.tokens else 0
  }

  /** Values that survive the trip through an `INTEGER` column. */
  predicate Representable(log: seq<Upsert>) {
    forall u | u in log :: 0 < u.tokens <= I64_MAX && u.at <= I64_MAX
  }

  /** No statement of this window is followed by one of the same user and kind in
      another window. */
  predicate Contiguous(log: seq<Upsert>, user: string, kind: WindowKind, start: nat) {
    forall i, j | 0 <= i < j < |log| && Touches(log[i], user, kind) && Touches(log[j], user, kind) ::
      InWindow(kind, start, log[i].at) ==> InWindow(kind, start, log[j].at)
  }

  /** Statements landed in clock order, none later than `now`. */
  predicate Ordered(log: seq<Upsert>, now: nat) {
    && (forall i, j | 0 <= i < j < |log| :: log[i].at <= log[j].at)
    && (forall u | u in log :: u.at <= now)
  }

  /** `start` is where some window of `kind` starts. */
  predicate Aligned(kind: WindowKind, start: nat) {
    Start(kind, start) == start
  }

  lemma StartIsAligned(kind: WindowKind, now: nat)
    ensures Aligned(kind, Start(kind, now))
  {
    match kind
    case Hour => HourStart(now);
    case Day => DayStart(now);
    case Month => MonthStart(now);
  }

  lemma HourStart(now: nat)
    ensures (now - now % 3_600) % 3_600 == 0
  {
    assert now - now % 3_600 == 3_600 * (now / 3_600);
  }

  lemma DayStart(now: nat)
    ensures (now - now % 86_400) % 86_400 == 0
  {
    assert now - now % 86_400 == 86_400 * (now / 86_400);
  }

  lemma MonthStart(now: nat)
    ensures (now - now % 2_592_000) % 2_592_000 == 0
  {
    assert now - now % 2_592_000 == 2_592_000 * (now / 2_592_000);
  }

  /** Windows are aligned to the epoch: an hour's starts on a multiple of 3600 seconds, a
      day's on one of 24 hours, a month's on one of 30 days, and each holds `now`. */
  lemma WindowsAreAligned(now: nat)
    ensures Start(Hour, now) % 3_600 == 0 && Start(Hour, now) <= now < Start(Hour, now) + 3_600
    ensures Start(Day, now) % 86_400 == 0 && Start(Day, now) <= now < Start(Day, now) + 86_400
    ensures Start(Month, now) % 2_592_000 == 0 && Start(Month, now) <= now < Start(Month, now) + 2_592_000
  {
    HourStart(now);
    DayStart(now);
    MonthStart(now);
  }

  /** Two instants share a window exactly when their windows start together. */
  lemma SameWindow(kind: WindowKind, start: nat, at: nat)
    requires Aligned(kind, start)
    ensures InWindow(kind, start, at) <==> Start(kind, at) == start
  {
    match kind
    case Hour => HourWindow(start, at);
    case Day => DayWindow(start, at);
    case Month => MonthWindow(start, at);
  }

  lemma HourWindow(start: nat, at: nat)
    requires start % 3_600 == 0
    ensures start <= at < start + 3_600 <==> at - at % 3_600 == start
  {
    assert start == 3_600 * (start / 3_600) && at - at % 3_600 == 3_600 * (at / 3_600);
  }

  lemma DayWindow(start: nat, at: nat)
    requires start % 86_400 == 0
    ensures start <= at < start + 86_400 <==> at - at % 86_400 == start
  {
    assert start == 86_400 * (start / 86_400) && at - at % 86_400 == 86_400 * (at / 86_400);
  }

  lemma MonthWindow(start: nat, at: nat)
    requires start % 2_592_000 == 0
    ensures start <= at < start + 2_592_000 <==> at - at % 2_592_000 == start
  {
    assert start == 2_592_000 * (start / 2_592_000) && at - at % 2_592_000 == 2_592_000 * (at / 2_592_000);
  }

  lemma {:induction false} UnusedWindow(log: seq<Upsert>, user: string, kind: WindowKind, start: nat)
    requires Representable(log)
    ensures Used(log, user, kind, start) == 0 <==>
            forall u | u in log && Touches(u, user, kind) :: !InWindow(kind, start, u.at)
  {
    if log != [] {
      var prev, u := log[..|log| - 1], log[|log| - 1];
      assert forall v :: v in log <==> v in prev || v == u;
      UnusedWindow(prev, user, kind, start);
    }
  }

  lemma {:induction false} RowsStayPositive(log: seq<Upsert>, user: string, kind: WindowKind)
    requires Representable(log)
    ensures (user, kind) in Replay(log) ==> Replay(log)[(user, kind)].count > 0
  {
    if log != [] {
      RowsStayPositive(log[..|log| - 1], user, kind);
    }
  }

  /** What one statement does to the counter of a window. */
  lemma CountAfter(rows: Rows, u: Upsert, user: string, kind: WindowKind, start: nat)
    requires 0 < u.tokens <= I64_MAX && u.at <= I64_MAX
    requires Aligned(kind, start) && start <= I64_MAX
    requires (user, kind) in rows ==> rows[(user, kind)].count > 0
    ensures Count(Apply(rows, u), user, kind, start) ==
            if !Touches(u, user, kind) then Count(rows, user, kind, start)
            else if InWindow(kind, start, u.at) then Count(rows, user, kind, start) + u.tokens
            else 0
  {
    SameWindow(kind, start, u.at);
  }

  /** The exact condition for the stored counter to equal the history's sum. In any
      other case it reads low, never high. */
  lemma {:induction false} CountIsExactIff(log: seq<Upsert>, user: string, kind: WindowKind, start: nat)
    requires Representable(log) && Aligned(kind, start) && start <= I64_MAX
    ensures Count(Replay(log), user, kind, start) <= Used(log, user, kind, start)
    ensures Count(Replay(log), user, kind, start) == Used(log, user, kind, start) <==>
            Contiguous(log, user, kind, start)
  {
    if log != [] {
      var prev, u := log[..|log| - 1], log[|log| - 1];
      CountIsExactIff(prev, user, kind, start);
      RowsStayPositive(prev, user, kind);
      CountAfter(Replay(prev), u, user, kind, start);
      if Touches(u, user, kind) && !InWindow(kind, start, u.at) {
        UnusedWindow(prev, user, kind, start);
        ContiguousOutside(log, user, kind, start);
      } else {
        ContiguousInside(log, user, kind, start);
      }
    }
  }

  lemma ContiguousInside(log: seq<Upsert>, user: string, kind: WindowKind, start: nat)
    requires |log| > 0
    requires Touches(log[|log| - 1], user, kind) ==> InWindow(kind, start, log[|log| - 1].at)
    ensures Contiguous(log, user, kind, start) <==> Contiguous(log[..|log| - 1], user, kind, start)
  {
    var prev := log[..|log| - 1];
    assert forall i | 0 <= i < |prev| :: prev[i] == log[i];
  }

  lemma ContiguousOutside(log: seq<Upsert>, user: string, kind: WindowKind, start: nat)
    requires |log| > 0
    requires Touches(log[|log| - 1], user, kind) && !InWindow(kind, start, log[|log| - 1].at)
    ensures Contiguous(log, user, kind, start) <==>
            forall u | u in log[..|log| - 1] && Touches(u, user, kind) :: !InWindow(kind, start, u.at)
  {
    var n := |log| - 1;
    if forall u | u in log[..n] && Touches(u, user, kind) :: !InWindow(kind, start, u.at) {
      forall i, j | 0 <= i < j < |log| && Touches(log[i], user, kind) && Touches(log[j], user, kind)
        ensures InWindow(kind, start, log[i].at) ==> InWindow(kind, start, log[j].at)
      {
        assert log[..n][i] in log[..n];
      }
    } else {
      var u :| u in log[..n] && Touches(u, user, kind) && InWindow(kind, start, u.at);
      var i :| 0 <= i < n && log[i] == u;
      assert i < n;
    }
  }

  /** Clock order is enough: the current window's counter is the true sum. */
  lemma OrderedIsExact(log: seq<Upsert>, user: string, kind: WindowKind, now: nat)
    requires Representable(log) && Ordered(log, now) && now <= I64_MAX
    ensures Count(Replay(log), user, kind, Start(kind, now)) == Used(log, user, kind, Start(kind, now))
  {
    var start := Start(kind, now);
    StartIsAligned(kind, now);
    assert Contiguous(log, user, kind, start);
    CountIsExactIff(log, user, kind, start);
  }

  /** A statement that lands late moves the row back, and the spend of the newer
      hour is forgotten. */
  lemma LateUpsertForgets()
    ensures var log := [Upsert("u", Hour, 5, 3_600), Upsert("u", Hour, 1, 3_599)];
            Count(Replay(log), "u", Hour, 3_600) == 0 && Used(log, "u", Hour, 3_600) == 5
  {
    var a, b := Upsert("u", Hour, 5, 3_600), Upsert("u", Hour, 1, 3_599);
    assert [a, b][..1] == [a] && [a][..0] == [];
    assert Replay([a]) == Apply(map[], a);
    assert Used([a], "u", Hour, 3_600) == 5;
  }

  // ---------------------------------------------------------------------
  // Whole `record` calls
  // ---------------------------------------------------------------------

  /** One completed `record` call. */
  datatype Usage = Usage(user: string, tokens: nat, at: nat)

  /** The statements one `record` call issues. */
  function Statements(e: Usage): seq<Upsert> {
    if e.tokens == 0 then [] else
      [Upsert(e.user, Hour, e.tokens, e.at), Upsert(e.user, Day, e.tokens, e.at), Upsert(e.user, Month, e.tokens, e.at)]
  }

  function Log(history: seq<Usage>): seq<Upsert> {
    if history == [] then [] else Log(history[..|history| - 1]) + Statements(history[|history| - 1])
  }

  /** The user's tokens in a window, over the history of calls. */
  function Spent(history: seq<Usage>, user: string, kind: WindowKind, start: nat): nat {
    if history == [] then 0 else
      var e := history[|history| - 1];
      Spent(history[..|history| - 1], user, kind, start) +
      if e.user == user && InWindow(kind, start, e.at) then e.tokens else 0
  }

  predicate Fits(history: seq<Usage>) {
    forall e | e in history :: e.tokens <= I64_MAX && e.at <= I64_MAX
  }

  predicate InOrder(history: seq<Usage>, now: nat) {
    && (forall i, j | 0 <= i < j < |history| :: history[i].at <= history[j].at)
    && (forall e | e in history :: e.at <= now)
  }

  lemma UsedAppend(log: seq<Upsert>, u: Upsert, user: string, kind: WindowKind, start: nat)
    ensures Used(log + [u], user, kind, start) == Used(log, user, kind, start) +
            if Touches(u, user, kind) && InWindow(kind, start, u.at) then u.tokens else 0
  {
    assert (log + [u])[..|log|] == log;
  }

  lemma UsedAppendCall(log: seq<Upsert>, e: Usage, user: string, kind: WindowKind, start: nat)
    ensures Used(log + Statements(e), user, kind, start) == Used(log, user, kind, start) +
            if e.user == user && InWindow(kind, start, e.at) then e.tokens else 0
  {
    if e.tokens == 0 {
      assert log + Statements(e) == log;
    } else {
      var all := Statements(e);
      var h, d, m := all[0], all[1], all[2];
      UsedAppend(log, h, user, kind, start);
      UsedAppend(log + [h], d, user, kind, start);
      UsedAppend(log + [h] + [d], m, user, kind, start);
      assert log + Statements(e) == log + [h] + [d] + [m];
    }
  }

  lemma {:induction false} SpentIsUsed(history: seq<Usage>, user: string, kind: WindowKind, start: nat)
    ensures Used(Log(history), user, kind, start) == Spent(history, user, kind, start)
  {
    if history != [] {
      var prev, e := history[..|history| - 1], history[|history| - 1];
      SpentIsUsed(prev, user, kind, start);
      UsedAppendCall(Log(prev), e, user, kind, start);
    }
  }

  lemma {:induction false} LogOfOrdered(history: seq<Usage>, now: nat)
    requires Fits(history) && InOrder(history, now)
    ensures Representable(Log(history)) && Ordered(Log(history), now)
  {
    if history != [] {
      var prev, e := history[..|history| - 1], history[|history| - 1];
      LogOfOrdered(prev, e.at) by {
        forall p | p in prev ensures p.at <= e.at {
          var i :| 0 <= i < |prev| && prev[i] == p;
          assert history[i] == p;
        }
        assert forall p | p in prev :: p in history;
      }
      assert forall u | u in Statements(e) :: u.at == e.at && u.tokens == e.tokens;
    }
  }

  /** Counter refinement: after any run of calls in clock order the three counters
      read exactly the user's spend in the current hour, day and month. */
  lemma CountersRefineHistory(history: seq<Usage>, user: string, kind: WindowKind, now: nat)
    requires Fits(history) && InOrder(history, now) && now <= I64_MAX
    ensures Count(Replay(Log(history)), user, kind, Start(kind, now)) == Spent(history, user, kind, Start(kind, now))
  {
    LogOfOrdered(history, now);
    OrderedIsExact(Log(history), user, kind, now);
    SpentIsUsed(history, user, kind, Start(kind, now));
  }

  // ---------------------------------------------------------------------
  // Nested windows and the retry hint
  // ---------------------------------------------------------------------

  /** 3600 divides 86400 divides 2592000, so the current windows are nested. */
  lemma HourInsideDayInsideMonth(now: nat, at: nat)
    ensures InWindow(Hour, Start(Hour, now), at) ==> InWindow(Day, Start(Day, now), at)
    ensures InWindow(Day, Start(Day, now), at) ==> InWindow(Month, Start(Month, now), at)
  {
    var h, d, m := now / 3_600, now / 86_400, now / 2_592_000;
    assert 24 * d <= h < 24 * d + 24 && 30 * m <= d < 30 * m + 30;
    assert Start(Hour, now) == 3_600 * h && Start(Day, now) == 86_400 * d && Start(Month, now) == 2_592_000 * m;
  }

  lemma {:induction false} SpentMonotone(history: seq<Usage>, user: string, now: nat)
    ensures Spent(history, user, Hour, Start(Hour, now)) <= Spent(history, user, Day, Start(Day, now))
    ensures Spent(history, user, Day, Start(Day, now)) <= Spent(history, user, Month, Start(Month, now))
  {
    if history != [] {
      SpentMonotone(history[..|history| - 1], user, now);
      HourInsideDayInsideMonth(now, history[|history| - 1].at);
    }
  }

  /** Window nesting, between calls: 3600 divides 86400 divides 2592000. */
  lemma CountersNest(history: seq<Usage>, user: string, now: nat)
    requires Fits(history) && InOrder(history, now) && now <= I64_MAX
    ensures var rows := Replay(Log(history));
            Count(rows, user, Hour, Start(Hour, now)) <= Count(rows, user, Day, Start(Day, now))
            <= Count(rows, user, Month, Start(Month, now))
  {
    CountersRefineHistory(history, user, Hour, now);
    CountersRefineHistory(history, user, Day, now);
    CountersRefineHistory(history, user, Month, now);
    SpentMonotone(history, user, now);
  }

  lemma {:induction false} UsedWithout(log: seq<Upsert>, i: nat, user: string, kind: WindowKind, start: nat)
    requires i < |log|
    ensures Used(log, user, kind, start) == Used(log[..i] + log[i + 1..], user, kind, start) +
            if Touches(log[i], user, kind) && InWindow(kind, start, log[i].at) then log[i].tokens else 0
  {
    hide InWindow, Touches;
    var n := |log| - 1;
    if i == n {
      assert log[..i] + log[i + 1..] == log[..n];
    } else {
      var front, rest := log[..n], log[..i] + log[i + 1..];
      UsedWithout(front, i, user, kind, start);
      assert rest == front[..i] + front[i + 1..] + [log[n]];
      UsedAppend(front[..i] + front[i + 1..], log[n], user, kind, start);
    }
  }

  lemma WithoutOne<T>(s: seq<T>, i: nat)
    requires i < |s|
    ensures multiset(s) == multiset(s[..i] + s[i + 1..]) + multiset{s[i]}
  {
    assert s == s[..i] + [s[i]] + s[i + 1..];
  }

  lemma LastIsSomewhere<T>(a: seq<T>, b: seq<T>) returns (i: nat)
    requires a != [] && multiset(a) == multiset(b)
    ensures i < |b| && b[i] == a[|a| - 1]
    ensures multiset(a[..|a| - 1]) == multiset(b[..i] + b[i + 1..])
  {
    var n := |a| - 1;
    assert a[n] in multiset(b);
    i :| 0 <= i < |b| && b[i] == a[n];
    WithoutOne(a, n);
    WithoutOne(b, i);
    assert a[..n] + a[n + 1..] == a[..n];
    assert multiset(a[..n]) == multiset(a) - multiset{a[n]};
    assert multiset(b[..i] + b[i + 1..]) == multiset(b) - multiset{a[n]};
  }

  /** The sum does not depend on the order the statements landed in. */
  lemma {:induction false} UsedIgnoresOrder(a: seq<Upsert>, b: seq<Upsert>, user: string, kind: WindowKind, start: nat)
    requires multiset(a) == multiset(b)
    ensures Used(a, user, kind, start) == Used(b, user, kind, start)
  {
    if a == [] {
      assert |multiset(a)| == |multiset(b)|;
    } else {
      var i := LastIsSomewhere(a, b);
      UsedIgnoresOrder(a[..|a| - 1], b[..i] + b[i + 1..], user, kind, start);
      UsedWithout(b, i, user, kind, start);
    }
  }

  /** The statements of all the calls of `history`, in any order that follows the clock:
      calls may overlap, each with all its statements in. */
  ghost predicate Interleaved(log: seq<Upsert>, history: seq<Usage>, now: nat) {
    multiset(log) == multiset(Log(history)) && Ordered(log, now)
  }

  lemma {:induction false} LogFits(history: seq<Usage>)
    requires Fits(history)
    ensures Representable(Log(history))
  {
    if history != [] {
      var prev, e := history[..|history| - 1], history[|history| - 1];
      assert forall p | p in prev :: p in history;
      LogFits(prev);
      assert forall u | u in Statements(e) :: u.at == e.at && u.tokens == e.tokens;
    }
  }

  /** Overlapping calls: the counters still read the true spends, and so they nest. */
  lemma InterleavedCountersNest(log: seq<Upsert>, history: seq<Usage>, user: string, now: nat)
    requires Fits(history) && Interleaved(log, history, now) && now <= I64_MAX
    ensures forall kind: WindowKind ::
              Count(Replay(log), user, kind, Start(kind, now)) == Spent(history, user, kind, Start(kind, now))
    ensures Count(Replay(log), user, Hour, Start(Hour, now)) <= Count(Replay(log), user, Day, Start(Day, now))
            <= Count(Replay(log), user, Month, Start(Month, now))
  {
    LogFits(history);
    forall u | u in log
      ensures u in Log(history)
    {
      assert u in multiset(log);
    }
    forall kind: WindowKind
      ensures Count(Replay(log), user, kind, Start(kind, now)) == Spent(history, user, kind, Start(kind, now))
    {
      OrderedIsExact(log, user, kind, now);
      UsedIgnoresOrder(log, Log(history), user, kind, Start(kind, now));
      SpentIsUsed(history, user, kind, Start(kind, now));
    }
    SpentMonotone(history, user, now);
  }

  /** The table after the first `k` statements of one more call. */
  function During(history: seq<Usage>, e: Usage, k: nat): Rows
    requires k <= |Statements(e)|
  {
    Replay(Log(history) + Statements(e)[..k])
  }

  /** Has a statement of this kind landed. */
  predicate Landed(kind: WindowKind, k: nat) {
    match kind
    case Hour => k >= 1
    case Day => k >= 2
    case Month => k >= 3
  }

  lemma {:induction false} DuringReads(history: seq<Usage>, e: Usage, k: nat, kind: WindowKind)
    requires Fits(history + [e]) && InOrder(history, e.at) && k <= |Statements(e)|
    ensures Count(During(history, e, k), e.user, kind, Start(kind, e.at)) ==
            Spent(history, e.user, kind, Start(kind, e.at)) + if Landed(kind, k) then e.tokens else 0
  {
    hide Replay, Spent, Count, Start;
    assert e in history + [e] && forall h | h in history :: h in history + [e];
    if k == 0 {
      assert Log(history) + Statements(e)[..0] == Log(history);
      CountersRefineHistory(history, e.user, kind, e.at);
    } else {
      DuringReads(history, e, k - 1, kind);
      LogOfOrdered(history, e.at);
      OneStatement(history, e, k - 1, kind);
    }
  }

  lemma OneStatement(history: seq<Usage>, e: Usage, k: nat, kind: WindowKind)
    requires Representable(Log(history)) && e.tokens <= I64_MAX && e.at <= I64_MAX && k < |Statements(e)|
    ensures var start := Start(kind, e.at);
            Count(During(history, e, k + 1), e.user, kind, start) == Count(During(history, e, k), e.user, kind, start) +
            if Statements(e)[k].kind == kind then e.tokens else 0
  {
    hide Used, Log, Replay;
    ReplayOneMore(Log(history), Statements(e), k);
    DuringFits(history, e, k);
    RowsStayPositive(Log(history) + Statements(e)[..k], e.user, kind);
    StartIsAligned(kind, e.at);
    CountAfter(During(history, e, k), Statements(e)[k], e.user, kind, Start(kind, e.at));
  }

  lemma DuringFits(history: seq<Usage>, e: Usage, k: nat)
    requires Representable(Log(history)) && e.tokens <= I64_MAX && e.at <= I64_MAX && k <= |Statements(e)|
    ensures Representable(Log(history) + Statements(e)[..k])
  {
    assert forall u | u in Statements(e)[..k] :: u in Statements(e);
  }

  /** Inside a call the hour's statement lands first, then the day's: the nesting holds
      in between exactly when the call still fits beneath the wider window's old total. */
  lemma NestingInsideACall(history: seq<Usage>, e: Usage)
    requires Fits(history + [e]) && InOrder(history, e.at) && e.tokens > 0
    ensures var spent := (kind: WindowKind) => Spent(history, e.user, kind, Start(kind, e.at));
            var count := (rows: Rows, kind: WindowKind) => Count(rows, e.user, kind, Start(kind, e.at));
            && (count(During(history, e, 1), Hour) <= count(During(history, e, 1), Day) <==>
                  spent(Hour) + e.tokens <= spent(Day))
            && count(During(history, e, 1), Day) <= count(During(history, e, 1), Month)
            && count(During(history, e, 2), Hour) <= count(During(history, e, 2), Day)
            && (count(During(history, e, 2), Day) <= count(During(history, e, 2), Month) <==>
                  spent(Day) + e.tokens <= spent(Month))
  {
    DuringReads(history, e, 1, Hour);
    DuringReads(history, e, 1, Day);
    DuringReads(history, e, 1, Month);
    DuringReads(history, e, 2, Hour);
    DuringReads(history, e, 2, Day);
    DuringReads(history, e, 2, Month);
    SpentMonotone(history, e.user, e.at);
  }

  /** A user's first call is the plainest such moment. */
  lemma NestingFailsInsideACall()
    ensures var rows := During([], Usage("u", 1, 0), 1);
            Count(rows, "u", Hour, 0) > Count(rows, "u", Day, 0)
  {
    NestingInsideACall([], Usage("u", 1, 0));
  }

  // ---------------------------------------------------------------------
  // The tracker itself
  // ---------------------------------------------------------------------

  datatype RequestLimits = RequestLimits(perHour: Option<nat>, perDay: Option<nat>, perMonth: Option<nat>) {
    predicate IsEmpty() {
      perHour.None? && perDay.None? && perMonth.None?
    }

    function Cap(kind: WindowKind): Option<nat> {
      match kind
      case Hour => perHour
      case Day => perDay
      case Month => perMonth
    }
  }

  datatype LimitError = Exceeded(limit: nat, retryAfter: nat, used: nat, window: WindowKind)

  /** `limits.Cap(kind)` is supplied and the user's current window has reached it. */
  predicate Reached(rows: Rows, user: string, limits: RequestLimits, kind: WindowKind, now: nat) {
    limits.Cap(kind).Some? && Count(rows, user, kind, Start(kind, now)) >= limits.Cap(kind).value
  }

  /** `e` names the first window, in the order hour, day, month, that has reached its cap. */
  predicate Rejects(rows: Rows, user: string, limits: RequestLimits, now: nat, e: LimitError) {
    && Reached(rows, user, limits, e.window, now)
    && (!e.window.Hour? ==> !Reached(rows, user, limits, Hour, now))
    && (e.window.Month? ==> !Reached(rows, user, limits, Day, now))
    && Some(e.limit) == (match e.window
                         case Hour => limits.perHour
                         case Day => limits.perDay
                         case Month => limits.perMonth)
    && e.used == Count(rows, user, e.window, Start(e.window, now))
    && now + e.retryAfter ==
       Start(e.window, now) + if e.window.Hour? then 3_600 else if e.window.Day? then 86_400 else 2_592_000
  }

  /** `delay` is the least after which the user's window reads zero, if nothing more is
      recorded. */
  ghost predicate IsLeastDelay(rows: Rows, user: string, kind: WindowKind, now: nat, delay: nat) {
    forall d: nat | now + d <= I64_MAX :: ReadsZeroAfter(rows, user, kind, now, d) <==> d >= delay
  }

  predicate ReadsZeroAfter(rows: Rows, user: string, kind: WindowKind, now: nat, delay: nat) {
    Count(rows, user, kind, Start(kind, now + delay)) == 0
  }

  lemma LeastWhenUsed(rows: Rows, user: string, kind: WindowKind, now: nat, delay: nat)
    requires Count(rows, user, kind, Start(kind, now)) > 0 && now + delay == Start(kind, now) + kind.Size()
    ensures IsLeastDelay(rows, user, kind, now, delay)
  {
    StartIsAligned(kind, now);
    forall d: nat | now + d <= I64_MAX
      ensures ReadsZeroAfter(rows, user, kind, now, d) <==> d >= delay
    {
      SameWindow(kind, Start(kind, now), now + d);
    }
  }

  lemma NotLeastWhenUnused(rows: Rows, user: string, kind: WindowKind, now: nat, delay: nat)
    requires Count(rows, user, kind, Start(kind, now)) == 0 && delay > 0 && now <= I64_MAX
    ensures !IsLeastDelay(rows, user, kind, now, delay)
  {
    assert now + 0 == now;
    assert ReadsZeroAfter(rows, user, kind, now, 0);
  }

  /** Every rejection asks for a delay of one second to one window. It is the least that
      helps exactly when something was used: a cap of zero rejects an empty window too,
      and then no delay is long enough. */
  lemma RetryAfterIsLeastIff(rows: Rows, user: string, limits: RequestLimits, now: nat, e: LimitError)
    requires Rejects(rows, user, limits, now, e) && now <= I64_MAX
    ensures 1 <= e.retryAfter <= e.window.Size()
    ensures IsLeastDelay(rows, user, e.window, now, e.retryAfter) <==> e.used > 0
    ensures e.used == 0 ==> forall later :: Reached(rows, user, limits, e.window, later)
  {
    assert InWindow(e.window, Start(e.window, now), now);
    if e.used > 0 {
      LeastWhenUsed(rows, user, e.window, now, e.retryAfter);
    } else {
      NotLeastWhenUnused(rows, user, e.window, now, e.retryAfter);
    }
  }

  /** With nothing recorded, a cap of zero tokens an hour is rejected at every instant. */
  lemma ZeroCapRejectsTheUnused(user: string, now: nat, limits: RequestLimits)
    requires limits == RequestLimits(Some(0), None, None)
    ensures Rejects(map[], user, limits, now, Exceeded(0, Start(Hour, now) + 3_600 - now, 0, Hour))
  {
  }

  /** The row of the current window is `tokens` higher than it was; a row of any other
      window, or none, is replaced. */
  predicate Charged(before: Rows, after: Rows, user: string, kind: WindowKind, tokens: nat, start: int) {
    var key := (user, kind);
    && key in after
    && after[key] == Row(start, ToI64(tokens) +
                                if key in before && before[key].start == start then before[key].count else 0)
  }

  ghost predicate OthersKept(before: Rows, after: Rows, changed: set<(string, WindowKind)>) {
    before - changed == after - changed
  }

  lemma StatementCharges(rows: Rows, u: Upsert)
    ensures Charged(rows, Apply(rows, u), u.user, u.kind, u.tokens, ToI64(Start(u.kind, u.at)))
    ensures OthersKept(rows, Apply(rows, u), {(u.user, u.kind)})
  {
  }

  lemma NothingCharged(rows: Rows, user: string)
    ensures OthersKept(rows, rows, {(user, Hour), (user, Day), (user, Month)})
  {
  }

  /** A later statement of another kind leaves a charge as it is. */
  lemma ChargeStays(
      before: Rows, rows: Rows, u: Upsert, user: string, kind: WindowKind, tokens: nat, start: int)
    requires Charged(before, rows, user, kind, tokens, start) && u.kind != kind
    ensures Charged(before, Apply(rows, u), user, kind, tokens, start)
  {
  }

  /** Nor does an earlier one. */
  lemma ChargeLater(before: Rows, rows: Rows, u: Upsert, changed: set<(string, WindowKind)>)
    requires OthersKept(before, rows, changed) && (u.user, u.kind) !in changed
    ensures Charged(before, Apply(rows, u), u.user, u.kind, u.tokens, ToI64(Start(u.kind, u.at)))
    ensures OthersKept(before, Apply(rows, u), changed + {(u.user, u.kind)})
  {
    var key, after := (u.user, u.kind), Apply(rows, u);
    assert key in before <==> key in before - changed;
    assert key in rows <==> key in rows - changed;
    assert key in before ==> (before - changed)[key] == before[key] && (rows - changed)[key] == rows[key];
    assert after - (changed + {key}) == rows - changed - {key};
    assert before - (changed + {key}) == before - changed - {key};
  }

  /** What a whole call does to the table it starts on. */
  lemma CallCharges(history: seq<Usage>, e: Usage)
    requires e.tokens > 0
    ensures var before, after := During(history, e, 0), During(history, e, 3);
            && Charged(before, after, e.user, Hour, e.tokens, ToI64(Start(Hour, e.at)))
            && Charged(before, after, e.user, Day, e.tokens, ToI64(Start(Day, e.at)))
            && Charged(before, after, e.user, Month, e.tokens, ToI64(Start(Month, e.at)))
            && OthersKept(before, after, {(e.user, Hour), (e.user, Day), (e.user, Month)})
  {
    hide During, Apply, Charged, OthersKept, Start;
    var h, d, m := Upsert(e.user, Hour, e.tokens, e.at), Upsert(e.user, Day, e.tokens, e.at),
                   Upsert(e.user, Month, e.tokens, e.at);
    var before, first, second := During(history, e, 0), During(history, e, 1), During(history, e, 2);
    DuringNext(history, e, 0);
    DuringNext(history, e, 1);
    DuringNext(history, e, 2);
    StatementCharges(before, h);
    ChargeLater(before, first, d, {(e.user, Hour)});
    ChargeLater(before, second, m, {(e.user, Hour)} + {(e.user, Day)});
    ChargeStays(before, first, d, e.user, Hour, e.tokens, ToI64(Start(Hour, e.at)));
    ChargeStays(before, second, m, e.user, Hour, e.tokens, ToI64(Start(Hour, e.at)));
    ChargeStays(before, second, m, e.user, Day, e.tokens, ToI64(Start(Day, e.at)));
    assert {(e.user, Hour)} + {(e.user, Day)} + {(e.user, Month)} == {(e.user, Hour), (e.user, Day), (e.user, Month)};
  }

  /** The first window reached, in the order they are visited, is the one named. */
  lemma FirstReached(rows: Rows, user: string, limits: RequestLimits, now: nat, i: nat)
    requires i < |KINDS| && Reached(rows, user, limits, KINDS[i], now)
    requires forall k | 0 <= k < i :: !Reached(rows, user, limits, KINDS[k], now)
    ensures var kind := KINDS[i];
            var start := Start(kind, now);
            Rejects(rows, user, limits, now,
                    Exceeded(limits.Cap(kind).value, start + kind.Size() - now, Count(rows, user, kind, start), kind))
  {
    assert KINDS[0] == Hour && KINDS[1] == Day && KINDS[2] == Month;
  }

  lemma NoneReached(rows: Rows, user: string, limits: RequestLimits, now: nat)
    requires forall k | 0 <= k < |KINDS| :: !Reached(rows, user, limits, KINDS[k], now)
    ensures forall kind :: !Reached(rows, user, limits, kind, now)
    ensures !Reached(rows, user, limits, Hour, now) && !Reached(rows, user, limits, Day, now)
    ensures !Reached(rows, user, limits, Month, now)
  {
    assert KINDS[0] == Hour && KINDS[1] == Day && KINDS[2] == Month;
  }

  class Tracker {
    var rows: Rows
    ghost var history: seq<Usage>

    ghost predicate Valid()
      reads this
    {
      rows == Replay(Log(history))
    }

    constructor ()
      ensures Valid() && history == []
    {
      rows, history := map[], [];
    }

    /** Rejects with the first window, in the order hour, day, month, that has
        reached its cap; on a history in clock order the numbers are true spends. */
    method Check(user: string, limits: RequestLimits, now: nat) returns (r: Result<(), LimitError>)
      requires Valid()
      ensures r.Ok? <==> forall kind :: !Reached(rows, user, limits, kind, now)
      ensures r.Ok? <==>
                && (limits.perHour.Some? ==> Count(rows, user, Hour, Start(Hour, now)) < limits.perHour.value)
                && (limits.perDay.Some? ==> Count(rows, user, Day, Start(Day, now)) < limits.perDay.value)
                && (limits.perMonth.Some? ==> Count(rows, user, Month, Start(Month, now)) < limits.perMonth.value)
      ensures r.Err? ==> Rejects(rows, user, limits, now, r.error)
      ensures Fits(history) && InOrder(history, now) && now <= I64_MAX ==>
                && (r.Ok? <==> forall kind :: limits.Cap(kind).Some? ==>
                                 Spent(history, user, kind, Start(kind, now)) < limits.Cap(kind).value)
                && (r.Err? ==> r.error.used == Spent(history, user, r.error.window, Start(r.error.window, now)))
    {
      if Fits(history) && InOrder(history, now) && now <= I64_MAX {
        forall kind: WindowKind
          ensures Count(rows, user, kind, Start(kind, now)) == Spent(history, user, kind, Start(kind, now))
          ensures limits.Cap(kind).Some? ==>
                    (Reached(rows, user, limits, kind, now) <==>
                       Spent(history, user, kind, Start(kind, now)) >= limits.Cap(kind).value)
        {
          CountersRefineHistory(history, user, kind, now);
        }
      }
      if limits.IsEmpty() {
        return Ok(());
      }
      for i := 0 to |KINDS|
        invariant forall k | 0 <= k < i :: !Reached(rows, user, limits, KINDS[k], now)
      {
        var kind := KINDS[i];
        match limits.Cap(kind) {
          case None =>
          case Some(cap) =>
            var size := kind.Size();
            var start := Start(kind, now);
            var consumed := Count(rows, user, kind, start);
            if consumed >= cap {
              FirstReached(rows, user, limits, now, i);
              return Err(Exceeded(cap, start + size - now, consumed, kind));
            }
        }
      }
      NoneReached(rows, user, limits, now);
      return Ok(());
    }

    /** One `INSERT … ON CONFLICT DO UPDATE`. */
    method Execute(user: string, kind: WindowKind, tokens: nat, start: int, ghost now: nat)
      requires start == ToI64(Start(kind, now))
      modifies this`rows
      ensures rows == Apply(old(rows), Upsert(user, kind, tokens, now))
      ensures Charged(old(rows), rows, user, kind, tokens, start) && OthersKept(old(rows), rows, {(user, kind)})
    {
      var key := (user, kind);
      if key in rows && rows[key].start == start {
        rows := rows[key := Row(start, rows[key].count + ToI64(tokens))];
      } else {
        rows := rows[key := Row(start, ToI64(tokens))];
      }
    }

    /** Adds `tokens` to all three windows; a zero charge touches no row. */
    method Record(user: string, tokens: nat, now: nat)
      requires Valid()
      modifies this
      ensures Valid()
      ensures history == old(history) + [Usage(user, tokens, now)]
      ensures tokens == 0 ==> rows == old(rows)
      ensures tokens > 0 ==>
                && Charged(old(rows), rows, user, Hour, tokens, ToI64(Start(Hour, now)))
                && Charged(old(rows), rows, user, Day, tokens, ToI64(Start(Day, now)))
                && Charged(old(rows), rows, user, Month, tokens, ToI64(Start(Month, now)))
      ensures OthersKept(old(rows), rows, {(user, Hour), (user, Day), (user, Month)})
    {
      hide Charged, OthersKept;
      ghost var before, e := history, Usage(user, tokens, now);
      DuringEnds(before, e);
      history := history + [e];
      if tokens == 0 {
        NothingCharged(rows, user);
        return;
      }
      for i := 0 to |KINDS|
        invariant history == before + [e]
        invariant rows == During(before, e, i)
      {
        var kind := KINDS[i];
        Execute(user, kind, tokens, ToI64(Start(kind, now)), now);
        DuringNext(before, e, i);
      }
      CallCharges(before, e);
    }
  }

  lemma DuringNext(history: seq<Usage>, e: Usage, k: nat)
    requires e.tokens > 0 && k < |KINDS|
    ensures During(history, e, k + 1) == Apply(During(history, e, k), Upsert(e.user, KINDS[k], e.tokens, e.at))
  {
    ReplayOneMore(Log(history), Statements(e), k);
  }

  /** A call begins on the replay of what came before, and ends on its own. */
  lemma DuringEnds(history: seq<Usage>, e: Usage)
    ensures During(history, e, 0) == Replay(Log(history))
    ensures During(history, e, |Statements(e)|) == Replay(Log(history + [e]))
  {
    var all := Statements(e);
    assert (history + [e])[..|history|] == history;
    assert all[..0] == [] && all[..|all|] == all;
    assert Log(history) + [] == Log(history);
  }
}
