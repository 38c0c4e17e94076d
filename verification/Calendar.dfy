/** `month_start_secs`: the first instant (UTC) of the calendar month containing a
    Unix timestamp, on the proleptic Gregorian calendar. */
module Calendar {
  import opened Outcomes

  const SECS_PER_DAY: nat := 86_400
  /** 9999-12-31T23:59:59Z, the last timestamp the date library converts. */
  const MAX_TIMESTAMP: int := 253_402_300_799

  predicate IsLeap(year: nat) {
    year % 4 == 0 && (year % 100 != 0 || year % 400 == 0)
  }

  function DaysInMonth(year: nat, month: nat): (days: nat)
    ensures month in {1, 3, 5, 7, 8, 10, 12} ==> days == 31
    ensures month in {4, 6, 9, 11} ==> days == 30
    ensures month == 2 ==> days == if year % 400 == 0 || (year % 4 == 0 && year % 100 != 0) then 29 else 28
  {
    if month == 2 then if IsLeap(year) then 29 else 28
    else if month in {4, 6, 9, 11} then 30
    else 31
  }

  // ---------------------------------------------------------------------
  // The conversion: timestamp to date, first of the month, back to seconds
  // ---------------------------------------------------------------------

  /** Days from 1970-01-01 to January 1 of `year`. */
  function YearStart(year: nat): int {
    var y := year - 1;
    365 * (year - 1970) + y / 4 - y / 100 + y / 400 - 477
  }

  /** Days from January 1 to the first of `month`. */
  function MonthOffset(year: nat, month: nat): nat
    requires 1 <= month <= 13
  {
    var leap := if IsLeap(year) && month > 2 then 1 else 0;
    leap + [0, 31, 59, 90, 120, 151, 181, 212, 243, 273, 304, 334, 365][month - 1]
  }

  datatype Date = Date(year: nat, month: nat)

  /** The year and month containing day `day`, walking forward from `year`. */
  function YearOf(year: nat, day: nat): (y: nat)
    requires 1970 <= year && YearStart(year) <= day
    ensures year <= y && YearStart(y) <= day < YearStart(y + 1)
    decreases day - YearStart(year)
  {
    if day < YearStart(year + 1) then year else YearOf(year + 1, day)
  }

  function MonthOf(year: nat, month: nat, dayOfYear: nat): (m: nat)
    requires 1 <= month <= 12 && MonthOffset(year, month) <= dayOfYear < MonthOffset(year, 13)
    ensures 1 <= m <= 12 && MonthOffset(year, m) <= dayOfYear < MonthOffset(year, m + 1)
    decreases 13 - month
  {
    if dayOfYear < MonthOffset(year, month + 1) then month else MonthOf(year, month + 1, dayOfYear)
  }

  lemma YearLength(year: nat)
    requires 1970 <= year
    ensures YearStart(year + 1) == YearStart(year) + MonthOffset(year, 13)
    ensures YearStart(1970) == 0
  {
    LeapCount(year);
  }

  lemma LeapCount(year: nat)
    requires 1 <= year
    ensures year / 4 - year / 100 + year / 400 ==
            (year - 1) / 4 - (year - 1) / 100 + (year - 1) / 400 + if IsLeap(year) then 1 else 0
  {
    By4(year);
    By100(year);
    By400(year);
  }

  lemma By4(n: nat)
    requires 1 <= n
    ensures n / 4 == (n - 1) / 4 + if n % 4 == 0 then 1 else 0
  {
  }

  lemma By100(n: nat)
    requires 1 <= n
    ensures n / 100 == (n - 1) / 100 + if n % 100 == 0 then 1 else 0
    ensures n % 100 == 0 ==> n % 4 == 0
  {
    Multiples4(25 * (n / 100));
  }

  lemma By400(n: nat)
    requires 1 <= n
    ensures n / 400 == (n - 1) / 400 + if n % 400 == 0 then 1 else 0
    ensures n % 400 == 0 ==> n % 100 == 0
  {
    Multiples100(4 * (n / 400));
  }

  lemma Multiples4(k: nat)
    ensures 4 * k % 4 == 0
  {
  }

  lemma Multiples100(k: nat)
    ensures 100 * k % 100 == 0
  {
  }

  function DateOf(timestamp: nat): Date {
    var day := timestamp / SECS_PER_DAY;
    YearLength(1970);
    var year := YearOf(1970, day);
    YearLength(year);
    Date(year, MonthOf(year, 1, day - YearStart(year)))
  }

  function MonthStartSecs(now: nat): nat {
    var timestamp := ToI64(now);
    if timestamp > MAX_TIMESTAMP then 0
    else
      var date := DateOf(timestamp);
      (YearStart(date.year) + MonthOffset(date.year, date.month)) * SECS_PER_DAY
  }

  // ---------------------------------------------------------------------
  // The calendar, month by month
  // ---------------------------------------------------------------------

  /** Month number `i` after January 1970. */
  function YearAt(i: nat): nat { 1970 + i / 12 }
  function MonthAt(i: nat): nat { 1 + i % 12 }

  /** The day month `i` starts, counted by adding up the months before it. */
  function FirstDay(i: nat): nat {
    if i == 0 then 0 else FirstDay(i - 1) + DaysInMonth(YearAt(i - 1), MonthAt(i - 1))
  }

  ghost predicate IsMonthBoundary(t: nat) {
    exists i: nat :: t == FirstDay(i) * SECS_PER_DAY
  }

  /** The closed form used by the conversion agrees with the month-by-month count. */
  lemma {:induction false} FirstDayClosed(i: nat)
    ensures FirstDay(i) == YearStart(YearAt(i)) + MonthOffset(YearAt(i), MonthAt(i))
  {
    if i == 0 {
      YearLength(1970);
    } else {
      FirstDayClosed(i - 1);
      var y, m := YearAt(i - 1), MonthAt(i - 1);
      MonthStep(y, m);
      NextMonth(i);
      YearLength(y);
    }
  }

  lemma NextMonth(i: nat)
    requires i > 0
    ensures var y, m := YearAt(i - 1), MonthAt(i - 1);
            if m == 12 then YearAt(i) == y + 1 && MonthAt(i) == 1 else YearAt(i) == y && MonthAt(i) == m + 1
  {
  }

  lemma MonthStep(year: nat, month: nat)
    requires 1 <= month <= 12
    ensures MonthOffset(year, month + 1) == MonthOffset(year, month) + DaysInMonth(year, month)
    ensures MonthOffset(year, 1) == 0
  {
  }

  lemma {:induction false} FirstDayMonotone(i: nat, j: nat)
    requires i < j
    ensures FirstDay(i) < FirstDay(j)
  {
    if i < j - 1 {
      FirstDayMonotone(i, j - 1);
    }
  }

  lemma MonthNumber(year: nat, month: nat) returns (i: nat)
    requires 1970 <= year && 1 <= month <= 12
    ensures YearAt(i) == year && MonthAt(i) == month
  {
    i := (year - 1970) * 12 + (month - 1);
  }

  lemma DateBounds(now: nat) returns (year: nat, month: nat)
    requires now <= MAX_TIMESTAMP
    ensures 1970 <= year && 1 <= month <= 12 && DateOf(now) == Date(year, month)
    ensures var day := now / SECS_PER_DAY;
            MonthOffset(year, month) <= day - YearStart(year) < MonthOffset(year, month + 1)
  {
    YearLength(1970);
    var day := now / SECS_PER_DAY;
    year := YearOf(1970, day);
    YearLength(year);
    month := MonthOf(year, 1, day - YearStart(year));
  }

  /** The month containing `now` is the one whose first day is the last not after it. */
  lemma MonthStartIsFirstDay(now: nat) returns (i: nat)
    requires now <= MAX_TIMESTAMP
    ensures MonthStartSecs(now) == FirstDay(i) * SECS_PER_DAY
    ensures FirstDay(i) <= now / SECS_PER_DAY < FirstDay(i + 1)
  {
    var year, month := DateBounds(now);
    i := MonthNumber(year, month);
    FirstDayClosed(i);
    MonthStep(year, month);
    NextFirstDay(i);
  }

  lemma NextFirstDay(i: nat)
    ensures FirstDay(i + 1) == FirstDay(i) + DaysInMonth(YearAt(i), MonthAt(i))
  {
  }

  lemma WholeDays(day: nat, now: nat)
    ensures day * SECS_PER_DAY <= now <==> day <= now / SECS_PER_DAY
  {
  }

  lemma NoLaterBoundary(now: nat, i: nat, j: nat)
    requires now / SECS_PER_DAY < FirstDay(i + 1) && FirstDay(j) <= now / SECS_PER_DAY
    ensures FirstDay(j) <= FirstDay(i)
  {
    if j > i + 1 {
      FirstDayMonotone(i + 1, j);
    } else if j < i {
      FirstDayMonotone(j, i);
    }
  }

  /** `month_start_secs` is the greatest Gregorian month boundary not after `now`. */
  lemma MonthStartIsGreatestBoundary(now: nat)
    requires now <= MAX_TIMESTAMP
    ensures MonthStartSecs(now) <= now && IsMonthBoundary(MonthStartSecs(now))
    ensures forall t: nat | IsMonthBoundary(t) && t <= now :: t <= MonthStartSecs(now)
  {
    var i := MonthStartIsFirstDay(now);
    WholeDays(FirstDay(i), now);
    forall t: nat | IsMonthBoundary(t) && t <= now
      ensures t <= MonthStartSecs(now)
    {
      var j: nat :| t == FirstDay(j) * SECS_PER_DAY;
      WholeDays(FirstDay(j), now);
      NoLaterBoundary(now, i, j);
    }
  }

  /** Idempotent and monotone through the year 9999; afterwards the window reopens at 0. */
  lemma MonthStartLaws(a: nat, b: nat)
    requires a <= b
    ensures b <= MAX_TIMESTAMP ==> MonthStartSecs(a) <= MonthStartSecs(b)
    ensures MonthStartSecs(MonthStartSecs(a)) == MonthStartSecs(a)
    ensures a > MAX_TIMESTAMP ==> MonthStartSecs(a) == 0
  {
    if b <= MAX_TIMESTAMP {
      MonthStartIsGreatestBoundary(a);
      MonthStartIsGreatestBoundary(b);
    }
    if a <= MAX_TIMESTAMP {
      MonthStartIsGreatestBoundary(a);
      MonthStartIsGreatestBoundary(MonthStartSecs(a));
    } else {
      MonthStartIsGreatestBoundary(0);
    }
  }

  /** Months are counted from January 1970. */
  lemma FirstMonths()
    ensures FirstDay(0) == 0 && FirstDay(1) == 31
    ensures YearAt(0) == 1970 && MonthAt(0) == 1 && YearAt(12) == 1971 && MonthAt(13) == 2
  {
    assert FirstDay(1) == FirstDay(0) + DaysInMonth(1970, 1);
  }

  /** February 1970 starts after 31 days of 86400 seconds. */
  lemma FirstFebruary()
    ensures MonthStartSecs(2_678_399) == 0 && MonthStartSecs(2_678_400) == 2_678_400
  {
    hide MonthStartSecs, FirstDay;
    FirstMonths();
    var i := MonthStartIsFirstDay(2_678_399);
    var j := MonthStartIsFirstDay(2_678_400);
    if i > 0 {
      NotBefore(1, i);
    }
    if j > 1 {
      FirstDayMonotone(1, j);
    }
  }

  lemma NotBefore(i: nat, j: nat)
    requires i <= j
    ensures FirstDay(i) <= FirstDay(j)
  {
    if i < j {
      FirstDayMonotone(i, j);
    }
  }
}
