/** The calendar arithmetic of src/http/ngx_http_parse_time.c against counting days. */
module Calendar {
  import opened Bytes

  /** A date and time of day; months count from 0. */
  datatype Date = Date(year: nat, month: nat, day: nat, hour: nat, min: nat, sec: nat)

  // ---------------------------------------------------------------- counting days

  /** Gregorian leap years. */
  predicate Leap(y: int) {
    y % 4 == 0 && (y % 100 != 0 || y % 400 == 0)
  }

  function YearLength(y: int): int {
    if Leap(y) then 366 else 365
  }

  function MonthLength(y: int, m: nat): nat
    requires m < 12
  {
    if m == 1 then (if Leap(y) then 29 else 28)
    else if m == 3 || m == 5 || m == 8 || m == 10 then 30 else 31
  }

  /** Days from January 1 of year 0 to January 1 of year y. */
  function YearStart(y: nat): int {
    if y == 0 then 0 else YearStart(y - 1) + YearLength(y - 1)
  }

  /** Days from January 1 to the first of a month. */
  function MonthStart(y: int, m: nat): int
    requires m <= 12
    decreases m, y
  {
    if m == 0 then 0 else MonthStart(y, m - 1) + MonthLength(y, m - 1)
  }

  function DayNumber(d: Date): int
    requires d.month < 12
  {
    YearStart(d.year) + MonthStart(d.year, d.month) + d.day - 1
  }

  /** January 1, 1970; EpochIs shows that this is its day number. */
  const EPOCH := 719528

  /** Seconds since the beginning of 1970, by counting. */
  function Seconds(d: Date): int
    requires d.month < 12
  {
    (DayNumber(d) - EPOCH) * 86400 + d.hour * 3600 + d.min * 60 + d.sec
  }

  // ---------------------------------------------------------------- Gauss' formula

  /** Unsigned 64-bit arithmetic, read as a signed number in the end. */
  function Unsigned(x: int): nat {
    x % TWO64
  }

  function Signed(x: int): int {
    if Unsigned(x) < TWO64 / 2 then Unsigned(x) else Unsigned(x) - TWO64
  }

  /** Months counted from March, 1 to 12. */
  function FromMarch(month: nat): nat {
    if month <= 1 then month + 11 else month - 1
  }

  /** The year that began in March; January of year 0 wraps around. */
  function MarchYear(year: nat, month: nat): nat {
    if month > 1 then year else if year == 0 then TWO64 - 1 else year - 1
  }

  /** Gauss' formula over a March year and month. */
  function Gauss(y: int, m: int, day: int): int {
    365 * y + y / 4 - y / 100 + y / 400 + 367 * m / 12 - 30 + day - 1 - 719527 + 31 + 28
  }

  /** What the code computes. */
  function Time(d: Date): int {
    Signed(Gauss(MarchYear(d.year, d.month), FromMarch(d.month), d.day) * 86400 + d.hour * 3600 + d.min * 60 + d.sec)
  }

  /** The leap days up to a year, year 0 included. */
  function Leaps(y: int): int {
    y / 4 - y / 100 + y / 400
  }

  lemma LeapsGrow(y: nat)
    requires y > 0
    ensures Leaps(y) == Leaps(y - 1) + if Leap(y) then 1 else 0
  {
    assert y / 4 == (y - 1) / 4 + if y % 4 == 0 then 1 else 0;
    assert y / 100 == (y - 1) / 100 + if y % 100 == 0 then 1 else 0;
    assert y / 400 == (y - 1) / 400 + if y % 400 == 0 then 1 else 0;
  }

  /** Summed year lengths in closed form. */
  lemma {:induction false} YearStartIs(y: nat)
    requires y > 0
    ensures YearStart(y) == 365 * y + Leaps(y - 1) + 1
    decreases y
  {
    if y == 1 {
      assert YearStart(1) == YearStart(0) + YearLength(0);
    } else {
      YearStartIs(y - 1);
      LeapsGrow(y - 1);
    }
  }

  /** Summed month lengths in closed form. */
  lemma MonthStartIs(y: int, m: nat)
    requires m < 12
    ensures MonthStart(y, m) ==
      if m <= 1 then 31 * m else 59 + (if Leap(y) then 1 else 0) + 367 * (m - 1) / 12 - 30
  {
    Unrolled(y, m);
  }

  lemma {:induction false} Unrolled(y: int, m: nat)
    requires m < 12
    ensures var l := if Leap(y) then 1 else 0;
      MonthStart(y, m) == [0, 31, 59 + l, 90 + l, 120 + l, 151 + l, 181 + l, 212 + l, 243 + l, 273 + l, 304 + l, 334 + l][m]
    decreases m
  {
    if m > 0 {
      Unrolled(y, m - 1);
    }
  }

  lemma EpochIs(d: Date)
    requires d.year == 1970 && d.month == 0 && d.day == 1
    ensures DayNumber(d) == EPOCH
  {
    YearStartIs(d.year);
    assert MonthStart(d.year, d.month) == 0;
  }

  lemma DaysFromMarch(y: nat, m: nat, day: nat)
    requires 1 < m < 12
    ensures Gauss(y, FromMarch(m), day) == YearStart(y) + MonthStart(y, m) + day - 1 - EPOCH
  {
    MonthStartIs(y, m);
    if y > 0 {
      YearStartIs(y);
      LeapsGrow(y);
    }
  }

  lemma DaysBeforeMarch(y: nat, m: nat, day: nat)
    requires m <= 1 && y > 0
    ensures Gauss(y - 1, FromMarch(m), day) == YearStart(y) + MonthStart(y, m) + day - 1 - EPOCH
  {
    MonthStartIs(y, m);
    YearStartIs(y);
  }

  /** Gauss' formula counts days. */
  lemma GaussCounts(d: Date)
    requires d.month < 12 && (d.year > 0 || d.month > 1)
    ensures Gauss(MarchYear(d.year, d.month), FromMarch(d.month), d.day) == DayNumber(d) - EPOCH
  {
    if d.month > 1 {
      DaysFromMarch(d.year, d.month, d.day);
    } else {
      DaysBeforeMarch(d.year, d.month, d.day);
    }
  }

  // ---------------------------------------------------------------- what the code's time means

  /** The checks on day and time of day; the day may be 0. */
  predicate Accepted(d: Date) {
    && d.month < 12 && d.year <= 9999 && d.day <= MonthLength(d.year, d.month)
    && d.hour <= 23 && d.min <= 59 && d.sec <= 59
  }

  lemma SignedIs(x: int, k: int)
    requires -TWO64 / 2 <= x < TWO64 / 2
    ensures Signed(x + k * TWO64) == x
  {
    var y := x + k * TWO64;
    if x >= 0 {
      Remainder(y, k, x);
    } else {
      assert y == (k - 1) * TWO64 + (x + TWO64);
      Remainder(y, k - 1, x + TWO64);
    }
  }

  lemma Remainder(y: int, q: int, r: int)
    requires y == q * TWO64 + r && 0 <= r < TWO64
    ensures y % TWO64 == r
  {
  }

  lemma SecondsAreSmall(d: Date)
    requires Accepted(d)
    ensures -TWO64 / 4 <= Seconds(d) < TWO64 / 4
  {
    MonthStartIs(d.year, d.month);
    if d.year > 0 {
      YearStartIs(d.year);
    }
  }

  /** From year 0, January and February excepted, the code counts seconds. */
  lemma TimeIsSeconds(d: Date)
    requires Accepted(d) && (d.year > 0 || d.month > 1)
    ensures Time(d) == Seconds(d)
  {
    GaussCounts(d);
    SecondsAreSmall(d);
    SignedIs(Seconds(d), 0);
  }

  /** January and February of year 0 come out 10368 seconds late. */
  lemma YearZeroIsLate(d: Date)
    requires Accepted(d) && d.year == 0 && d.month <= 1
    ensures Time(d) == Seconds(d) + 10368
  {
    MonthStartIs(d.year, d.month);
    SecondsAreSmall(d);
    var y := TWO64 - 1;
    assert y / 4 - y / 100 + y / 400 == 4473335437874566266;
    var days := Gauss(y, FromMarch(d.month), d.day);
    assert days == DayNumber(d) - EPOCH + 365 * TWO64 + 4473335437874566267;
    assert (365 * TWO64 + 4473335437874566267) * 86400 == 10368 + 31556952 * TWO64;
    SignedIs(Seconds(d) + 10368, 31556952);
  }

  /** Exactly when the code's time is the count of seconds. */
  lemma TimeIsSecondsIff(d: Date)
    requires Accepted(d)
    ensures Time(d) == Seconds(d) <==> d.year > 0 || d.month > 1
  {
    if d.year > 0 || d.month > 1 {
      TimeIsSeconds(d);
    } else {
      YearZeroIsLate(d);
    }
  }

  // ---------------------------------------------------------------- order

  predicate Before(a: Date, b: Date) {
    if a.year != b.year then a.year < b.year
    else if a.month != b.month then a.month < b.month
    else if a.day != b.day then a.day < b.day
    else if a.hour != b.hour then a.hour < b.hour
    else if a.min != b.min then a.min < b.min
    else a.sec < b.sec
  }

  function TimeOfDay(d: Date): nat {
    d.hour * 3600 + d.min * 60 + d.sec
  }

  lemma {:induction false} MonthsGrow(y: int, m: nat, n: nat)
    requires m <= n <= 12
    ensures MonthStart(y, m) <= MonthStart(y, n)
    decreases n
  {
    if m < n {
      MonthsGrow(y, m, n - 1);
    }
  }

  lemma {:induction false} YearsGrow(x: nat, y: nat)
    requires x <= y
    ensures YearStart(x) <= YearStart(y)
    decreases y
  {
    if x < y {
      YearsGrow(x, y - 1);
    }
  }

  lemma YearIsItsMonths(y: int)
    ensures MonthStart(y, 12) == YearLength(y)
  {
    Unrolled(y, 11);
    assert MonthStart(y, 12) == MonthStart(y, 11) + MonthLength(y, 11);
  }

  /** A day lies within its month, and its month within its year. */
  lemma DayIsWithin(d: Date)
    requires Accepted(d) && d.day >= 1
    ensures YearStart(d.year) + MonthStart(d.year, d.month) <= DayNumber(d)
    ensures DayNumber(d) < YearStart(d.year) + MonthStart(d.year, d.month + 1) <= YearStart(d.year + 1)
  {
    YearIsItsMonths(d.year);
    MonthsGrow(d.year, d.month + 1, 12);
  }

  lemma EarlierDay(a: Date, b: Date)
    requires Accepted(a) && Accepted(b) && a.day >= 1 && b.day >= 1
    requires a.year < b.year || (a.year == b.year && a.month < b.month)
    ensures DayNumber(a) < DayNumber(b)
  {
    DayIsWithin(a);
    DayIsWithin(b);
    if a.year < b.year {
      YearsGrow(a.year + 1, b.year);
      MonthsGrow(b.year, 0, b.month);
    } else {
      MonthsGrow(a.year, a.month + 1, b.month);
    }
  }

  /** Later dates are more seconds away. */
  lemma SecondsIncrease(a: Date, b: Date)
    requires Accepted(a) && Accepted(b) && a.day >= 1 && b.day >= 1 && Before(a, b)
    ensures Seconds(a) < Seconds(b)
  {
    if a.year != b.year || a.month != b.month {
      EarlierDay(a, b);
    }
  }

  /** Later dates have larger times, from March of year 0 on. */
  lemma TimeIncreases(a: Date, b: Date)
    requires Accepted(a) && Accepted(b) && a.day >= 1 && b.day >= 1 && Before(a, b)
    requires a.year > 0 || a.month > 1
    ensures Time(a) < Time(b)
  {
    SecondsIncrease(a, b);
    TimeIsSeconds(a);
    TimeIsSeconds(b);
  }

  /** The last day the code gets wrong, and the first it gets right. */
  predicate LeapDayOfYearZero(d: Date) {
    d.year == 0 && d.month == 1 && d.day == 29
  }

  predicate MarchFirstOfYearZero(d: Date) {
    d.year == 0 && d.month == 2 && d.day == 1
  }

  /** From the first of March of year 0 on at least a day has passed since the twenty-eighth of February. */
  lemma DaysSinceWinter(a: Date, b: Date)
    requires Accepted(a) && Accepted(b) && a.day >= 1 && b.day >= 1
    requires a.year == 0 && a.month <= 1 && (b.year > 0 || b.month > 1)
    ensures DayNumber(a) <= 59 <= DayNumber(b) - 1
    ensures DayNumber(a) == 59 <==> LeapDayOfYearZero(a)
    ensures DayNumber(b) == 60 <==> MarchFirstOfYearZero(b)
  {
    Unrolled(0, a.month);
    Unrolled(0, 2);
    if b.year > 0 {
      YearsGrow(1, b.year);
      MonthsGrow(b.year, 0, b.month);
      assert YearStart(1) == YearStart(0) + YearLength(0);
    } else {
      Unrolled(0, b.month);
    }
  }

  /** For every two accepted dates, the later one has the larger time, except exactly for a moment of
    * February 29 and one of March 1 of year 0 that are at most 10368 seconds apart. */
  lemma TimeIncreasesIff(a: Date, b: Date)
    requires Accepted(a) && Accepted(b) && a.day >= 1 && b.day >= 1 && Before(a, b)
    ensures Time(a) < Time(b) <==>
      !(LeapDayOfYearZero(a) && MarchFirstOfYearZero(b) && 86400 - TimeOfDay(a) + TimeOfDay(b) <= 10368)
  {
    if a.year > 0 || a.month > 1 {
      TimeIncreases(a, b);
    } else if b.year > 0 || b.month > 1 {
      YearZeroIsLate(a);
      TimeIsSeconds(b);
      DaysSinceWinter(a, b);
    } else {
      SecondsIncrease(a, b);
      YearZeroIsLate(a);
      YearZeroIsLate(b);
    }
  }

  /** The second before March 1 of year 0 comes out later than March 1. */
  lemma TimeCanDecrease()
    ensures var a, b := Date(0, 1, 29, 23, 59, 59), Date(0, 2, 1, 0, 0, 0);
      Accepted(a) && Accepted(b) && Before(a, b) && Time(b) < Time(a)
  {
    var a, b := Date(0, 1, 29, 23, 59, 59), Date(0, 2, 1, 0, 0, 0);
    YearZeroIsLate(a);
    TimeIsSeconds(b);
    DaysSinceWinter(a, b);
  }
}
