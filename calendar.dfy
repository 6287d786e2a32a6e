/**
  The proleptic Gregorian calendar as Python's `datetime` module uses it:
  years 1 to 9999, leap years every fourth year except centuries not
  divisible by 400, and day ordinals where 0001-01-01 is day 1.
  Subtracting two `datetime` values compares these ordinals.
 */
module Calendar {

  const MinYear := 1
  const MaxYear := 9999

  datatype Date = Date(year: int, month: int, day: int)

  predicate IsLeapYear(y: int) {
    y % 4 == 0 && (y % 100 != 0 || y % 400 == 0)
  }

  function DaysInYear(y: int): int {
    if IsLeapYear(y) then 366 else 365
  }

  function DaysInMonth(y: int, m: int): (n: int)
    requires 1 <= m <= 12
    ensures 28 <= n <= 31
    ensures n == 29 <==> m == 2 && IsLeapYear(y)
  {
    if m == 2 then (if IsLeapYear(y) then 29 else 28)
    else if m == 4 || m == 6 || m == 9 || m == 11 then 30
    else 31
  }

  /** A date `datetime.date` accepts: anything else raises `ValueError`. */
  predicate ValidDate(d: Date) {
    MinYear <= d.year <= MaxYear &&
    1 <= d.month <= 12 &&
    1 <= d.day <= DaysInMonth(d.year, d.month)
  }

  // Closed forms as in CPython's `_days_before_year`, `_days_before_month`
  // and `_ymd2ord`.

  function DaysBeforeYear(y: int): int {
    var p := y - 1;
    p * 365 + p / 4 - p / 100 + p / 400
  }

  function DaysBeforeMonth(y: int, m: int): int
    requires 1 <= m <= 12
  {
    [0, 31, 59, 90, 120, 151, 181, 212, 243, 273, 304, 334][m - 1]
    + (if m > 2 && IsLeapYear(y) then 1 else 0)
  }

  /** `date.toordinal()`: the number of the day, 0001-01-01 being day 1. */
  function Ordinal(d: Date): int
    requires ValidDate(d)
  {
    DaysBeforeYear(d.year) + DaysBeforeMonth(d.year, d.month) + d.day
  }

  // An independent reference count: whole years, then whole months, then days.

  function YearDaysBefore(y: int): int
    requires y >= MinYear
    decreases y
  {
    if y == MinYear then 0 else YearDaysBefore(y - 1) + DaysInYear(y - 1)
  }

  function MonthDaysBefore(y: int, m: int): int
    requires 1 <= m <= 12
    decreases m
  {
    if m == 1 then 0 else MonthDaysBefore(y, m - 1) + DaysInMonth(y, m - 1)
  }

  /** The day after `d` in the calendar. */
  function NextDay(d: Date): (n: Date)
    requires ValidDate(d)
    requires d.year < MaxYear || d.month < 12 || d.day < 31
    ensures ValidDate(n)
  {
    if d.day < DaysInMonth(d.year, d.month) then Date(d.year, d.month, d.day + 1)
    else if d.month < 12 then Date(d.year, d.month + 1, 1)
    else Date(d.year + 1, 1, 1)
  }

  /** Euclidean division is unique: a quotient and remainder in range are THE ones. */
  lemma DivModUnique(a: int, n: int, q: int, r: int)
    requires n > 0 && 0 <= r < n && a == n * q + r
    ensures a / n == q && a % n == r
  {
    var q', r' := a / n, a % n;
    assert a == n * q' + r' && 0 <= r' < n;
    var k := q' - q;
    assert n * q' == n * q + n * k;
    assert n * k == r - r';
    if k >= 1 {
      assert n * k == n + n * (k - 1);
      ProductNonNegative(n, k - 1);
    } else if k <= -1 {
      assert n * k == -n - n * (-k - 1);
      ProductNonNegative(n, -k - 1);
    }
  }

  lemma ProductNonNegative(a: nat, b: nat)
    ensures a * b >= 0
  {}

  /** Stepping the dividend by one moves the floor quotient exactly at multiples. */
  lemma DivStep(y: int, n: int)
    requires n > 0
    ensures y / n - (y - 1) / n == if y % n == 0 then 1 else 0
  {
    var q, r := (y - 1) / n, (y - 1) % n;
    assert y - 1 == n * q + r && 0 <= r < n;
    if r == n - 1 {
      DivModUnique(y, n, q + 1, 0);
    } else {
      DivModUnique(y, n, q, r + 1);
    }
  }

  lemma MultipleOfFactor(y: int, n: int, k: int)
    requires n > 0 && k > 0 && y % (n * k) == 0
    ensures y % n == 0
  {
    var q := y / (n * k);
    assert y == (n * k) * q;
    assert y == n * (k * q) + 0;
    DivModUnique(y, n, k * q, 0);
  }

  lemma {:induction false} DaysBeforeYearStep(y: int)
    ensures DaysBeforeYear(y + 1) == DaysBeforeYear(y) + DaysInYear(y)
  {
    DivStep(y, 4);
    DivStep(y, 100);
    DivStep(y, 400);
    if y % 400 == 0 { MultipleOfFactor(y, 100, 4); }
    if y % 100 == 0 { MultipleOfFactor(y, 4, 25); }
  }

  /** The closed-form year count agrees with adding up the years one by one. */
  lemma {:induction false} DaysBeforeYearCounts(y: int)
    requires y >= MinYear
    ensures DaysBeforeYear(y) == YearDaysBefore(y)
    decreases y
  {
    if y > MinYear {
      DaysBeforeYearCounts(y - 1);
      DaysBeforeYearStep(y - 1);
    }
  }

  /** The month table agrees with adding up the month lengths one by one. */
  lemma {:induction false} DaysBeforeMonthCounts(y: int, m: int)
    requires 1 <= m <= 12
    ensures DaysBeforeMonth(y, m) == MonthDaysBefore(y, m)
    decreases m
  {
    if m > 1 {
      DaysBeforeMonthCounts(y, m - 1);
    }
  }

  /**
    `Ordinal` counts days: it is the number of whole years before the date,
    plus the whole months before it in its year, plus its day of the month.
   */
  lemma OrdinalCountsDays(d: Date)
    requires ValidDate(d)
    ensures Ordinal(d) == YearDaysBefore(d.year) + MonthDaysBefore(d.year, d.month) + d.day
  {
    DaysBeforeYearCounts(d.year);
    DaysBeforeMonthCounts(d.year, d.month);
  }

  /** Adding up years, months and days, the day after `d` counts one more. */
  lemma CountNextDay(d: Date)
    requires ValidDate(d)
    requires d.year < MaxYear || d.month < 12 || d.day < 31
    ensures YearDaysBefore(NextDay(d).year) + MonthDaysBefore(NextDay(d).year, NextDay(d).month) + NextDay(d).day
         == YearDaysBefore(d.year) + MonthDaysBefore(d.year, d.month) + d.day + 1
  {
    if d.day == DaysInMonth(d.year, d.month) && d.month == 12 {
      assert MonthDaysBefore(d.year, 12) + 31 == DaysInYear(d.year) by {
        DaysBeforeMonthCounts(d.year, 12);
      }
    }
  }

  /** The first day of the calendar is day 1. */
  lemma OrdinalFirstDay()
    ensures Ordinal(Date(MinYear, 1, 1)) == 1
  {
    assert DaysBeforeYear(MinYear) == 0;
  }

  /** Consecutive dates have consecutive ordinals. */
  lemma OrdinalNextDay(d: Date)
    requires ValidDate(d)
    requires d.year < MaxYear || d.month < 12 || d.day < 31
    ensures Ordinal(NextDay(d)) == Ordinal(d) + 1
  {
    OrdinalCountsDays(d);
    OrdinalCountsDays(NextDay(d));
    CountNextDay(d);
  }
}
