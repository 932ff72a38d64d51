/**
 * The part of Python's `datetime` the run-date logic depends on: which
 * (year, month, day) triples `datetime(...)` accepts, and the proleptic
 * Gregorian day number (`date.toordinal()`) through which dates are
 * compared and shifted by whole days.
 */
module Calendar {

  /** `datetime.MINYEAR` and `datetime.MAXYEAR`. */
  const MinYear := 1
  const MaxYear := 9999

  /** The day number of 9999-12-31, the last date Python represents. */
  const MaxOrdinal := 3652059

  datatype Date = Date(year: int, month: int, day: int)

  predicate IsLeap(y: int)
  {
    y % 4 == 0 && (y % 100 != 0 || y % 400 == 0)
  }

  function DaysInMonth(y: int, m: int): (n: int)
    requires 1 <= m <= 12
    ensures 28 <= n <= 31
  {
    if m == 2 then (if IsLeap(y) then 29 else 28)
    else if m == 4 || m == 6 || m == 9 || m == 11 then 30
    else 31
  }

  function DaysInYear(y: int): int
  {
    if IsLeap(y) then 366 else 365
  }

  /** The triples `datetime(year, month, day)` accepts; any other raises ValueError. */
  predicate ValidDate(d: Date)
  {
    MinYear <= d.year <= MaxYear && 1 <= d.month <= 12 && 1 <= d.day <= DaysInMonth(d.year, d.month)
  }

  /** A date `datetime` can hold. */
  type CalendarDate = d: Date | ValidDate(d) witness Date(1, 1, 1)

  /** Days in the years before `y`, counted from 0001-01-01. */
  function DaysBeforeYear(y: int): int
    requires y >= 1
  {
    var p := y - 1;
    p * 365 + p / 4 - p / 100 + p / 400
  }

  /** Days in the months of `y` before month `m`. */
  function DaysBeforeMonth(y: int, m: int): int
    requires 1 <= m <= 13
    decreases m
  {
    if m == 1 then 0 else DaysBeforeMonth(y, m - 1) + DaysInMonth(y, m - 1)
  }

  /** `date.toordinal()`: 0001-01-01 is day 1. */
  function Ordinal(d: Date): int
    requires ValidDate(d)
  {
    DaysBeforeYear(d.year) + DaysBeforeMonth(d.year, d.month) + d.day
  }

  /** Calendar order: earlier year, or same year and earlier month, or same month and earlier day. */
  predicate Before(a: Date, b: Date)
  {
    a.year < b.year || (a.year == b.year && (a.month < b.month || (a.month == b.month && a.day < b.day)))
  }

  // ---------------------------------------------------------------------
  // Facts about the day number

  lemma {:induction false} MonthsFillYear(y: int, m: int)
    requires 1 <= m <= 13
    ensures 0 <= DaysBeforeMonth(y, m) && DaysBeforeMonth(y, m) + (if m == 13 then 0 else 1) <= DaysBeforeMonth(y, 13)
    ensures DaysBeforeMonth(y, 13) == DaysInYear(y)
    decreases 13 - m
  {
    if m < 13 {
      MonthsFillYear(y, m + 1);
    } else {
      assert DaysBeforeMonth(y, 13) == DaysBeforeMonth(y, 12) + 31;
      assert DaysBeforeMonth(y, 3) == 31 + DaysInMonth(y, 2);
    }
  }

  lemma {:induction false} MonthsIncrease(y: int, m: int, m': int)
    requires 1 <= m < m' <= 13
    ensures DaysBeforeMonth(y, m) + DaysInMonth(y, m) <= DaysBeforeMonth(y, m')
    decreases m'
  {
    if m + 1 < m' {
      MonthsIncrease(y, m, m' - 1);
    }
  }

  lemma MulMonotone(k: int, a: int, b: int)
    requires k >= 0 && a <= b
    ensures k * a <= k * b
  {
    assert k * b - k * a == k * (b - a);
  }

  /** Quotient and remainder are the only ones: `n == k * q + r` with `0 <= r < k` fixes both. */
  lemma DivModUnique(n: int, k: int, q: int, r: int)
    requires k >= 1 && 0 <= r < k && n == k * q + r
    ensures n / k == q && n % k == r
  {
    var q0, r0 := n / k, n % k;
    assert n == k * q0 + r0 && 0 <= r0 < k;
    if q0 > q {
      MulMonotone(k, q + 1, q0);
    } else if q0 < q {
      MulMonotone(k, q0 + 1, q);
    }
  }

  /** For a positive divisor, stepping from y - 1 to y adds 1 to y / k exactly when k divides y. */
  lemma DivStep(y: int, k: int)
    requires y >= 1 && k >= 1
    ensures y / k - (y - 1) / k == if y % k == 0 then 1 else 0
  {
    var q, r := y / k, y % k;
    assert y == k * q + r && 0 <= r < k;
    if r == 0 {
      assert y - 1 == k * (q - 1) + (k - 1);
      DivModUnique(y - 1, k, q - 1, k - 1);
    } else {
      DivModUnique(y - 1, k, q, r - 1);
    }
  }

  lemma YearStep(y: int)
    requires y >= 1
    ensures DaysBeforeYear(y + 1) == DaysBeforeYear(y) + DaysInYear(y)
  {
    DivStep(y, 4);
    DivStep(y, 100);
    DivStep(y, 400);
    if y % 100 == 0 {
      var c := y / 100;
      assert y == 100 * c;
      DivModUnique(y, 4, 25 * c, 0);
    }
    if y % 400 == 0 {
      var c := y / 400;
      assert y == 400 * c;
      DivModUnique(y, 100, 4 * c, 0);
    }
    var p := y - 1;
    assert DaysBeforeYear(y + 1) - DaysBeforeYear(y) == 365 + (y / 4 - p / 4) - (y / 100 - p / 100) + (y / 400 - p / 400);
  }

  lemma {:induction false} YearsIncrease(y: int, y': int)
    requires 1 <= y < y'
    ensures DaysBeforeYear(y) + DaysInYear(y) <= DaysBeforeYear(y')
    decreases y' - y
  {
    YearStep(y);
    if y + 1 < y' {
      YearsIncrease(y + 1, y');
      YearStep(y + 1);
    }
  }

  /** Every valid date of a year falls inside that year's block of day numbers. */
  lemma WithinYear(d: Date)
    requires ValidDate(d)
    ensures DaysBeforeYear(d.year) < Ordinal(d) <= DaysBeforeYear(d.year) + DaysInYear(d.year)
  {
    MonthsFillYear(d.year, d.month);
    if d.month < 12 {
      MonthsIncrease(d.year, d.month, 13);
    }
  }

  /**
   * The day number orders dates as the calendar does, and tells dates
   * apart: comparing `datetime`s of valid dates is comparing day numbers.
   */
  lemma OrdinalOrder(a: Date, b: Date)
    requires ValidDate(a) && ValidDate(b)
    ensures Before(a, b) <==> Ordinal(a) < Ordinal(b)
    ensures a == b <==> Ordinal(a) == Ordinal(b)
  {
    WithinYear(a);
    WithinYear(b);
    if a.year < b.year {
      YearsIncrease(a.year, b.year);
    } else if b.year < a.year {
      YearsIncrease(b.year, a.year);
    } else if a.month < b.month {
      MonthsIncrease(a.year, a.month, b.month);
    } else if b.month < a.month {
      MonthsIncrease(a.year, b.month, a.month);
    }
  }

  /** Every valid date has a day number between 1 and that of 9999-12-31. */
  lemma OrdinalRange(d: Date)
    requires ValidDate(d)
    ensures 1 <= Ordinal(d) <= MaxOrdinal
  {
    var last := Date(MaxYear, 12, 31);
    assert DaysBeforeYear(MaxYear) == 3651694;
    WithinYear(d);
    if d != last {
      OrdinalOrder(d, last);
      WithinYear(last);
      MonthsFillYear(MaxYear, 12);
      assert DaysBeforeMonth(MaxYear, 12) == 334;
    }
    assert DaysBeforeYear(d.year) >= 0;
  }
}
