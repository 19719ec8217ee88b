/**
 * The proleptic Gregorian calendar that Go's time package uses, from year 1:
 * a day count since 0001-01-01 and the civil date it names, in both
 * directions.
 */
module Calendar {

  predicate IsLeap(y: int) {
    y % 4 == 0 && (y % 100 != 0 || y % 400 == 0)
  }

  function DaysInYear(y: int): nat {
    if IsLeap(y) then 366 else 365
  }

  function DaysInMonth(y: int, m: int): nat
    requires 1 <= m <= 12
  {
    if m == 2 then (if IsLeap(y) then 29 else 28)
    else if m == 4 || m == 6 || m == 9 || m == 11 then 30
    else 31
  }

  /** Days in the months of year y before month m. */
  function DaysBeforeMonth(y: int, m: int): nat
    requires 1 <= m <= 12
  {
    [0, 31, 59, 90, 120, 151, 181, 212, 243, 273, 304, 334][m - 1]
      + (if m > 2 && IsLeap(y) then 1 else 0)
  }

  /** Days from 0001-01-01 to the first day of year y. */
  function DaysBeforeYear(y: int): nat
    requires y >= 1
  {
    365 * (y - 1) + (y - 1) / 4 - (y - 1) / 100 + (y - 1) / 400
  }

  lemma DaysBeforeYearStep(y: int)
    requires y >= 1
    ensures DaysBeforeYear(y + 1) == DaysBeforeYear(y) + DaysInYear(y)
  {
    Step4(y);
    Step100(y);
    Step400(y);
    LeapDivisors(y);
  }

  lemma LeapDivisors(y: int)
    ensures y % 400 == 0 ==> y % 100 == 0
    ensures y % 100 == 0 ==> y % 4 == 0
  {
  }

  /** Going from year y - 1 to y adds one multiple of 4 (of 100, of 400) exactly when it divides y. */
  lemma Step4(y: int)
    requires y >= 1
    ensures y / 4 - (y - 1) / 4 == (if y % 4 == 0 then 1 else 0)
  {
  }

  lemma Step100(y: int)
    requires y >= 1
    ensures y / 100 - (y - 1) / 100 == (if y % 100 == 0 then 1 else 0)
  {
  }

  lemma Step400(y: int)
    requires y >= 1
    ensures y / 400 - (y - 1) / 400 == (if y % 400 == 0 then 1 else 0)
  {
  }

  lemma {:induction false} DaysBeforeYearMonotone(a: int, b: int)
    requires 1 <= a <= b
    ensures DaysBeforeYear(a) + (if a < b then DaysInYear(a) else 0) <= DaysBeforeYear(b)
    decreases b - a
  {
    if a < b {
      DaysBeforeYearStep(a);
      DaysBeforeYearMonotone(a + 1, b);
    }
  }

  lemma DaysBeforeMonthStep(y: int, m: int)
    requires 1 <= m <= 12
    ensures DaysBeforeMonth(y, m) + DaysInMonth(y, m)
            == if m < 12 then DaysBeforeMonth(y, m + 1) else DaysInYear(y)
  {
  }

  lemma {:induction false} DaysBeforeMonthMonotone(y: int, a: int, b: int)
    requires 1 <= a <= b <= 12
    ensures DaysBeforeMonth(y, a) + (if a < b then DaysInMonth(y, a) else 0) <= DaysBeforeMonth(y, b)
    decreases b - a
  {
    if a < b {
      DaysBeforeMonthStep(y, a);
      DaysBeforeMonthMonotone(y, a + 1, b);
    }
  }

  /** The year that holds day `days` counted from the start of year y, and the day within it. */
  function YearOf(days: nat, y: int): (r: (int, nat))
    requires y >= 1
    ensures r.0 >= y && r.1 < DaysInYear(r.0)
    ensures DaysBeforeYear(r.0) + r.1 == DaysBeforeYear(y) + days
    decreases days
  {
    DaysBeforeYearStep(y);
    if days < DaysInYear(y) then (y, days) else YearOf(days - DaysInYear(y), y + 1)
  }

  /** The month that holds day `doy` of year y, counted from the start of month m, and the day within it. */
  function MonthOf(doy: nat, y: int, m: int): (r: (int, nat))
    requires 1 <= m <= 12
    requires DaysBeforeMonth(y, m) + doy < DaysInYear(y)
    ensures m <= r.0 <= 12 && r.1 < DaysInMonth(y, r.0)
    ensures DaysBeforeMonth(y, r.0) + r.1 == DaysBeforeMonth(y, m) + doy
    decreases 12 - m
  {
    DaysBeforeMonthStep(y, m);
    if m == 12 || doy < DaysInMonth(y, m) then (m, doy)
    else MonthOf(doy - DaysInMonth(y, m), y, m + 1)
  }

  datatype Date = Date(year: int, month: int, day: int)

  predicate ValidDate(d: Date) {
    d.year >= 1 && 1 <= d.month <= 12 && 1 <= d.day <= DaysInMonth(d.year, d.month)
  }

  /** Days from 0001-01-01 to the date. */
  function DaysOf(d: Date): (n: nat)
    requires ValidDate(d)
    ensures DaysBeforeYear(d.year) <= n < DaysBeforeYear(d.year) + DaysInYear(d.year)
  {
    DaysBeforeMonthMonotone(d.year, d.month, 12);
    DaysBeforeMonthStep(d.year, 12);
    DaysBeforeYear(d.year) + DaysBeforeMonth(d.year, d.month) + d.day - 1
  }

  /** The civil date `days` days after 0001-01-01. */
  function DateOf(days: nat): (d: Date)
    ensures ValidDate(d) && DaysOf(d) == days
  {
    var (y, doy) := YearOf(days, 1);
    DaysBeforeMonthStep(y, 12);
    var (m, dom) := MonthOf(doy, y, 1);
    Date(y, m, dom + 1)
  }

  lemma {:induction false} YearOfInverse(y: int, y0: int, doy: nat)
    requires 1 <= y0 <= y && doy < DaysInYear(y)
    ensures DaysBeforeYear(y0) <= DaysBeforeYear(y)
    ensures YearOf(DaysBeforeYear(y) - DaysBeforeYear(y0) + doy, y0) == (y, doy)
    decreases y - y0
  {
    DaysBeforeYearMonotone(y0, y);
    if y0 < y {
      DaysBeforeYearStep(y0);
      YearOfInverse(y, y0 + 1, doy);
    }
  }

  lemma {:induction false} MonthOfInverse(y: int, m: int, m0: int, dom: nat)
    requires 1 <= m0 <= m <= 12 && dom < DaysInMonth(y, m)
    ensures DaysBeforeMonth(y, m0) <= DaysBeforeMonth(y, m)
    ensures DaysBeforeMonth(y, m) + dom < DaysInYear(y)
    ensures MonthOf(DaysBeforeMonth(y, m) - DaysBeforeMonth(y, m0) + dom, y, m0) == (m, dom)
    decreases m - m0
  {
    DaysBeforeMonthMonotone(y, m0, m);
    DaysBeforeMonthMonotone(y, m, 12);
    DaysBeforeMonthStep(y, 12);
    DaysBeforeMonthStep(y, m);
    if m0 < m {
      DaysBeforeMonthStep(y, m0);
      MonthOfInverse(y, m, m0 + 1, dom);
    }
  }

  /** Counting the days of a date and naming the day again gives the date back. */
  lemma DateOfDaysOf(d: Date)
    requires ValidDate(d)
    ensures DateOf(DaysOf(d)) == d
  {
    var doy := DaysBeforeMonth(d.year, d.month) + d.day - 1;
    MonthOfInverse(d.year, d.month, 1, d.day - 1);
    assert DaysBeforeMonth(d.year, 1) == 0 && DaysBeforeYear(1) == 0;
    assert MonthOf(doy, d.year, 1) == (d.month, d.day - 1);
    YearOfInverse(d.year, 1, doy);
    assert YearOf(DaysOf(d), 1) == (d.year, doy);
  }
}
