/**
  Dates as applications/web/src/utils/ics.ts reads and writes them.  `Date` is replaced by
  proleptic Gregorian day numbers: `DayNumber` counts the days since 1 January of year 0, and an
  instant is a number of milliseconds since the start of 1970 in UTC.
*/
module IcsDates {
  import opened Wrappers

  // ---------------------------------------------------------------------------------------
  // Months and days within a year
  // ---------------------------------------------------------------------------------------

  function MonthLength(leap: bool, m: int): int {
    if m == 2 then (if leap then 29 else 28)
    else if m == 4 || m == 6 || m == 9 || m == 11 then 30
    else 31
  }

  /** Days before the first of month m. */
  function MonthStart(leap: bool, m: int): int
    requires 1 <= m <= 13
    decreases m
  {
    if m == 1 then 0 else MonthStart(leap, m - 1) + MonthLength(leap, m - 1)
  }

  function YearLength(leap: bool): int {
    if leap then 366 else 365
  }

  lemma TwelveMonths(leap: bool)
    ensures MonthStart(leap, 13) == YearLength(leap)
  {
    assert MonthStart(leap, 2) == 31;
    assert MonthStart(leap, 4) == MonthStart(leap, 2) + MonthLength(leap, 2) + 31;
    assert MonthStart(leap, 6) == MonthStart(leap, 4) + 61;
    assert MonthStart(leap, 8) == MonthStart(leap, 6) + 61;
    assert MonthStart(leap, 10) == MonthStart(leap, 8) + 61;
    assert MonthStart(leap, 12) == MonthStart(leap, 10) + 61;
  }

  /** The days before each month, and with them the length of every month. */
  lemma MonthStartTable(leap: bool)
    ensures var february := if leap then 29 else 28;
            && MonthStart(leap, 1) == 0 && MonthStart(leap, 2) == 31 && MonthStart(leap, 3) == 31 + february
            && MonthStart(leap, 4) == 62 + february && MonthStart(leap, 5) == 92 + february
            && MonthStart(leap, 6) == 123 + february && MonthStart(leap, 7) == 153 + february
            && MonthStart(leap, 8) == 184 + february && MonthStart(leap, 9) == 215 + february
            && MonthStart(leap, 10) == 245 + february && MonthStart(leap, 11) == 276 + february
            && MonthStart(leap, 12) == 306 + february && MonthStart(leap, 13) == 337 + february
  {
    assert MonthStart(leap, 3) == MonthStart(leap, 2) + MonthLength(leap, 2);
    assert MonthStart(leap, 5) == MonthStart(leap, 4) + 30;
    assert MonthStart(leap, 7) == MonthStart(leap, 6) + 30;
    assert MonthStart(leap, 9) == MonthStart(leap, 8) + 31;
    assert MonthStart(leap, 11) == MonthStart(leap, 10) + 31;
  }

  lemma {:induction false} MonthsAreOrdered(leap: bool, a: int, b: int)
    requires 1 <= a < b <= 13
    ensures MonthStart(leap, a) + MonthLength(leap, a) <= MonthStart(leap, b)
    decreases b - a
  {
    if a + 1 < b {
      MonthsAreOrdered(leap, a + 1, b);
    }
  }

  predicate IsMonthDay(leap: bool, m: int, d: int) {
    1 <= m <= 12 && 1 <= d <= MonthLength(leap, m)
  }

  function DayInYear(leap: bool, m: int, d: int): int
    requires 1 <= m <= 12
  {
    MonthStart(leap, m) + d - 1
  }

  lemma DayInYearBounds(leap: bool, m: int, d: int)
    requires IsMonthDay(leap, m, d)
    ensures 0 <= DayInYear(leap, m, d) < YearLength(leap)
  {
    TwelveMonths(leap);
    MonthsAreOrdered(leap, m, 13);
    if m > 1 {
      MonthsAreOrdered(leap, 1, m);
    }
  }

  lemma SameDayInYear(leap: bool, m: int, d: int, m': int, d': int)
    requires IsMonthDay(leap, m, d) && IsMonthDay(leap, m', d') && DayInYear(leap, m, d) == DayInYear(leap, m', d')
    ensures m == m' && d == d'
  {
    if m < m' {
      MonthsAreOrdered(leap, m, m');
    } else if m' < m {
      MonthsAreOrdered(leap, m', m);
    }
  }

  function MonthFrom(leap: bool, n: int, m: int): (r: int)
    requires 1 <= m <= 12 && MonthStart(leap, m) <= n < MonthStart(leap, 13)
    ensures m <= r <= 12 && MonthStart(leap, r) <= n < MonthStart(leap, r + 1)
    decreases 12 - m
  {
    if n < MonthStart(leap, m + 1) then m else MonthFrom(leap, n, m + 1)
  }

  // ---------------------------------------------------------------------------------------
  // Years
  // ---------------------------------------------------------------------------------------

  predicate IsLeap(y: int) {
    y % 4 == 0 && (y % 100 != 0 || y % 400 == 0)
  }

  const DAYS_IN_ERA: int := 146097

  /** Days before 1 January of year y; the calendar repeats every 400 years. */
  function YearStart(y: int): int
    decreases if y < 0 then 400 - y else y
  {
    if y < 0 then YearStart(y + 400) - DAYS_IN_ERA
    else if y == 0 then 0
    else YearStart(y - 1) + YearLength(IsLeap(y - 1))
  }

  lemma QuarterStep(k: nat)
    ensures (k + 4) / 4 - (k + 3) / 4 == if k % 4 == 0 then 1 else 0
  {
  }

  lemma CenturyStep(k: nat)
    ensures (k + 100) / 100 - (k + 99) / 100 == if k % 100 == 0 then 1 else 0
  {
  }

  lemma EraStep(k: nat)
    ensures (k + 400) / 400 - (k + 399) / 400 == if k % 400 == 0 then 1 else 0
  {
  }

  lemma HundredIsMultipleOfFour(k: nat)
    ensures k % 100 == 0 ==> k % 4 == 0
    ensures k % 400 == 0 ==> k % 100 == 0
  {
    if k % 100 == 0 {
      assert k == 4 * (25 * (k / 100));
    }
    if k % 400 == 0 {
      assert k == 100 * (4 * (k / 400));
    }
  }

  lemma LeapDays(k: nat)
    ensures YearLength(IsLeap(k))
            == 365 + (if k % 4 == 0 then 1 else 0) - (if k % 100 == 0 then 1 else 0) + (if k % 400 == 0 then 1 else 0)
  {
    HundredIsMultipleOfFour(k);
  }

  /** The usual closed form: a leap day every 4 years, but not every 100, but every 400. */
  lemma {:induction false} YearStartClosedForm(y: nat)
    ensures YearStart(y) == 365 * y + (y + 3) / 4 - (y + 99) / 100 + (y + 399) / 400
  {
    if y > 0 {
      YearStartClosedForm(y - 1);
      LeapDays(y - 1);
      QuarterStep(y - 1);
      CenturyStep(y - 1);
      EraStep(y - 1);
    }
  }

  lemma QuarterRepeats(y: int)
    ensures (y + 400) % 4 == y % 4
  {
  }

  lemma CenturyRepeats(y: int)
    ensures (y + 400) % 100 == y % 100
  {
  }

  lemma LeapRepeats(y: int)
    ensures IsLeap(y + 400) <==> IsLeap(y)
  {
    QuarterRepeats(y);
    CenturyRepeats(y);
    assert (y + 400) % 400 == y % 400;
  }

  lemma {:induction false} EraLength(y: int)
    ensures YearStart(y + 400) == YearStart(y) + DAYS_IN_ERA
    decreases if y < 0 then 0 else y
  {
    if y == 0 {
      YearStartClosedForm(400);
    } else if y > 0 {
      EraLength(y - 1);
      LeapRepeats(y - 1);
    }
  }

  lemma {:induction false} NextYear(y: int)
    ensures YearStart(y + 1) == YearStart(y) + YearLength(IsLeap(y))
    decreases if y < 0 then -y else 0
  {
    if y < 0 {
      EraLength(y);
      EraLength(y + 1);
      LeapRepeats(y);
      NextYear(y + 400);
    }
  }

  /** The year of day n, searched upwards from year y. */
  function YearFrom(n: int, y: int): (r: int)
    requires YearStart(y) <= n
    ensures YearStart(r) <= n < YearStart(r + 1)
    decreases n - YearStart(y)
  {
    NextYear(y);
    if n < YearStart(y + 1) then y else YearFrom(n, y + 1)
  }

  function YearOf(n: int): (r: int)
    ensures YearStart(r) <= n < YearStart(r + 1)
    decreases if n < 0 then -n else 0
  {
    if n < 0 then
      var r := YearOf(n + DAYS_IN_ERA) - 400;
      EraLength(r);
      EraLength(r + 1);
      r
    else YearFrom(n, 0)
  }

  lemma {:induction false} YearsAreOrdered(a: int, b: int)
    requires a < b
    ensures YearStart(a + 1) <= YearStart(b)
    decreases b - a
  {
    if a + 1 < b {
      YearsAreOrdered(a + 1, b);
      NextYear(a + 1);
    }
  }

  lemma SameYear(y: int, x: int, y': int, x': int)
    requires YearStart(y) + x == YearStart(y') + x'
    requires 0 <= x < YearLength(IsLeap(y)) && 0 <= x' < YearLength(IsLeap(y'))
    ensures y == y'
  {
    NextYear(y);
    NextYear(y');
    if y < y' {
      YearsAreOrdered(y, y');
    } else if y' < y {
      YearsAreOrdered(y', y);
    }
  }

  // ---------------------------------------------------------------------------------------
  // Dates
  // ---------------------------------------------------------------------------------------

  datatype Date = Date(year: int, month: int, day: int)

  predicate IsDate(d: Date) {
    IsMonthDay(IsLeap(d.year), d.month, d.day)
  }

  function DayNumber(d: Date): int
    requires IsDate(d)
  {
    YearStart(d.year) + DayInYear(IsLeap(d.year), d.month, d.day)
  }

  /** The date of day n; the inverse of `DayNumber`. */
  function DateOf(n: int): (d: Date)
    ensures IsDate(d) && DayNumber(d) == n
  {
    var y := YearOf(n);
    NextYear(y);
    TwelveMonths(IsLeap(y));
    var rest := n - YearStart(y);
    var m := MonthFrom(IsLeap(y), rest, 1);
    Date(y, m, rest - MonthStart(IsLeap(y), m) + 1)
  }

  /** Day numbers name dates one to one. */
  lemma SameDayNumber(d: Date, e: Date)
    requires IsDate(d) && IsDate(e) && DayNumber(d) == DayNumber(e)
    ensures d == e
  {
    var (leap, leap') := (IsLeap(d.year), IsLeap(e.year));
    DayInYearBounds(leap, d.month, d.day);
    DayInYearBounds(leap', e.month, e.day);
    SameYear(d.year, DayInYear(leap, d.month, d.day), e.year, DayInYear(leap', e.month, e.day));
    SameDayInYear(leap, d.month, d.day, e.month, e.day);
  }

  lemma DateOfDayNumber(d: Date)
    requires IsDate(d)
    ensures DateOf(DayNumber(d)) == d
  {
    SameDayNumber(d, DateOf(DayNumber(d)));
  }

  /** The day after, by the rules of the calendar. */
  function NextDay(d: Date): Date {
    if d.day < MonthLength(IsLeap(d.year), d.month) then Date(d.year, d.month, d.day + 1)
    else if d.month < 12 then Date(d.year, d.month + 1, 1)
    else Date(d.year + 1, 1, 1)
  }

  lemma NextDayInYear(leap: bool, m: int, d: int)
    requires IsMonthDay(leap, m, d)
    ensures if d < MonthLength(leap, m) then DayInYear(leap, m, d + 1) == DayInYear(leap, m, d) + 1
            else if m < 12 then DayInYear(leap, m + 1, 1) == DayInYear(leap, m, d) + 1
            else DayInYear(leap, m, d) + 1 == YearLength(leap)
  {
    TwelveMonths(leap);
  }

  lemma NextDayNumber(d: Date)
    requires IsDate(d)
    ensures IsDate(NextDay(d)) && DayNumber(NextDay(d)) == DayNumber(d) + 1
  {
    NextDayInYear(IsLeap(d.year), d.month, d.day);
    if NextDay(d).year != d.year {
      NextYear(d.year);
      assert DayInYear(IsLeap(d.year + 1), 1, 1) == 0;
    }
  }

  /** Moving a date by one day is moving its number by one. */
  lemma ShiftByOneDay(d: Date)
    requires IsDate(d)
    ensures DateOf(DayNumber(d) + 1) == NextDay(d) && IsDate(NextDay(d)) && DateOf(DayNumber(NextDay(d)) - 1) == d
  {
    NextDayNumber(d);
    DateOfDayNumber(NextDay(d));
    DateOfDayNumber(d);
  }
}
