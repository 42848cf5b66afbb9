/**
  The order of dates.  applications/web/src/utils/ics.ts compares all-day dates as strings; here
  that order is shown to be the order of the days they name.
*/
module IcsDateOrder {
  import opened IcsDates
  import opened IcsDateText

  /** JavaScript's a < b on strings. */
  predicate Less(a: string, b: string) {
    b != "" && (a == "" || a[0] < b[0] || (a[0] == b[0] && Less(a[1..], b[1..])))
  }

  /** Equally long prefixes decide unless they are the same. */
  lemma {:induction false} LessByPrefix(a: string, b: string, c: string, d: string)
    requires |a| == |b|
    ensures Less(a + c, b + d) <==> Less(a, b) || (a == b && Less(c, d))
  {
    if a == "" {
      assert a + c == c && b + d == d;
    } else {
      assert (a + c)[1..] == a[1..] + c && (b + d)[1..] == b[1..] + d;
      LessByPrefix(a[1..], b[1..], c, d);
      assert a == [a[0]] + a[1..] && b == [b[0]] + b[1..];
    }
  }

  lemma SameDigits(n: nat, m: nat, width: nat)
    requires n < Power(width) && m < Power(width)
    ensures Pad(n, width) == Pad(m, width) <==> n == m
  {
    NumberOfPad(n, width);
    NumberOfPad(m, width);
  }

  /** Numbers of the same width are ordered as their digits are. */
  lemma {:induction false} LessPad(n: nat, m: nat, width: nat)
    requires n < Power(width) && m < Power(width)
    ensures Less(Pad(n, width), Pad(m, width)) <==> n < m
    decreases width
  {
    if width > 0 {
      var (x, y) := ([Digit(n % 10)], [Digit(m % 10)]);
      LessPad(n / 10, m / 10, width - 1);
      SameDigits(n / 10, m / 10, width - 1);
      LessByPrefix(Pad(n / 10, width - 1), Pad(m / 10, width - 1), x, y);
      assert x[1..] == "" && y[1..] == "";
      assert Less(x, y) <==> n % 10 < m % 10;
    }
  }

  predicate Earlier(d: Date, e: Date) {
    d.year < e.year || (d.year == e.year && (d.month < e.month || (d.month == e.month && d.day < e.day)))
  }

  lemma LessField(n: nat, m: nat, width: nat, c: string, d: string)
    requires n < Power(width) && m < Power(width)
    ensures Less(Pad(n, width) + c, Pad(m, width) + d) <==> n < m || (n == m && Less(c, d))
  {
    LessByPrefix(Pad(n, width), Pad(m, width), c, d);
    LessPad(n, m, width);
    SameDigits(n, m, width);
  }

  lemma LessAfterDash(c: string, d: string)
    ensures Less("-" + c, "-" + d) <==> Less(c, d)
  {
    assert ("-" + c)[1..] == c && ("-" + d)[1..] == d;
  }

  lemma TextOrder(d: Date, e: Date)
    requires IsDate(d) && IsDate(e) && 0 <= d.year <= 9999 && 0 <= e.year <= 9999
    ensures Less(IsoDate(d), IsoDate(e)) <==> Earlier(d, e)
  {
    assert Power(2) == 100;
    assert Power(4) == 10000;
    var (day, day') := (Pad(d.day, 2), Pad(e.day, 2));
    var (month, month') := (Pad(d.month, 2) + ("-" + day), Pad(e.month, 2) + ("-" + day'));
    LessPad(d.day, e.day, 2);
    LessAfterDash(day, day');
    LessField(d.month, e.month, 2, "-" + day, "-" + day');
    LessAfterDash(month, month');
    LessField(d.year, e.year, 4, "-" + month, "-" + month');
  }

  lemma EarlierIsSmaller(d: Date, e: Date)
    requires IsDate(d) && IsDate(e) && Earlier(d, e)
    ensures DayNumber(d) < DayNumber(e)
  {
    DayInYearBounds(IsLeap(d.year), d.month, d.day);
    DayInYearBounds(IsLeap(e.year), e.month, e.day);
    if d.year < e.year {
      NextYear(d.year);
      YearsAreOrdered(d.year, e.year);
    } else if d.month < e.month {
      MonthsAreOrdered(IsLeap(d.year), d.month, e.month);
    }
  }

  /** Two written dates compare as strings exactly as their days do. */
  lemma DateTextOrder(d: Date, e: Date)
    requires IsDate(d) && IsDate(e) && 0 <= d.year <= 9999 && 0 <= e.year <= 9999
    ensures Less(IsoDate(d), IsoDate(e)) <==> DayNumber(d) < DayNumber(e)
  {
    TextOrder(d, e);
    if Earlier(d, e) {
      EarlierIsSmaller(d, e);
    } else if Earlier(e, d) {
      EarlierIsSmaller(e, d);
    }
  }
}
