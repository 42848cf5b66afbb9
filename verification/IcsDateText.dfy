/**
  How applications/web/src/utils/ics.ts writes dates into ICS values and reads them back.
*/
module IcsDateText {
  import opened Wrappers
  import opened IcsDates

  // ---------------------------------------------------------------------------------------
  // Decimal numbers
  // ---------------------------------------------------------------------------------------

  predicate IsDigit(c: char) {
    '0' <= c <= '9'
  }

  predicate AllDigits(s: string) {
    forall i :: 0 <= i < |s| ==> IsDigit(s[i])
  }

  predicate DigitsIn(s: string, from: nat, to: nat)
    requires to <= |s|
  {
    forall i :: from <= i < to ==> IsDigit(s[i])
  }

  function Digit(d: int): (c: char)
    requires 0 <= d <= 9
    ensures IsDigit(c) && c as int - '0' as int == d
  {
    ('0' as int + d) as char
  }

  /** The last `width` decimal digits of n. */
  function Pad(n: nat, width: nat): (s: string)
    ensures |s| == width && AllDigits(s)
    decreases width
  {
    if width == 0 then "" else Pad(n / 10, width - 1) + [Digit(n % 10)]
  }

  function Number(s: string): nat
    requires AllDigits(s)
  {
    if s == "" then 0 else 10 * Number(s[..|s| - 1]) + (s[|s| - 1] as int - '0' as int)
  }

  function Power(width: nat): nat {
    if width == 0 then 1 else 10 * Power(width - 1)
  }

  lemma {:induction false} NumberOfPad(n: nat, width: nat)
    requires n < Power(width)
    ensures Number(Pad(n, width)) == n
    decreases width
  {
    if width > 0 {
      NumberOfPad(n / 10, width - 1);
      assert Pad(n, width)[..width - 1] == Pad(n / 10, width - 1);
    }
  }

  lemma TwoDigits(n: nat)
    requires n < 100
    ensures Number(Pad(n, 2)) == n
  {
    assert Power(2) == 100;
    NumberOfPad(n, 2);
  }

  lemma FourDigits(n: nat)
    requires n < 10000
    ensures Number(Pad(n, 4)) == n
  {
    assert Power(2) == 100;
    assert Power(4) == 10000;
    NumberOfPad(n, 4);
  }

  // ---------------------------------------------------------------------------------------
  // Removing characters
  // ---------------------------------------------------------------------------------------

  function Without(s: string, dropped: set<char>): string {
    if s == "" then "" else (if s[0] in dropped then "" else [s[0]]) + Without(s[1..], dropped)
  }

  lemma {:induction false} WithoutAppend(a: string, b: string, dropped: set<char>)
    ensures Without(a + b, dropped) == Without(a, dropped) + Without(b, dropped)
  {
    if a == "" {
      assert a + b == b && Without(a, dropped) + Without(b, dropped) == Without(b, dropped);
    } else {
      assert (a + b)[1..] == a[1..] + b;
      WithoutAppend(a[1..], b, dropped);
    }
  }

  lemma {:induction false} WithoutNone(s: string, dropped: set<char>)
    requires forall i :: 0 <= i < |s| ==> s[i] !in dropped
    ensures Without(s, dropped) == s
  {
    if s != "" {
      WithoutNone(s[1..], dropped);
    }
  }

  lemma WithoutOne(c: char, b: string, dropped: set<char>)
    requires c in dropped
    ensures Without([c] + b, dropped) == Without(b, dropped)
  {
    assert ([c] + b)[1..] == b;
    assert "" + Without(b, dropped) == Without(b, dropped);
  }

  /** A field of digits followed by a separator: the separator goes. */
  lemma WithoutField(digits: string, separator: char, b: string, dropped: set<char>)
    requires AllDigits(digits) && separator in dropped && forall c :: c in dropped ==> !IsDigit(c)
    ensures Without(digits + ([separator] + b), dropped) == digits + Without(b, dropped)
  {
    WithoutAppend(digits, [separator] + b, dropped);
    WithoutNone(digits, dropped);
    WithoutOne(separator, b, dropped);
  }

  function Take(s: string, n: nat): string {
    if |s| <= n then s else s[..n]
  }

  // ---------------------------------------------------------------------------------------
  // Writing
  // ---------------------------------------------------------------------------------------

  const MS_PER_DAY: int := 86_400_000
  const EPOCH_DAY: int := 719528

  lemma EpochIs1970()
    ensures IsDate(Date(1970, 1, 1)) && DayNumber(Date(1970, 1, 1)) == EPOCH_DAY
  {
    YearStartClosedForm(1970);
  }

  /** The year of `toISOString`: four digits, or a sign and six. */
  function IsoYear(y: int): string {
    if 0 <= y <= 9999 then Pad(y, 4) else if y < 0 then "-" + Pad(-y, 6) else "+" + Pad(y, 6)
  }

  function IsoDate(d: Date): string
    requires IsDate(d)
  {
    IsoYear(d.year) + ("-" + (Pad(d.month, 2) + ("-" + Pad(d.day, 2))))
  }

  datatype Clock = Clock(hour: nat, minute: nat, second: nat, millisecond: nat)

  function DateAt(instant: int): (d: Date)
    ensures IsDate(d)
  {
    DateOf(EPOCH_DAY + instant / MS_PER_DAY)
  }

  lemma MinutesAndSeconds(ms: int)
    requires 0 <= ms < MS_PER_DAY
    ensures ms == ms / 1000 * 1000 + ms % 1000
    ensures ms / 1000 == ms / 60_000 * 60 + ms / 1000 % 60
    ensures ms / 60_000 == ms / 60_000 / 60 * 60 + ms / 60_000 % 60 && ms / 60_000 / 60 < 24
  {
  }

  function ClockAt(instant: int): (c: Clock)
    ensures c.hour < 24 && c.minute < 60 && c.second < 60 && c.millisecond < 1000
    ensures instant % MS_PER_DAY == ((c.hour * 60 + c.minute) * 60 + c.second) * 1000 + c.millisecond
  {
    var ms := instant % MS_PER_DAY;
    var (s, minutes) := (ms / 1000, ms / 60_000);
    MinutesAndSeconds(ms);
    Clock(minutes / 60, minutes % 60, s % 60, ms % 1000)
  }

  function IsoClock(c: Clock): string {
    "T" + (Pad(c.hour, 2) + (":" + (Pad(c.minute, 2) + (":" + (Pad(c.second, 2) + ("." + Pad(c.millisecond, 3) + "Z"))))))
  }

  function ToIsoString(instant: int): string {
    IsoDate(DateAt(instant)) + IsoClock(ClockAt(instant))
  }

  function FormatUtcDateTime(instant: int): string {
    Take(Without(ToIsoString(instant), {'-', ':'}), 15) + "Z"
  }

  function FormatCompactDate(isoDate: string): string {
    Without(isoDate, {'-'})
  }

  /** The dates a date input produces. */
  predicate Writes(isoDate: string, d: Date) {
    IsDate(d) && 0 <= d.year <= 9999 && isoDate == IsoDate(d)
  }

  /** Midnight UTC of day n as an ISO string, cut after the day. */
  function IsoDay(n: int): string {
    Take(ToIsoString((n - EPOCH_DAY) * MS_PER_DAY), 10)
  }

  /** shiftIsoDate: the date's midnight moved by whole days. */
  function ShiftDate(d: Date, days: int): string
    requires IsDate(d)
  {
    IsoDay(DayNumber(d) + days)
  }

  // ---------------------------------------------------------------------------------------
  // Reading
  // ---------------------------------------------------------------------------------------

  datatype IcsDateValue = IcsDateValue(
    raw: string, timeZoneId: Option<string>, isUtc: bool, isDateOnly: bool,
    year: nat, month: nat, day: nat, hour: nat, minute: nat, second: nat)

  /** /^(\d{4})(\d{2})(\d{2})$/ */
  predicate MatchesDateOnly(s: string) {
    |s| == 8 && AllDigits(s)
  }

  /** /^(\d{4})(\d{2})(\d{2})T(\d{2})(\d{2})(\d{2})(Z?)$/ */
  predicate MatchesDateTime(s: string) {
    && 15 <= |s| <= 16 && DigitsIn(s, 0, 8) && s[8] == 'T' && DigitsIn(s, 9, 15)
    && (|s| == 16 ==> s[15] == 'Z')
  }

  function ParseDateText(s: string, timeZoneId: Option<string>): Option<IcsDateValue> {
    if MatchesDateOnly(s) then
      Some(IcsDateValue(s, timeZoneId, false, true, Number(s[..4]), Number(s[4..6]), Number(s[6..8]), 0, 0, 0))
    else if MatchesDateTime(s) then
      Some(IcsDateValue(s, timeZoneId, |s| == 16, false, Number(s[..4]), Number(s[4..6]), Number(s[6..8]),
                        Number(s[9..11]), Number(s[11..13]), Number(s[13..15])))
    else None
  }

  // ---------------------------------------------------------------------------------------
  // Round trips
  // ---------------------------------------------------------------------------------------

  function CompactDate(d: Date): string
    requires IsDate(d)
  {
    IsoYear(d.year) + (Pad(d.month, 2) + Pad(d.day, 2))
  }

  function CompactClock(c: Clock): string {
    Pad(c.hour, 2) + (Pad(c.minute, 2) + Pad(c.second, 2))
  }

  lemma CompactDateText(d: Date)
    requires IsDate(d) && 0 <= d.year <= 9999
    ensures FormatCompactDate(IsoDate(d)) == CompactDate(d)
  {
    var dropped := {'-'};
    WithoutField(Pad(d.year, 4), '-', Pad(d.month, 2) + ("-" + Pad(d.day, 2)), dropped);
    WithoutField(Pad(d.month, 2), '-', Pad(d.day, 2), dropped);
    WithoutNone(Pad(d.day, 2), dropped);
  }

  lemma DateParts(y: string, m: string, d: string, rest: string)
    requires |y| == 4 && |m| == 2 && |d| == 2
    ensures var s := y + (m + d) + rest;
            s[..4] == y && s[4..6] == m && s[6..8] == d && s[..8] == y + (m + d) && s[8..] == rest
  {
  }

  /** A date is read back as the date that was written. */
  lemma DateRoundTrip(d: Date, tz: Option<string>)
    requires IsDate(d) && 0 <= d.year <= 9999
    ensures var s := FormatCompactDate(IsoDate(d));
            ParseDateText(s, tz) == Some(IcsDateValue(s, tz, false, true, d.year, d.month, d.day, 0, 0, 0))
  {
    CompactDateText(d);
    var s := CompactDate(d);
    assert s + "" == s;
    DateParts(Pad(d.year, 4), Pad(d.month, 2), Pad(d.day, 2), "");
    FourDigits(d.year);
    TwoDigits(d.month);
    TwoDigits(d.day);
  }

  lemma WithoutClock(c: Clock)
    ensures Without(IsoClock(c), {'-', ':'}) == "T" + CompactClock(c) + ("." + Pad(c.millisecond, 3) + "Z")
  {
    var dropped := {'-', ':'};
    var tail := "." + Pad(c.millisecond, 3) + "Z";
    WithoutNone("T", dropped);
    WithoutAppend("T", Pad(c.hour, 2) + (":" + (Pad(c.minute, 2) + (":" + (Pad(c.second, 2) + tail)))), dropped);
    WithoutField(Pad(c.hour, 2), ':', Pad(c.minute, 2) + (":" + (Pad(c.second, 2) + tail)), dropped);
    WithoutField(Pad(c.minute, 2), ':', Pad(c.second, 2) + tail, dropped);
    WithoutAppend(Pad(c.second, 2), tail, dropped);
    WithoutNone(Pad(c.second, 2), dropped);
    WithoutNone(tail, dropped);
    assert CompactClock(c) + tail == Pad(c.hour, 2) + (Pad(c.minute, 2) + (Pad(c.second, 2) + tail));
    assert "T" + CompactClock(c) + tail == "T" + (CompactClock(c) + tail);
  }

  /** Whatever the year, its digits survive and its dashes go. */
  function YearDigits(y: int): string {
    if 0 <= y <= 9999 then Pad(y, 4) else if y < 0 then Pad(-y, 6) else "+" + Pad(y, 6)
  }

  lemma WithoutDate(d: Date)
    requires IsDate(d)
    ensures Without(IsoDate(d), {'-', ':'}) == YearDigits(d.year) + (Pad(d.month, 2) + Pad(d.day, 2))
  {
    var dropped := {'-', ':'};
    var (month, day) := (Pad(d.month, 2), Pad(d.day, 2));
    WithoutAppend(IsoYear(d.year), "-" + (month + ("-" + day)), dropped);
    WithoutOne('-', month + ("-" + day), dropped);
    WithoutField(month, '-', day, dropped);
    WithoutNone(day, dropped);
    WithoutYear(d.year);
  }

  lemma WithoutYear(y: int)
    ensures Without(IsoYear(y), {'-', ':'}) == YearDigits(y)
  {
    var dropped := {'-', ':'};
    if y < 0 {
      WithoutOne('-', Pad(-y, 6), dropped);
      WithoutNone(Pad(-y, 6), dropped);
    } else {
      WithoutNone(IsoYear(y), dropped);
    }
  }

  lemma UtcText(instant: int)
    ensures var (d, c) := (DateAt(instant), ClockAt(instant));
            Without(ToIsoString(instant), {'-', ':'})
            == YearDigits(d.year) + (Pad(d.month, 2) + Pad(d.day, 2)) + ("T" + CompactClock(c) + ("." + Pad(c.millisecond, 3) + "Z"))
  {
    WithoutAppend(IsoDate(DateAt(instant)), IsoClock(ClockAt(instant)), {'-', ':'});
    WithoutDate(DateAt(instant));
    WithoutClock(ClockAt(instant));
  }

  lemma UtcTextInRange(instant: int)
    requires 0 <= DateAt(instant).year <= 9999
    ensures FormatUtcDateTime(instant) == CompactDate(DateAt(instant)) + ("T" + CompactClock(ClockAt(instant)) + "Z")
  {
    UtcText(instant);
    var (d, c) := (DateAt(instant), ClockAt(instant));
    var s := CompactDate(d) + ("T" + CompactClock(c) + ("." + Pad(c.millisecond, 3) + "Z"));
    assert |CompactDate(d)| == 8 && |CompactClock(c)| == 6;
    assert Take(s, 15) == CompactDate(d) + ("T" + CompactClock(c));
  }

  lemma ClockParts(h: string, m: string, s: string)
    requires |h| == 2 && |m| == 2 && |s| == 2
    ensures var t := "T" + (h + (m + s)) + "Z";
            t[0] == 'T' && t[1..3] == h && t[3..5] == m && t[5..7] == s && t[7] == 'Z' && |t| == 8
  {
  }

  /** The text of an instant: eight digits, T, six digits, Z, with every field in its place. */
  lemma DateTimeParts(d: Date, c: Clock)
    requires IsDate(d) && 0 <= d.year <= 9999
    ensures var s := CompactDate(d) + ("T" + CompactClock(c) + "Z");
            && |s| == 16 && s[8] == 'T' && s[15] == 'Z'
            && s[..4] == Pad(d.year, 4) && s[4..6] == Pad(d.month, 2) && s[6..8] == Pad(d.day, 2)
            && s[9..11] == Pad(c.hour, 2) && s[11..13] == Pad(c.minute, 2) && s[13..15] == Pad(c.second, 2)
  {
    var clock := "T" + CompactClock(c) + "Z";
    DateParts(Pad(d.year, 4), Pad(d.month, 2), Pad(d.day, 2), clock);
    ClockParts(Pad(c.hour, 2), Pad(c.minute, 2), Pad(c.second, 2));
    var s := CompactDate(d) + clock;
    assert s[9..11] == clock[1..3] && s[11..13] == clock[3..5] && s[13..15] == clock[5..7];
    assert s[8] == clock[0] && s[15] == clock[7];
  }

  lemma FieldsAreDigits(s: string)
    requires |s| == 16 && AllDigits(s[..4]) && AllDigits(s[4..6]) && AllDigits(s[6..8])
    requires AllDigits(s[9..11]) && AllDigits(s[11..13]) && AllDigits(s[13..15])
    ensures DigitsIn(s, 0, 8) && DigitsIn(s, 9, 15)
  {
    forall i | 0 <= i < 8
      ensures IsDigit(s[i])
    {
      assert i < 4 ==> s[i] == s[..4][i];
      assert 4 <= i < 6 ==> s[i] == s[4..6][i - 4];
      assert 6 <= i ==> s[i] == s[6..8][i - 6];
    }
    forall i | 9 <= i < 15
      ensures IsDigit(s[i])
    {
      assert i < 11 ==> s[i] == s[9..11][i - 9];
      assert 11 <= i < 13 ==> s[i] == s[11..13][i - 11];
      assert 13 <= i ==> s[i] == s[13..15][i - 13];
    }
  }

  /** The value an instant is read back as. */
  function InstantValue(instant: int, tz: Option<string>): Option<IcsDateValue> {
    var (d, c) := (DateAt(instant), ClockAt(instant));
    if 0 <= d.year <= 9999
    then Some(IcsDateValue(FormatUtcDateTime(instant), tz, true, false, d.year, d.month, d.day, c.hour, c.minute, c.second))
    else None
  }

  /**
    An instant is read back as its UTC date and time, to the second, exactly when its year has
    four digits; outside 0000 to 9999 what is written cannot be read.
  */
  lemma InstantRoundTrip(instant: int, tz: Option<string>)
    ensures ParseDateText(FormatUtcDateTime(instant), tz) == InstantValue(instant, tz)
  {
    var (d, c) := (DateAt(instant), ClockAt(instant));
    if 0 <= d.year <= 9999 {
      UtcTextInRange(instant);
      ReadDateTime(d, c, tz);
    } else {
      UtcText(instant);
      LongYearIsUnreadable(d, "T" + CompactClock(c) + ("." + Pad(c.millisecond, 3) + "Z"));
    }
  }

  lemma ReadDateTime(d: Date, c: Clock, tz: Option<string>)
    requires IsDate(d) && 0 <= d.year <= 9999 && c.hour < 24 && c.minute < 60 && c.second < 60
    ensures var s := CompactDate(d) + ("T" + CompactClock(c) + "Z");
            ParseDateText(s, tz) == Some(IcsDateValue(s, tz, true, false, d.year, d.month, d.day, c.hour, c.minute, c.second))
  {
    DateTimeParts(d, c);
    FieldsAreDigits(CompactDate(d) + ("T" + CompactClock(c) + "Z"));
    FourDigits(d.year);
    TwoDigits(d.month);
    TwoDigits(d.day);
    TwoDigits(c.hour);
    TwoDigits(c.minute);
    TwoDigits(c.second);
  }

  lemma LongYearIsUnreadable(d: Date, clock: string)
    requires IsDate(d) && !(0 <= d.year <= 9999) && |clock| >= 6
    ensures var s := Take(YearDigits(d.year) + (Pad(d.month, 2) + Pad(d.day, 2)) + clock, 15) + "Z";
            !MatchesDateOnly(s) && !MatchesDateTime(s)
  {
    var date := YearDigits(d.year) + (Pad(d.month, 2) + Pad(d.day, 2));
    var s := Take(date + clock, 15) + "Z";
    assert |s| == 16;
    assert s[0] == date[0] && s[8] == date[8];
    if d.year < 0 {
      assert date[8] == Pad(d.day, 2)[0];
    } else {
      assert date[0] == '+';
    }
  }

  /** What the exclusive end of an all-day event is read back as. */
  function DayAfterValue(d: Date, tz: Option<string>): Option<IcsDateValue>
    requires IsDate(d)
  {
    var next := NextDay(d);
    if 0 <= next.year <= 9999 && IsDate(next)
    then Some(IcsDateValue(FormatCompactDate(IsoDate(next)), tz, false, true, next.year, next.month, next.day, 0, 0, 0))
    else None
  }

  lemma IsoDateLength(d: Date)
    requires IsDate(d) && 0 <= d.year <= 9999
    ensures |IsoDate(d)| == 10
  {
  }

  lemma Midnight(day: int)
    ensures (day * MS_PER_DAY) / MS_PER_DAY == day && (day * MS_PER_DAY) % MS_PER_DAY == 0
  {
  }

  lemma MidnightClock(day: int)
    ensures ClockAt(day * MS_PER_DAY) == Clock(0, 0, 0, 0)
  {
    Midnight(day);
  }

  function MidnightText(d: Date): string
    requires IsDate(d)
  {
    Take(IsoDate(d) + IsoClock(Clock(0, 0, 0, 0)), 10)
  }

  lemma IsoDayText(n: int)
    ensures IsoDay(n) == MidnightText(DateOf(n))
  {
    Midnight(n - EPOCH_DAY);
    MidnightClock(n - EPOCH_DAY);
  }

  lemma IsoDayOfDate(e: Date)
    requires IsDate(e)
    ensures IsoDay(DayNumber(e)) == MidnightText(e)
  {
    IsoDayText(DayNumber(e));
    DateOfDayNumber(e);
  }

  lemma MidnightTextInRange(d: Date)
    requires IsDate(d) && 0 <= d.year <= 9999
    ensures MidnightText(d) == IsoDate(d)
  {
    IsoDateLength(d);
  }

  /** Shifting a date by a day moves to the next day of the calendar, and back. */
  lemma ShiftForward(d: Date)
    requires IsDate(d)
    ensures IsDate(NextDay(d)) && ShiftDate(d, 1) == MidnightText(NextDay(d))
  {
    hide IsoDay, MidnightText, IcsDates.DayNumber;
    NextDayNumber(d);
    IsoDayOfDate(NextDay(d));
  }

  lemma ShiftBack(d: Date)
    requires IsDate(d)
    ensures IsDate(NextDay(d)) && ShiftDate(NextDay(d), -1) == MidnightText(d)
  {
    hide IsoDay, MidnightText, IcsDates.DayNumber;
    NextDayNumber(d);
    IsoDayOfDate(d);
  }

  lemma LastWritableDay(d: Date)
    requires IsDate(d) && 0 <= d.year <= 9999
    ensures NextDay(d).year > 9999 <==> d == Date(9999, 12, 31)
  {
  }

  lemma FiveDigitYearIsUnreadable(e: Date, tz: Option<string>)
    requires IsDate(e) && e.year > 9999
    ensures ParseDateText(FormatCompactDate(MidnightText(e)), tz) == None
  {
    var s := MidnightText(e);
    assert s[0] == '+';
    assert FormatCompactDate(s)[0] == '+';
  }

  /**
    The exclusive end written for an all-day event is read back as the day after the end date;
    only the last day of year 9999 has no readable day after.
  */
  lemma ExclusiveEndRoundTrip(d: Date, tz: Option<string>)
    requires IsDate(d) && 0 <= d.year <= 9999
    ensures ParseDateText(FormatCompactDate(ShiftDate(d, 1)), tz) == DayAfterValue(d, tz)
    ensures DayAfterValue(d, tz).None? <==> d == Date(9999, 12, 31)
  {
    var next := NextDay(d);
    ShiftForward(d);
    LastWritableDay(d);
    if next.year <= 9999 {
      MidnightTextInRange(next);
      DateRoundTrip(next, tz);
    } else {
      FiveDigitYearIsUnreadable(next, tz);
    }
  }

  /** A date and time without Z is read as local to its time zone, field by field. */
  lemma LocalTimeIsRead(d: Date, c: Clock, tz: Option<string>)
    requires IsDate(d) && 0 <= d.year <= 9999 && c.hour < 24 && c.minute < 60 && c.second < 60
    ensures var s := CompactDate(d) + ("T" + CompactClock(c));
            ParseDateText(s, tz) == Some(IcsDateValue(s, tz, false, false, d.year, d.month, d.day, c.hour, c.minute, c.second))
  {
    var (s, z) := (CompactDate(d) + ("T" + CompactClock(c)), CompactDate(d) + ("T" + CompactClock(c) + "Z"));
    DateTimeParts(d, c);
    FieldsAreDigits(z);
    ReadDateTime(d, c, tz);
    assert |s| == 15 && z[..15] == s;
    assert forall i :: 0 <= i < 15 ==> s[i] == z[i];
    assert s[..4] == z[..4] && s[4..6] == z[4..6] && s[6..8] == z[6..8];
    assert s[9..11] == z[9..11] && s[11..13] == z[11..13] && s[13..15] == z[13..15];
  }
}
