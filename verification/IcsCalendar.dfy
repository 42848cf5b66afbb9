/**
  The writer of applications/web/src/utils/ics.ts, and what its reader makes of what it writes.
*/
module IcsCalendar {
  import opened Wrappers
  import opened IcsText
  import opened IcsDates
  import opened IcsDateText
  import opened IcsDateOrder
  import opened IcsContentLine
  import opened IcsReader

  const PRODUCT_ID: string := "-//Keeper.sh//Keeper.sh ICS Generator//EN"

  /** A `Date` further from 1970 than this, in milliseconds, is invalid. */
  const MAX_TIME: int := 8_640_000_000_000_000

  datatype Draft = Draft(summary: string, description: string, location: string, allDay: bool, start: string, end: string)

  /** One constructor for each message of `validateIcsEventDraft`. */
  datatype DraftError =
    | NoTitle
    | NoStartDate
    | NoStartTime
    | NoEndDate
    | NoEndTime
    | EndDateBeforeStart
    | NotDateAndTime
    | EndTimeNotAfterStart

  /** `Rejected` and `Threw` are the errors thrown for an incomplete draft and an impossible date. */
  datatype BuildResult = Built(text: string) | Rejected(errors: seq<DraftError>) | Threw

  // ---------------------------------------------------------------------------------------
  // Writing
  // ---------------------------------------------------------------------------------------

  function When(condition: bool, error: DraftError): seq<DraftError> {
    if condition then [error] else []
  }

  function RangeErrors(p: Platform, d: Draft): seq<DraftError> {
    if d.allDay then When(Less(d.end, d.start), EndDateBeforeStart)
    else
      var (start, end) := (p.parseDate(d.start), p.parseDate(d.end));
      if start.None? || end.None? then [NotDateAndTime] else When(end.value <= start.value, EndTimeNotAfterStart)
  }

  function ValidateDraft(p: Platform, d: Draft): seq<DraftError> {
    var incomplete :=
      When(Trim(d.summary) == "", NoTitle)
      + When(d.start == "", if d.allDay then NoStartDate else NoStartTime)
      + When(d.end == "", if d.allDay then NoEndDate else NoEndTime);
    if d.start == "" || d.end == "" then incomplete else incomplete + RangeErrors(p, d)
  }

  /** toISOString().slice(0, 10) */
  function DayText(instant: int): string {
    Take(ToIsoString(instant), 10)
  }

  function ShiftIsoDate(p: Platform, isoDate: string, days: int): Option<string> {
    var midnight := p.parseDate(isoDate + "T00:00:00Z");
    if midnight.None? then None
    else
      var shifted := midnight.value + days * MS_PER_DAY;
      if -MAX_TIME <= shifted <= MAX_TIME then Some(DayText(shifted)) else None
  }

  function PropertyLine(name: string, value: string): string {
    name + ":" + value
  }

  /** `name;VALUE=DATE:value` */
  function DateLine(name: string, value: string): string {
    ParameterHead(name, "VALUE", "DATE") + ":" + value
  }

  /** None if a date cannot be written. */
  function TimeLines(p: Platform, d: Draft): Option<(string, string)> {
    if d.allDay then
      var end := ShiftIsoDate(p, d.end, 1);
      if end.None? then None
      else Some((DateLine("DTSTART", FormatCompactDate(d.start)), DateLine("DTEND", FormatCompactDate(end.value))))
    else
      var (start, end) := (p.parseDate(d.start), p.parseDate(d.end));
      if start.None? || end.None? then None
      else Some((PropertyLine("DTSTART", FormatUtcDateTime(start.value)), PropertyLine("DTEND", FormatUtcDateTime(end.value))))
  }

  function TextLine(name: string, text: string): seq<string> {
    if text == "" then [] else [PropertyLine(name, EscapeText(text))]
  }

  const OPENING: seq<string> := [
    PropertyLine("BEGIN", "VCALENDAR"),
    PropertyLine("VERSION", "2.0"),
    PropertyLine("PRODID", PRODUCT_ID),
    PropertyLine("CALSCALE", "GREGORIAN"),
    PropertyLine("BEGIN", "VEVENT")]

  const CLOSING: seq<string> := [PropertyLine("END", "VEVENT"), PropertyLine("END", "VCALENDAR")]

  function StampLines(uid: string, stamp: int): seq<string> {
    [PropertyLine("UID", uid), PropertyLine("DTSTAMP", FormatUtcDateTime(stamp))]
  }

  function TextLines(d: Draft): seq<string> {
    [PropertyLine("SUMMARY", EscapeText(Trim(d.summary)))]
    + TextLine("DESCRIPTION", Trim(d.description)) + TextLine("LOCATION", Trim(d.location))
  }

  /** The content lines of the calendar; `stamp` is None for an invalid `Date`. */
  function CalendarLines(p: Platform, d: Draft, uid: string, stamp: Option<int>): Option<seq<string>> {
    var times := TimeLines(p, d);
    if stamp.None? || times.None? then None
    else Some(OPENING + (StampLines(uid, stamp.value) + ([times.value.0, times.value.1] + (TextLines(d) + CLOSING))))
  }

  /** The draft is accepted and all its dates can be written. */
  predicate Writable(p: Platform, d: Draft, uid: string, stamp: Option<int>) {
    ValidateDraft(p, d) == [] && CalendarLines(p, d, uid, stamp).Some?
  }

  function CalendarText(p: Platform, d: Draft, uid: string, stamp: Option<int>): string
    requires Writable(p, d, uid, stamp)
  {
    Document(CalendarLines(p, d, uid, stamp).value)
  }

  method BuildIcsCalendar(p: Platform, d: Draft, uid: string, stamp: Option<int>) returns (r: BuildResult)
    ensures r.Rejected? <==> ValidateDraft(p, d) != []
    ensures r.Rejected? ==> r.errors == ValidateDraft(p, d)
    ensures r.Built? <==> Writable(p, d, uid, stamp)
    ensures r.Built? ==> r.text == CalendarText(p, d, uid, stamp)
  {
    var errors := ValidateDraft(p, d);
    if |errors| > 0 {
      return Rejected(errors);
    }
    var lines := CalendarLines(p, d, uid, stamp);
    if lines.None? {
      return Threw;
    }
    var text := WriteDocument(lines.value);
    return Built(text);
  }

  // ---------------------------------------------------------------------------------------
  // What is assumed of the engine
  // ---------------------------------------------------------------------------------------

  predicate Capitals(s: string) {
    forall i :: 0 <= i < |s| ==> 'A' <= s[i] <= 'Z' || s[i] == '-'
  }

  function MidnightOf(d: Date): int
    requires IsDate(d)
  {
    (DayNumber(d) - EPOCH_DAY) * MS_PER_DAY
  }

  predicate FourDigitYear(d: Date) {
    IsDate(d) && 0 <= d.year <= 9999
  }

  /** ECMAScript's `toUpperCase` leaves capitals alone, and its `Date.parse` reads midnight of a date. */
  ghost predicate Conforms(p: Platform) {
    && (forall s :: Capitals(s) ==> p.upper(s) == s)
    && (forall d: Date :: FourDigitYear(d) ==> p.parseDate(IsoDate(d) + "T00:00:00Z") == Some(MidnightOf(d)))
  }

  lemma SameMidnightText(d: Date, e: Date)
    requires FourDigitYear(d) && FourDigitYear(e) && IsoDate(d) + "T00:00:00Z" == IsoDate(e) + "T00:00:00Z"
    ensures d == e
  {
    IsoDateLength(d);
    IsoDateLength(e);
    assert IsoDate(d) == (IsoDate(d) + "T00:00:00Z")[..10] && IsoDate(e) == (IsoDate(e) + "T00:00:00Z")[..10];
    DateTextOrder(d, e);
    DateTextOrder(e, d);
    SameDayNumber(d, e);
  }

  ghost function ReadMidnight(s: string): Option<int> {
    if exists d: Date :: FourDigitYear(d) && s == IsoDate(d) + "T00:00:00Z" then
      var d: Date :| FourDigitYear(d) && s == IsoDate(d) + "T00:00:00Z";
      Some(MidnightOf(d))
    else None
  }

  /** The two assumptions can be met together. */
  lemma SomePlatformConforms()
    ensures exists p :: Conforms(p)
  {
    var p := Platform(s => s, s => ReadMidnight(s));
    forall d: Date | FourDigitYear(d)
      ensures p.parseDate(IsoDate(d) + "T00:00:00Z") == Some(MidnightOf(d))
    {
      var s := IsoDate(d) + "T00:00:00Z";
      var e: Date :| FourDigitYear(e) && s == IsoDate(e) + "T00:00:00Z" && ReadMidnight(s) == Some(MidnightOf(e));
      SameMidnightText(d, e);
    }
    assert Conforms(p);
  }

  // ---------------------------------------------------------------------------------------
  // Every written line is a plain line
  // ---------------------------------------------------------------------------------------

  predicate Name(s: string) {
    s != "" && Capitals(s)
  }

  lemma NamesInUse()
    ensures Name("BEGIN") && Name("END") && Name("UID") && Name("DTSTAMP") && Name("DTSTART") && Name("DTEND")
    ensures Name("SUMMARY") && Name("DESCRIPTION") && Name("LOCATION")
    ensures Name("VERSION") && Name("PRODID") && Name("CALSCALE") && Name("VCALENDAR") && Name("VEVENT")
    ensures Name("VALUE") && Name("DATE")
  {
  }

  lemma NameIsInert(name: string)
    requires Name(name)
    ensures Inert(name) && OneLine(name) && !IsWhitespace(name[0])
  {
  }

  lemma PropertyLineIsPlain(name: string, value: string)
    requires Name(name) && OneLine(value)
    ensures Plain(PropertyLine(name, value))
  {
    NameIsInert(name);
    var line := PropertyLine(name, value);
    assert line[0] == name[0];
    assert forall i :: 0 <= i < |line| ==> line[i] == if i < |name| then name[i] else if i == |name| then ':' else value[i - |name| - 1];
  }

  lemma DateLineIsPlain(name: string, value: string)
    requires Name(name) && OneLine(value)
    ensures Plain(DateLine(name, value))
  {
    NameIsInert(name);
    var head := ParameterHead(name, "VALUE", "DATE");
    assert head[0] == name[0];
    assert OneLine(head) by {
      var tail := ";" + "VALUE" + "=" + "DATE";
      assert OneLine(tail);
      assert forall i :: 0 <= i < |head| ==> head[i] == if i < |name| then name[i] else tail[i - |name|];
    }
    var line := head + ":" + value;
    assert line[0] == head[0];
    assert forall i :: 0 <= i < |line| ==> line[i] == if i < |head| then head[i] else if i == |head| then ':' else value[i - |head| - 1];
  }

  lemma {:induction false} WithoutIsOneLine(s: string, dropped: set<char>)
    requires OneLine(s)
    ensures OneLine(Without(s, dropped))
  {
    if s != "" {
      WithoutIsOneLine(s[1..], dropped);
    }
  }

  lemma OneLineAppend(a: string, b: string)
    requires OneLine(a) && OneLine(b)
    ensures OneLine(a + b)
  {
  }

  lemma IsoDateIsOneLine(d: Date)
    requires IsDate(d)
    ensures OneLine(IsoDate(d))
  {
    var rest := Pad(d.month, 2) + ("-" + Pad(d.day, 2));
    assert OneLine(rest);
    assert OneLine("-" + rest);
    OneLineAppend(IsoYear(d.year), "-" + rest);
  }

  lemma IsoClockIsOneLine(c: Clock)
    ensures OneLine(IsoClock(c))
  {
    var millis := "." + Pad(c.millisecond, 3) + "Z";
    var seconds := Pad(c.second, 2) + millis;
    var minutes := Pad(c.minute, 2) + (":" + seconds);
    var hours := Pad(c.hour, 2) + (":" + minutes);
    OneLineAppend(Pad(c.second, 2), millis);
    OneLineAppend(":", seconds);
    OneLineAppend(Pad(c.minute, 2), ":" + seconds);
    OneLineAppend(":", minutes);
    OneLineAppend(Pad(c.hour, 2), ":" + minutes);
    OneLineAppend("T", hours);
  }

  lemma IsoStringIsOneLine(instant: int)
    ensures OneLine(ToIsoString(instant))
  {
    IsoDateIsOneLine(DateAt(instant));
    IsoClockIsOneLine(ClockAt(instant));
    OneLineAppend(IsoDate(DateAt(instant)), IsoClock(ClockAt(instant)));
  }

  lemma UtcIsOneLine(instant: int)
    ensures OneLine(FormatUtcDateTime(instant))
  {
    IsoStringIsOneLine(instant);
    WithoutIsOneLine(ToIsoString(instant), {'-', ':'});
  }

  lemma TakeIsOneLine(s: string, n: nat)
    requires OneLine(s)
    ensures OneLine(Take(s, n))
  {
  }

  lemma DayTextIsOneLine(instant: int)
    ensures OneLine(DayText(instant))
  {
    IsoStringIsOneLine(instant);
    TakeIsOneLine(ToIsoString(instant), 10);
  }

  lemma ShiftedIsOneLine(p: Platform, isoDate: string, days: int)
    requires ShiftIsoDate(p, isoDate, days).Some?
    ensures OneLine(ShiftIsoDate(p, isoDate, days).value)
  {
    hide DayText;
    var shifted :| ShiftIsoDate(p, isoDate, days) == Some(DayText(shifted));
    DayTextIsOneLine(shifted);
  }

  lemma CompactIsPlain(name: string, isoDate: string)
    requires Name(name) && OneLine(isoDate)
    ensures Plain(DateLine(name, FormatCompactDate(isoDate)))
  {
    WithoutIsOneLine(isoDate, {'-'});
    DateLineIsPlain(name, FormatCompactDate(isoDate));
  }

  lemma UtcIsPlain(name: string, instant: int)
    requires Name(name)
    ensures Plain(PropertyLine(name, FormatUtcDateTime(instant)))
  {
    UtcIsOneLine(instant);
    PropertyLineIsPlain(name, FormatUtcDateTime(instant));
  }

  lemma TimeLinesArePlain(p: Platform, d: Draft)
    requires TimeLines(p, d).Some? && (d.allDay ==> OneLine(d.start))
    ensures Plain(TimeLines(p, d).value.0) && Plain(TimeLines(p, d).value.1)
  {
    NamesInUse();
    if d.allDay {
      ShiftedIsOneLine(p, d.end, 1);
      CompactIsPlain("DTSTART", d.start);
      CompactIsPlain("DTEND", ShiftIsoDate(p, d.end, 1).value);
    } else {
      UtcIsPlain("DTSTART", p.parseDate(d.start).value);
      UtcIsPlain("DTEND", p.parseDate(d.end).value);
    }
  }

  ghost predicate AllPlain(lines: seq<string>) {
    forall i :: 0 <= i < |lines| ==> Plain(lines[i])
  }

  lemma AllPlainTogether(a: seq<string>, b: seq<string>, c: seq<string>, d: seq<string>, e: seq<string>)
    requires AllPlain(a) && AllPlain(b) && AllPlain(c) && AllPlain(d) && AllPlain(e)
    ensures AllPlain(a + (b + (c + (d + e))))
  {
    assert AllPlain(d + e);
    assert AllPlain(c + (d + e));
    assert AllPlain(b + (c + (d + e)));
  }

  lemma FixedLinesArePlain()
    ensures AllPlain(OPENING) && AllPlain(CLOSING)
  {
    NamesInUse();
    assert OneLine(PRODUCT_ID) && OneLine("VCALENDAR") && OneLine("2.0") && OneLine("GREGORIAN") && OneLine("VEVENT");
    PropertyLineIsPlain("BEGIN", "VCALENDAR");
    PropertyLineIsPlain("VERSION", "2.0");
    PropertyLineIsPlain("PRODID", PRODUCT_ID);
    PropertyLineIsPlain("CALSCALE", "GREGORIAN");
    PropertyLineIsPlain("BEGIN", "VEVENT");
    PropertyLineIsPlain("END", "VEVENT");
    PropertyLineIsPlain("END", "VCALENDAR");
  }

  lemma TextLinesArePlain(d: Draft)
    ensures AllPlain(TextLines(d))
  {
    NamesInUse();
    UnescapeUndoesEscape(Trim(d.summary));
    UnescapeUndoesEscape(Trim(d.description));
    UnescapeUndoesEscape(Trim(d.location));
    PropertyLineIsPlain("SUMMARY", EscapeText(Trim(d.summary)));
    PropertyLineIsPlain("DESCRIPTION", EscapeText(Trim(d.description)));
    PropertyLineIsPlain("LOCATION", EscapeText(Trim(d.location)));
  }

  lemma StampLinesArePlain(uid: string, stamp: int)
    requires OneLine(uid)
    ensures AllPlain(StampLines(uid, stamp))
  {
    NamesInUse();
    UtcIsOneLine(stamp);
    PropertyLineIsPlain("UID", uid);
    PropertyLineIsPlain("DTSTAMP", FormatUtcDateTime(stamp));
  }

  lemma CalendarLinesArePlain(p: Platform, d: Draft, uid: string, stamp: Option<int>)
    requires CalendarLines(p, d, uid, stamp).Some? && OneLine(uid) && (d.allDay ==> OneLine(d.start))
    ensures AllPlain(CalendarLines(p, d, uid, stamp).value)
  {
    hide IcsText.Plain, IcsText.OneLine, StampLines, TextLines;
    var times := TimeLines(p, d).value;
    FixedLinesArePlain();
    StampLinesArePlain(uid, stamp.value);
    TimeLinesArePlain(p, d);
    TextLinesArePlain(d);
    AllPlainTogether(OPENING, StampLines(uid, stamp.value), [times.0, times.1], TextLines(d), CLOSING);
  }

  // ---------------------------------------------------------------------------------------
  // Reading the lines back
  // ---------------------------------------------------------------------------------------

  lemma ReadPropertyLine(p: Platform, r: Reading, name: string, value: string)
    requires Conforms(p) && Name(name)
    ensures ReadLine(p, r, PropertyLine(name, value)) == ReadContentLine(p, r, ContentLine(name, map[], value))
  {
    NameIsInert(name);
    ParsePlainLine(p, name, value);
    assert PropertyLine(name, value)[0] == name[0];
  }

  lemma ReadDateLine(p: Platform, r: Reading, name: string, value: string)
    requires Conforms(p) && Name(name)
    ensures ReadLine(p, r, DateLine(name, value)) == ReadContentLine(p, r, ContentLine(name, map["VALUE" := "DATE"], value))
  {
    NamesInUse();
    NameIsInert(name);
    NameIsInert("VALUE");
    NameIsInert("DATE");
    ParseLineWithParameter(p, name, "VALUE", "DATE", value);
    assert DateLine(name, value)[0] == name[0];
  }

  lemma ReadOne(p: Platform, r: Reading, line: string)
    ensures ReadLines(p, r, [line]) == ReadLine(p, r, line)
  {
    assert [line][1..] == [];
  }

  lemma ReadTwo(p: Platform, r: Reading, a: string, b: string)
    ensures ReadLines(p, r, [a, b]) == ReadLine(p, ReadLine(p, r, a), b)
  {
    assert [a, b] == [a] + [b];
    ReadLinesAppend(p, r, [a], [b]);
    ReadOne(p, r, a);
    ReadOne(p, ReadLine(p, r, a), b);
  }

  /** The calendar has been opened and this much of its event read. */
  function InEvent(e: Event): Reading {
    Reading(Some(PRODUCT_ID), Some("2.0"), None, [], [], ["VCALENDAR", "VEVENT"], Some(e), true)
  }

  lemma ReadOther(p: Platform, r: Reading, name: string, value: string)
    requires Conforms(p) && Name(name) && name != "BEGIN" && name != "END"
    ensures ReadLine(p, r, PropertyLine(name, value)) == ReadProperty(r, ContentLine(name, map[], value))
  {
    ReadPropertyLine(p, r, name, value);
  }

  lemma ReadBegin(p: Platform, r: Reading, component: string)
    requires Conforms(p) && Name(component)
    ensures ReadLine(p, r, PropertyLine("BEGIN", component)) == BeginComponent(r, component)
  {
    NamesInUse();
    ReadPropertyLine(p, r, "BEGIN", component);
  }

  lemma ReadEnd(p: Platform, r: Reading, component: string)
    requires Conforms(p) && Name(component)
    ensures ReadLine(p, r, PropertyLine("END", component)) == EndComponent(r, component)
  {
    NamesInUse();
    ReadPropertyLine(p, r, "END", component);
  }

  function CalendarBegun(version: Option<string>, productId: Option<string>): Reading {
    NOTHING_READ.(components := ["VCALENDAR"], sawCalendar := true, version := version, productId := productId)
  }

  lemma BeginCalendar()
    ensures BeginComponent(NOTHING_READ, "VCALENDAR") == CalendarBegun(None, None)
  {
    assert |"VCALENDAR"| != |"VEVENT"|;
  }

  lemma ReadVersion(p: Platform, version: string)
    requires Conforms(p)
    ensures ReadLines(p, NOTHING_READ, [PropertyLine("BEGIN", "VCALENDAR"), PropertyLine("VERSION", version)])
            == CalendarBegun(Some(version), None)
  {
    NamesInUse();
    BeginCalendar();
    ReadBegin(p, NOTHING_READ, "VCALENDAR");
    ReadOther(p, CalendarBegun(None, None), "VERSION", version);
    ReadTwo(p, NOTHING_READ, PropertyLine("BEGIN", "VCALENDAR"), PropertyLine("VERSION", version));
  }

  lemma ReadProduct(p: Platform, version: string, productId: string, scale: string)
    requires Conforms(p)
    ensures ReadLines(p, CalendarBegun(Some(version), None), [PropertyLine("PRODID", productId), PropertyLine("CALSCALE", scale)])
            == CalendarBegun(Some(version), Some(productId))
  {
    NamesInUse();
    ReadOther(p, CalendarBegun(Some(version), None), "PRODID", productId);
    ReadOther(p, CalendarBegun(Some(version), Some(productId)), "CALSCALE", scale);
    ReadTwo(p, CalendarBegun(Some(version), None), PropertyLine("PRODID", productId), PropertyLine("CALSCALE", scale));
  }

  lemma ReadFive(p: Platform, r: Reading, a: string, b: string, c: string, d: string, e: string)
    ensures ReadLines(p, r, [a, b, c, d, e]) == ReadLine(p, ReadLines(p, ReadLines(p, r, [a, b]), [c, d]), e)
  {
    assert [a, b, c, d, e] == [a, b] + ([c, d] + [e]);
    ReadLinesAppend(p, r, [a, b], [c, d] + [e]);
    ReadLinesAppend(p, ReadLines(p, r, [a, b]), [c, d], [e]);
    ReadOne(p, ReadLines(p, ReadLines(p, r, [a, b]), [c, d]), e);
  }

  lemma ReadOpening(p: Platform)
    requires Conforms(p)
    ensures ReadLines(p, NOTHING_READ, OPENING) == InEvent(NEW_EVENT)
  {
    hide IcsReader.ReadLine, IcsReader.ReadLines, PropertyLine;
    NamesInUse();
    ReadVersion(p, "2.0");
    ReadProduct(p, "2.0", PRODUCT_ID, "GREGORIAN");
    ReadBegin(p, CalendarBegun(Some("2.0"), Some(PRODUCT_ID)), "VEVENT");
    ReadFive(p, NOTHING_READ, PropertyLine("BEGIN", "VCALENDAR"), PropertyLine("VERSION", "2.0"),
             PropertyLine("PRODID", PRODUCT_ID), PropertyLine("CALSCALE", "GREGORIAN"), PropertyLine("BEGIN", "VEVENT"));
  }

  lemma ReadStamp(p: Platform, uid: string, stamp: int)
    requires Conforms(p)
    ensures ReadLines(p, InEvent(NEW_EVENT), StampLines(uid, stamp)) == InEvent(NEW_EVENT.(uid := Some(uid)))
  {
    hide IcsReader.ReadLine, IcsReader.ReadLines, PropertyLine, IcsDateText.FormatUtcDateTime;
    NamesInUse();
    var lines := StampLines(uid, stamp);
    ReadTwo(p, InEvent(NEW_EVENT), lines[0], lines[1]);
    ReadPropertyLine(p, InEvent(NEW_EVENT), "UID", uid);
    ReadPropertyLine(p, InEvent(NEW_EVENT.(uid := Some(uid))), "DTSTAMP", FormatUtcDateTime(stamp));
  }

  /** What the start is read back as. */
  function StartValue(p: Platform, d: Draft): Option<IcsDateValue> {
    if d.allDay then ParseDateText(FormatCompactDate(d.start), None)
    else if p.parseDate(d.start).None? then None
    else InstantValue(p.parseDate(d.start).value, None)
  }

  /** What the end is read back as. */
  function EndValue(p: Platform, d: Draft): Option<IcsDateValue> {
    if d.allDay then
      var end := ShiftIsoDate(p, d.end, 1);
      if end.None? then None else ParseDateText(FormatCompactDate(end.value), None)
    else if p.parseDate(d.end).None? then None
    else InstantValue(p.parseDate(d.end).value, None)
  }

  lemma ReadDates(p: Platform, e: Event, start: string, end: string)
    requires Conforms(p)
    ensures ReadLines(p, InEvent(e), [DateLine("DTSTART", start), DateLine("DTEND", end)])
            == InEvent(e.(start := ParseDateText(start, None), end := ParseDateText(end, None)))
  {
    hide IcsReader.ReadLine, IcsReader.ReadLines, DateLine, IcsDateText.ParseDateText;
    NamesInUse();
    var started := e.(start := ParseDateText(start, None));
    ReadTwo(p, InEvent(e), DateLine("DTSTART", start), DateLine("DTEND", end));
    ReadDateLine(p, InEvent(e), "DTSTART", start);
    ReadDateLine(p, InEvent(started), "DTEND", end);
  }

  lemma ReadInstants(p: Platform, e: Event, start: string, end: string)
    requires Conforms(p)
    ensures ReadLines(p, InEvent(e), [PropertyLine("DTSTART", start), PropertyLine("DTEND", end)])
            == InEvent(e.(start := ParseDateText(start, None), end := ParseDateText(end, None)))
  {
    hide IcsReader.ReadLine, IcsReader.ReadLines, PropertyLine, IcsDateText.ParseDateText;
    NamesInUse();
    var started := e.(start := ParseDateText(start, None));
    ReadTwo(p, InEvent(e), PropertyLine("DTSTART", start), PropertyLine("DTEND", end));
    ReadOther(p, InEvent(e), "DTSTART", start);
    ReadOther(p, InEvent(started), "DTEND", end);
  }

  lemma ReadTimes(p: Platform, d: Draft, e: Event)
    requires Conforms(p) && TimeLines(p, d).Some?
    ensures var times := TimeLines(p, d).value;
            ReadLines(p, InEvent(e), [times.0, times.1]) == InEvent(e.(start := StartValue(p, d), end := EndValue(p, d)))
  {
    if d.allDay {
      ReadDates(p, e, FormatCompactDate(d.start), FormatCompactDate(ShiftIsoDate(p, d.end, 1).value));
    } else {
      var (start, end) := (p.parseDate(d.start).value, p.parseDate(d.end).value);
      InstantRoundTrip(start, None);
      InstantRoundTrip(end, None);
      ReadInstants(p, e, FormatUtcDateTime(start), FormatUtcDateTime(end));
    }
  }

  /** What a text is read back as; nothing is written for an empty one. */
  function TextValue(text: string): Option<string> {
    if text == "" then None else Some(Normalise(text))
  }

  lemma ReadDescription(p: Platform, text: string, e: Event)
    requires Conforms(p) && e.description.None?
    ensures ReadLines(p, InEvent(e), TextLine("DESCRIPTION", text)) == InEvent(e.(description := TextValue(text)))
  {
    NamesInUse();
    if text != "" {
      UnescapeUndoesEscape(text);
      ReadPropertyLine(p, InEvent(e), "DESCRIPTION", EscapeText(text));
      ReadOne(p, InEvent(e), PropertyLine("DESCRIPTION", EscapeText(text)));
    }
  }

  lemma ReadLocation(p: Platform, text: string, e: Event)
    requires Conforms(p) && e.location.None?
    ensures ReadLines(p, InEvent(e), TextLine("LOCATION", text)) == InEvent(e.(location := TextValue(text)))
  {
    NamesInUse();
    if text != "" {
      UnescapeUndoesEscape(text);
      ReadPropertyLine(p, InEvent(e), "LOCATION", EscapeText(text));
      ReadOne(p, InEvent(e), PropertyLine("LOCATION", EscapeText(text)));
    }
  }

  lemma ReadTexts(p: Platform, d: Draft, e: Event)
    requires Conforms(p) && e.description.None? && e.location.None?
    ensures ReadLines(p, InEvent(e), TextLines(d))
            == InEvent(e.(summary := Some(Normalise(Trim(d.summary))),
                          description := TextValue(Trim(d.description)), location := TextValue(Trim(d.location))))
  {
    NamesInUse();
    var summary := PropertyLine("SUMMARY", EscapeText(Trim(d.summary)));
    var (description, location) := (TextLine("DESCRIPTION", Trim(d.description)), TextLine("LOCATION", Trim(d.location)));
    var titled := e.(summary := Some(Normalise(Trim(d.summary))));
    UnescapeUndoesEscape(Trim(d.summary));
    ReadPropertyLine(p, InEvent(e), "SUMMARY", EscapeText(Trim(d.summary)));
    ReadOne(p, InEvent(e), summary);
    ReadDescription(p, Trim(d.description), titled);
    ReadLocation(p, Trim(d.location), titled.(description := TextValue(Trim(d.description))));
    ReadLinesAppend(p, InEvent(e), [summary] + description, location);
    ReadLinesAppend(p, InEvent(e), [summary], description);
  }

  lemma ReadBlank(p: Platform, r: Reading)
    ensures ReadLine(p, r, "") == r
  {
  }

  /** The event has been closed; the calendar may still be open. */
  function AfterEvent(e: Event, components: seq<string>): Reading {
    InEvent(e).(components := components, events := [e], event := None)
  }

  lemma EndBoth(e: Event)
    ensures EndComponent(InEvent(e), "VEVENT") == AfterEvent(e, ["VCALENDAR"])
    ensures EndComponent(AfterEvent(e, ["VCALENDAR"]), "VCALENDAR") == AfterEvent(e, [])
  {
    assert Popped(["VCALENDAR", "VEVENT"]) == ["VCALENDAR"];
    assert Popped(["VCALENDAR"]) == [];
  }

  lemma ReadClosing(p: Platform, e: Event)
    requires Conforms(p)
    ensures ReadLines(p, InEvent(e), CLOSING + [""]) == AfterEvent(e, [])
  {
    hide IcsReader.ReadLine, IcsReader.ReadLines, IcsReader.EndComponent, PropertyLine, InEvent, AfterEvent;
    NamesInUse();
    EndBoth(e);
    ReadEnd(p, InEvent(e), "VEVENT");
    ReadEnd(p, AfterEvent(e, ["VCALENDAR"]), "VCALENDAR");
    ReadTwo(p, InEvent(e), PropertyLine("END", "VEVENT"), PropertyLine("END", "VCALENDAR"));
    ReadLinesAppend(p, InEvent(e), CLOSING, [""]);
    ReadOne(p, AfterEvent(e, []), "");
    ReadBlank(p, AfterEvent(e, []));
  }

  /** The event a written draft is read back as. */
  function ReadBack(p: Platform, d: Draft, uid: string): Event {
    Event(Some(uid), Some(Normalise(Trim(d.summary))), TextValue(Trim(d.description)), TextValue(Trim(d.location)),
          None, None, None, StartValue(p, d), EndValue(p, d))
  }

  lemma ReadFromStamp(p: Platform, d: Draft, uid: string, stamp: int)
    requires Conforms(p) && TimeLines(p, d).Some?
    ensures var times := TimeLines(p, d).value;
            ReadLines(p, InEvent(NEW_EVENT), StampLines(uid, stamp) + ([times.0, times.1] + TextLines(d)))
            == InEvent(ReadBack(p, d, uid))
  {
    var times := [TimeLines(p, d).value.0, TimeLines(p, d).value.1];
    var named := NEW_EVENT.(uid := Some(uid));
    var timed := named.(start := StartValue(p, d), end := EndValue(p, d));
    ReadLinesAppend(p, InEvent(NEW_EVENT), StampLines(uid, stamp), times + TextLines(d));
    ReadStamp(p, uid, stamp);
    ReadLinesAppend(p, InEvent(named), times, TextLines(d));
    ReadTimes(p, d, named);
    ReadTexts(p, d, timed);
  }

  lemma Regroup(a: seq<string>, b: seq<string>, c: seq<string>, d: seq<string>, e: seq<string>, f: seq<string>)
    ensures a + (b + (c + (d + e))) + f == a + ((b + (c + d)) + (e + f))
  {
  }

  lemma ReadCalendarLines(p: Platform, d: Draft, uid: string, stamp: Option<int>)
    requires Conforms(p) && CalendarLines(p, d, uid, stamp).Some?
    ensures ReadLines(p, NOTHING_READ, CalendarLines(p, d, uid, stamp).value + [""])
            == AfterEvent(ReadBack(p, d, uid), [])
  {
    var times := [TimeLines(p, d).value.0, TimeLines(p, d).value.1];
    var body := StampLines(uid, stamp.value) + (times + TextLines(d));
    Regroup(OPENING, StampLines(uid, stamp.value), times, TextLines(d), CLOSING, [""]);
    ReadLinesAppend(p, NOTHING_READ, OPENING, body + (CLOSING + [""]));
    ReadOpening(p);
    ReadLinesAppend(p, InEvent(NEW_EVENT), body, CLOSING + [""]);
    ReadFromStamp(p, d, uid, stamp.value);
    ReadClosing(p, ReadBack(p, d, uid));
  }

  // ---------------------------------------------------------------------------------------
  // Round trips
  // ---------------------------------------------------------------------------------------

  /**
    Print and parse: whatever a draft says, reading what was written for it reports no errors and
    exactly one event, with the trimmed texts, their line breaks normalised to LF, and null for
    texts that are empty.
  */
  lemma CalendarReadsBack(p: Platform, d: Draft, uid: string, stamp: Option<int>)
    requires Conforms(p) && Writable(p, d, uid, stamp)
    requires OneLine(uid) && (d.allDay ==> OneLine(d.start))
    ensures ParseIcsFile(p, CalendarText(p, d, uid, stamp))
            == ParsedFile(Some(PRODUCT_ID), Some("2.0"), None, [ReadBack(p, d, uid)], [])
  {
    hide CalendarLines, ReadBack, IcsText.Document, IcsText.Plain;
    CalendarLinesArePlain(p, d, uid, stamp);
    DocumentLines(CalendarLines(p, d, uid, stamp).value);
    ReadCalendarLines(p, d, uid, stamp);
  }

  /** No physical line of the written file is longer than 75 octets. */
  lemma CalendarFits(p: Platform, d: Draft, uid: string, stamp: Option<int>, k: nat)
    requires Writable(p, d, uid, stamp) && k < |SplitLines(CalendarText(p, d, uid, stamp))|
    requires OneLine(uid) && (d.allDay ==> OneLine(d.start))
    ensures |Utf8Encode(SplitLines(CalendarText(p, d, uid, stamp))[k])| <= 75
  {
    hide CalendarLines, IcsText.SplitLines, IcsText.Document, IcsText.Utf8Encode;
    CalendarLinesArePlain(p, d, uid, stamp);
    DocumentFits(CalendarLines(p, d, uid, stamp).value);
  }

  /** The UID comes back exactly when it holds no line break: one with a break is never recovered. */
  lemma UidReadsBackExactlyWhenOneLine(p: Platform, d: Draft, uid: string, stamp: Option<int>)
    requires Conforms(p) && Writable(p, d, uid, stamp) && (d.allDay ==> OneLine(d.start))
    ensures var events := ParseIcsFile(p, CalendarText(p, d, uid, stamp)).events;
            (exists i :: 0 <= i < |events| && events[i].uid == Some(uid)) <==> OneLine(uid)
  {
    hide CalendarText, IcsReader.ParseIcsFile, IcsText.OneLine;
    var events := ParseIcsFile(p, CalendarText(p, d, uid, stamp)).events;
    if OneLine(uid) {
      CalendarReadsBack(p, d, uid, stamp);
      assert events[0].uid == Some(uid);
    }
    if i :| 0 <= i < |events| && events[i].uid == Some(uid) {
      ParsedUidsAreOneLine(p, CalendarText(p, d, uid, stamp), i);
    }
  }

  lemma DatesAreInRange(d: Date)
    requires FourDigitYear(d)
    ensures -MAX_TIME <= MidnightOf(d) <= MAX_TIME - MS_PER_DAY
  {
    DayInYearBounds(IsLeap(d.year), d.month, d.day);
    NextYear(d.year);
    YearStartClosedForm(d.year);
  }

  lemma ShiftFrom(p: Platform, isoDate: string, n: int)
    requires p.parseDate(isoDate + "T00:00:00Z") == Some((n - EPOCH_DAY) * MS_PER_DAY)
    requires -MAX_TIME <= (n - EPOCH_DAY) * MS_PER_DAY <= MAX_TIME - MS_PER_DAY
    ensures ShiftIsoDate(p, isoDate, 1) == Some(IsoDay(n + 1))
  {
    hide IcsDateText.ToIsoString;
    assert (n - EPOCH_DAY) * MS_PER_DAY + 1 * MS_PER_DAY == (n + 1 - EPOCH_DAY) * MS_PER_DAY;
  }

  lemma ShiftWrittenDate(p: Platform, d: Date)
    requires Conforms(p) && FourDigitYear(d)
    ensures ShiftIsoDate(p, IsoDate(d), 1) == Some(ShiftDate(d, 1))
  {
    hide IcsDateText.ToIsoString, IcsDates.DayNumber;
    DatesAreInRange(d);
    ShiftFrom(p, IsoDate(d), DayNumber(d));
  }

  /**
    An all-day draft is valid exactly when it has a title and its end is not before its start,
    and it is then always written.
  */
  lemma AllDayDraftIsWritten(p: Platform, d: Draft, start: Date, end: Date, uid: string, stamp: int)
    requires Conforms(p) && d.allDay && FourDigitYear(start) && FourDigitYear(end)
    requires d.start == IsoDate(start) && d.end == IsoDate(end)
    ensures ValidateDraft(p, d) == [] <==> Trim(d.summary) != "" && DayNumber(start) <= DayNumber(end)
    ensures ValidateDraft(p, d) == [] <==> Writable(p, d, uid, Some(stamp))
  {
    hide IcsDateText.IsoDate, IcsDates.DayNumber, IcsDateOrder.Less, IcsDateText.ToIsoString, IcsDateText.FormatCompactDate;
    IsoDateLength(start);
    IsoDateLength(end);
    DateTextOrder(end, start);
    ShiftWrittenDate(p, end);
  }

  /** The premises of the round trips can be met together. */
  lemma SomeDraftIsWritten(day: Date)
    requires FourDigitYear(day)
    ensures exists p, d :: Conforms(p) && Writable(p, d, "", Some(0))
  {
    SomePlatformConforms();
    var p :| Conforms(p);
    var d := Draft("Title", "", "", true, IsoDate(day), IsoDate(day));
    assert !IsWhitespace(d.summary[0]);
    AllDayDraftIsWritten(p, d, day, day, "", 0);
    assert Conforms(p) && Writable(p, d, "", Some(0));
  }

  /**
    All-day round trip: the start date comes back as it was and the end as the day after, which
    is the exclusive end of section 3.8.2.2 of RFC 5545.  Only an end on the last day of year
    9999 is not read back.
  */
  lemma AllDayRoundTrip(p: Platform, d: Draft, start: Date, end: Date, uid: string, stamp: Option<int>)
    requires Conforms(p) && d.allDay && FourDigitYear(start) && FourDigitYear(end)
    requires d.start == IsoDate(start) && d.end == IsoDate(end)
    requires Writable(p, d, uid, stamp) && OneLine(uid)
    ensures var parsed := ParseIcsFile(p, CalendarText(p, d, uid, stamp));
            var events := parsed.events;
            && parsed.errors == [] && events == [ReadBack(p, d, uid)]
            && events[0].start
               == Some(IcsDateValue(FormatCompactDate(d.start), None, false, true, start.year, start.month, start.day, 0, 0, 0))
            && (events[0].end.None? <==> end == Date(9999, 12, 31))
            && (events[0].end.Some? ==>
                  var (value, next) := (events[0].end.value, NextDay(end));
                  && value.isDateOnly && (value.year, value.month, value.day) == (next.year, next.month, next.day)
                  && IsDate(next) && DayNumber(start) < DayNumber(next))
  {
    IsoDateIsOneLine(start);
    CalendarReadsBack(p, d, uid, stamp);
    DateRoundTrip(start, None);
    ShiftWrittenDate(p, end);
    ExclusiveEndRoundTrip(end, None);
    NextDayNumber(end);
    DateTextOrder(end, start);
    ValidRange(p, d);
  }

  lemma ValidRange(p: Platform, d: Draft)
    requires ValidateDraft(p, d) == []
    ensures Trim(d.summary) != "" && d.start != "" && d.end != ""
    ensures if d.allDay then !Less(d.end, d.start)
            else p.parseDate(d.start).Some? && p.parseDate(d.end).Some? && p.parseDate(d.start).value < p.parseDate(d.end).value
  {
  }

  /**
    Timed round trip: both instants come back as their UTC date and time, to the second, exactly
    when their years have four digits; the end is a later instant than the start.
  */
  lemma TimedRoundTrip(p: Platform, d: Draft, uid: string, stamp: Option<int>)
    requires Conforms(p) && !d.allDay && Writable(p, d, uid, stamp) && OneLine(uid)
    ensures p.parseDate(d.start).Some? && p.parseDate(d.end).Some? && p.parseDate(d.start).value < p.parseDate(d.end).value
    ensures var parsed := ParseIcsFile(p, CalendarText(p, d, uid, stamp));
            var events := parsed.events;
            && parsed.errors == [] && events == [ReadBack(p, d, uid)]
            && events[0].start == InstantValue(p.parseDate(d.start).value, None)
            && events[0].end == InstantValue(p.parseDate(d.end).value, None)
  {
    ValidRange(p, d);
    CalendarReadsBack(p, d, uid, stamp);
  }

  /**
    The texts of the original: what lies between the outer white space of summary, description and
    location is what comes back, with its line breaks as LF; white space alone comes back as null.
  */
  lemma TextsComeBack(
    p: Platform, d: Draft, uid: string, stamp: Option<int>,
    summary: string, i: nat, j: nat, description: string, k: nat, l: nat, location: string, m: nat, n: nat)
    requires Conforms(p) && Writable(p, d, uid, stamp) && OneLine(uid) && (d.allDay ==> OneLine(d.start))
    requires IsCore(summary, d.summary, i, j) && IsCore(description, d.description, k, l) && IsCore(location, d.location, m, n)
    ensures var events := ParseIcsFile(p, CalendarText(p, d, uid, stamp)).events;
            && |events| == 1 && events[0].summary == Some(Normalise(summary))
            && events[0].description == (if description == "" then None else Some(Normalise(description)))
            && events[0].location == (if location == "" then None else Some(Normalise(location)))
  {
    hide CalendarText, IcsReader.ParseIcsFile, IcsText.Normalise, StartValue, EndValue, IcsText.Trim, IcsText.IsCore, Writable;
    CalendarReadsBack(p, d, uid, stamp);
    TrimIsUnique(summary, d.summary, i, j);
    TrimIsUnique(description, d.description, k, l);
    TrimIsUnique(location, d.location, m, n);
  }

  /** The fixed lines of every calendar, the identity of its event and when it was made. */
  lemma WrittenLines(p: Platform, d: Draft, uid: string, stamp: int)
    requires CalendarLines(p, d, uid, Some(stamp)).Some?
    ensures var lines := CalendarLines(p, d, uid, Some(stamp)).value;
            && |lines| >= 12
            && lines[0] == "BEGIN:VCALENDAR" && lines[1] == "VERSION:2.0"
            && lines[2] == "PRODID:" + PRODUCT_ID
            && lines[3] == "CALSCALE:GREGORIAN" && lines[4] == "BEGIN:VEVENT"
            && lines[5] == "UID:" + uid && lines[6] == "DTSTAMP:" + FormatUtcDateTime(stamp)
            && lines[|lines| - 2] == "END:VEVENT" && lines[|lines| - 1] == "END:VCALENDAR"
    ensures ParseDateText(FormatUtcDateTime(stamp), None) == InstantValue(stamp, None)
  {
    hide IcsDateText.FormatUtcDateTime, TimeLines, TextLine, IcsDateText.ParseDateText, IcsDateText.InstantValue;
    InstantRoundTrip(stamp, None);
    var times := TimeLines(p, d).value;
    LinesInPlace(OPENING, StampLines(uid, stamp), [times.0, times.1], TextLines(d), CLOSING);
    FixedLinesSpelledOut(uid, FormatUtcDateTime(stamp));
  }

  lemma LinesInPlace(a: seq<string>, b: seq<string>, c: seq<string>, d: seq<string>, e: seq<string>)
    requires |a| == 5 && |b| == 2 && |c| == 2 && |d| >= 1 && |e| == 2
    ensures var lines := a + (b + (c + (d + e)));
            && |lines| >= 12 && lines[..5] == a && lines[5] == b[0] && lines[6] == b[1]
            && lines[|lines| - 2] == e[0] && lines[|lines| - 1] == e[1]
            && lines[0] == a[0] && lines[1] == a[1] && lines[2] == a[2] && lines[3] == a[3] && lines[4] == a[4]
  {
  }

  lemma FixedLinesSpelledOut(uid: string, stamp: string)
    ensures PropertyLine("BEGIN", "VCALENDAR") == "BEGIN:VCALENDAR" && PropertyLine("VERSION", "2.0") == "VERSION:2.0"
    ensures PropertyLine("PRODID", PRODUCT_ID) == "PRODID:" + PRODUCT_ID
    ensures PropertyLine("CALSCALE", "GREGORIAN") == "CALSCALE:GREGORIAN" && PropertyLine("BEGIN", "VEVENT") == "BEGIN:VEVENT"
    ensures PropertyLine("UID", uid) == "UID:" + uid && PropertyLine("DTSTAMP", stamp) == "DTSTAMP:" + stamp
    ensures PropertyLine("END", "VEVENT") == "END:VEVENT" && PropertyLine("END", "VCALENDAR") == "END:VCALENDAR"
  {
    assert "UID" + ":" == "UID:" && "DTSTAMP" + ":" == "DTSTAMP:" && "PRODID" + ":" == "PRODID:";
  }

  /** A timed draft is valid exactly with a title and two readable times, the end after the start. */
  lemma TimedDraftIsValid(p: Platform, d: Draft)
    requires !d.allDay
    ensures ValidateDraft(p, d) == [] <==>
              && Trim(d.summary) != "" && d.start != "" && d.end != ""
              && p.parseDate(d.start).Some? && p.parseDate(d.end).Some?
              && p.parseDate(d.start).value < p.parseDate(d.end).value
  {
    hide IcsText.Trim;
  }

  lemma InOneOfFour(e: DraftError, a: seq<DraftError>, b: seq<DraftError>, c: seq<DraftError>, d: seq<DraftError>)
    ensures e in a + b + c + d <==> e in a || e in b || e in c || e in d
  {
  }

  /** Every complaint is made exactly when there is reason for it. */
  lemma DraftErrors(p: Platform, d: Draft, e: DraftError)
    ensures var dated := d.start != "" && d.end != "";
            e in ValidateDraft(p, d) <==>
              match e
              case NoTitle => Trim(d.summary) == ""
              case NoStartDate => d.start == "" && d.allDay
              case NoStartTime => d.start == "" && !d.allDay
              case NoEndDate => d.end == "" && d.allDay
              case NoEndTime => d.end == "" && !d.allDay
              case EndDateBeforeStart => dated && d.allDay && Less(d.end, d.start)
              case NotDateAndTime => dated && !d.allDay && (p.parseDate(d.start).None? || p.parseDate(d.end).None?)
              case EndTimeNotAfterStart =>
                && dated && !d.allDay && p.parseDate(d.start).Some? && p.parseDate(d.end).Some?
                && p.parseDate(d.end).value <= p.parseDate(d.start).value
  {
    hide IcsText.Trim, IcsDateOrder.Less;
    var range := if d.start == "" || d.end == "" then [] else RangeErrors(p, d);
    InOneOfFour(
      e, When(Trim(d.summary) == "", NoTitle), When(d.start == "", if d.allDay then NoStartDate else NoStartTime),
      When(d.end == "", if d.allDay then NoEndDate else NoEndTime), range);
  }
}
