/**
  The reader of applications/web/src/utils/ics.ts: the component stack and the events it collects.

  Pure functions say what each part computes; `FileReader` is the loop that changes the parsed
  file, the stack and the open event line by line.
*/
module IcsReader {
  import opened Wrappers
  import opened IcsText
  import opened IcsDateText
  import opened IcsContentLine

  // ---------------------------------------------------------------------------------------
  // Events
  // ---------------------------------------------------------------------------------------

  datatype Event = Event(
    uid: Option<string>, summary: Option<string>, description: Option<string>, location: Option<string>,
    organizer: Option<string>, status: Option<string>, recurrenceRule: Option<string>,
    start: Option<IcsDateValue>, end: Option<IcsDateValue>)

  const NEW_EVENT := Event(None, None, None, None, None, None, None, None, None)

  function Parameter(line: ContentLine, key: string): Option<string> {
    if key in line.parameters then Some(line.parameters[key]) else None
  }

  function ParseDateValue(line: ContentLine): Option<IcsDateValue> {
    ParseDateText(line.value, Parameter(line, "TZID"))
  }

  predicate SameLetter(c: char, lower: char) {
    c == lower || ('A' <= c <= 'Z' && c as int + 32 == lower as int)
  }

  /** value.replace(/^mailto:/i, "") */
  function WithoutMailto(value: string): string {
    var scheme := "mailto:";
    if |value| >= 7 && forall i :: 0 <= i < 7 ==> SameLetter(value[i], scheme[i]) then value[7..] else value
  }

  function ApplyEventProperty(e: Event, line: ContentLine): Event {
    if line.name == "UID" then e.(uid := Some(line.value))
    else if line.name == "SUMMARY" then e.(summary := Some(UnescapeText(line.value)))
    else if line.name == "DESCRIPTION" then e.(description := Some(UnescapeText(line.value)))
    else if line.name == "LOCATION" then e.(location := Some(UnescapeText(line.value)))
    else if line.name == "ORGANIZER" then
      e.(organizer := Some(if "CN" in line.parameters then line.parameters["CN"] else WithoutMailto(line.value)))
    else if line.name == "STATUS" then e.(status := Some(line.value))
    else if line.name == "RRULE" then e.(recurrenceRule := Some(line.value))
    else if line.name == "DTSTART" then e.(start := ParseDateValue(line))
    else if line.name == "DTEND" then e.(end := ParseDateValue(line))
    else e
  }

  // ---------------------------------------------------------------------------------------
  // Files
  // ---------------------------------------------------------------------------------------

  datatype ParsedFile = ParsedFile(
    productId: Option<string>, version: Option<string>, calendarName: Option<string>, events: seq<Event>, errors: seq<string>)

  /** Everything the loop over the lines changes. */
  datatype Reading = Reading(
    productId: Option<string>, version: Option<string>, calendarName: Option<string>, events: seq<Event>, errors: seq<string>,
    components: seq<string>, event: Option<Event>, sawCalendar: bool)

  const NOTHING_READ := Reading(None, None, None, [], [], [], None, false)

  const NOT_A_CALENDAR: string := "No BEGIN:VCALENDAR block was found, so this is not an ICS file."

  function Top(components: seq<string>): Option<string> {
    if components == [] then None else Some(components[|components| - 1])
  }

  function Popped(components: seq<string>): seq<string> {
    if components == [] then [] else components[..|components| - 1]
  }

  function BeginComponent(r: Reading, component: string): Reading {
    r.(components := r.components + [component],
       sawCalendar := r.sawCalendar || component == "VCALENDAR",
       event := if component == "VEVENT" then Some(NEW_EVENT) else r.event)
  }

  /** END pops whatever component is on top; only END:VEVENT also closes the open event. */
  function EndComponent(r: Reading, component: string): Reading {
    var closes := component == "VEVENT" && r.event.Some?;
    r.(components := Popped(r.components),
       events := if closes then r.events + [r.event.value] else r.events,
       event := if closes then None else r.event)
  }

  function ReadProperty(r: Reading, line: ContentLine): Reading {
    if r.event.Some? then
      if Top(r.components) == Some("VEVENT") then r.(event := Some(ApplyEventProperty(r.event.value, line))) else r
    else if Top(r.components) != Some("VCALENDAR") then r
    else
      r.(productId := if line.name == "PRODID" then Some(line.value) else r.productId,
         version := if line.name == "VERSION" then Some(line.value) else r.version,
         calendarName := if line.name == "X-WR-CALNAME" then Some(UnescapeText(line.value)) else r.calendarName)
  }

  function ReadContentLine(p: Platform, r: Reading, line: ContentLine): Reading {
    if line.name == "BEGIN" then BeginComponent(r, p.upper(line.value))
    else if line.name == "END" then EndComponent(r, p.upper(line.value))
    else ReadProperty(r, line)
  }

  function BadLine(raw: string): string {
    "Line without a property name or value: \"" + Trim(raw) + "\""
  }

  function ReadLine(p: Platform, r: Reading, raw: string): Reading {
    if Trim(raw) == "" then r
    else match ParseContentLine(p, raw)
      case None => r.(errors := r.errors + [BadLine(raw)])
      case Some(line) => ReadContentLine(p, r, line)
  }

  function ReadLines(p: Platform, r: Reading, lines: seq<string>): Reading
    decreases |lines|
  {
    if lines == [] then r else ReadLines(p, ReadLine(p, r, lines[0]), lines[1..])
  }

  function Finish(r: Reading): ParsedFile {
    ParsedFile(r.productId, r.version, r.calendarName, r.events, if r.sawCalendar then r.errors else [NOT_A_CALENDAR])
  }

  function ParseIcsFile(p: Platform, text: string): ParsedFile {
    Finish(ReadLines(p, NOTHING_READ, SplitLines(Unfold(text))))
  }

  /** `parseIcsFile` as it runs. */
  class FileReader {
    const p: Platform
    var productId: Option<string>
    var version: Option<string>
    var calendarName: Option<string>
    var events: seq<Event>
    var errors: seq<string>
    var components: seq<string>
    var event: Option<Event>
    var sawCalendar: bool

    function View(): Reading
      reads this
    {
      Reading(productId, version, calendarName, events, errors, components, event, sawCalendar)
    }

    constructor (p: Platform)
      ensures this.p == p && View() == NOTHING_READ
    {
      this.p := p;
      productId, version, calendarName, events, errors := None, None, None, [], [];
      components, event, sawCalendar := [], None, false;
    }

    method Begin(component: string)
      modifies this
      ensures View() == BeginComponent(old(View()), component)
    {
      components := components + [component];
      if component == "VCALENDAR" {
        sawCalendar := true;
      }
      if component == "VEVENT" {
        event := Some(NEW_EVENT);
      }
    }

    method End(component: string)
      modifies this
      ensures View() == EndComponent(old(View()), component)
    {
      if component == "VEVENT" && event.Some? {
        events := events + [event.value];
        event := None;
      }
      if components != [] {
        components := components[..|components| - 1];
      }
    }

    method Property(line: ContentLine)
      modifies this
      ensures View() == ReadProperty(old(View()), line)
    {
      if event.Some? && Top(components) == Some("VEVENT") {
        event := Some(ApplyEventProperty(event.value, line));
        return;
      }
      if event.Some? {
        return;
      }
      if Top(components) != Some("VCALENDAR") {
        return;
      }
      if line.name == "PRODID" {
        productId := Some(line.value);
      }
      if line.name == "VERSION" {
        version := Some(line.value);
      }
      if line.name == "X-WR-CALNAME" {
        calendarName := Some(UnescapeText(line.value));
      }
    }

    method Line(raw: string)
      modifies this
      ensures View() == ReadLine(p, old(View()), raw)
    {
      if Trim(raw) == "" {
        return;
      }
      var line := ScanContentLine(p, raw);
      if line.None? {
        errors := errors + [BadLine(raw)];
        return;
      }
      if line.value.name == "BEGIN" {
        Begin(p.upper(line.value.value));
      } else if line.value.name == "END" {
        End(p.upper(line.value.value));
      } else {
        Property(line.value);
      }
    }

    method Parse(text: string) returns (parsed: ParsedFile)
      requires View() == NOTHING_READ
      modifies this
      ensures parsed == ParseIcsFile(p, text)
    {
      var lines := SplitLines(Unfold(text));
      var n := 0;
      while n < |lines|
        invariant 0 <= n <= |lines|
        invariant ReadLines(p, View(), lines[n..]) == ReadLines(p, NOTHING_READ, lines)
      {
        assert lines[n..][1..] == lines[n + 1..];
        Line(lines[n]);
        n := n + 1;
      }
      if !sawCalendar {
        errors := [NOT_A_CALENDAR];
      }
      parsed := ParsedFile(productId, version, calendarName, events, errors);
    }
  }

  lemma {:induction false} ReadLinesAppend(p: Platform, r: Reading, a: seq<string>, b: seq<string>)
    ensures ReadLines(p, r, a + b) == ReadLines(p, ReadLines(p, r, a), b)
    decreases |a|
  {
    if a == [] {
      assert a + b == b;
    } else {
      assert (a + b)[1..] == a[1..] + b;
      ReadLinesAppend(p, ReadLine(p, r, a[0]), a[1..], b);
    }
  }

  // ---------------------------------------------------------------------------------------
  // Nested components
  // ---------------------------------------------------------------------------------------

  datatype Kind = Ignored | Opens(component: string) | Closes(component: string) | Assigns

  function KindOf(p: Platform, raw: string): Kind {
    if Trim(raw) == "" then Ignored
    else match ParseContentLine(p, raw)
      case None => Ignored
      case Some(line) =>
        if line.name == "BEGIN" then Opens(p.upper(line.value))
        else if line.name == "END" then Closes(p.upper(line.value))
        else Assigns
  }

  /**
    The lines close every component they open and none that was open before, `depth` components
    being open at the start; none of them opens or closes a VEVENT, and properties stand only
    inside the components they open.
  */
  predicate Nested(p: Platform, lines: seq<string>, depth: nat)
    decreases |lines|
  {
    if lines == [] then depth == 0
    else match KindOf(p, lines[0])
      case Ignored => Nested(p, lines[1..], depth)
      case Opens(component) => component != "VEVENT" && Nested(p, lines[1..], depth + 1)
      case Closes(component) => component != "VEVENT" && depth > 0 && Nested(p, lines[1..], depth - 1)
      case Assigns => depth > 0 && Nested(p, lines[1..], depth)
  }

  /** The same but for reported errors and whether a calendar has begun. */
  ghost predicate Agree(r: Reading, s: Reading) {
    s == r.(errors := s.errors, sawCalendar := s.sawCalendar)
  }

  lemma AgreeStep(p: Platform, r: Reading, s: Reading, raw: string)
    requires Agree(r, s)
    ensures Agree(ReadLine(p, r, raw), ReadLine(p, s, raw))
  {
    hide IcsText.Trim, IcsText.UnescapeText, IcsContentLine.ParseContentLine, ApplyEventProperty;
  }

  /** Errors and the calendar flag never influence what is read. */
  lemma {:induction false} AgreeLines(p: Platform, r: Reading, s: Reading, lines: seq<string>)
    requires Agree(r, s)
    ensures Agree(ReadLines(p, r, lines), ReadLines(p, s, lines))
    decreases |lines|
  {
    if lines != [] {
      AgreeStep(p, r, s, lines[0]);
      AgreeLines(p, ReadLine(p, r, lines[0]), ReadLine(p, s, lines[0]), lines[1..]);
    }
  }

  /** `inner` components, none of them a VEVENT, lie on top of what r had. */
  ghost predicate Above(r: Reading, s: Reading, inner: seq<string>) {
    && (forall i :: 0 <= i < |inner| ==> inner[i] != "VEVENT")
    && s.components == r.components + inner
    && Agree(r, s.(components := r.components))
  }

  lemma AboveStep(p: Platform, r: Reading, s: Reading, inner: seq<string>, raw: string) returns (inner': seq<string>)
    requires r.event.Some? && Above(r, s, inner)
    requires match KindOf(p, raw)
             case Ignored => true
             case Opens(component) => component != "VEVENT"
             case Closes(component) => component != "VEVENT" && inner != []
             case Assigns => inner != []
    ensures Above(r, ReadLine(p, s, raw), inner')
    ensures match KindOf(p, raw)
            case Opens(_) => |inner'| == |inner| + 1
            case Closes(_) => |inner'| == |inner| - 1
            case _ => |inner'| == |inner|
  {
    var kind := KindOf(p, raw);
    if kind.Opens? {
      inner' := inner + [kind.component];
      assert s.components + [kind.component] == r.components + inner';
    } else if kind.Closes? {
      inner' := inner[..|inner| - 1];
      assert Popped(s.components) == r.components + inner';
    } else {
      inner' := inner;
      if kind.Assigns? {
        assert Top(s.components) == Some(inner[|inner| - 1]);
      }
    }
  }

  lemma {:induction false} BlockReturns(p: Platform, r: Reading, s: Reading, inner: seq<string>, block: seq<string>)
    requires r.event.Some? && Above(r, s, inner) && Nested(p, block, |inner|)
    ensures Agree(r, ReadLines(p, s, block))
    decreases |block|
  {
    if block == [] {
      assert r.components + inner == r.components;
    } else {
      var inner' := AboveStep(p, r, s, inner, block[0]);
      BlockReturns(p, r, ReadLine(p, s, block[0]), inner', block[1..]);
    }
  }

  /**
    Nested components do not leak: inserted anywhere inside an open event, at any depth, a
    balanced block of other components changes neither the events nor the calendar's properties.
  */
  lemma NestedComponentsDoNotLeak(p: Platform, before: seq<string>, block: seq<string>, after: seq<string>)
    requires ReadLines(p, NOTHING_READ, before).event.Some? && Nested(p, block, 0)
    ensures var without := ReadLines(p, NOTHING_READ, before + after);
            var inserted := ReadLines(p, NOTHING_READ, before + block + after);
            && Finish(inserted).events == Finish(without).events
            && Finish(inserted).(errors := []) == Finish(without).(errors := [])
  {
    hide ReadLine;
    var r := ReadLines(p, NOTHING_READ, before);
    assert before + block + after == before + (block + after);
    ReadLinesAppend(p, NOTHING_READ, before, after);
    ReadLinesAppend(p, NOTHING_READ, before, block + after);
    ReadLinesAppend(p, r, block, after);
    assert r.components + [] == r.components;
    BlockReturns(p, r, r, [], block);
    AgreeLines(p, r, ReadLines(p, r, block), after);
  }

  // ---------------------------------------------------------------------------------------
  // What raw values can hold
  // ---------------------------------------------------------------------------------------

  lemma {:induction false} SplitLinesAreOneLine(s: string)
    ensures forall k :: 0 <= k < |SplitLines(s)| ==> OneLine(SplitLines(s)[k])
    decreases |s|
  {
    if s == "" {
    } else if |s| >= 2 && s[0] == '\r' && s[1] == '\n' {
      SplitLinesAreOneLine(s[2..]);
    } else {
      SplitLinesAreOneLine(s[1..]);
    }
  }

  ghost predicate UidIsOneLine(e: Event) {
    e.uid.Some? ==> OneLine(e.uid.value)
  }

  ghost predicate UidsAreOneLine(r: Reading) {
    (r.event.Some? ==> UidIsOneLine(r.event.value)) && forall i :: 0 <= i < |r.events| ==> UidIsOneLine(r.events[i])
  }

  lemma ReadLineUids(p: Platform, r: Reading, raw: string)
    requires UidsAreOneLine(r) && OneLine(raw)
    ensures UidsAreOneLine(ReadLine(p, r, raw))
  {
    hide IcsText.Trim, IcsText.UnescapeText, IcsDateText.ParseDateText;
    var line := ParseContentLine(p, raw);
    if line.Some? {
      assert OneLine(line.value.value);
    }
  }

  lemma {:induction false} ReadLinesUids(p: Platform, r: Reading, lines: seq<string>)
    requires UidsAreOneLine(r) && forall k :: 0 <= k < |lines| ==> OneLine(lines[k])
    ensures UidsAreOneLine(ReadLines(p, r, lines))
    decreases |lines|
  {
    hide ReadLine, UidsAreOneLine;
    if lines != [] {
      ReadLineUids(p, r, lines[0]);
      ReadLinesUids(p, ReadLine(p, r, lines[0]), lines[1..]);
    }
  }

  /** No event of any file has a line break in its UID. */
  lemma ParsedUidsAreOneLine(p: Platform, text: string, i: nat)
    requires i < |ParseIcsFile(p, text).events|
    ensures UidIsOneLine(ParseIcsFile(p, text).events[i])
  {
    var lines := SplitLines(Unfold(text));
    SplitLinesAreOneLine(Unfold(text));
    ReadLinesUids(p, NOTHING_READ, lines);
  }

  // ---------------------------------------------------------------------------------------
  // What is reported
  // ---------------------------------------------------------------------------------------

  /** One complaint for each line that is not blank and has no colon outside quotes, in order. */
  function Complaints(lines: seq<string>): seq<string>
    decreases |lines|
  {
    if lines == [] then []
    else
      (if Trim(lines[0]) != "" && ColonFrom(lines[0], 0) == |lines[0]|
       then ["Line without a property name or value: \"" + Trim(lines[0]) + "\""] else [])
      + Complaints(lines[1..])
  }

  ghost predicate OpensCalendar(p: Platform, lines: seq<string>) {
    exists i :: 0 <= i < |lines| && KindOf(p, lines[i]) == Opens("VCALENDAR")
  }

  lemma ReadLineReports(p: Platform, r: Reading, raw: string)
    ensures ReadLine(p, r, raw).errors == r.errors + Complaints([raw])
    ensures ReadLine(p, r, raw).sawCalendar <==> r.sawCalendar || KindOf(p, raw) == Opens("VCALENDAR")
  {
    hide Trim, ApplyEventProperty, IcsText.UnescapeText;
    assert [raw][1..] == [] && Complaints([]) == [];
  }

  lemma ComplaintsFirst(lines: seq<string>)
    requires lines != []
    ensures Complaints(lines) == Complaints([lines[0]]) + Complaints(lines[1..])
  {
    assert [lines[0]][1..] == [] && Complaints([]) == [];
  }

  lemma OpensFirst(p: Platform, lines: seq<string>)
    requires lines != []
    ensures OpensCalendar(p, lines) <==> KindOf(p, lines[0]) == Opens("VCALENDAR") || OpensCalendar(p, lines[1..])
  {
    hide KindOf;
    if OpensCalendar(p, lines[1..]) {
      var i :| 0 <= i < |lines[1..]| && KindOf(p, lines[1..][i]) == Opens("VCALENDAR");
      assert KindOf(p, lines[i + 1]) == Opens("VCALENDAR");
    }
    if OpensCalendar(p, lines) {
      var i :| 0 <= i < |lines| && KindOf(p, lines[i]) == Opens("VCALENDAR");
      assert i > 0 ==> KindOf(p, lines[1..][i - 1]) == Opens("VCALENDAR");
    }
  }

  lemma ReadLinesReportStep(p: Platform, r: Reading, lines: seq<string>)
    requires lines != []
    ensures ReadLines(p, r, lines).errors == r.errors + Complaints(lines)
    ensures ReadLines(p, r, lines).sawCalendar <==> r.sawCalendar || OpensCalendar(p, lines)
    decreases |lines|, 0
  {
    hide ReadLine, OpensCalendar, Complaints, KindOf;
    var (first, rest) := (Complaints([lines[0]]), Complaints(lines[1..]));
    ReadLineReports(p, r, lines[0]);
    ReadLinesReport(p, ReadLine(p, r, lines[0]), lines[1..]);
    ComplaintsFirst(lines);
    OpensFirst(p, lines);
    assert (r.errors + first) + rest == r.errors + (first + rest);
  }

  lemma {:induction false} ReadLinesReport(p: Platform, r: Reading, lines: seq<string>)
    ensures ReadLines(p, r, lines).errors == r.errors + Complaints(lines)
    ensures ReadLines(p, r, lines).sawCalendar <==> r.sawCalendar || OpensCalendar(p, lines)
    decreases |lines|, 1
  {
    if lines == [] {
      assert r.errors + [] == r.errors;
    } else {
      ReadLinesReportStep(p, r, lines);
    }
  }

  /**
    The errors of any file: its malformed lines, in order, if it opens a calendar anywhere, and
    otherwise only that it is not a calendar.
  */
  lemma ReportedErrors(p: Platform, text: string)
    ensures var lines := SplitLines(Unfold(text));
            ParseIcsFile(p, text).errors
            == if OpensCalendar(p, lines) then Complaints(lines)
               else ["No BEGIN:VCALENDAR block was found, so this is not an ICS file."]
  {
    hide ReadLines, OpensCalendar, Complaints;
    ReadLinesReport(p, NOTHING_READ, SplitLines(Unfold(text)));
    assert [] + Complaints(SplitLines(Unfold(text))) == Complaints(SplitLines(Unfold(text)));
  }

  // ---------------------------------------------------------------------------------------
  // An event is what its own lines say
  // ---------------------------------------------------------------------------------------

  /** The lines of an event, with any components inside it closed again; no other VEVENT starts or ends. */
  predicate EventBody(p: Platform, lines: seq<string>, depth: nat)
    decreases |lines|
  {
    if lines == [] then depth == 0
    else match KindOf(p, lines[0])
      case Opens(component) => component != "VEVENT" && EventBody(p, lines[1..], depth + 1)
      case Closes(component) => component != "VEVENT" && depth > 0 && EventBody(p, lines[1..], depth - 1)
      case _ => EventBody(p, lines[1..], depth)
  }

  /** The event after the property lines that are not inside a component of its own. */
  function OwnProperties(p: Platform, lines: seq<string>, depth: nat, e: Event): Event
    requires EventBody(p, lines, depth)
    decreases |lines|
  {
    if lines == [] then e
    else match KindOf(p, lines[0])
      case Opens(_) => OwnProperties(p, lines[1..], depth + 1, e)
      case Closes(_) => OwnProperties(p, lines[1..], depth - 1, e)
      case Ignored => OwnProperties(p, lines[1..], depth, e)
      case Assigns =>
        var line := ParseContentLine(p, lines[0]).value;
        OwnProperties(p, lines[1..], depth, if depth == 0 then ApplyEventProperty(e, line) else e)
  }

  /** r with event e open on top, and `inner` components, none of them a VEVENT, inside it. */
  ghost predicate Inside(r: Reading, s: Reading, e: Event, inner: seq<string>) {
    && (forall i :: 0 <= i < |inner| ==> inner[i] != "VEVENT")
    && s.components == (r.components + ["VEVENT"]) + inner
    && s.event == Some(e)
    && Agree(r, s.(components := r.components, event := r.event))
  }

  lemma InsideStep(p: Platform, r: Reading, s: Reading, e: Event, inner: seq<string>, raw: string) returns (inner': seq<string>, e': Event)
    requires Inside(r, s, e, inner)
    requires match KindOf(p, raw)
             case Opens(component) => component != "VEVENT"
             case Closes(component) => component != "VEVENT" && inner != []
             case _ => true
    ensures Inside(r, ReadLine(p, s, raw), e', inner')
    ensures match KindOf(p, raw)
            case Opens(_) => |inner'| == |inner| + 1 && e' == e
            case Closes(_) => |inner'| == |inner| - 1 && e' == e
            case Ignored => |inner'| == |inner| && e' == e
            case Assigns =>
              && |inner'| == |inner| && ParseContentLine(p, raw).Some?
              && e' == if inner == [] then ApplyEventProperty(e, ParseContentLine(p, raw).value) else e
  {
    hide ApplyEventProperty, IcsText.Trim, IcsText.UnescapeText;
    var kind := KindOf(p, raw);
    var outer := r.components + ["VEVENT"];
    inner', e' := inner, e;
    if kind.Opens? {
      inner' := inner + [kind.component];
      assert s.components + [kind.component] == outer + inner';
    } else if kind.Closes? {
      inner' := inner[..|inner| - 1];
      assert Popped(s.components) == outer + inner';
    } else if kind.Assigns? {
      if inner == [] {
        assert Top(s.components) == Some("VEVENT");
        e' := ApplyEventProperty(e, ParseContentLine(p, raw).value);
      } else {
        assert Top(s.components) == Some(inner[|inner| - 1]);
      }
    }
  }

  lemma {:induction false} ReadBody(p: Platform, r: Reading, s: Reading, e: Event, inner: seq<string>, body: seq<string>)
    requires Inside(r, s, e, inner) && EventBody(p, body, |inner|)
    ensures Inside(r, ReadLines(p, s, body), OwnProperties(p, body, |inner|, e), [])
    decreases |body|
  {
    if body != [] {
      hide ReadLine, Inside, KindOf, ApplyEventProperty, IcsContentLine.ParseContentLine;
      var inner', e' := InsideStep(p, r, s, e, inner, body[0]);
      ReadBody(p, r, ReadLine(p, s, body[0]), e', inner', body[1..]);
    }
  }

  /**
    Reading one event: from its BEGIN:VEVENT to its END:VEVENT, whatever other components it
    encloses, exactly one event is added, the one described by its own property lines.
  */
  lemma EventIsItsOwnProperties(p: Platform, r: Reading, opening: string, body: seq<string>, closing: string)
    requires KindOf(p, opening) == Opens("VEVENT") && KindOf(p, closing) == Closes("VEVENT") && EventBody(p, body, 0)
    ensures Agree(r.(event := None, events := r.events + [OwnProperties(p, body, 0, NEW_EVENT)]),
                  ReadLines(p, r, [opening] + (body + [closing])))
  {
    var begun := ReadLine(p, r, opening);
    assert Inside(r, begun, NEW_EVENT, []) by {
      assert begun.components == (r.components + ["VEVENT"]) + [];
    }
    var e := OwnProperties(p, body, 0, NEW_EVENT);
    ReadBody(p, r, begun, NEW_EVENT, [], body);
    var read := ReadLines(p, begun, body);
    ReadLinesAppend(p, begun, body, [closing]);
    assert ([opening] + (body + [closing]))[1..] == body + [closing];
    assert [closing][1..] == [];
    assert Popped(read.components) == r.components;
    assert ReadLine(p, read, closing) == EndComponent(read, "VEVENT");
  }
}
