/**
  Which line sets which field: `applyEventProperty` and the calendar's own properties in
  applications/web/src/utils/ics.ts, each stated for the line as it stands in the file.
*/
module IcsProperties {
  import opened Wrappers
  import opened IcsText
  import opened IcsDateText
  import opened IcsContentLine
  import opened IcsReader
  import opened IcsCalendar

  /** The event e is open and the innermost open component is its VEVENT. */
  predicate InVevent(r: Reading, e: Event) {
    r.event == Some(e) && r.components != [] && r.components[|r.components| - 1] == "VEVENT"
  }

  lemma EventLine(p: Platform, r: Reading, e: Event, name: string, value: string)
    requires Conforms(p) && InVevent(r, e) && Name(name) && name != "BEGIN" && name != "END"
    ensures ReadLines(p, r, [name + ":" + value]) == r.(event := Some(ApplyEventProperty(e, ContentLine(name, map[], value))))
  {
    hide IcsReader.ApplyEventProperty, IcsReader.ReadLines, IcsReader.ReadLine;
    ReadOne(p, r, name + ":" + value);
    ReadOther(p, r, name, value);
  }

  lemma EventNames()
    ensures Name("STATUS") && Name("RRULE") && Name("ORGANIZER") && Name("CN") && Name("TZID") && Name("X-WR-CALNAME")
  {
  }

  lemma UidAndTextLines(p: Platform, r: Reading, e: Event, value: string)
    requires Conforms(p) && InVevent(r, e)
    ensures ReadLines(p, r, ["UID:" + value]) == r.(event := Some(e.(uid := Some(value))))
    ensures ReadLines(p, r, ["SUMMARY:" + value]) == r.(event := Some(e.(summary := Some(UnescapeText(value)))))
    ensures ReadLines(p, r, ["DESCRIPTION:" + value]) == r.(event := Some(e.(description := Some(UnescapeText(value)))))
    ensures ReadLines(p, r, ["LOCATION:" + value]) == r.(event := Some(e.(location := Some(UnescapeText(value)))))
  {
    hide IcsReader.ReadLines, InVevent;
    NamesInUse();
    EventLine(p, r, e, "UID", value);
    EventLine(p, r, e, "SUMMARY", value);
    EventLine(p, r, e, "DESCRIPTION", value);
    EventLine(p, r, e, "LOCATION", value);
    assert "UID" + ":" == "UID:" && "SUMMARY" + ":" == "SUMMARY:";
    assert "DESCRIPTION" + ":" == "DESCRIPTION:" && "LOCATION" + ":" == "LOCATION:";
  }

  /** STATUS and RRULE lines set their own field, as written, and nothing else. */
  lemma StatusAndRuleLines(p: Platform, r: Reading, e: Event, value: string)
    requires Conforms(p) && InVevent(r, e)
    ensures ReadLines(p, r, ["STATUS:" + value]) == r.(event := Some(e.(status := Some(value))))
    ensures ReadLines(p, r, ["RRULE:" + value]) == r.(event := Some(e.(recurrenceRule := Some(value))))
  {
    hide IcsReader.ReadLines, InVevent;
    EventNames();
    EventLine(p, r, e, "STATUS", value);
    EventLine(p, r, e, "RRULE", value);
    assert "STATUS" + ":" == "STATUS:" && "RRULE" + ":" == "RRULE:";
  }

  /** `mailto:` in any mixture of small and capital letters. */
  predicate IsMailto(s: string) {
    && |s| == 7 && s[0] in "mM" && s[1] in "aA" && s[2] in "iI" && s[3] in "lL" && s[4] in "tT" && s[5] in "oO" && s[6] == ':'
  }

  lemma MailtoIsRemoved(value: string)
    ensures |value| >= 7 && IsMailto(value[..7]) ==> WithoutMailto(value) == value[7..]
    ensures !(|value| >= 7 && IsMailto(value[..7])) ==> WithoutMailto(value) == value
  {
    var scheme := "mailto:";
    if |value| >= 7 {
      assert forall i :: 0 <= i < 7 ==> value[..7][i] == value[i];
      if IsMailto(value[..7]) {
        assert forall i :: 0 <= i < 7 ==> SameLetter(value[i], scheme[i]);
      }
      if forall i :: 0 <= i < 7 ==> SameLetter(value[i], scheme[i]) {
        assert SameLetter(value[0], scheme[0]) && SameLetter(value[1], scheme[1]) && SameLetter(value[2], scheme[2]);
        assert SameLetter(value[3], scheme[3]) && SameLetter(value[4], scheme[4]) && SameLetter(value[5], scheme[5]);
        assert SameLetter(value[6], scheme[6]);
        assert IsMailto(value[..7]);
      }
    }
  }

  /** An organizer without a CN is the value of the line, less a leading mailto. */
  lemma OrganizerLine(p: Platform, r: Reading, e: Event, value: string)
    requires Conforms(p) && InVevent(r, e)
    ensures ReadLines(p, r, ["ORGANIZER:" + value])
            == r.(event := Some(e.(organizer := Some(if |value| >= 7 && IsMailto(value[..7]) then value[7..] else value))))
  {
    hide IcsReader.ReadLines, InVevent, IcsReader.WithoutMailto, IsMailto;
    EventNames();
    EventLine(p, r, e, "ORGANIZER", value);
    MailtoIsRemoved(value);
    assert "ORGANIZER" + ":" == "ORGANIZER:";
  }

  lemma ParameterLine(p: Platform, r: Reading, e: Event, name: string, key: string, text: string, value: string)
    requires Conforms(p) && InVevent(r, e) && Name(name) && name != "BEGIN" && name != "END" && Name(key) && Bare(text)
    ensures ReadLines(p, r, [ParameterHead(name, key, text) + ":" + value])
            == r.(event := Some(ApplyEventProperty(e, ContentLine(name, map[key := text], value))))
  {
    NameIsInert(name);
    NameIsInert(key);
    ParseLineWithParameter(p, name, key, text, value);
    var line := ParameterHead(name, key, text) + ":" + value;
    assert line[0] == name[0];
    hide IcsReader.ApplyEventProperty, IcsContentLine.ParameterHead, IcsContentLine.ParseContentLine;
    ReadOne(p, r, line);
  }

  lemma QuotedParameterLine(p: Platform, r: Reading, e: Event, name: string, key: string, text: string, value: string)
    requires Conforms(p) && InVevent(r, e) && Name(name) && name != "BEGIN" && name != "END" && Name(key) && NoQuotes(text)
    ensures ReadLines(p, r, [QuotedHead(name, key, text) + ":" + value])
            == r.(event := Some(ApplyEventProperty(e, ContentLine(name, map[key := text], value))))
  {
    NameIsInert(name);
    NameIsInert(key);
    ParseQuotedParameter(p, name, key, text, value);
    var line := QuotedHead(name, key, text) + ":" + value;
    assert line[0] == name[0];
    hide IcsReader.ApplyEventProperty, IcsContentLine.QuotedHead, IcsContentLine.ParseContentLine;
    ReadOne(p, r, line);
  }

  /** An organizer with a CN is that name, quoted or not, whatever the value of the line. */
  lemma OrganizerNameLine(p: Platform, r: Reading, e: Event, name: string, value: string)
    requires Conforms(p) && InVevent(r, e) && NoQuotes(name)
    ensures Bare(name) ==>
              ReadLines(p, r, [ParameterHead("ORGANIZER", "CN", name) + ":" + value]) == r.(event := Some(e.(organizer := Some(name))))
    ensures ReadLines(p, r, [QuotedHead("ORGANIZER", "CN", name) + ":" + value]) == r.(event := Some(e.(organizer := Some(name))))
  {
    hide IcsReader.ReadLines, InVevent, IcsContentLine.ParameterHead, IcsContentLine.QuotedHead;
    EventNames();
    QuotedParameterLine(p, r, e, "ORGANIZER", "CN", name, value);
    if Bare(name) {
      ParameterLine(p, r, e, "ORGANIZER", "CN", name, value);
    }
  }

  /** Start and end are read in the time zone their line names, if any. */
  lemma DateLines(p: Platform, r: Reading, e: Event, zone: string, value: string)
    requires Conforms(p) && InVevent(r, e) && NoQuotes(zone)
    ensures ReadLines(p, r, ["DTSTART:" + value]) == r.(event := Some(e.(start := ParseDateText(value, None))))
    ensures ReadLines(p, r, ["DTEND:" + value]) == r.(event := Some(e.(end := ParseDateText(value, None))))
    ensures Bare(zone) ==>
              ReadLines(p, r, [ParameterHead("DTSTART", "TZID", zone) + ":" + value])
              == r.(event := Some(e.(start := ParseDateText(value, Some(zone)))))
    ensures Bare(zone) ==>
              ReadLines(p, r, [ParameterHead("DTEND", "TZID", zone) + ":" + value])
              == r.(event := Some(e.(end := ParseDateText(value, Some(zone)))))
    ensures ReadLines(p, r, [QuotedHead("DTSTART", "TZID", zone) + ":" + value])
            == r.(event := Some(e.(start := ParseDateText(value, Some(zone)))))
    ensures ReadLines(p, r, [QuotedHead("DTEND", "TZID", zone) + ":" + value])
            == r.(event := Some(e.(end := ParseDateText(value, Some(zone)))))
  {
    hide IcsReader.ReadLines, InVevent, IcsContentLine.ParameterHead, IcsContentLine.QuotedHead, IcsDateText.ParseDateText;
    NamesInUse();
    EventNames();
    EventLine(p, r, e, "DTSTART", value);
    EventLine(p, r, e, "DTEND", value);
    assert "DTSTART" + ":" == "DTSTART:" && "DTEND" + ":" == "DTEND:";
    QuotedParameterLine(p, r, e, "DTSTART", "TZID", zone, value);
    QuotedParameterLine(p, r, e, "DTEND", "TZID", zone, value);
    if Bare(zone) {
      ParameterLine(p, r, e, "DTSTART", "TZID", zone, value);
      ParameterLine(p, r, e, "DTEND", "TZID", zone, value);
    }
  }

  /** How those lines look in the file. */
  lemma HeadsSpelledOut(text: string)
    ensures ParameterHead("ORGANIZER", "CN", text) == "ORGANIZER;CN=" + text
    ensures QuotedHead("ORGANIZER", "CN", text) == "ORGANIZER;CN=\"" + text + "\""
    ensures ParameterHead("DTSTART", "TZID", text) == "DTSTART;TZID=" + text && ParameterHead("DTEND", "TZID", text) == "DTEND;TZID=" + text
    ensures ParameterHead("DTSTART", "VALUE", text) == "DTSTART;VALUE=" + text && ParameterHead("DTEND", "VALUE", text) == "DTEND;VALUE=" + text
  {
    assert "ORGANIZER" + (";" + "CN" + "=") == "ORGANIZER;CN=";
    assert "DTSTART" + (";" + "TZID" + "=") == "DTSTART;TZID=" && "DTEND" + (";" + "TZID" + "=") == "DTEND;TZID=";
    assert "DTSTART" + (";" + "VALUE" + "=") == "DTSTART;VALUE=" && "DTEND" + (";" + "VALUE" + "=") == "DTEND;VALUE=";
  }

  const EVENT_NAMES: set<string> :=
    {"UID", "SUMMARY", "DESCRIPTION", "LOCATION", "ORGANIZER", "STATUS", "RRULE", "DTSTART", "DTEND"}

  /** Any other property of an event is passed over. */
  lemma OtherEventLines(p: Platform, r: Reading, e: Event, name: string, value: string)
    requires Conforms(p) && InVevent(r, e) && Name(name) && name != "BEGIN" && name != "END" && name !in EVENT_NAMES
    ensures ReadLines(p, r, [name + ":" + value]) == r
  {
    hide IcsReader.ReadLines;
    EventLine(p, r, e, name, value);
  }

  /** Between events, a calendar's own name, product and version are kept, and only inside VCALENDAR. */
  lemma CalendarLinesOutsideEvents(p: Platform, r: Reading, value: string)
    requires Conforms(p) && r.event.None?
    ensures var inside := r.components != [] && r.components[|r.components| - 1] == "VCALENDAR";
            && ReadLines(p, r, ["X-WR-CALNAME:" + value]) == (if inside then r.(calendarName := Some(UnescapeText(value))) else r)
            && ReadLines(p, r, ["PRODID:" + value]) == (if inside then r.(productId := Some(value)) else r)
            && ReadLines(p, r, ["VERSION:" + value]) == (if inside then r.(version := Some(value)) else r)
  {
    hide IcsReader.ReadLines, IcsReader.ReadLine, IcsText.UnescapeText;
    NamesInUse();
    EventNames();
    ReadOne(p, r, PropertyLine("X-WR-CALNAME", value));
    ReadOne(p, r, PropertyLine("PRODID", value));
    ReadOne(p, r, PropertyLine("VERSION", value));
    ReadOther(p, r, "X-WR-CALNAME", value);
    ReadOther(p, r, "PRODID", value);
    ReadOther(p, r, "VERSION", value);
    assert "X-WR-CALNAME" + ":" == "X-WR-CALNAME:" && "PRODID" + ":" == "PRODID:" && "VERSION" + ":" == "VERSION:";
  }
}
