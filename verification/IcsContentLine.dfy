/**
  The quote-aware scanner of content lines in applications/web/src/utils/ics.ts: name, parameters
  and value, as section 3.1 of RFC 5545 lays them out.
*/
module IcsContentLine {
  import opened Wrappers
  import opened IcsText
  import opened IcsDateText

  /** What the JavaScript engine supplies: `toUpperCase`, and `Date.parse` with None for NaN. */
  datatype Platform = Platform(upper: string -> string, parseDate: string -> Option<int>)

  // ---------------------------------------------------------------------------------------
  // The scanner
  // ---------------------------------------------------------------------------------------

  function Quotes(s: string): nat {
    if s == "" then 0 else Quotes(s[..|s| - 1]) + if s[|s| - 1] == '"' then 1 else 0
  }

  /** Position i is between quotes: an odd number of them precede it. */
  predicate Quoted(s: string, i: nat)
    requires i <= |s|
  {
    Quotes(s[..i]) % 2 == 1
  }

  predicate Separates(s: string, i: nat, separator: char)
    requires i < |s|
  {
    s[i] == separator && !Quoted(s, i)
  }

  /** The first colon outside quotes, or the end of the line if there is none. */
  ghost predicate IsFirstColon(line: string, i: nat) {
    && i <= |line| && (i < |line| ==> Separates(line, i, ':'))
    && forall j :: 0 <= j < i ==> !Separates(line, j, ':')
  }

  function ColonFrom(line: string, i: nat): (r: nat)
    requires i <= |line| && forall j :: 0 <= j < i ==> !Separates(line, j, ':')
    ensures i <= r && IsFirstColon(line, r)
    decreases |line| - i
  {
    if i == |line| || Separates(line, i, ':') then i else ColonFrom(line, i + 1)
  }

  lemma FirstColonIsUnique(line: string, i: nat, j: nat)
    requires IsFirstColon(line, i) && IsFirstColon(line, j)
    ensures i == j
  {
  }

  lemma QuotedNext(s: string, i: nat)
    requires i < |s|
    ensures Quoted(s, i + 1) <==> (Quoted(s, i) != (s[i] == '"'))
  {
    assert s[..i + 1][..i] == s[..i];
  }

  method FindColon(line: string) returns (index: nat)
    ensures index == ColonFrom(line, 0)
  {
    index := 0;
    var quoted := false;
    while index < |line|
      invariant 0 <= index <= |line| && quoted == Quoted(line, index)
      invariant forall j :: 0 <= j < index ==> !Separates(line, j, ':')
    {
      QuotedNext(line, index);
      if line[index] == '"' {
        quoted := !quoted;
      } else if line[index] == ':' && !quoted {
        break;
      }
      index := index + 1;
    }
    FirstColonIsUnique(line, index, ColonFrom(line, 0));
  }

  /** The pieces between separators outside quotes, with the quotes taken out. */
  function SplitUnquoted(text: string, separator: char, quoted: bool): (parts: seq<string>)
    ensures parts != []
  {
    if text == "" then [""]
    else if text[0] == '"' then SplitUnquoted(text[1..], separator, !quoted)
    else if text[0] == separator && !quoted then [""] + SplitUnquoted(text[1..], separator, quoted)
    else
      var rest := SplitUnquoted(text[1..], separator, quoted);
      [[text[0]] + rest[0]] + rest[1..]
  }

  /** The pieces found so far, the one being collected, and the split of what is left. */
  function Resume(parts: seq<string>, current: string, rest: seq<string>): seq<string>
    requires rest != []
  {
    parts + ([current + rest[0]] + rest[1..])
  }

  lemma ResumeCut(parts: seq<string>, current: string, next: seq<string>)
    requires next != []
    ensures Resume(parts, current, [""] + next) == Resume(parts + [current], "", next)
  {
    assert ([""] + next)[1..] == next && current + "" == current && "" + next[0] == next[0];
  }

  lemma ResumeCollect(parts: seq<string>, current: string, c: char, next: seq<string>)
    requires next != []
    ensures Resume(parts, current, [[c] + next[0]] + next[1..]) == Resume(parts, current + [c], next)
  {
    assert current + ([c] + next[0]) == (current + [c]) + next[0];
  }

  lemma ResumeStart(next: seq<string>)
    requires next != []
    ensures Resume([], "", next) == next
  {
    assert "" + next[0] == next[0];
  }

  method SplitAtUnquoted(text: string, separator: char) returns (parts: seq<string>)
    ensures parts == SplitUnquoted(text, separator, false)
  {
    parts := [];
    var current := "";
    var quoted := false;
    var i := 0;
    assert text[0..] == text;
    ResumeStart(SplitUnquoted(text, separator, false));
    while i < |text|
      invariant 0 <= i <= |text|
      invariant Resume(parts, current, SplitUnquoted(text[i..], separator, quoted)) == SplitUnquoted(text, separator, false)
    {
      hide Resume;
      assert text[i..][1..] == text[i + 1..];
      if text[i] == '"' {
        quoted := !quoted;
      } else if text[i] == separator && !quoted {
        ResumeCut(parts, current, SplitUnquoted(text[i + 1..], separator, quoted));
        parts := parts + [current];
        current := "";
      } else {
        ResumeCollect(parts, current, text[i], SplitUnquoted(text[i + 1..], separator, quoted));
        current := current + [text[i]];
      }
      i := i + 1;
    }
    assert text[i..] == "" && current + "" == current;
    parts := parts + [current];
  }

  lemma JoinPrefix(c: char, parts: seq<string>, separator: string)
    requires parts != []
    ensures Join([[c] + parts[0]] + parts[1..], separator) == [c] + Join(parts, separator)
  {
    assert ([[c] + parts[0]] + parts[1..])[1..] == parts[1..];
  }

  /** Splitting loses nothing but the quotes. */
  lemma {:induction false} SplitUnquotedKeepsText(text: string, separator: char, quoted: bool)
    requires separator != '"'
    ensures Join(SplitUnquoted(text, separator, quoted), [separator]) == Without(text, {'"'})
  {
    if text != "" {
      var next := SplitUnquoted(text[1..], separator, if text[0] == '"' then !quoted else quoted);
      SplitUnquotedKeepsText(text[1..], separator, if text[0] == '"' then !quoted else quoted);
      if text[0] == '"' {
      } else if text[0] == separator && !quoted {
        assert ([""] + next)[1..] == next;
      } else {
        JoinPrefix(text[0], next, [separator]);
      }
    }
  }

  // ---------------------------------------------------------------------------------------
  // Content lines
  // ---------------------------------------------------------------------------------------

  datatype ContentLine = ContentLine(name: string, parameters: map<string, string>, value: string)

  /** s.indexOf(c), with the length standing for -1. */
  function IndexOf(s: string, c: char): (i: nat)
    ensures i <= |s| && (i < |s| ==> s[i] == c) && forall j :: 0 <= j < i ==> s[j] != c
  {
    if s == "" || s[0] == c then 0 else 1 + IndexOf(s[1..], c)
  }

  /** A part without an equals sign is passed over; a repeated name keeps its last value. */
  function ReadParameters(p: Platform, parts: seq<string>): map<string, string> {
    if parts == [] then map[]
    else
      var (earlier, last) := (ReadParameters(p, parts[..|parts| - 1]), parts[|parts| - 1]);
      var i := IndexOf(last, '=');
      if i == |last| then earlier else earlier[p.upper(last[..i]) := last[i + 1..]]
  }

  function ParseContentLine(p: Platform, line: string): Option<ContentLine> {
    var i := ColonFrom(line, 0);
    if i == |line| then None
    else
      var parts := SplitUnquoted(line[..i], ';', false);
      Some(ContentLine(p.upper(parts[0]), ReadParameters(p, parts[1..]), line[i + 1..]))
  }

  method ScanContentLine(p: Platform, line: string) returns (content: Option<ContentLine>)
    ensures content == ParseContentLine(p, line)
  {
    var index := FindColon(line);
    if index >= |line| {
      return None;
    }
    var parts := SplitAtUnquoted(line[..index], ';');
    var parameters: map<string, string> := map[];
    var n := 1;
    while n < |parts|
      invariant 1 <= n <= |parts| && parameters == ReadParameters(p, parts[1..n])
    {
      assert parts[1..n + 1][..n - 1] == parts[1..n];
      var i := IndexOf(parts[n], '=');
      if i < |parts[n]| {
        parameters := parameters[p.upper(parts[n][..i]) := parts[n][i + 1..]];
      }
      n := n + 1;
    }
    assert parts[1..n] == parts[1..];
    return Some(ContentLine(p.upper(parts[0]), parameters, line[index + 1..]));
  }

  /** Text that the scanner passes through: no quote, colon, semicolon or equals sign. */
  predicate Inert(s: string) {
    forall i :: 0 <= i < |s| ==> s[i] != '"' && s[i] != ':' && s[i] != ';' && s[i] != '='
  }

  predicate NoQuotes(s: string) {
    forall i :: 0 <= i < |s| ==> s[i] != '"'
  }

  lemma {:induction false} QuotesAppend(a: string, b: string)
    ensures Quotes(a + b) == Quotes(a) + Quotes(b)
  {
    if b == "" {
      assert a + b == a;
    } else {
      QuotesAppend(a, b[..|b| - 1]);
      assert (a + b)[..|a + b| - 1] == a + b[..|b| - 1];
    }
  }

  lemma {:induction false} NoQuotesToCount(s: string)
    requires NoQuotes(s)
    ensures Quotes(s) == 0
  {
    if s != "" {
      NoQuotesToCount(s[..|s| - 1]);
    }
  }

  lemma ColonAfter(head: string, value: string)
    requires forall j :: 0 <= j < |head| ==> !Separates(head + ":" + value, j, ':')
    requires Quotes(head) % 2 == 0
    ensures ColonFrom(head + ":" + value, 0) == |head|
  {
    var line := head + ":" + value;
    assert line[..|head|] == head;
    assert Separates(line, |head|, ':');
    FirstColonIsUnique(line, |head|, ColonFrom(line, 0));
  }

  // ---------------------------------------------------------------------------------------
  // Lines with any number of parameters
  // ---------------------------------------------------------------------------------------

  datatype Param = Param(key: string, text: string, quoted: bool)

  /** Between quotes a value may hold anything but a quote; a bare one no colon or semicolon either. */
  predicate ParamIsValid(a: Param) {
    Inert(a.key) && if a.quoted then NoQuotes(a.text) else Bare(a.text)
  }

  predicate Bare(s: string) {
    forall i :: 0 <= i < |s| ==> s[i] != '"' && s[i] != ':' && s[i] != ';'
  }

  function ParamValue(a: Param): string {
    if a.quoted then "\"" + a.text + "\"" else a.text
  }

  function ParamsText(params: seq<Param>): string {
    if params == [] then "" else (";" + (params[0].key + "=")) + ParamValue(params[0]) + ParamsText(params[1..])
  }

  /** Each name with its last value. */
  function ParamMap(p: Platform, params: seq<Param>): map<string, string> {
    if params == [] then map[]
    else ParamMap(p, params[..|params| - 1])[p.upper(params[|params| - 1].key) := params[|params| - 1].text]
  }

  /** A stretch of text that closes the quotes it opens and has no colon outside them. */
  ghost predicate SelfContained(s: string) {
    Quotes(s) % 2 == 0 && forall j :: 0 <= j < |s| ==> !Separates(s, j, ':')
  }

  lemma SelfContainedAppend(a: string, b: string)
    requires SelfContained(a) && SelfContained(b)
    ensures SelfContained(a + b)
  {
    QuotesAppend(a, b);
    forall j | 0 <= j < |a + b|
      ensures !Separates(a + b, j, ':')
    {
      if j < |a| {
        assert (a + b)[..j] == a[..j];
        assert !Separates(a, j, ':');
      } else {
        assert (a + b)[..j] == a + b[..j - |a|];
        QuotesAppend(a, b[..j - |a|]);
        assert !Separates(b, j - |a|, ':');
      }
    }
  }

  lemma ColonlessIsSelfContained(s: string)
    requires forall i :: 0 <= i < |s| ==> s[i] != '"' && s[i] != ':'
    ensures SelfContained(s)
  {
    NoQuotesToCount(s);
  }

  lemma QuotedIsSelfContained(text: string)
    requires NoQuotes(text)
    ensures SelfContained("\"" + text + "\"")
  {
    var s := "\"" + text + "\"";
    assert "\""[..0] == "" && Quotes("\"") == 1;
    NoQuotesToCount(text);
    QuotesAppend("\"", text);
    QuotesAppend("\"" + text, "\"");
    forall j | 0 <= j < |s|
      ensures !Separates(s, j, ':')
    {
      if 0 < j <= |text| {
        assert s[..j] == "\"" + text[..j - 1];
        QuotesAppend("\"", text[..j - 1]);
        NoQuotesToCount(text[..j - 1]);
      }
    }
  }

  lemma {:induction false} ParamsAreSelfContained(params: seq<Param>)
    requires forall i :: 0 <= i < |params| ==> ParamIsValid(params[i])
    ensures SelfContained(ParamsText(params))
  {
    hide SelfContained;
    if params == [] {
      ColonlessIsSelfContained("");
    } else {
      var a := params[0];
      ParamsAreSelfContained(params[1..]);
      ColonlessIsSelfContained(";" + (a.key + "="));
      if a.quoted {
        QuotedIsSelfContained(a.text);
      } else {
        ColonlessIsSelfContained(a.text);
      }
      SelfContainedAppend(";" + (a.key + "="), ParamValue(a));
      SelfContainedAppend((";" + (a.key + "=")) + ParamValue(a), ParamsText(params[1..]));
    }
  }

  lemma {:induction false} SplitQuoted(text: string, b: string)
    requires NoQuotes(text)
    ensures SplitUnquoted(text + "\"" + b, ';', true)
            == [text + SplitUnquoted(b, ';', false)[0]] + SplitUnquoted(b, ';', false)[1..]
  {
    var s := text + "\"" + b;
    if text == "" {
      assert s[1..] == b && "" + SplitUnquoted(b, ';', false)[0] == SplitUnquoted(b, ';', false)[0];
    } else {
      assert s[1..] == text[1..] + "\"" + b;
      SplitQuoted(text[1..], b);
      assert [text[0]] + (text[1..] + SplitUnquoted(b, ';', false)[0]) == text + SplitUnquoted(b, ';', false)[0];
    }
  }

  lemma {:induction false} SplitBare(a: string, b: string)
    requires Bare(a)
    ensures SplitUnquoted(a + b, ';', false) == [a + SplitUnquoted(b, ';', false)[0]] + SplitUnquoted(b, ';', false)[1..]
  {
    if a == "" {
      assert a + b == b && a + SplitUnquoted(b, ';', false)[0] == SplitUnquoted(b, ';', false)[0];
    } else {
      assert (a + b)[0] == a[0] && (a + b)[1..] == a[1..] + b;
      SplitBare(a[1..], b);
      assert [a[0]] + (a[1..] + SplitUnquoted(b, ';', false)[0]) == a + SplitUnquoted(b, ';', false)[0];
    }
  }

  lemma SplitValue(a: Param, b: string)
    requires ParamIsValid(a)
    ensures SplitUnquoted(ParamValue(a) + b, ';', false) == [a.text + SplitUnquoted(b, ';', false)[0]] + SplitUnquoted(b, ';', false)[1..]
  {
    if a.quoted {
      var s := ParamValue(a) + b;
      assert s[0] == '"' && s[1..] == a.text + "\"" + b;
      SplitQuoted(a.text, b);
    } else {
      SplitBare(a.text, b);
    }
  }

  function ParamParts(params: seq<Param>): seq<string> {
    if params == [] then [] else [params[0].key + "=" + params[0].text] + ParamParts(params[1..])
  }

  lemma SplitAtSemicolon(tail: string)
    ensures SplitUnquoted(";" + tail, ';', false) == [""] + SplitUnquoted(tail, ';', false)
  {
    assert (";" + tail)[1..] == tail;
  }

  lemma SplitOneParam(a: Param, rest: string, parts: seq<string>)
    requires ParamIsValid(a) && SplitUnquoted(rest, ';', false) == [""] + parts
    ensures SplitUnquoted((";" + (a.key + "=")) + ParamValue(a) + rest, ';', false) == ["", a.key + "=" + a.text] + parts
  {
    var tail := (a.key + "=") + (ParamValue(a) + rest);
    assert (";" + (a.key + "=")) + ParamValue(a) + rest == ";" + tail;
    assert Bare(a.key + "=");
    hide SplitUnquoted, ParamValue, ParamIsValid;
    SplitAtSemicolon(tail);
    SplitBare(a.key + "=", ParamValue(a) + rest);
    SplitValue(a, rest);
    assert a.text + "" == a.text;
  }

  lemma {:induction false} SplitParams(params: seq<Param>)
    requires forall i :: 0 <= i < |params| ==> ParamIsValid(params[i])
    ensures SplitUnquoted(ParamsText(params), ';', false) == [""] + ParamParts(params)
  {
    if params != [] {
      hide SplitUnquoted, ParamIsValid;
      SplitParams(params[1..]);
      SplitOneParam(params[0], ParamsText(params[1..]), ParamParts(params[1..]));
    }
  }

  lemma {:induction false} ParamPartsAppend(params: seq<Param>, a: Param)
    ensures ParamParts(params + [a]) == ParamParts(params) + [a.key + "=" + a.text]
  {
    if params == [] {
      assert ([] + [a])[1..] == [];
    } else {
      assert (params + [a])[1..] == params[1..] + [a];
      ParamPartsAppend(params[1..], a);
    }
  }

  /** A later parameter replaces an earlier one of the same name; a part without `=` is passed over. */
  lemma ReadOneMoreParameter(p: Platform, parts: seq<string>, key: string, text: string)
    requires Inert(key)
    ensures ReadParameters(p, parts + [key + "=" + text]) == ReadParameters(p, parts)[p.upper(key) := text]
    ensures ReadParameters(p, parts + [key]) == ReadParameters(p, parts)
  {
    var part := key + "=" + text;
    assert part[|key|] == '=' && forall j :: 0 <= j < |key| ==> part[j] == key[j];
    assert IndexOf(part, '=') == |key|;
    assert part[..|key|] == key && part[|key| + 1..] == text;
    assert (parts + [part])[..|parts|] == parts && (parts + [key])[..|parts|] == parts;
    assert IndexOf(key, '=') == |key|;
  }

  lemma {:induction false} ReadParamParts(p: Platform, params: seq<Param>)
    requires forall i :: 0 <= i < |params| ==> ParamIsValid(params[i])
    ensures ReadParameters(p, ParamParts(params)) == ParamMap(p, params)
  {
    if params != [] {
      var (init, a) := (params[..|params| - 1], params[|params| - 1]);
      assert params == init + [a];
      ReadParamParts(p, init);
      ParamPartsAppend(init, a);
      ReadOneMoreParameter(p, ParamParts(init), a.key, a.text);
    }
  }

  /**
    Every content line of section 3.1 of RFC 5545: a name, any number of parameters, each bare or
    quoted, and a value.  All parameters are read, the last of a name winning, and the value is
    everything after the first colon outside quotes.
  */
  lemma ParseAnyParameters(p: Platform, name: string, params: seq<Param>, value: string)
    requires Inert(name) && forall i :: 0 <= i < |params| ==> ParamIsValid(params[i])
    ensures ParseContentLine(p, name + ParamsText(params) + ":" + value)
            == Some(ContentLine(p.upper(name), ParamMap(p, params), value))
  {
    var (head, text) := (name + ParamsText(params), ParamsText(params));
    var line := head + ":" + value;
    ColonlessIsSelfContained(name);
    ParamsAreSelfContained(params);
    SelfContainedAppend(name, text);
    ColonEnds(head, value);
    SplitParams(params);
    SplitBare(name, text);
    assert name + "" == name;
    ReadParamParts(p, params);
    hide Separates, Quotes, SplitUnquoted, ReadParameters, ParamMap, ParamsText;
    assert line[..|head|] == head && line[|head| + 1..] == value;
    assert SplitUnquoted(head, ';', false)[1..] == ParamParts(params);
  }

  lemma ColonEnds(head: string, value: string)
    requires SelfContained(head)
    ensures ColonFrom(head + ":" + value, 0) == |head|
  {
    var line := head + ":" + value;
    forall j | 0 <= j < |head|
      ensures !Separates(line, j, ':')
    {
      assert line[..j] == head[..j] && !Separates(head, j, ':');
    }
    ColonAfter(head, value);
  }

  /** A line without parameters: everything after its first colon is the value, whatever it holds. */
  lemma ParsePlainLine(p: Platform, name: string, value: string)
    requires Inert(name)
    ensures ParseContentLine(p, name + ":" + value) == Some(ContentLine(p.upper(name), map[], value))
  {
    ParseAnyParameters(p, name, [], value);
    assert name + "" == name;
  }

  /** The head of a line with one quoted parameter. */
  function QuotedHead(name: string, key: string, text: string): string {
    name + (";" + key + "=" + "\"" + text + "\"")
  }

  lemma OneParameter(p: Platform, a: Param)
    ensures ParamMap(p, [a]) == map[p.upper(a.key) := a.text]
    ensures ParamsText([a]) == ";" + a.key + "=" + ParamValue(a)
  {
    assert [a][..0] == [] && [a][1..] == [];
  }

  /** Between quotes a parameter value may hold colons and semicolons (section 3.2 of RFC 5545). */
  lemma ParseQuotedParameter(p: Platform, name: string, key: string, text: string, value: string)
    requires Inert(name) && Inert(key) && NoQuotes(text)
    ensures ParseContentLine(p, QuotedHead(name, key, text) + ":" + value)
            == Some(ContentLine(p.upper(name), map[p.upper(key) := text], value))
  {
    hide ParseContentLine, ParamsText, ParamMap;
    var a := Param(key, text, true);
    ParseAnyParameters(p, name, [a], value);
    OneParameter(p, a);
    assert ";" + key + "=" + "\"" + text + "\"" == ";" + key + "=" + ("\"" + text + "\"");
  }

  /** The head of a line with one parameter that is not quoted. */
  function ParameterHead(name: string, key: string, text: string): string {
    name + (";" + key + "=" + text)
  }

  lemma ParseLineWithParameter(p: Platform, name: string, key: string, text: string, value: string)
    requires Inert(name) && Inert(key) && Bare(text)
    ensures ParseContentLine(p, ParameterHead(name, key, text) + ":" + value)
            == Some(ContentLine(p.upper(name), map[p.upper(key) := text], value))
  {
    hide ParseContentLine, ParamsText, ParamMap;
    var a := Param(key, text, false);
    ParseAnyParameters(p, name, [a], value);
    OneParameter(p, a);
  }
}
