/**
  The text layer of applications/web/src/utils/ics.ts: folding and unfolding of content lines
  (section 3.1 of RFC 5545), TEXT escaping (section 3.3.11) and the splitting of a file into
  lines.  Strings are sequences of code points.
*/
module IcsText {
  import opened Wrappers

  const CRLF: string := "\r\n"
  const FOLD: string := "\r\n "
  const MAX_LINE_OCTETS: nat := 75

  predicate IsBreak(c: char) {
    c == '\r' || c == '\n'
  }

  predicate IsFoldBlank(c: char) {
    c == ' ' || c == '\t'
  }

  predicate OneLine(s: string) {
    forall i :: 0 <= i < |s| ==> !IsBreak(s[i])
  }

  // ---------------------------------------------------------------------------------------
  // Trimming
  // ---------------------------------------------------------------------------------------

  /** What `trim` removes: the white space and line terminators of ECMAScript. */
  predicate IsWhitespace(c: char) {
    var p := c as int;
    || 0x09 <= p <= 0x0D || p == 0x20 || p == 0xA0 || p == 0x1680 || 0x2000 <= p <= 0x200A
    || p == 0x2028 || p == 0x2029 || p == 0x202F || p == 0x205F || p == 0x3000 || p == 0xFEFF
  }

  function Trim(s: string): (r: string)
    ensures r == "" || (!IsWhitespace(r[0]) && !IsWhitespace(r[|r| - 1]))
    ensures r == "" <==> forall i :: 0 <= i < |s| ==> IsWhitespace(s[i])
  {
    if s == "" then ""
    else if IsWhitespace(s[0]) then Trim(s[1..])
    else if IsWhitespace(s[|s| - 1]) then Trim(s[..|s| - 1])
    else s
  }

  /** What is left lies in one piece in the text, and everything around it is white space. */
  ghost predicate IsCore(r: string, s: string, i: nat, j: nat) {
    && i <= j <= |s| && r == s[i..j]
    && (forall k :: 0 <= k < i || j <= k < |s| ==> IsWhitespace(s[k]))
    && (r == "" || (!IsWhitespace(r[0]) && !IsWhitespace(r[|r| - 1])))
  }

  /** Trimming takes white space off both ends and nothing else. */
  lemma {:induction false} TrimTakesOnlyBlanks(s: string) returns (i: nat, j: nat)
    ensures IsCore(Trim(s), s, i, j)
    decreases |s|
  {
    if s == "" {
      i, j := 0, 0;
    } else if IsWhitespace(s[0]) {
      i, j := TrimTakesOnlyBlanks(s[1..]);
      i, j := i + 1, j + 1;
    } else if IsWhitespace(s[|s| - 1]) {
      i, j := TrimTakesOnlyBlanks(s[..|s| - 1]);
    } else {
      i, j := 0, |s|;
    }
  }

  lemma CoreContains(r: string, i: nat, j: nat, t: string, i': nat, j': nat, s: string)
    requires IsCore(r, s, i, j) && IsCore(t, s, i', j') && r != ""
    ensures i' <= i && j <= j'
  {
    assert s[i] == r[0] && s[j - 1] == r[|r| - 1];
    assert i' <= i < j' && i' <= j - 1 < j';
  }

  /** That leaves no choice. */
  lemma TrimIsUnique(r: string, s: string, i: nat, j: nat)
    requires IsCore(r, s, i, j)
    ensures r == Trim(s)
  {
    hide Trim, IsWhitespace;
    var i', j' := TrimTakesOnlyBlanks(s);
    if r != "" {
      CoreContains(r, i, j, Trim(s), i', j', s);
    }
    if Trim(s) != "" {
      CoreContains(Trim(s), i', j', r, i, j, s);
    }
  }

  // ---------------------------------------------------------------------------------------
  // Folding
  // ---------------------------------------------------------------------------------------

  /** The length of a code point in UTF-8. */
  function Utf8Length(c: char): nat {
    var p := c as int;
    if p < 0x80 then 1 else if p < 0x800 then 2 else if p < 0x10000 then 3 else 4
  }

  function Octets(s: string): nat {
    if s == "" then 0 else Octets(s[..|s| - 1]) + Utf8Length(s[|s| - 1])
  }

  /** A code point in UTF-8, as section 3 of RFC 3629 has it. */
  function Utf8Bytes(c: char): (bytes: seq<int>)
    ensures forall i :: 0 <= i < |bytes| ==> 0 <= bytes[i] < 256
  {
    var p := c as int;
    if p <= 0x7F then [p]
    else if p <= 0x7FF then [0xC0 + p / 64, 0x80 + p % 64]
    else if p <= 0xFFFF then [0xE0 + p / 4096, 0x80 + p / 64 % 64, 0x80 + p % 64]
    else [0xF0 + p / 262144, 0x80 + p / 4096 % 64, 0x80 + p / 64 % 64, 0x80 + p % 64]
  }

  /** The code point that a UTF-8 sequence stands for, by its leading byte. */
  function Utf8Value(bytes: seq<int>): int {
    if |bytes| == 1 then bytes[0]
    else if |bytes| == 2 then (bytes[0] - 0xC0) * 64 + (bytes[1] - 0x80)
    else if |bytes| == 3 then (bytes[0] - 0xE0) * 4096 + (bytes[1] - 0x80) * 64 + (bytes[2] - 0x80)
    else if |bytes| == 4 then (bytes[0] - 0xF0) * 262144 + (bytes[1] - 0x80) * 4096 + (bytes[2] - 0x80) * 64 + (bytes[3] - 0x80)
    else -1
  }

  function Utf8Encode(s: string): seq<int> {
    if s == "" then [] else Utf8Encode(s[..|s| - 1]) + Utf8Bytes(s[|s| - 1])
  }

  /** The length the writer counts for a code point is that of its UTF-8 form. */
  lemma Utf8LengthIsEncodedLength(c: char)
    ensures |Utf8Bytes(c)| == Utf8Length(c) && Utf8Value(Utf8Bytes(c)) == c as int
  {
    var p := c as int;
    assert p == p / 64 * 64 + p % 64;
    assert p / 64 == p / 64 / 64 * 64 + p / 64 % 64 && p / 64 / 64 == p / 4096;
    assert p / 4096 == p / 4096 / 64 * 64 + p / 4096 % 64 && p / 4096 / 64 == p / 262144;
  }

  lemma {:induction false} OctetsAreEncodedLength(s: string)
    ensures Octets(s) == |Utf8Encode(s)|
  {
    if s != "" {
      OctetsAreEncodedLength(s[..|s| - 1]);
      Utf8LengthIsEncodedLength(s[|s| - 1]);
    }
  }

  lemma {:induction false} OctetsAppend(a: string, b: string)
    ensures Octets(a + b) == Octets(a) + Octets(b)
  {
    if b == "" {
      assert a + b == a;
    } else {
      OctetsAppend(a, b[..|b| - 1]);
      assert (a + b)[..|a + b| - 1] == a + b[..|b| - 1];
    }
  }

  /** All pieces in order. */
  function Concat(parts: seq<string>): string {
    if parts == [] then "" else parts[0] + Concat(parts[1..])
  }

  /** parts.join(separator) */
  function Join(parts: seq<string>, separator: string): string {
    if parts == [] then "" else if |parts| == 1 then parts[0] else parts[0] + separator + Join(parts[1..], separator)
  }

  function SegmentLimit(k: nat): nat {
    if k == 0 then MAX_LINE_OCTETS else MAX_LINE_OCTETS - 1
  }

  /** Segment k is full: the code point that follows it would not have fitted. */
  ghost predicate Full(segment: string, next: string, k: nat) {
    next != "" && Octets(segment) + Utf8Length(next[0]) > SegmentLimit(k)
  }

  /**
    The segments a line is folded into make up the line, and each fits its physical line, where
    continuation lines lose an octet to their leading space.  A segment ends only when it is full.
  */
  ghost predicate IsFolding(segments: seq<string>, line: string) {
    && segments != [] && Concat(segments) == line
    && (forall k :: 0 <= k < |segments| ==> Octets(segments[k]) <= SegmentLimit(k))
    && (forall k :: 0 < k < |segments| ==> Full(segments[k - 1], segments[k], k - 1))
  }

  lemma {:induction false} ConcatAppend(parts: seq<string>, last: string)
    ensures Concat(parts + [last]) == Concat(parts) + last
  {
    if parts == [] {
      assert [last][1..] == [];
    } else {
      assert (parts + [last])[1..] == parts[1..] + [last];
      ConcatAppend(parts[1..], last);
    }
  }

  lemma OneCharOctets(c: char)
    ensures Octets([c]) == Utf8Length(c)
  {
    assert [c][..0] == "";
  }

  lemma FoldNothing()
    ensures IsFolding([""], "") && Octets("") == 0
  {
    assert [""][1..] == [];
  }

  lemma KeepOnLine(parts: seq<string>, current: string, line: string, c: char)
    requires IsFolding(parts + [current], line)
    requires Octets(current) + Utf8Length(c) <= SegmentLimit(|parts|)
    ensures IsFolding(parts + [current + [c]], line + [c])
    ensures Octets(current + [c]) == Octets(current) + Utf8Length(c)
  {
    var (before, after) := (parts + [current], parts + [current + [c]]);
    OctetsAppend(current, [c]);
    OneCharOctets(c);
    ConcatAppend(parts, current);
    ConcatAppend(parts, current + [c]);
    assert forall k :: 0 <= k < |parts| ==> after[k] == before[k];
    assert before[|parts|] == current && after[|parts|] == current + [c];
    if |parts| > 0 {
      assert Full(before[|parts| - 1], before[|parts|], |parts| - 1);
    }
    assert forall k :: 0 < k < |after| ==> Full(before[k - 1], before[k], k - 1);
  }

  lemma BreakLine(parts: seq<string>, current: string, line: string, c: char)
    requires IsFolding(parts + [current], line)
    requires Octets(current) + Utf8Length(c) > SegmentLimit(|parts|)
    ensures IsFolding(parts + [current] + [[c]], line + [c])
  {
    var (before, after) := (parts + [current], parts + [current] + [[c]]);
    OneCharOctets(c);
    ConcatAppend(before, [c]);
    assert forall k :: 0 <= k < |before| ==> after[k] == before[k];
    assert after[|before|] == [c] && before[|parts|] == current;
  }

  /** The finished segments of a line and the one being filled, one code point at a time. */
  function FoldParts(line: string): (seq<string>, string) {
    if line == "" then ([], "")
    else
      var ((parts, current), c) := (FoldParts(line[..|line| - 1]), line[|line| - 1]);
      if Octets(current) + Utf8Length(c) > SegmentLimit(|parts|) then (parts + [current], [c]) else (parts, current + [c])
  }

  function Fold(line: string): (segments: seq<string>)
    ensures segments != []
  {
    FoldParts(line).0 + [FoldParts(line).1]
  }

  lemma {:induction false} FoldIsFolding(line: string)
    ensures IsFolding(Fold(line), line)
  {
    if line == "" {
      FoldNothing();
    } else {
      var (init, c) := (line[..|line| - 1], line[|line| - 1]);
      var (parts, current) := FoldParts(init);
      FoldIsFolding(init);
      assert init + [c] == line;
      if Octets(current) + Utf8Length(c) > SegmentLimit(|parts|) {
        BreakLine(parts, current, init, c);
      } else {
        KeepOnLine(parts, current, init, c);
      }
    }
  }

  /** The same for segments k and onwards. */
  ghost predicate IsFoldingFrom(segments: seq<string>, line: string, k: nat) {
    && segments != [] && Concat(segments) == line
    && (forall i :: 0 <= i < |segments| ==> Octets(segments[i]) <= SegmentLimit(k + i))
    && (forall i :: 0 < i < |segments| ==> Full(segments[i - 1], segments[i], k + i - 1))
  }

  lemma {:induction false} OctetsOfPrefix(s: string, n: nat)
    requires n < |s|
    ensures Octets(s[..n]) + Utf8Length(s[n]) <= Octets(s)
  {
    assert s == s[..n] + ([s[n]] + s[n + 1..]);
    OctetsAppend(s[..n], [s[n]] + s[n + 1..]);
    OctetsAppend([s[n]], s[n + 1..]);
    OneCharOctets(s[n]);
  }

  /** No folding ends its first segment before another one does. */
  lemma FirstSegmentIsNotShorter(a: seq<string>, b: seq<string>, line: string, k: nat)
    requires IsFoldingFrom(a, line, k) && IsFoldingFrom(b, line, k)
    ensures |b[0]| <= |a[0]|
  {
    var n := |a[0]|;
    assert line == a[0] + Concat(a[1..]) && line == b[0] + Concat(b[1..]);
    assert |a| == 1 ==> Concat(a[1..]) == "";
    assert Octets(b[0]) <= SegmentLimit(k + 0);
    if n < |b[0]| {
      assert Full(a[0], a[1], k + 1 - 1);
      assert Concat(a[1..]) == a[1] + Concat(a[1..][1..]);
      assert a[1][0] == line[n] && line[n] == b[0][n];
      assert a[0] == line[..n] && b[0][..n] == line[..n];
      OctetsOfPrefix(b[0], n);
    }
  }

  lemma FoldingTail(segments: seq<string>, line: string, k: nat)
    requires IsFoldingFrom(segments, line, k) && |segments| > 1
    ensures IsFoldingFrom(segments[1..], line[|segments[0]|..], k + 1) && line == segments[0] + line[|segments[0]|..]
    ensures line[|segments[0]|..] != ""
  {
    var tail := segments[1..];
    assert line[|segments[0]|..] == Concat(tail);
    forall i | 0 < i < |tail|
      ensures Full(tail[i - 1], tail[i], k + 1 + i - 1)
    {
      assert Full(segments[i + 1 - 1], segments[i + 1], k + (i + 1) - 1);
    }
    assert Full(segments[0], segments[1], k + 1 - 1);
  }

  lemma {:induction false} FoldingFromIsUnique(a: seq<string>, b: seq<string>, line: string, k: nat)
    requires IsFoldingFrom(a, line, k) && IsFoldingFrom(b, line, k)
    ensures a == b
    decreases |a|
  {
    FirstSegmentIsNotShorter(a, b, line, k);
    FirstSegmentIsNotShorter(b, a, line, k);
    assert line == a[0] + Concat(a[1..]) && line == b[0] + Concat(b[1..]);
    assert a[0] == line[..|a[0]|] == b[0];
    if |a| > 1 {
      FoldingTail(a, line, k);
    }
    if |b| > 1 {
      FoldingTail(b, line, k);
    }
    if |a| > 1 && |b| > 1 {
      FoldingFromIsUnique(a[1..], b[1..], line[|a[0]|..], k + 1);
      assert a == [a[0]] + a[1..] && b == [b[0]] + b[1..];
    }
  }

  /** Those conditions leave no choice: a line has exactly one folding. */
  lemma FoldingIsUnique(segments: seq<string>, line: string)
    requires IsFolding(segments, line)
    ensures segments == Fold(line)
  {
    FoldIsFolding(line);
    FoldingFromIsUnique(segments, Fold(line), line, 0);
  }

  lemma NoOctets()
    ensures Octets("") == 0
  {
  }

  lemma OctetsOneMore(s: string, c: char)
    ensures Octets(s + [c]) == Octets(s) + Utf8Length(c)
  {
    OctetsAppend(s, [c]);
    OneCharOctets(c);
  }

  method FoldLine(line: string) returns (folded: string)
    ensures folded == Join(Fold(line), FOLD)
  {
    var segments: seq<string> := [];
    var current := "";
    var octets := 0;
    var i := 0;
    NoOctets();
    while i < |line|
      invariant 0 <= i <= |line| && octets == Octets(current)
      invariant FoldParts(line[..i]) == (segments, current)
    {
      hide Octets, Utf8Length;
      var size := Utf8Length(line[i]);
      var limit := if |segments| == 0 then MAX_LINE_OCTETS else MAX_LINE_OCTETS - 1;
      assert line[..i + 1][..i] == line[..i];
      if octets + size > limit {
        segments := segments + [current];
        current := "";
        octets := 0;
        NoOctets();
      }
      OctetsOneMore(current, line[i]);
      assert current == "" ==> current + [line[i]] == [line[i]];
      current := current + [line[i]];
      octets := octets + size;
      i := i + 1;
    }
    assert line[..i] == line;
    segments := segments + [current];
    folded := Join(segments, FOLD);
  }

  // ---------------------------------------------------------------------------------------
  // Unfolding and splitting
  // ---------------------------------------------------------------------------------------

  /** text.replace(/\r\n[ \t]|\n[ \t]|\r[ \t]/g, "") */
  function Unfold(s: string): string {
    if s == "" then ""
    else if |s| >= 3 && s[0] == '\r' && s[1] == '\n' && IsFoldBlank(s[2]) then Unfold(s[3..])
    else if |s| >= 2 && IsBreak(s[0]) && IsFoldBlank(s[1]) then Unfold(s[2..])
    else [s[0]] + Unfold(s[1..])
  }

  /** text.split(/\r\n|\n|\r/) */
  function SplitLines(s: string): (lines: seq<string>)
    ensures lines != []
  {
    if s == "" then [""]
    else if |s| >= 2 && s[0] == '\r' && s[1] == '\n' then [""] + SplitLines(s[2..])
    else if IsBreak(s[0]) then [""] + SplitLines(s[1..])
    else
      var rest := SplitLines(s[1..]);
      [[s[0]] + rest[0]] + rest[1..]
  }

  lemma {:induction false} UnfoldOneLine(a: string, b: string)
    requires OneLine(a)
    ensures Unfold(a + b) == a + Unfold(b)
  {
    if a == "" {
      assert a + b == b;
    } else {
      assert (a + b)[0] == a[0] && (a + b)[1..] == a[1..] + b;
      UnfoldOneLine(a[1..], b);
      assert [a[0]] + (a[1..] + Unfold(b)) == a + Unfold(b);
    }
  }

  lemma UnfoldFold(b: string)
    ensures Unfold(FOLD + b) == Unfold(b)
  {
    assert (FOLD + b)[3..] == b;
  }

  lemma UnfoldBreak(b: string)
    requires b == "" || !IsFoldBlank(b[0])
    ensures Unfold(CRLF + b) == CRLF + Unfold(b)
  {
    var s := CRLF + b;
    assert s[1..] == ['\n'] + b && (['\n'] + b)[1..] == b;
  }

  lemma {:induction false} UnfoldSegments(segments: seq<string>, b: string)
    requires segments != [] && OneLine(Concat(segments))
    ensures Unfold(Join(segments, FOLD) + b) == Concat(segments) + Unfold(b)
  {
    var (first, rest) := (segments[0], segments[1..]);
    ConcatParts(segments);
    if |segments| == 1 {
      assert Concat(segments) == first;
      UnfoldOneLine(first, b);
    } else {
      var tail := Join(rest, FOLD) + b;
      assert Join(segments, FOLD) + b == first + (FOLD + tail);
      UnfoldOneLine(first, FOLD + tail);
      UnfoldFold(tail);
      UnfoldSegments(rest, b);
    }
  }

  lemma ConcatParts(segments: seq<string>)
    requires segments != [] && OneLine(Concat(segments))
    ensures OneLine(segments[0]) && OneLine(Concat(segments[1..]))
  {
    var (line, n) := (Concat(segments), |segments[0]|);
    assert forall i :: 0 <= i < n ==> segments[0][i] == line[i];
    assert forall i :: 0 <= i < |Concat(segments[1..])| ==> Concat(segments[1..])[i] == line[n + i];
  }

  /**
    Folding loses nothing (section 3.1 of RFC 5545): unfolding a folded line gives the line back,
    also where a segment itself begins with a space or tab.
  */
  lemma UnfoldUndoesFold(line: string)
    requires OneLine(line)
    ensures Unfold(Join(Fold(line), FOLD)) == line
  {
    var segments := Fold(line);
    FoldIsFolding(line);
    assert Join(segments, FOLD) + "" == Join(segments, FOLD);
    UnfoldSegments(segments, "");
    assert Concat(segments) + "" == line;
  }

  lemma {:induction false} SplitOneLine(a: string, b: string)
    requires OneLine(a)
    ensures SplitLines(a + b) == [a + SplitLines(b)[0]] + SplitLines(b)[1..]
  {
    if a == "" {
      assert a + b == b && a + SplitLines(b)[0] == SplitLines(b)[0];
    } else {
      assert (a + b)[0] == a[0] && (a + b)[1..] == a[1..] + b;
      SplitOneLine(a[1..], b);
      assert [a[0]] + (a[1..] + SplitLines(b)[0]) == a + SplitLines(b)[0];
    }
  }

  lemma SplitAtBreak(a: string, b: string)
    requires OneLine(a)
    ensures SplitLines(a + CRLF + b) == [a] + SplitLines(b)
  {
    assert (CRLF + b)[2..] == b;
    assert SplitLines(CRLF + b) == [""] + SplitLines(b);
    assert a + CRLF + b == a + (CRLF + b) && a + "" == a;
    SplitOneLine(a, CRLF + b);
    assert SplitLines(CRLF + b)[1..] == SplitLines(b);
  }

  /** The physical lines of a folded line. */
  function PhysicalLines(segments: seq<string>): seq<string> {
    seq(|segments|, k requires 0 <= k < |segments| => if k == 0 then segments[k] else " " + segments[k])
  }

  lemma PhysicalLinesTail(segments: seq<string>)
    requires |segments| > 1
    ensures PhysicalLines(segments) == [segments[0]] + ([" " + segments[1]] + PhysicalLines(segments[1..])[1..])
  {
  }

  lemma ContinuationLine(tail: string, lines: seq<string>, rest: seq<string>)
    requires SplitLines(tail) == lines + rest && lines != []
    ensures SplitLines(" " + tail) == ([" " + lines[0]] + lines[1..]) + rest
  {
    SplitOneLine(" ", tail);
  }

  lemma {:induction false} SplitContinued(segments: seq<string>)
    requires segments != [] && OneLine(Concat(segments))
    ensures SplitLines(Join(segments, FOLD)) == PhysicalLines(segments)
  {
    var (first, rest) := (segments[0], segments[1..]);
    ConcatParts(segments);
    if |segments| == 1 {
      SplitOneLine(first, "");
      assert first + "" == first && PhysicalLines(segments) == [first];
    } else {
      var tail := Join(rest, FOLD);
      SplitContinued(rest);
      ContinuationLine(tail, PhysicalLines(rest), []);
      assert Join(segments, FOLD) == first + CRLF + (" " + tail);
      SplitAtBreak(first, " " + tail);
      PhysicalLinesTail(segments);
    }
  }

  /** Every physical line written for a line has at most 75 octets, its leading space included. */
  lemma PhysicalLinesFit(line: string, k: nat)
    requires OneLine(line)
    ensures var lines := SplitLines(Join(Fold(line), FOLD));
            lines == PhysicalLines(Fold(line)) && (k < |lines| ==> |Utf8Encode(lines[k])| <= 75)
  {
    var segments := Fold(line);
    FoldIsFolding(line);
    SplitContinued(segments);
    if 0 < k < |segments| {
      OctetsAppend(" ", segments[k]);
      OneCharOctets(' ');
    }
    if k < |segments| {
      OctetsAreEncodedLength(PhysicalLines(segments)[k]);
    }
  }

  // ---------------------------------------------------------------------------------------
  // Whole documents
  // ---------------------------------------------------------------------------------------

  /** The lines, each folded and ended by CRLF. */
  function Document(lines: seq<string>): string {
    if lines == [] then "" else Join(Fold(lines[0]), FOLD) + CRLF + Document(lines[1..])
  }

  /** A line that can stand in a document: unbroken, and not mistaken for a continuation. */
  predicate Plain(line: string) {
    OneLine(line) && line != "" && !IsFoldBlank(line[0])
  }

  function Terminated(lines: seq<string>): string {
    if lines == [] then "" else lines[0] + CRLF + Terminated(lines[1..])
  }

  lemma {:induction false} UnfoldDocument(lines: seq<string>)
    requires forall i :: 0 <= i < |lines| ==> Plain(lines[i])
    ensures Unfold(Document(lines)) == Terminated(lines)
  {
    if lines != [] {
      var (segments, rest) := (Fold(lines[0]), Document(lines[1..]));
      UnfoldDocument(lines[1..]);
      FoldIsFolding(lines[0]);
      assert Document(lines) == Join(segments, FOLD) + (CRLF + rest);
      UnfoldSegments(segments, CRLF + rest);
      DocumentStart(lines[1..]);
      UnfoldBreak(rest);
      assert lines[0] + (CRLF + Unfold(rest)) == lines[0] + CRLF + Unfold(rest);
    }
  }

  lemma DocumentStart(lines: seq<string>)
    requires forall i :: 0 <= i < |lines| ==> Plain(lines[i])
    ensures Document(lines) == "" || !IsFoldBlank(Document(lines)[0])
  {
    if lines != [] {
      FoldIsFolding(lines[0]);
      FirstSegmentStarts(Fold(lines[0]), lines[0]);
    }
  }

  /** A non-empty line starts on its first physical line. */
  lemma FirstSegmentStarts(segments: seq<string>, line: string)
    requires IsFolding(segments, line) && line != ""
    ensures segments[0] != "" && segments[0][0] == line[0]
  {
    if |segments| == 1 {
      assert Concat(segments) == segments[0] + "";
    } else {
      assert Full(segments[0], segments[1], 0);
    }
  }

  lemma {:induction false} SplitTerminated(lines: seq<string>)
    requires forall i :: 0 <= i < |lines| ==> OneLine(lines[i])
    ensures SplitLines(Terminated(lines)) == lines + [""]
  {
    if lines != [] {
      SplitTerminated(lines[1..]);
      SplitAtBreak(lines[0], Terminated(lines[1..]));
    }
  }

  /** Reading a document back yields its lines, and an empty one after the last line break. */
  lemma DocumentLines(lines: seq<string>)
    requires forall i :: 0 <= i < |lines| ==> Plain(lines[i])
    ensures SplitLines(Unfold(Document(lines))) == lines + [""]
  {
    UnfoldDocument(lines);
    SplitTerminated(lines);
  }

  lemma {:induction false} SplitSegments(segments: seq<string>, b: string)
    requires segments != [] && OneLine(Concat(segments))
    ensures SplitLines(Join(segments, FOLD) + CRLF + b) == PhysicalLines(segments) + SplitLines(b)
  {
    hide SplitLines, OneLine, Concat;
    var (first, rest) := (segments[0], segments[1..]);
    ConcatParts(segments);
    if |segments| == 1 {
      SplitAtBreak(first, b);
      assert PhysicalLines(segments) == [first];
    } else {
      var tail := Join(rest, FOLD) + CRLF + b;
      SplitSegments(rest, b);
      ContinuationLine(tail, PhysicalLines(rest), SplitLines(b));
      assert Join(segments, FOLD) + CRLF + b == first + CRLF + (" " + tail);
      SplitAtBreak(first, " " + tail);
      PhysicalLinesTail(segments);
    }
  }

  /** Every physical line of a document has at most 75 octets. */
  lemma {:induction false} DocumentFits(lines: seq<string>)
    requires forall i :: 0 <= i < |lines| ==> OneLine(lines[i])
    ensures forall k :: 0 <= k < |SplitLines(Document(lines))| ==> |Utf8Encode(SplitLines(Document(lines))[k])| <= 75
  {
    if lines != [] {
      var segments := Fold(lines[0]);
      FoldIsFolding(lines[0]);
      DocumentFits(lines[1..]);
      SplitSegments(segments, Document(lines[1..]));
      SplitContinued(segments);
      forall k | 0 <= k < |segments|
        ensures |Utf8Encode(PhysicalLines(segments)[k])| <= 75
      {
        PhysicalLinesFit(lines[0], k);
      }
    }
  }

  lemma {:induction false} DocumentAppend(lines: seq<string>, line: string)
    ensures Document(lines + [line]) == Document(lines) + Join(Fold(line), FOLD) + CRLF
  {
    hide Join, Fold;
    if lines == [] {
      assert ([] + [line])[1..] == [];
      assert Join(Fold(line), FOLD) + CRLF + "" == "" + Join(Fold(line), FOLD) + CRLF;
    } else {
      DocumentAppend(lines[1..], line);
      assert (lines + [line])[1..] == lines[1..] + [line];
    }
  }

  /** lines.map(foldLine).join(LINE_BREAK), ended by a line break. */
  method WriteDocument(lines: seq<string>) returns (text: string)
    ensures text == Document(lines)
  {
    text := "";
    var n := 0;
    while n < |lines|
      invariant 0 <= n <= |lines| && text == Document(lines[..n])
    {
      var folded := FoldLine(lines[n]);
      DocumentAppend(lines[..n], lines[n]);
      assert lines[..n + 1] == lines[..n] + [lines[n]];
      text := text + folded + CRLF;
      n := n + 1;
    }
    assert lines[..n] == lines;
  }

  // ---------------------------------------------------------------------------------------
  // Escaping
  // ---------------------------------------------------------------------------------------

  /** s.replace(/c/g, "\\c") */
  function Protect(s: string, c: char): string {
    if s == "" then "" else (if s[0] == c then ['\\', c] else [s[0]]) + Protect(s[1..], c)
  }

  /** s.replace(/\r\n|\r|\n/g, "\\n") */
  function EscapeBreaks(s: string): string {
    if s == "" then ""
    else if |s| >= 2 && s[0] == '\r' && s[1] == '\n' then "\\n" + EscapeBreaks(s[2..])
    else if IsBreak(s[0]) then "\\n" + EscapeBreaks(s[1..])
    else [s[0]] + EscapeBreaks(s[1..])
  }

  /** The four passes, in order. */
  function EscapeText(s: string): string {
    EscapeBreaks(Protect(Protect(Protect(s, '\\'), ';'), ','))
  }

  predicate IsEscapable(c: char) {
    c == '\\' || c == ';' || c == ',' || c == 'n' || c == 'N'
  }

  /** s.replace(/\\([\\;,nN])/g, ...) */
  function UnescapeText(s: string): string {
    if s == "" then ""
    else if |s| >= 2 && s[0] == '\\' && IsEscapable(s[1])
    then [if s[1] == 'n' || s[1] == 'N' then '\n' else s[1]] + UnescapeText(s[2..])
    else [s[0]] + UnescapeText(s[1..])
  }

  /** What is left of line breaks: CRLF and CR become LF. */
  function Normalise(s: string): string {
    if s == "" then ""
    else if |s| >= 2 && s[0] == '\r' && s[1] == '\n' then "\n" + Normalise(s[2..])
    else if IsBreak(s[0]) then "\n" + Normalise(s[1..])
    else [s[0]] + Normalise(s[1..])
  }

  /** The reference: one pass that escapes each character, or line break, by itself. */
  function EscapeOnce(s: string): string {
    if s == "" then ""
    else if |s| >= 2 && s[0] == '\r' && s[1] == '\n' then "\\n" + EscapeOnce(s[2..])
    else if IsBreak(s[0]) then "\\n" + EscapeOnce(s[1..])
    else (if s[0] == '\\' || s[0] == ';' || s[0] == ',' then ['\\', s[0]] else [s[0]]) + EscapeOnce(s[1..])
  }

  lemma {:induction false} ProtectAppend(a: string, b: string, c: char)
    ensures Protect(a + b, c) == Protect(a, c) + Protect(b, c)
  {
    if a == "" {
      assert a + b == b && Protect(a, c) + Protect(b, c) == Protect(b, c);
    } else {
      assert (a + b)[0] == a[0] && (a + b)[1..] == a[1..] + b;
      ProtectAppend(a[1..], b, c);
    }
  }

  function ProtectAll(s: string): string {
    Protect(Protect(Protect(s, '\\'), ';'), ',')
  }

  lemma ProtectAllAppend(a: string, b: string)
    ensures ProtectAll(a + b) == ProtectAll(a) + ProtectAll(b)
  {
    ProtectAppend(a, b, '\\');
    ProtectAppend(Protect(a, '\\'), Protect(b, '\\'), ';');
    ProtectAppend(Protect(Protect(a, '\\'), ';'), Protect(Protect(b, '\\'), ';'), ',');
  }

  lemma ProtectOne(x: char, c: char)
    ensures Protect([x], c) == if x == c then ['\\', c] else [x]
  {
    assert [x][1..] == "";
  }

  lemma ProtectAllOne(x: char)
    ensures ProtectAll([x]) == if x == '\\' || x == ';' || x == ',' then ['\\', x] else [x]
  {
    ProtectOne(x, '\\');
    ProtectOne(x, ';');
    ProtectOne(x, ',');
    if x == '\\' || x == ';' {
      assert ['\\', x] == ['\\'] + [x];
      ProtectAppend(['\\'], [x], ';');
      ProtectAppend(['\\'], [x], ',');
      ProtectOne('\\', ';');
      ProtectOne('\\', ',');
    }
  }

  lemma ProtectAllStarts(s: string)
    requires s != ""
    ensures ProtectAll(s) != "" && (ProtectAll(s)[0] == '\\' || ProtectAll(s)[0] == s[0])
    ensures ProtectAll(s) == ProtectAll([s[0]]) + ProtectAll(s[1..])
  {
    assert s == [s[0]] + s[1..];
    ProtectAllAppend([s[0]], s[1..]);
    ProtectAllOne(s[0]);
  }

  lemma {:induction false} EscapeBreaksOneLine(a: string, b: string)
    requires OneLine(a)
    ensures EscapeBreaks(a + b) == a + EscapeBreaks(b)
  {
    if a == "" {
      assert a + b == b;
    } else {
      assert (a + b)[0] == a[0] && (a + b)[1..] == a[1..] + b;
      EscapeBreaksOneLine(a[1..], b);
      assert [a[0]] + (a[1..] + EscapeBreaks(b)) == a + EscapeBreaks(b);
    }
  }

  lemma EscapeBreaksAtCrlf(s: string)
    requires |s| >= 2 && s[0] == '\r' && s[1] == '\n'
    ensures EscapeBreaks(ProtectAll(s)) == "\\n" + EscapeBreaks(ProtectAll(s[2..]))
  {
    hide Protect, ProtectAll;
    ProtectAllStarts(s);
    ProtectAllStarts(s[1..]);
    ProtectAllOne('\r');
    ProtectAllOne('\n');
    assert s[1..][1..] == s[2..];
    assert ProtectAll(s) == ['\r', '\n'] + ProtectAll(s[2..]);
    assert ProtectAll(s)[2..] == ProtectAll(s[2..]);
  }

  lemma EscapeBreaksElsewhere(s: string)
    requires s != "" && !IsBreak(s[0])
    ensures EscapeBreaks(ProtectAll(s))
            == (if s[0] == '\\' || s[0] == ';' || s[0] == ',' then ['\\', s[0]] else [s[0]]) + EscapeBreaks(ProtectAll(s[1..]))
  {
    hide Protect, ProtectAll, EscapeBreaks;
    ProtectAllStarts(s);
    ProtectAllOne(s[0]);
    EscapeBreaksOneLine(ProtectAll([s[0]]), ProtectAll(s[1..]));
  }

  /** The four passes do what a single pass does: no pass disturbs what an earlier one wrote. */
  lemma {:induction false} EscapePassesAgree(s: string)
    ensures EscapeText(s) == EscapeOnce(s)
    decreases |s|
  {
    hide Protect, EscapeBreaks;
    if s == "" {
      NothingToEscape();
    } else if |s| >= 2 && s[0] == '\r' && s[1] == '\n' {
      EscapePassesAgree(s[2..]);
      EscapeBreaksAtCrlf(s);
    } else if IsBreak(s[0]) {
      EscapePassesAgree(s[1..]);
      EscapeBreaksAtBreak(s);
    } else {
      EscapePassesAgree(s[1..]);
      EscapeBreaksElsewhere(s);
    }
  }

  lemma NothingToEscape()
    ensures EscapeText("") == ""
  {
  }

  lemma EscapeBreaksAtBreak(s: string)
    requires s != "" && IsBreak(s[0]) && !(|s| >= 2 && s[0] == '\r' && s[1] == '\n')
    ensures EscapeBreaks(ProtectAll(s)) == "\\n" + EscapeBreaks(ProtectAll(s[1..]))
  {
    ProtectAllStarts(s);
    ProtectAllOne(s[0]);
    assert ProtectAll(s)[1..] == ProtectAll(s[1..]);
    if s[1..] != "" {
      ProtectAllStarts(s[1..]);
    }
  }

  /** Escaped text is free of line breaks, so it can be the value of a content line. */
  lemma {:induction false} EscapedIsOneLine(s: string)
    ensures OneLine(EscapeOnce(s))
    decreases |s|
  {
    if s != "" {
      EscapedIsOneLine(s[1..]);
      if |s| >= 2 {
        EscapedIsOneLine(s[2..]);
      }
    }
  }

  lemma UnescapePair(c: char, t: string)
    requires IsEscapable(c)
    ensures UnescapeText(['\\', c] + t) == [if c == 'n' || c == 'N' then '\n' else c] + UnescapeText(t)
  {
    assert (['\\', c] + t)[2..] == t;
  }

  lemma UnescapePlain(c: char, t: string)
    requires c != '\\'
    ensures UnescapeText([c] + t) == [c] + UnescapeText(t)
  {
    assert ([c] + t)[1..] == t;
  }

  lemma {:induction false} UnescapeUndoesEscapeOnce(s: string)
    ensures UnescapeText(EscapeOnce(s)) == Normalise(s)
    decreases |s|
  {
    if s == "" {
    } else if |s| >= 2 && s[0] == '\r' && s[1] == '\n' {
      UnescapeUndoesEscapeOnce(s[2..]);
      UnescapePair('n', EscapeOnce(s[2..]));
    } else {
      var rest := EscapeOnce(s[1..]);
      UnescapeUndoesEscapeOnce(s[1..]);
      if IsBreak(s[0]) {
        UnescapePair('n', rest);
      } else if s[0] == '\\' || s[0] == ';' || s[0] == ',' {
        UnescapePair(s[0], rest);
      } else {
        UnescapePlain(s[0], rest);
      }
    }
  }

  /** Reading escaped text gives the text back, with its line breaks normalised to LF. */
  lemma UnescapeUndoesEscape(s: string)
    ensures UnescapeText(EscapeText(s)) == Normalise(s) && OneLine(EscapeText(s))
  {
    EscapePassesAgree(s);
    EscapedIsOneLine(s);
    UnescapeUndoesEscapeOnce(s);
  }

  /**
    Unescaping by cases: the five escapes of section 3.3.11 of RFC 5545 are resolved, any other
    backslash stays, and so does every other character.
  */
  lemma UnescapeCases(c: char, t: string)
    ensures UnescapeText("") == "" && UnescapeText("\\") == "\\"
    ensures UnescapeText("\\n" + t) == "\n" + UnescapeText(t) && UnescapeText("\\N" + t) == "\n" + UnescapeText(t)
    ensures UnescapeText("\\\\" + t) == "\\" + UnescapeText(t)
    ensures UnescapeText("\\;" + t) == ";" + UnescapeText(t) && UnescapeText("\\," + t) == "," + UnescapeText(t)
    ensures c !in {'n', 'N', '\\', ';', ','} ==> UnescapeText("\\" + ([c] + t)) == "\\" + UnescapeText([c] + t)
    ensures c != '\\' ==> UnescapeText([c] + t) == [c] + UnescapeText(t)
  {
    UnescapePair('n', t);
    UnescapePair('N', t);
    UnescapePair('\\', t);
    UnescapePair(';', t);
    UnescapePair(',', t);
    assert ("\\" + ([c] + t))[1..] == [c] + t;
    assert ([c] + t)[1..] == t;
    assert "\\"[1..] == "";
  }

  predicate NoReturn(s: string) {
    forall i :: 0 <= i < |s| ==> s[i] != '\r'
  }

  /** Normalised text has no carriage return, and text without one is left as it is. */
  lemma {:induction false} NormaliseLeavesPlainText(a: string, b: string)
    requires NoReturn(a)
    ensures Normalise(a + b) == a + Normalise(b)
  {
    if a == "" {
      assert a + b == b;
    } else {
      assert (a + b)[0] == a[0] && (a + b)[1..] == a[1..] + b;
      NormaliseLeavesPlainText(a[1..], b);
      assert [a[0]] + (a[1..] + Normalise(b)) == a + Normalise(b);
    }
  }

  lemma {:induction false} NormalisedHasNoReturn(s: string)
    ensures NoReturn(Normalise(s))
    decreases |s|
  {
    if s != "" {
      NormalisedHasNoReturn(s[1..]);
      if |s| >= 2 {
        NormalisedHasNoReturn(s[2..]);
      }
    }
  }

  lemma NormaliseCrlf(b: string)
    ensures Normalise("\r\n" + b) == "\n" + Normalise(b)
  {
    assert ("\r\n" + b)[2..] == b;
  }

  lemma NormaliseReturn(b: string)
    requires b == "" || b[0] != '\n'
    ensures Normalise("\r" + b) == "\n" + Normalise(b)
  {
    assert ("\r" + b)[1..] == b;
  }

  /** Each CRLF, and each CR by itself, becomes one LF; nothing else changes. */
  lemma NormaliseMeaning(a: string, b: string)
    requires NoReturn(a)
    ensures Normalise(a) == a
    ensures Normalise(a + ("\r\n" + b)) == a + ("\n" + Normalise(b))
    ensures (b == "" || b[0] != '\n') ==> Normalise(a + ("\r" + b)) == a + ("\n" + Normalise(b))
  {
    assert a + "" == a && Normalise("") == "";
    hide Normalise;
    NormaliseLeavesPlainText(a, "");
    NormaliseLeavesPlainText(a, "\r\n" + b);
    NormaliseCrlf(b);
    if b == "" || b[0] != '\n' {
      NormaliseLeavesPlainText(a, "\r" + b);
      NormaliseReturn(b);
    }
  }
}
