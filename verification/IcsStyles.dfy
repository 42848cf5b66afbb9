/**
  Files as other programs write them: applications/web/src/utils/ics.ts reads any of the three
  line breaks and any folding, not only what its own writer produces.
*/
module IcsStyles {
  import opened IcsText
  import opened IcsContentLine
  import opened IcsReader

  predicate IsLineBreak(s: string) {
    s == "\r\n" || s == "\n" || s == "\r"
  }

  predicate IsFoldMark(s: string) {
    s in {"\r\n ", "\r\n\t", "\n ", "\n\t", "\r ", "\r\t"}
  }

  /** One content line as some program may have written it: its pieces, how they are folded, how it ends. */
  datatype StyledLine = StyledLine(first: string, folds: seq<(string, string)>, lineBreak: string)

  function Folded(folds: seq<(string, string)>): string {
    if folds == [] then "" else folds[0].0 + folds[0].1 + Folded(folds[1..])
  }

  function Unfolded(folds: seq<(string, string)>): string {
    if folds == [] then "" else folds[0].1 + Unfolded(folds[1..])
  }

  predicate FoldsAreValid(folds: seq<(string, string)>) {
    forall i :: 0 <= i < |folds| ==> IsFoldMark(folds[i].0) && OneLine(folds[i].1)
  }

  predicate StyleIsValid(l: StyledLine) {
    Plain(l.first) && FoldsAreValid(l.folds) && IsLineBreak(l.lineBreak)
  }

  function Render(lines: seq<StyledLine>): string {
    if lines == [] then "" else lines[0].first + Folded(lines[0].folds) + lines[0].lineBreak + Render(lines[1..])
  }

  function Logical(lines: seq<StyledLine>): (r: seq<string>)
    ensures |r| == |lines| && forall i :: 0 <= i < |lines| ==> r[i] == lines[i].first + Unfolded(lines[i].folds)
  {
    if lines == [] then [] else [lines[0].first + Unfolded(lines[0].folds)] + Logical(lines[1..])
  }

  lemma UnfoldMark(mark: string, b: string)
    requires IsFoldMark(mark)
    ensures Unfold(mark + b) == Unfold(b)
  {
    if |mark| == 3 {
      assert (mark + b)[3..] == b;
    } else {
      assert (mark + b)[2..] == b;
    }
  }

  lemma UnfoldAnyBreak(lineBreak: string, b: string)
    requires IsLineBreak(lineBreak) && (b == "" || (!IsFoldBlank(b[0]) && !IsBreak(b[0])))
    ensures Unfold(lineBreak + b) == lineBreak + Unfold(b)
  {
    if lineBreak == "\r\n" {
      UnfoldBreak(b);
    } else {
      assert (lineBreak + b)[1..] == b;
    }
  }

  lemma {:induction false} UnfoldFolds(folds: seq<(string, string)>, b: string)
    requires FoldsAreValid(folds)
    ensures Unfold(Folded(folds) + b) == Unfolded(folds) + Unfold(b)
  {
    hide IcsText.Unfold, IsFoldMark;
    if folds == [] {
      assert Folded(folds) + b == b;
    } else {
      var (mark, piece, rest) := (folds[0].0, folds[0].1, folds[1..]);
      UnfoldFolds(rest, b);
      assert Folded(folds) + b == mark + (piece + (Folded(rest) + b));
      UnfoldMark(mark, piece + (Folded(rest) + b));
      UnfoldOneLine(piece, Folded(rest) + b);
      assert piece + (Unfolded(rest) + Unfold(b)) == Unfolded(folds) + Unfold(b);
    }
  }

  /** The rendering after unfolding: the same line breaks, but no folds. */
  function Rejoined(lines: seq<StyledLine>): string {
    if lines == [] then "" else lines[0].first + Unfolded(lines[0].folds) + lines[0].lineBreak + Rejoined(lines[1..])
  }

  lemma Regroup(a: string, b: string, c: string, d: string)
    ensures a + b + c + d == a + (b + (c + d))
  {
  }

  lemma {:induction false} UnfoldRender(lines: seq<StyledLine>)
    requires forall i :: 0 <= i < |lines| ==> StyleIsValid(lines[i])
    ensures Unfold(Render(lines)) == Rejoined(lines)
  {
    assert Unfold("") == "";
    hide IcsText.Unfold, IcsText.OneLine, FoldsAreValid, Folded, Unfolded, IsLineBreak;
    if lines != [] {
      var (l, rest) := (lines[0], Render(lines[1..]));
      UnfoldRender(lines[1..]);
      RenderStarts(lines[1..]);
      Regroup(l.first, Folded(l.folds), l.lineBreak, rest);
      Regroup(l.first, Unfolded(l.folds), l.lineBreak, Rejoined(lines[1..]));
      UnfoldOneLine(l.first, Folded(l.folds) + (l.lineBreak + rest));
      UnfoldFolds(l.folds, l.lineBreak + rest);
      UnfoldAnyBreak(l.lineBreak, rest);
    }
  }

  lemma RenderStarts(lines: seq<StyledLine>)
    requires forall i :: 0 <= i < |lines| ==> StyleIsValid(lines[i])
    ensures Render(lines) == "" || (!IsFoldBlank(Render(lines)[0]) && !IsBreak(Render(lines)[0]))
    ensures Rejoined(lines) == "" || !IsBreak(Rejoined(lines)[0])
  {
  }

  lemma SplitAtAnyBreak(a: string, lineBreak: string, b: string)
    requires OneLine(a) && IsLineBreak(lineBreak) && (b == "" || !IsBreak(b[0]))
    ensures SplitLines(a + lineBreak + b) == [a] + SplitLines(b)
  {
    if lineBreak == "\r\n" {
      SplitAtBreak(a, b);
    } else {
      assert (lineBreak + b)[1..] == b;
      assert SplitLines(lineBreak + b) == [""] + SplitLines(b);
      assert a + lineBreak + b == a + (lineBreak + b) && a + "" == a;
      SplitOneLine(a, lineBreak + b);
      assert SplitLines(lineBreak + b)[1..] == SplitLines(b);
    }
  }

  lemma {:induction false} UnfoldedIsOneLine(folds: seq<(string, string)>)
    requires FoldsAreValid(folds)
    ensures OneLine(Unfolded(folds))
  {
    if folds != [] {
      UnfoldedIsOneLine(folds[1..]);
    }
  }

  lemma {:induction false} SplitRejoined(lines: seq<StyledLine>)
    requires forall i :: 0 <= i < |lines| ==> StyleIsValid(lines[i])
    ensures SplitLines(Rejoined(lines)) == Logical(lines) + [""]
  {
    if lines != [] {
      var l := lines[0];
      SplitRejoined(lines[1..]);
      RenderStarts(lines[1..]);
      UnfoldedIsOneLine(l.folds);
      SplitAtAnyBreak(l.first + Unfolded(l.folds), l.lineBreak, Rejoined(lines[1..]));
    }
  }

  /**
    The reader sees the same lines however a file is written: with CRLF, LF or CR, mixed or not,
    and folded at any points with a space or a tab.
  */
  lemma AnyStyleIsRead(lines: seq<StyledLine>)
    requires forall i :: 0 <= i < |lines| ==> StyleIsValid(lines[i])
    ensures SplitLines(Unfold(Render(lines))) == Logical(lines) + [""]
  {
    UnfoldRender(lines);
    SplitRejoined(lines);
  }

  /** Hence two files with the same lines are read alike, whatever their style. */
  lemma StyleDoesNotMatter(p: Platform, lines: seq<StyledLine>)
    requires forall i :: 0 <= i < |lines| ==> StyleIsValid(lines[i])
    ensures ParseIcsFile(p, Render(lines)) == Finish(ReadLines(p, NOTHING_READ, Logical(lines)))
  {
    AnyStyleIsRead(lines);
    ReadLinesAppend(p, NOTHING_READ, Logical(lines), [""]);
    var r := ReadLines(p, NOTHING_READ, Logical(lines));
    hide IcsReader.ReadLines, IcsReader.Finish;
    assert ReadLines(p, r, [""]) == r by {
      ReadBlankLine(p, r);
    }
  }

  lemma ReadBlankLine(p: Platform, r: Reading)
    ensures ReadLines(p, r, [""]) == r
  {
    assert [""][1..] == [] && ReadLine(p, r, "") == r;
  }
}
