/** What a quoted line says behind its quote marks, and what is left of it when the marks are stripped. */
module QuotedContent {
  import opened Text
  import opened QuoteLines
  import opened QuoteLinesFacts
  import opened JoinedText
  import opened JoinComparison
  import opened FlowedFacts

  predicate IsQuoted(line: string) { StartsWith(line, ">") }

  /** Where the blanks in front of `j` start. */
  function BlanksStart(line: string, j: nat): (i: nat)
    requires j <= |line|
    ensures i <= j && (i > 0 ==> line[i - 1] != ' ')
    ensures forall k :: i <= k < j ==> line[k] == ' '
  {
    if j > 0 && line[j - 1] == ' ' then BlanksStart(line, j - 1) else j
  }

  /** Without the quote marks that are counted and the blanks between them. */
  function Unquote(line: string): string {
    if IsQuoted(line) then line[BlanksStart(line, MarksEnd(line, 0))..] else line
  }

  /** A quoted line without its marks and one blank behind them. */
  function Content(line: string): string {
    if IsQuoted(line) then Unstuff(Unquote(line)) else line
  }

  /** A quoted line goes on with neither white space nor a further mark. */
  predicate NoMore(line: string) {
    IsQuoted(line) && Content(line) != "" ==> Content(line)[0] != '>' && !IsSpace(Content(line)[0])
  }

  /** White space and marks behind the first blank. */
  function Further(line: string): string {
    if IsQuoted(line) then Content(line)[..SpaceEnd(Content(line), 0)] else ""
  }

  /** What is taken away are all marks of the depth, the last one at the end, and none can follow behind blanks. */
  lemma UnquoteTakesTheMarks(line: string) returns (marks: string)
    requires IsQuoted(line)
    ensures line == marks + Unquote(line) && Count(marks, '>') == DepthOf(line)
    ensures marks != "" && marks[|marks| - 1] == '>'
    ensures forall i :: 0 <= i < |marks| ==> marks[i] == '>' || marks[i] == ' '
    ensures forall i :: 0 <= i < |Unquote(line)| && Unquote(line)[i] == '>' ==>
              exists j :: 0 <= j < i && Unquote(line)[j] != ' '
  {
    hide Count;
    var end := MarksEnd(line, 0);
    var start := BlanksStart(line, end);
    assert line[0] == '>';
    marks := line[..start];
    assert line[..end] == marks + line[start..end];
    CountConcat(marks, line[start..end], '>');
    NoMarks(line[start..end]);
    forall i | 0 <= i < |Unquote(line)| && Unquote(line)[i] == '>'
      ensures exists j :: 0 <= j < i && Unquote(line)[j] != ' '
    {
      assert Unquote(line)[i] == line[start + i];
      assert start + i >= end && line[end] != '>' && Unquote(line)[end - start] == line[end];
    }
  }

  lemma {:induction false} NoMarks(s: string)
    requires forall i :: 0 <= i < |s| ==> s[i] == ' '
    ensures Count(s, '>') == 0
  {
    if s != "" { NoMarks(s[1..]); }
  }

  predicate Strippable(c: char) { c == '>' || IsSpace(c) }

  lemma {:induction false} SpaceEndIs(text: string, j: nat, end: nat)
    requires j <= end <= |text| && forall i :: j <= i < end ==> Strippable(text[i])
    requires end < |text| ==> !Strippable(text[end])
    ensures SpaceEnd(text, j) == end
    decreases end - j
  {
    hide IsSpace;
    if j < end { SpaceEndIs(text, j + 1, end); }
  }

  /** Stripping takes what is further away as well. */
  lemma StripIs(line: string)
    ensures Content(line) == Further(line) + StripMarks(line)
    ensures forall i :: 0 <= i < |Further(line)| ==> Strippable(Further(line)[i])
    ensures IsQuoted(line) && StripMarks(line) != "" ==> !Strippable(StripMarks(line)[0])
    ensures IsQuoted(line) ==> Content(line) == Unstuff(Unquote(line))
    ensures Further(line) == "" <==> NoMore(line)
  {
    hide *;
    StrippedIs(line);
    ContentUnfolds(line);
    FurtherIs(line);
    if IsQuoted(line) {
      var q := ContentStarts(line);
      var c := Content(line);
      ShiftedEnd(line, q, c);
      EndOfSpace(c);
      assert c == c[..SpaceEnd(c, 0)] + c[SpaceEnd(c, 0)..];
    } else {
      assert "" + line == line;
    }
  }

  lemma FurtherIs(line: string)
    ensures Further(line) == if IsQuoted(line) then Content(line)[..SpaceEnd(Content(line), 0)] else ""
    ensures
      NoMore(line) <==>
      !IsQuoted(line) || Content(line) == "" || !Strippable(Content(line)[0])
  {
    hide SpaceEnd, Content, IsQuoted, IsSpace;
  }

  lemma EndOfSpace(c: string)
    ensures forall i :: 0 <= i < SpaceEnd(c, 0) ==> Strippable(c[i])
    ensures SpaceEnd(c, 0) < |c| ==> !Strippable(c[SpaceEnd(c, 0)])
    ensures SpaceEnd(c, 0) == 0 <==> c == "" || !Strippable(c[0])
  {
    hide SpaceEnd, IsSpace;
  }

  lemma StrippedIs(line: string)
    ensures StripMarks(line) == if IsQuoted(line) then line[SpaceEnd(line, 0)..] else line
  {
    hide SpaceEnd;
  }

  lemma ContentUnfolds(line: string)
    ensures Content(line) == if IsQuoted(line) then Unstuff(Unquote(line)) else line
  {
    hide Unquote, Unstuff;
  }

  lemma ContentStarts(line: string) returns (q: nat)
    requires IsQuoted(line)
    ensures q <= |line| && Content(line) == line[q..] && forall i :: 0 <= i < q ==> Strippable(line[i])
  {
    hide IsSpace;
    BlankIsSpace();
    q := |line| - |Content(line)|;
  }

  lemma ShiftedEnd(line: string, q: nat, c: string)
    requires q <= |line| && c == line[q..] && forall i :: 0 <= i < q ==> Strippable(line[i])
    ensures SpaceEnd(line, 0) == q + SpaceEnd(c, 0) && line[SpaceEnd(line, 0)..] == c[SpaceEnd(c, 0)..]
  {
    hide SpaceEnd;
    var end := SpaceEnd(c, 0);
    forall i | 0 <= i < q + end ensures Strippable(line[i]) {
      if i >= q { assert line[i] == c[i - q]; }
    }
    assert end < |c| ==> line[q + end] == c[end];
    SpaceEndIs(line, 0, q + end);
  }

  lemma BlankIsSpace()
    ensures IsSpace(' ') && IsSpace('\r') && !IsSpace('-')
  {
  }

  // ----- what the stripping changes in flowed text -----

  function UnquoteAll(lines: seq<string>): seq<string> {
    seq(|lines|, i requires 0 <= i < |lines| => Unquote(lines[i]))
  }

  function StripAll(lines: seq<string>): seq<string> {
    seq(|lines|, i requires 0 <= i < |lines| => StripMarks(lines[i]))
  }

  predicate AllQuoted(lines: seq<string>) { forall i :: 0 <= i < |lines| ==> IsQuoted(lines[i]) }

  predicate OneLiners(lines: seq<string>) { forall i :: 0 <= i < |lines| ==> '\n' !in lines[i] }

  lemma {:induction false} InkOfFront(f: string, t: string)
    requires '\n' !in f
    ensures InkCount(t) <= InkCount(f + t)
    ensures InkCount(t) == InkCount(f + t) <==> CrsThen(f + t, t)
  {
    hide InkCount;
    InkCountConcat(f, t);
    assert (f + t)[|f|..] == t && (f + t)[..|f|] == f;
    if f == "" {
      assert InkCount("") == 0 by { NothingInked(); }
    } else {
      var rest := f[1..];
      assert f == [f[0]] + rest && f[0] in f;
      InkCountConcat([f[0]], rest);
      InkOfOne(f[0]);
      InkOfFront(rest, t);
      InkCountConcat(rest, t);
      assert forall i :: 0 <= i < |rest| ==> (rest + t)[i] == (f + t)[i + 1];
      assert (rest + t)[|rest|..] == t;
      assert forall i :: 1 <= i < |f| ==> (f + t)[i] == (rest + t)[i - 1];
      assert (f + t)[0] == f[0];
    }
  }

  lemma NothingInked()
    ensures InkCount("") == 0
  {
  }

  lemma FlowedPiece(line: string)
    requires IsQuoted(line) && '\n' !in line
    ensures
      var t, u := StripMarks(line), Content(line);
      && '\n' !in t && NoCrFirst(t) && InkCount(t) <= InkCount(u)
      && (InkCount(t) == InkCount(u) ==> CrsThen(u, t))
      && (u == t <==> NoMore(line)) && u == Unstuff(Unquote(line))
  {
    hide Content, Unquote, Unstuff, StripMarks, InkCount, Further, CrsThen, NoMore, IsSpace;
    var t := StripMarks(line);
    StripIs(line);
    ContentHasNoNewline(line);
    BlankIsSpace();
    assert forall i :: 0 <= i < |Further(line)| ==> Further(line)[i] == Content(line)[i];
    InkOfFront(Further(line), t);
    assert forall i :: 0 <= i < |t| ==> t[i] == Content(line)[|Further(line)| + i];
    assert Further(line) == "" ==> Further(line) + t == t;
  }

  lemma ContentHasNoNewline(line: string)
    requires '\n' !in line
    ensures '\n' !in Content(line)
  {
  }

  lemma PiecesAre(lines: seq<string>, i: nat)
    requires i < |lines|
    ensures |StripAll(lines)| == |UnquoteAll(lines)| == |lines| == |Unstuffed(UnquoteAll(lines))|
    ensures StripAll(lines)[i] == StripMarks(lines[i]) && Unstuffed(UnquoteAll(lines))[i] == Unstuff(Unquote(lines[i]))
  {
    hide StripMarks, Unquote, Unstuff;
  }

  /** Flowed lines of a quotation. */
  lemma QuotedMeetsRfc(lines: seq<string>)
    requires lines != [] && AllQuoted(lines) && OneLiners(lines)
    ensures
      var said := UnquoteAll(lines);
      Joined(StripAll(lines), BySoftness(StripAll(lines))) == Reflow(said)
      <==> (forall i :: 0 <= i < |lines| ==> NoMore(lines[i]))
           && forall i :: 0 <= i < |lines| - 1 ==> FlowsWell(Unstuffed(said), i)
  {
    hide *;
    var n := |lines| - 1;
    var t, u := StripAll(lines), Unstuffed(UnquoteAll(lines));
    var code, rfc := BySoftness(t), ByParagraph(u);
    PiecesAre(lines, 0);
    ReflowUnfolds(UnquoteAll(lines));
    forall i | 0 <= i < |lines| ensures FlowedFit(lines[i], t[i], u[i]) {
      QuotedFit(lines, i);
    }
    if exists i :: 0 <= i < |lines| && InkCount(t[i]) < InkCount(u[i]) {
      var i :| 0 <= i < |lines| && InkCount(t[i]) < InkCount(u[i]);
      FitFacts(lines[i], t[i], u[i]);
      LessJoined(lines, t, u, code, rfc);
    } else {
      FitUpToCrs(lines, t, u);
      SoftnessIs(t);
      PiecesDecide(t, u, code, rfc);
      SameByParagraph(t, u);
      SameWhole(lines, t, u);
    }
  }

  ghost predicate FlowedFit(line: string, t: string, u: string) {
    && '\n' !in t && NoCrFirst(t) && InkCount(t) <= InkCount(u) && (InkCount(t) == InkCount(u) ==> CrsThen(u, t))
    && (u == t <==> NoMore(line))
  }

  lemma QuotedFit(lines: seq<string>, i: nat)
    requires i < |lines| && AllQuoted(lines) && OneLiners(lines)
    requires |StripAll(lines)| == |lines| == |Unstuffed(UnquoteAll(lines))|
    ensures FlowedFit(lines[i], StripAll(lines)[i], Unstuffed(UnquoteAll(lines))[i])
  {
    hide StripMarks, Unquote, Unstuff, IsQuoted, NoMore, InkCount, CrsThen, Content, StripAll, Unstuffed, UnquoteAll;
    PiecesAre(lines, i);
    FlowedPiece(lines[i]);
  }

  lemma FitFacts(line: string, t: string, u: string)
    requires FlowedFit(line, t, u) && InkCount(t) < InkCount(u)
    ensures !NoMore(line)
  {
    hide NoMore, InkCount;
  }

  lemma ReflowUnfolds(said: seq<string>)
    requires said != []
    ensures Unstuffed(said) != [] && Reflow(said) == Joined(Unstuffed(said), ByParagraph(Unstuffed(said)))
  {
    hide Joined;
  }

  /** Less ink in one piece and no more in the others: the texts differ, however they are joined. */
  lemma LessJoined(lines: seq<string>, t: seq<string>, u: seq<string>, joins: nat -> bool, others: nat -> bool)
    requires |t| == |u| == |lines| > 0 && forall i :: 0 <= i < |lines| ==> FlowedFit(lines[i], t[i], u[i])
    requires exists i :: 0 <= i < |t| && InkCount(t[i]) < InkCount(u[i])
    ensures Joined(t, joins) != Joined(u, others)
  {
    hide Joined, InkCount, CrsThen, NoMore;
    LessInk(t, u);
    JoinedInk(t, joins);
    JoinedInk(u, others);
  }

  lemma FitUpToCrs(lines: seq<string>, t: seq<string>, u: seq<string>)
    requires |t| == |u| == |lines| && forall i :: 0 <= i < |lines| ==> FlowedFit(lines[i], t[i], u[i])
    requires forall i :: 0 <= i < |t| ==> !(InkCount(t[i]) < InkCount(u[i]))
    ensures UpToCrs(t, u) && OneLinePieces(t)
    ensures forall i :: 0 <= i < |t| ==> (u[i] == t[i] <==> NoMore(lines[i]))
  {
    hide InkCount, CrsThen, NoMore, NoCrFirst;
  }

  /** A CR alone is never joined to what follows. */
  lemma SameByParagraph(t: seq<string>, u: seq<string>)
    requires |t| == |u| > 0
    ensures forall i :: 0 <= i < |t| ==> (SamePiece(t, u, ByParagraph(u), i) <==> u[i] == t[i])
    ensures forall i: nat :: ByParagraph(u)(i) == BreakGoes(u, i)
  {
    hide IsSeparator;
  }

  lemma SameWhole(lines: seq<string>, t: seq<string>, u: seq<string>)
    requires |t| == |u| == |lines| > 0
    requires forall i :: 0 <= i < |t| ==> (u[i] == t[i] <==> NoMore(lines[i]))
    requires forall i :: 0 <= i < |t| ==> (SamePiece(t, u, ByParagraph(u), i) <==> u[i] == t[i])
    requires forall i: nat :: ByParagraph(u)(i) == BreakGoes(u, i)
    ensures
      Agree(t, u, BySoftness(t), ByParagraph(u), |t| - 1)
      <==> (forall i :: 0 <= i < |lines| ==> NoMore(lines[i])) && forall i :: 0 <= i < |lines| - 1 ==> FlowsWell(u, i)
  {
    hide SamePiece, BreakGoes, SoftSoFar, FlowsWell, NoMore, ByParagraph;
    if t == u { SameBreaks(u, |u| - 1); }
    assert (forall i :: 0 <= i < |t| ==> u[i] == t[i]) ==> t == u;
  }

  // ----- with deleted spaces -----

  function Deleted(u: string): string { if Flows(u) then ChopSpace(u) else u }

  /** What a line ends in is not changed by what stands in front of it. */
  lemma ChopBehind(f: string, t: string)
    requires t != "" && !Strippable(t[0])
    ensures Soft(f + t) == Soft(t) && ChopSpace(f + t) == f + ChopSpace(t)
  {
    hide IsSpace;
    BlankIsSpace();
    var u := f + t;
    assert u[|u| - 1] == t[|t| - 1];
    if |t| >= 2 { assert u[|u| - 2] == t[|t| - 2]; }
    if Soft(t) {
      assert |t| >= 2;
      assert u[..|u| - 1] == f + t[..|t| - 1] && u[..|u| - 2] == f + t[..|t| - 2];
    }
  }

  /** Nothing but a space, with a CR. */
  predicate OneSpace(u: string) { u == " \r" || u == "\r " }

  ghost predicate ChoppedFit(line: string, a: string, b: string) {
    var u := Content(line);
    && '\n' !in a && NoCrFirst(a) && InkCount(a) <= InkCount(b)
    && (InkCount(a) == InkCount(b) ==> CrsThen(b, a) && !IsSeparator(u))
    && (!IsSeparator(u) ==> (b == a <==> NoMore(line) || u == " "))
    && (a == "" && b == "\r" && Soft(u) <==> OneSpace(u))
  }

  lemma ChoppedPiece(line: string)
    requires IsQuoted(line) && '\n' !in line
    ensures ChoppedFit(line, ChopSpace(StripMarks(line)), Deleted(Content(line)))
  {
    hide *;
    var f, t, u := Further(line), StripMarks(line), Content(line);
    StripIs(line);
    ContentHasNoNewline(line);
    assert forall i :: 0 <= i < |f| ==> f[i] == u[i];
    assert forall i :: 0 <= i < |t| ==> t[i] == u[|f| + i];
    if t == "" {
      assert u == f;
      NothingLeft(line, u);
    } else {
      SomethingLeft(line, f, t, u);
    }
  }

  lemma NothingLeft(line: string, u: string)
    requires u == Content(line) && '\n' !in u && (u == "" <==> NoMore(line))
    requires forall i :: 0 <= i < |u| ==> Strippable(u[i])
    ensures ChoppedFit(line, ChopSpace(""), Deleted(u))
  {
    hide Content, NoMore, IsSpace, InkCount, CrsThen, Soft, ChopSpace;
    BlankIsSpace();
    assert u != "" ==> Strippable(u[0]);
    ShortChops(u);
    ChopNoNewline(u);
    var b := Deleted(u);
    InkOfFront(b, "");
    assert b + "" == b;
    NothingInked();
  }

  lemma ShortChops(u: string)
    ensures ChopSpace("") == ""
    ensures OneSpace(u) || u == " " ==> Soft(u)
    ensures Soft(u) ==> u != "" && u != "\r"
    ensures Soft(u) ==> (ChopSpace(u) == "" <==> u == " ") && (ChopSpace(u) == "\r" <==> OneSpace(u))
  {
    if Soft(u) && ChopSpace(u) == "\r" {
      if EndsInSpaceCr(u) { assert u[..|u| - 2] == ""; } else { assert u == "\r" + [u[|u| - 1]]; }
    }
  }

  lemma SomethingLeft(line: string, f: string, t: string, u: string)
    requires u == Content(line) == f + t && '\n' !in u && (f == "" <==> NoMore(line))
    requires t != "" && !Strippable(t[0]) && forall i :: 0 <= i < |f| ==> Strippable(f[i])
    ensures ChoppedFit(line, ChopSpace(t), Deleted(u))
  {
    hide *;
    var a := ChopSpace(t);
    ChopBehind(f, t);
    assert forall i :: 0 <= i < |f| ==> u[i] == f[i];
    assert forall i :: 0 <= i < |t| ==> u[|f| + i] == t[i];
    ChopNoNewline(t);
    ChopStart(t);
    InkOfFront(f, a);
    assert f == "" ==> f + a == a && f + t == t;
    StartOfBehind(f, t, u);
    if IsSeparator(u) {
      SeparatorStart(u);
      StrippableStart(f, u);
      SeparatorLess(t);
      SeparatorFit(line, a, u);
    } else {
      DeletedIs(u, f, t);
      BehindFit(line, f, a, u);
    }
  }

  lemma StartOfBehind(f: string, t: string, u: string)
    requires u == f + t && t != "" && !Strippable(t[0])
    ensures u != " " && !OneSpace(u)
  {
    BlankIsSpace();
    assert u[|f|] == t[0];
  }

  lemma StrippableStart(f: string, u: string)
    requires u != "" && !Strippable(u[0]) && |f| <= |u|
    requires forall i :: 0 <= i < |f| ==> u[i] == f[i] && Strippable(f[i])
    ensures f == ""
  {
    hide Strippable;
  }

  lemma DeletedIs(u: string, f: string, t: string)
    requires !IsSeparator(u) && u == f + t && ChopSpace(u) == f + ChopSpace(t) && Soft(u) == Soft(t)
    ensures Deleted(u) == f + ChopSpace(t)
  {
    hide ChopSpace, Soft, IsSeparator;
    ChopOnlySoft(t);
  }

  lemma SeparatorFit(line: string, a: string, u: string)
    requires u == Content(line) && IsSeparator(u) && '\n' !in a && NoCrFirst(a) && InkCount(a) < InkCount(u) && a != ""
    ensures ChoppedFit(line, a, Deleted(u))
  {
    hide Content, NoMore, InkCount, CrsThen, Soft;
  }

  lemma BehindFit(line: string, f: string, a: string, u: string)
    requires u == Content(line) && !IsSeparator(u) && u != " " && !OneSpace(u) && (f == "" <==> NoMore(line))
    requires '\n' !in a && NoCrFirst(a) && a != "" && Deleted(u) == f + a
    requires InkCount(a) <= InkCount(f + a) && (InkCount(a) == InkCount(f + a) <==> CrsThen(f + a, a))
    ensures ChoppedFit(line, a, Deleted(u))
  {
    hide Content, NoMore, InkCount, CrsThen, Soft, IsSeparator, Deleted;
    assert |f + a| == |f| + |a|;
  }

  lemma ChopStart(t: string)
    requires t != "" && !Strippable(t[0])
    ensures ChopSpace(t) != "" && ChopSpace(t)[0] == t[0] && NoCrFirst(ChopSpace(t))
  {
    BlankIsSpace();
  }

  lemma SeparatorStart(u: string)
    requires IsSeparator(u)
    ensures u != "" && !Strippable(u[0])
  {
    BlankIsSpace();
  }

  lemma SeparatorLess(t: string)
    requires IsSeparator(t)
    ensures InkCount(ChopSpace(t)) < InkCount(t)
  {
    hide InkCount;
    Trimmed();
    InkCountConcat("--", " ");
    InkCountConcat("--", "\r");
    InkCountConcat("-- ", "\r");
    InkOfOne(' ');
    InkOfOne('\r');
    assert "--" + " " == "-- " && "--" + "\r" == "--\r" && "-- " + "\r" == "-- \r";
  }

  /** A quoted line in the row may go on behind its marks with the one space that is deleted. */
  predicate KeepsContent(lines: seq<string>, i: nat)
    requires i < |lines|
  {
    NoMore(lines[i]) || Content(lines[i]) == " " || (OneSpace(Content(lines[i])) && i + 1 < |lines|)
  }

  /** Flowed lines of a quotation with deleted spaces. */
  lemma QuotedDelSpMeetsRfc(lines: seq<string>)
    requires lines != [] && AllQuoted(lines) && OneLiners(lines)
    ensures
      var said, a := UnquoteAll(lines), ChopAll(StripAll(lines));
      Joined(a, BySoftness(a)) == ReflowDelSp(said)
      <==> NoSeparator(said) && (forall i :: 0 <= i < |lines| ==> KeepsContent(lines, i))
           && forall i :: 0 <= i < |lines| - 1 ==> ChopsWell(Unstuffed(said), i)
  {
    hide *;
    var a, u := ChopAll(StripAll(lines)), Unstuffed(UnquoteAll(lines));
    var b := DeleteSpaces(u);
    var code, rfc := BySoftness(a), ByParagraph(u);
    ChoppedPiecesAre(lines, 0);
    DelSpUnfolds(UnquoteAll(lines));
    forall i | 0 <= i < |lines| ensures ChoppedFit(lines[i], a[i], b[i]) && u[i] == Content(lines[i]) {
      QuotedChoppedFit(lines, i);
    }
    SeparatorsAre(UnquoteAll(lines));
    if exists i :: 0 <= i < |lines| && InkCount(a[i]) < InkCount(b[i]) {
      LessChopped(lines, a, b, code, rfc);
      LessIsNotKept(lines, a, b, u);
    } else {
      ChoppedUpToCrs(lines, a, b, u);
      SoftnessIs(a);
      PiecesDecide(a, b, code, rfc);
      SameChoppedWhole(lines, a, b, u);
    }
  }

  lemma ChoppedPiecesAre(lines: seq<string>, i: nat)
    requires i < |lines|
    ensures |ChopAll(StripAll(lines))| == |UnquoteAll(lines)| == |lines|
    ensures |Unstuffed(UnquoteAll(lines))| == |DeleteSpaces(Unstuffed(UnquoteAll(lines)))| == |lines|
    ensures ChopAll(StripAll(lines))[i] == ChopSpace(StripMarks(lines[i]))
    ensures Unstuffed(UnquoteAll(lines))[i] == Unstuff(Unquote(lines[i]))
    ensures DeleteSpaces(Unstuffed(UnquoteAll(lines)))[i] == Deleted(Unstuff(Unquote(lines[i])))
  {
    hide StripMarks, Unquote, Unstuff, ChopSpace, Flows;
  }

  lemma DelSpUnfolds(said: seq<string>)
    requires said != []
    ensures
      |DeleteSpaces(Unstuffed(said))| > 0
      && ReflowDelSp(said) == Joined(DeleteSpaces(Unstuffed(said)), ByParagraph(Unstuffed(said)))
  {
    hide Joined;
  }

  lemma QuotedChoppedFit(lines: seq<string>, i: nat)
    requires i < |lines| && AllQuoted(lines) && OneLiners(lines)
    requires |ChopAll(StripAll(lines))| == |Unstuffed(UnquoteAll(lines))| == |lines|
    requires |DeleteSpaces(Unstuffed(UnquoteAll(lines)))| == |lines|
    ensures ChoppedFit(lines[i], ChopAll(StripAll(lines))[i], DeleteSpaces(Unstuffed(UnquoteAll(lines)))[i])
    ensures Unstuffed(UnquoteAll(lines))[i] == Content(lines[i])
  {
    hide StripMarks, Unquote, Unstuff, IsQuoted, Content, StripAll, Unstuffed, UnquoteAll, ChopAll, DeleteSpaces,
         ChoppedFit, Deleted, ChopSpace;
    ChoppedPiecesAre(lines, i);
    ChoppedPiece(lines[i]);
    StripIs(lines[i]);
  }

  lemma SeparatorsAre(said: seq<string>)
    ensures |Unstuffed(said)| == |said|
    ensures NoSeparator(said) <==> forall i :: 0 <= i < |said| ==> !IsSeparator(Unstuffed(said)[i])
  {
    hide IsSeparator, Unstuff;
    assert forall i :: 0 <= i < |said| ==> Unstuffed(said)[i] == Unstuff(said[i]);
  }

  lemma LessChopped(lines: seq<string>, a: seq<string>, b: seq<string>, joins: nat -> bool, others: nat -> bool)
    requires |a| == |b| == |lines| > 0 && forall i :: 0 <= i < |lines| ==> ChoppedFit(lines[i], a[i], b[i])
    requires exists i :: 0 <= i < |a| && InkCount(a[i]) < InkCount(b[i])
    ensures Joined(a, joins) != Joined(b, others)
  {
    hide Joined, InkCount, CrsThen, NoMore, Content, IsSeparator, Soft;
    LessInk(a, b);
    JoinedInk(a, joins);
    JoinedInk(b, others);
  }

  lemma LessIsNotKept(lines: seq<string>, a: seq<string>, b: seq<string>, u: seq<string>)
    requires |a| == |b| == |u| == |lines|
    requires forall i :: 0 <= i < |lines| ==> ChoppedFit(lines[i], a[i], b[i]) && u[i] == Content(lines[i])
    requires exists i :: 0 <= i < |lines| && InkCount(a[i]) < InkCount(b[i])
    ensures (forall i :: 0 <= i < |u| ==> !IsSeparator(u[i])) ==>
              !forall i :: 0 <= i < |lines| ==> KeepsContent(lines, i)
  {
    hide CrsThen, NoMore, Content, IsSeparator, Soft, InkCount;
    var i :| 0 <= i < |lines| && InkCount(a[i]) < InkCount(b[i]);
    CrHasNoInk();
    if !IsSeparator(u[i]) {
      assert b[i] != a[i];
      assert !KeepsContent(lines, i);
    }
  }

  lemma CrHasNoInk()
    ensures InkCount("\r") == InkCount("") == 0
  {
    InkOfOne('\r');
    NothingInked();
  }

  lemma ChoppedUpToCrs(lines: seq<string>, a: seq<string>, b: seq<string>, u: seq<string>)
    requires |a| == |b| == |u| == |lines|
    requires forall i :: 0 <= i < |lines| ==> ChoppedFit(lines[i], a[i], b[i]) && u[i] == Content(lines[i])
    requires forall i :: 0 <= i < |lines| ==> !(InkCount(a[i]) < InkCount(b[i]))
    ensures UpToCrs(a, b) && OneLinePieces(a) && forall i :: 0 <= i < |u| ==> !IsSeparator(u[i])
    ensures forall i :: 0 <= i < |lines| ==> (b[i] == a[i] <==> NoMore(lines[i]) || Content(lines[i]) == " ")
    ensures forall i :: 0 <= i < |lines| ==> (a[i] == "" && b[i] == "\r" && Soft(u[i]) <==> OneSpace(u[i]))
  {
    hide InkCount, CrsThen, NoMore, NoCrFirst, Content, IsSeparator, Soft;
  }

  lemma SameChoppedWhole(lines: seq<string>, a: seq<string>, b: seq<string>, u: seq<string>)
    requires |a| == |b| == |u| == |lines| > 0 && a == ChopAll(StripAll(lines)) && AllQuoted(lines)
    requires forall i :: 0 <= i < |u| ==> !IsSeparator(u[i]) && u[i] == Content(lines[i])
    requires forall i :: 0 <= i < |lines| ==> (b[i] == a[i] <==> NoMore(lines[i]) || Content(lines[i]) == " ")
    requires forall i :: 0 <= i < |lines| ==> (a[i] == "" && b[i] == "\r" && Soft(u[i]) <==> OneSpace(u[i]))
    ensures
      Agree(a, b, BySoftness(a), ByParagraph(u), |a| - 1)
      <==> (forall i :: 0 <= i < |lines| ==> KeepsContent(lines, i))
           && forall i :: 0 <= i < |lines| - 1 ==> ChopsWell(u, i)
  {
    hide *;
    var rfc := ByParagraph(u);
    forall i | 0 <= i < |lines| ensures SamePiece(a, b, rfc, i) <==> KeepsContent(lines, i) {
      KeptIsSame(lines, a, b, u, i);
    }
    if forall i :: 0 <= i < |lines| ==> KeepsContent(lines, i) {
      forall i | 0 <= i < |lines|
        ensures i < |a| == |ChopAll(u)| && Soft(a[i]) == Soft(ChopAll(u)[i]) && Blank(a[i]) == Blank(ChopAll(u)[i])
      {
        QuotedAt(lines, i);
        KeptEnds(lines, u, i);
      }
      ChopAt(u, 0);
      SoftSame(a, ChopAll(u));
      SameChoppedBreaks(u, |u| - 1);
    }
    AgreeIs(a, b, u);
  }

  lemma QuotedAt(lines: seq<string>, i: nat)
    requires AllQuoted(lines) && i < |lines|
    ensures IsQuoted(lines[i])
  {
  }

  lemma KeptIsSame(lines: seq<string>, a: seq<string>, b: seq<string>, u: seq<string>, i: nat)
    requires |a| == |b| == |u| == |lines| && i < |lines| && u[i] == Content(lines[i])
    requires forall k :: 0 <= k < |u| ==> !IsSeparator(u[k])
    requires b[i] == a[i] <==> NoMore(lines[i]) || Content(lines[i]) == " "
    requires a[i] == "" && b[i] == "\r" && Soft(u[i]) <==> OneSpace(u[i])
    ensures SamePiece(a, b, ByParagraph(u), i) <==> KeepsContent(lines, i)
  {
    hide NoMore, Content, IsSeparator;
    assert ByParagraph(u)(i) ==> Soft(u[i]);
    assert Soft(" \r") && Soft("\r ");
    hide Soft;
  }

  lemma KeptEnds(lines: seq<string>, u: seq<string>, i: nat)
    requires |u| == |lines| && i < |lines| && u[i] == Content(lines[i]) && KeepsContent(lines, i) && IsQuoted(lines[i])
    ensures |ChopAll(StripAll(lines))| == |lines| == |ChopAll(u)|
    ensures Soft(ChopAll(StripAll(lines))[i]) == Soft(ChopAll(u)[i])
    ensures Blank(ChopAll(StripAll(lines))[i]) == Blank(ChopAll(u)[i])
  {
    hide *;
    ChoppedPiecesAre(lines, i);
    ChopAt(u, i);
    StripIs(lines[i]);
    var t := StripMarks(lines[i]);
    KeptUnfolds(lines, i);
    if NoMore(lines[i]) {
      assert Further(lines[i]) + t == t;
    } else {
      BlankContent(lines[i]);
      BlankChops(u[i]);
    }
  }

  lemma KeptUnfolds(lines: seq<string>, i: nat)
    requires i < |lines| && KeepsContent(lines, i)
    ensures NoMore(lines[i]) || Content(lines[i]) == " " || OneSpace(Content(lines[i]))
  {
    hide NoMore, Content, OneSpace;
  }

  lemma BlankChops(u: string)
    requires u == " " || OneSpace(u)
    ensures Soft(ChopSpace(u)) == Soft(ChopSpace("")) && Blank(ChopSpace(u)) == Blank(ChopSpace(""))
  {
  }

  lemma ChopAt(u: seq<string>, i: nat)
    requires i < |u|
    ensures |ChopAll(u)| == |u| && ChopAll(u)[i] == ChopSpace(u[i])
  {
    hide ChopSpace;
  }

  lemma BlankContent(line: string)
    requires IsQuoted(line) && (Content(line) == " " || OneSpace(Content(line)))
    ensures StripMarks(line) == ""
  {
    hide *;
    StripIs(line);
    AllStrippable(Content(line));
    NothingBehind(Further(line), StripMarks(line));
  }

  lemma AllStrippable(u: string)
    requires u == " " || OneSpace(u)
    ensures forall i :: 0 <= i < |u| ==> Strippable(u[i])
  {
    BlankIsSpace();
  }

  lemma NothingBehind(f: string, t: string)
    requires forall i :: 0 <= i < |f + t| ==> Strippable((f + t)[i])
    requires t != "" ==> !Strippable(t[0])
    ensures t == ""
  {
    hide Strippable;
    assert (f + t)[|f|..] == t;
  }

  lemma {:induction false} SoftSame(a: seq<string>, c: seq<string>)
    requires |a| == |c|
    requires forall i :: 0 <= i < |a| ==> Soft(a[i]) == Soft(c[i]) && Blank(a[i]) == Blank(c[i])
    ensures forall i :: 0 <= i < |a| ==> SoftSoFar(a, i) == SoftSoFar(c, i)
  {
    hide Soft, Blank, SoftSoFar;
    forall i | 0 <= i < |a| ensures SoftSoFar(a, i) == SoftSoFar(c, i) {
      SoftSameAt(a, c, i);
    }
  }

  lemma {:induction false} SoftSameAt(a: seq<string>, c: seq<string>, i: nat)
    requires i < |a| == |c|
    requires forall k :: 0 <= k < |a| ==> Soft(a[k]) == Soft(c[k]) && Blank(a[k]) == Blank(c[k])
    ensures SoftSoFar(a, i) == SoftSoFar(c, i)
  {
    hide Soft, Blank;
    if i > 0 { SoftSameAt(a, c, i - 1); }
  }

  lemma AgreeIs(a: seq<string>, b: seq<string>, u: seq<string>)
    requires |a| == |b| == |u| > 0
    ensures
      Agree(a, b, BySoftness(a), ByParagraph(u), |a| - 1)
      <==> (forall i :: 0 <= i < |a| ==> SamePiece(a, b, ByParagraph(u), i))
           && forall i :: 0 <= i < |a| - 1 ==> SoftSoFar(a, i) == BreakGoes(u, i)
  {
    hide SamePiece, SoftSoFar, BreakGoes;
    assert forall i :: 0 <= i < |a| ==> BySoftness(a)(i) == SoftSoFar(a, i);
    assert forall i: nat :: ByParagraph(u)(i) == BreakGoes(u, i);
  }

  // ----- witnesses -----

  lemma {:induction false} MarksEndIs(line: string, j: nat, end: nat)
    requires j <= end <= |line| && forall i :: j <= i < end ==> line[i] == '>' || line[i] == ' '
    requires end < |line| ==> line[end] != '>' && line[end] != ' '
    ensures MarksEnd(line, j) == end
    decreases end - j
  {
    if j < end { MarksEndIs(line, j + 1, end); }
  }

  lemma {:induction false} BlanksStartIs(line: string, j: nat, start: nat)
    requires 0 < start <= j <= |line| && line[start - 1] != ' ' && forall i :: start <= i < j ==> line[i] == ' '
    ensures BlanksStart(line, j) == start
    decreases j - start
  {
    if start < j { BlanksStartIs(line, j - 1, start); }
  }

  lemma MarkThenBlanks(line: string, n: nat)
    requires 1 <= n < |line| && line[0] == '>' && forall i :: 1 <= i < n ==> line[i] == ' '
    requires !Strippable(line[n])
    ensures StripMarks(line) == line[n..] && Unquote(line) == line[1..] && IsQuoted(line)
  {
    hide SpaceEnd, MarksEnd, BlanksStart, IsSpace;
    BlankIsSpace();
    assert IsQuoted(line);
    SpaceEndIs(line, 0, n);
    MarksEndIs(line, 0, n);
    BlanksStartIs(line, n, 1);
  }

  lemma LettersStay()
    ensures !Strippable('a') && !Strippable('b')
  {
  }

  /** Of two spaces behind the mark the second belongs to what the line says; it is lost in flowed text as well. */
  lemma QuotedSpaceIsLost(lines: seq<string>)
    requires lines == [">  a ", "> b"]
    ensures Joined(StripAll(lines), BySoftness(StripAll(lines))) == "a b" && Reflow(UnquoteAll(lines)) == " a b"
  {
    hide StripMarks, Unquote, Joined, Strippable;
    LettersStay();
    MarkThenBlanks(lines[0], 3);
    MarkThenBlanks(lines[1], 2);
    var t, u := ["a ", "b"], [" a ", "b"];
    assert StripAll(lines) == t && UnquoteAll(lines) == ["  a ", " b"];
    assert Unstuffed(UnquoteAll(lines)) == u;
    JoinedTwo("a ", "b", BySoftness(t));
    JoinedTwo(" a ", "b", ByParagraph(u));
  }

  lemma JoinedTwo(a: string, b: string, joins: nat -> bool)
    ensures Joined([a, b], joins) == Onward(a, a, joins(0), b)
  {
    hide Onward, Joined;
    assert [a, b][..1] == [a];
    JoinedUnfolds([a, b], joins);
    JoinedOne(a, joins);
  }
}
