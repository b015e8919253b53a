/** The first two passes on whole mails: the lines of the text and the blocks made of them. */
module MailLines {
  import opened Text
  import opened QuoteLines
  import opened QuoteLinesFacts
  import opened JoinedText
  import opened FlowedFacts
  import opened QuotedContent

  /** The lines of the mail up to the first signature separator, without their quote marks. */
  function Body(plaintext: string): seq<TextInfo> {
    var lines := Lines(plaintext);
    PrepareAll(Plain, lines[..BodyLength(lines)])
  }

  lemma {:induction false} MeasureKeepsLines(lines: seq<string>, seen: bool)
    ensures forall i :: 0 <= i < |lines| ==> Measure(lines, seen)[i].text == lines[i]
  {
    if lines != [] {
      MeasureKeepsLines(lines[1..], seen || IsSignatureSeparator(lines[0]));
    }
  }

  lemma StripNoNewline(line: string)
    requires '\n' !in line
    ensures '\n' !in StripMarks(line)
  {
  }

  lemma BodyIs(plaintext: string)
    ensures
      var lines := Lines(plaintext);
      && |Body(plaintext)| == BodyLength(lines) <= |lines| == |Split(plaintext)|
      && OneLineEach(Body(plaintext))
      && (forall i :: 0 <= i < |lines| ==> lines[i].text == Split(plaintext)[i])
      && forall i :: 0 <= i < BodyLength(lines) ==>
           Body(plaintext)[i] == TextInfo(lines[i].depth, StripMarks(Split(plaintext)[i]))
  {
    var lines := Lines(plaintext);
    hide StripMarks, IsSignatureSeparator;
    MeasureKeepsLines(Split(plaintext), false);
    forall i | 0 <= i < BodyLength(lines) ensures '\n' !in Body(plaintext)[i].text {
      SplitHasNoNewline(plaintext, i);
      StripNoNewline(lines[i].text);
    }
  }

  lemma MergedBody(flow: Flow, plaintext: string)
    ensures
      var lines := Lines(plaintext);
      var n, b := BodyLength(lines), Merged(flow, lines);
      && b[..BodyLength(b)] == Blocks(flow, PrepareAll(flow, lines[..n]))
      && b[BodyLength(b)..] == lines[n..]
  {
    var lines := Lines(plaintext);
    var n := BodyLength(lines);
    hide Measure, PrepareAll, Blocks;
    MeasuredDepths(Split(plaintext), false);
    MergedShape(flow, lines);
    assert |Merged(flow, lines)| == |Blocks(flow, PrepareAll(flow, lines[..n]))| + |lines[n..]|;
  }

  /** From the blocks of a plain mail in front of the signature come back all lines of the text, each at its depth and
      stripped, and from the separator on the lines stand unchanged. What each line says behind its marks comes back
      exactly if no quoted line goes on with further white space or marks. */
  lemma PlainMailReadsBack(plaintext: string)
    ensures
      var lines, said := Lines(plaintext), Split(plaintext);
      var n, b := BodyLength(lines), Merged(Plain, lines);
      var body, rest := Unmerge(b[..BodyLength(b)]), b[BodyLength(b)..];
      && |body| == n && n + |rest| == |said|
      && (forall i :: 0 <= i < n ==> body[i] == TextInfo(lines[i].depth, StripMarks(said[i])))
      && (forall i :: n <= i < |said| ==> rest[i - n].text == said[i])
      && ((forall i :: 0 <= i < n ==> body[i].text == Content(said[i])) <==> forall i :: 0 <= i < n ==> NoMore(said[i]))
  {
    hide *;
    MergedBody(Plain, plaintext);
    BodyIs(plaintext);
    BodyUnfolds(plaintext);
    PlainRoundTrip(Body(plaintext));
    var n, said := BodyLength(Lines(plaintext)), Split(plaintext);
    forall i | 0 <= i < n ensures StripMarks(said[i]) == Content(said[i]) <==> NoMore(said[i]) {
      StripIs(said[i]);
      FrontOrNot(Further(said[i]), StripMarks(said[i]));
    }
  }

  lemma FrontOrNot(f: string, t: string)
    ensures t == f + t <==> f == ""
  {
    assert f == "" ==> f + t == t;
    assert |f + t| == |f| + |t|;
  }

  /** Two spaces behind the mark: one of them belongs to what the line says, and it is lost. */
  lemma SpacesAreLost(plaintext: string)
    requires plaintext == ">  a"
    ensures Merged(Plain, Lines(plaintext)) == [TextInfo(1, "a")] && Content(plaintext) == " a"
  {
    hide IsSignatureSeparator, MarksEnd, StripMarks, Unquote, Strippable, DepthOf;
    LettersStay();
    SplitLine(plaintext);
    MarkThenBlanks(plaintext, 3);
    DepthOfOne(plaintext);
    NotASeparator(plaintext);
    var info := TextInfo(1, plaintext);
    assert Split(plaintext)[1..] == [] && Lines(plaintext) == [info];
    assert [info][1..] == [] && BodyLength([info]) == 1;
    assert [info][..1] == [info] && PrepareAll(Plain, [info]) == [TextInfo(1, "a")];
    BlocksOfRun(Plain, [TextInfo(1, "a")]);
  }

  lemma DepthOfOne(line: string)
    requires line == ">  a"
    ensures DepthOf(line) == 1
  {
    MarksEndIs(line, 0, 3);
    assert line[..3] == ">  " && ">  "[1..] == "  " && "  "[1..] == " " && " "[1..] == "";
  }

  lemma NotASeparator(line: string)
    requires line == ">  a"
    ensures !IsSignatureSeparator(line)
  {
  }

  lemma BodyUnfolds(plaintext: string)
    ensures
      var lines := Lines(plaintext);
      && BodyLength(lines) <= |lines|
      && Body(plaintext) == PrepareAll(Plain, lines[..BodyLength(lines)])
      && Body(plaintext) == PrepareAll(Flowed, lines[..BodyLength(lines)])
      && Chopped(Body(plaintext)) == PrepareAll(FlowedDelSp, lines[..BodyLength(lines)])
  {
    hide StripMarks, ChopSpace, Measure;
  }

  /** The lines from `i` to `j` are a maximal run of one depth. */
  predicate IsRun(lines: seq<TextInfo>, i: nat, j: nat) {
    && i < j <= |lines|
    && (forall k :: i <= k < j ==> lines[k].depth == lines[i].depth)
    && (i > 0 ==> lines[i - 1].depth != lines[i].depth)
    && (j < |lines| ==> lines[j].depth != lines[i].depth)
  }

  /** Where the run of the block `k` starts. */
  function RunStart(lines: seq<TextInfo>, k: nat): (i: nat)
    ensures i <= |lines|
    decreases |lines|
  {
    if k == 0 || lines == [] then 0 else RunLength(lines) + RunStart(lines[RunLength(lines)..], k - 1)
  }

  /** Each block is glued from a maximal run of lines, and the runs follow each other. */
  lemma {:induction false} BlockIsRun(flow: Flow, lines: seq<TextInfo>, k: nat)
    requires k < |Blocks(flow, lines)|
    ensures
      var i, j := RunStart(lines, k), RunStart(lines, k + 1);
      IsRun(lines, i, j) && Blocks(flow, lines)[k] == TextInfo(lines[i].depth, GlueAll(flow, lines[i..j]))
    decreases |lines|
  {
    hide *;
    BlocksUnfold(flow, lines);
    var n := RunLength(lines);
    StartsUnfold(lines, k);
    FirstRun(lines);
    if k > 0 {
      BlockIsRun(flow, lines[n..], k - 1);
      RunBehind(lines, n, RunStart(lines[n..], k - 1), RunStart(lines[n..], k));
    }
  }

  lemma StartsUnfold(lines: seq<TextInfo>, k: nat)
    requires lines != []
    ensures RunStart(lines, 0) == 0 && RunStart(lines[RunLength(lines)..], 0) == 0
    ensures RunStart(lines, k + 1) == RunLength(lines) + RunStart(lines[RunLength(lines)..], k)
    ensures k > 0 ==> RunStart(lines, k) == RunLength(lines) + RunStart(lines[RunLength(lines)..], k - 1)
  {
  }

  lemma FirstRun(lines: seq<TextInfo>)
    requires lines != []
    ensures IsRun(lines, 0, RunLength(lines)) && lines[0..RunLength(lines)] == lines[..RunLength(lines)]
  {
  }

  lemma RunBehind(lines: seq<TextInfo>, n: nat, i: nat, j: nat)
    requires 0 < n <= |lines| && IsRun(lines[n..], i, j)
    requires n < |lines| ==> lines[n - 1].depth != lines[n].depth
    ensures IsRun(lines, n + i, n + j) && n + i < |lines| && lines[n + i].depth == lines[n..][i].depth
    ensures lines[n..][i..j] == lines[n + i..n + j]
  {
    var rest := lines[n..];
    forall k | n + i <= k < n + j ensures lines[k].depth == lines[n + i].depth {
      assert rest[k - n] == lines[k] && rest[i] == lines[n + i];
    }
    assert j < |rest| ==> rest[j] == lines[n + j];
  }

  lemma {:induction false} SameStarts(a: seq<TextInfo>, b: seq<TextInfo>, k: nat)
    requires |a| == |b| && forall i :: 0 <= i < |a| ==> a[i].depth == b[i].depth
    ensures RunStart(a, k) == RunStart(b, k)
    decreases |a|
  {
    hide RunLength, RunStart;
    if k > 0 && a != [] {
      var n := RunLength(a);
      RunLengthUnique(b, n);
      StartsUnfold(a, k);
      StartsUnfold(b, k);
      SameStarts(a[n..], b[n..], k - 1);
    } else {
      FirstStart(a, k);
      FirstStart(b, k);
    }
  }

  lemma FirstStart(body: seq<TextInfo>, k: nat)
    requires k == 0 || body == []
    ensures RunStart(body, k) == 0
  {
  }

  lemma SameRuns(a: seq<TextInfo>, b: seq<TextInfo>, i: nat, j: nat)
    requires |a| == |b| && (forall l :: 0 <= l < |a| ==> a[l].depth == b[l].depth) && IsRun(a, i, j)
    ensures IsRun(b, i, j)
  {
  }

  // ----- blocks of flowed mails -----

  /** The lines of the mail up to the first signature separator, as they stand. */
  function Raw(plaintext: string): seq<TextInfo> {
    var lines := Lines(plaintext);
    lines[..BodyLength(lines)]
  }

  lemma {:induction false} MeasuredBody(lines: seq<string>)
    ensures
      var infos := Measure(lines, false);
      forall i :: 0 <= i < BodyLength(infos) ==> infos[i] == TextInfo(DepthOf(lines[i]), lines[i])
  {
    hide IsSignatureSeparator, DepthOf;
    if lines != [] {
      var infos := Measure(lines, false);
      MeasuredBody(lines[1..]);
      assert infos == [Info(lines[0], false)] + Measure(lines[1..], IsSignatureSeparator(lines[0]));
      if !IsSignatureSeparator(lines[0]) {
        assert infos[1..] == Measure(lines[1..], false);
        assert forall i :: 1 <= i < |infos| ==> infos[i] == infos[1..][i - 1];
      }
    }
  }

  lemma DepthOfQuoted(line: string)
    ensures DepthOf(line) > 0 <==> IsQuoted(line)
  {
    hide Count;
    if IsQuoted(line) {
      assert line[0] == '>';
      var front := line[..MarksEnd(line, 0)];
      assert front == [line[0]] + front[1..];
      CountConcat([line[0]], front[1..], '>');
      OneMark();
    }
  }

  lemma OneMark()
    ensures Count(">", '>') == 1
  {
    assert ">"[1..] == "";
  }

  /** In a run all lines are quoted or none is. */
  predicate Alike(lines: seq<string>) {
    AllQuoted(lines) || forall i :: 0 <= i < |lines| ==> !IsQuoted(lines[i])
  }

  /** The lines a block is made of, and its text. */
  lemma MailRun(flow: Flow, plaintext: string, k: nat)
    requires k < BodyLength(Merged(flow, Lines(plaintext)))
    ensures
      var i, j := RunStart(Raw(plaintext), k), RunStart(Raw(plaintext), k + 1);
      && IsRun(Raw(plaintext), i, j)
      && var run := Raw(plaintext)[i..j];
      && OneLiners(Texts(run)) && Alike(Texts(run)) && |PrepareAll(flow, run)| == |run| > 0
      && Merged(flow, Lines(plaintext))[k].text == GlueAll(flow, PrepareAll(flow, run))
  {
    hide *;
    var raw := Raw(plaintext);
    var prepared := PrepareAll(flow, raw);
    MergedBody(flow, plaintext);
    RawIs(flow, plaintext);
    BlockIsRun(flow, prepared, k);
    SameStarts(prepared, raw, k);
    SameStarts(prepared, raw, k + 1);
    var i, j := RunStart(raw, k), RunStart(raw, k + 1);
    SameRuns(prepared, raw, i, j);
    RunIsSlice(raw, i, j);
    PreparedSlice(flow, raw, i, j);
    RunLines(plaintext, i, j);
  }

  lemma RunIsSlice(lines: seq<TextInfo>, i: nat, j: nat)
    requires IsRun(lines, i, j)
    ensures i < j <= |lines|
  {
  }

  lemma RawIs(flow: Flow, plaintext: string)
    ensures
      var raw := Raw(plaintext);
      && BodyLength(Lines(plaintext)) <= |Lines(plaintext)|
      && raw == Lines(plaintext)[..BodyLength(Lines(plaintext))] && |PrepareAll(flow, raw)| == |raw|
      && forall i :: 0 <= i < |raw| ==> PrepareAll(flow, raw)[i].depth == raw[i].depth
  {
    hide StripMarks, ChopSpace, Measure;
  }

  lemma PreparedSlice(flow: Flow, raw: seq<TextInfo>, i: nat, j: nat)
    requires i < j <= |raw| == |PrepareAll(flow, raw)|
    ensures PrepareAll(flow, raw)[i..j] == PrepareAll(flow, raw[i..j]) && |PrepareAll(flow, raw[i..j])| == j - i
  {
    hide StripMarks, ChopSpace;
  }

  lemma RunLines(plaintext: string, i: nat, j: nat)
    requires IsRun(Raw(plaintext), i, j)
    ensures OneLiners(Texts(Raw(plaintext)[i..j])) && Alike(Texts(Raw(plaintext)[i..j]))
  {
    hide DepthOf, IsQuoted, Measure, IsSignatureSeparator;
    MeasuredBody(Split(plaintext));
    var raw := Raw(plaintext);
    forall l | i <= l < j ensures '\n' !in raw[l].text && (IsQuoted(raw[l].text) <==> raw[i].depth > 0) {
      SplitHasNoNewline(plaintext, l);
      DepthOfQuoted(raw[l].text);
    }
  }

  lemma PreparedTexts(run: seq<TextInfo>)
    ensures |PrepareAll(Flowed, run)| == |PrepareAll(FlowedDelSp, run)| == |run|
    ensures Texts(PrepareAll(Flowed, run)) == StripAll(Texts(run))
    ensures Texts(PrepareAll(FlowedDelSp, run)) == ChopAll(StripAll(Texts(run)))
    ensures PrepareAll(FlowedDelSp, run) == Chopped(PrepareAll(Flowed, run))
  {
    hide StripMarks, ChopSpace;
  }

  lemma NothingToStrip(lines: seq<string>)
    requires forall i :: 0 <= i < |lines| ==> !IsQuoted(lines[i])
    ensures StripAll(lines) == lines == UnquoteAll(lines)
  {
  }

  /** Nothing but the marks and one blank is taken from a quoted line, and an unquoted one has no stuffing. */
  predicate Kept(line: string) {
    if IsQuoted(line) then NoMore(line) else Unstuff(line) == line
  }

  /** When a block of a flowed mail has the text that RFC 3676 asks for. */
  lemma FlowedMailMeetsRfc(plaintext: string, k: nat)
    requires k < BodyLength(Merged(Flowed, Lines(plaintext)))
    ensures
      var i, j := RunStart(Raw(plaintext), k), RunStart(Raw(plaintext), k + 1);
      && IsRun(Raw(plaintext), i, j)
      && var lines := Texts(Raw(plaintext)[i..j]);
      var said := UnquoteAll(lines);
      && (Merged(Flowed, Lines(plaintext))[k].text == Reflow(said)
          <==> (forall l :: 0 <= l < |lines| ==> Kept(lines[l]))
               && forall l :: 0 <= l < |lines| - 1 ==> FlowsWell(Unstuffed(said), l))
  {
    hide *;
    MailRun(Flowed, plaintext, k);
    var i, j := RunStart(Raw(plaintext), k), RunStart(Raw(plaintext), k + 1);
    RunIsSlice(Raw(plaintext), i, j);
    FlowedRun(Raw(plaintext)[i..j]);
  }

  lemma FlowedRun(run: seq<TextInfo>)
    requires |PrepareAll(Flowed, run)| == |run| > 0 && OneLiners(Texts(run)) && Alike(Texts(run))
    ensures
      var lines := Texts(run);
      var said := UnquoteAll(lines);
      && |said| == |Unstuffed(said)| == |lines| == |run|
      && (GlueAll(Flowed, PrepareAll(Flowed, run)) == Reflow(said)
          <==> (forall l :: 0 <= l < |lines| ==> Kept(lines[l]))
               && forall l :: 0 <= l < |lines| - 1 ==> FlowsWell(Unstuffed(said), l))
  {
    hide *;
    var lines := Texts(run);
    TextsAre(run);
    PiecesAre(lines, 0);
    PreparedTexts(run);
    SoftnessIs(StripAll(lines));
    GlueJoins(PrepareAll(Flowed, run), BySoftness(StripAll(lines)));
    if AllQuoted(lines) {
      QuotedMeetsRfc(lines);
      KeptQuoted(lines);
    } else {
      NoneQuoted(lines);
      NothingToStrip(lines);
      TextsAre(PrepareAll(Flowed, run));
      OneLineTexts(PrepareAll(Flowed, run));
      FlowedMeetsRfc(PrepareAll(Flowed, run));
      KeptUnquoted(lines);
    }
  }

  lemma NoneQuoted(lines: seq<string>)
    requires Alike(lines) && !AllQuoted(lines)
    ensures forall i :: 0 <= i < |lines| ==> !IsQuoted(lines[i])
  {
  }

  lemma OneLineTexts(run: seq<TextInfo>)
    requires OneLiners(Texts(run))
    ensures OneLineEach(run)
  {
    TextsAre(run);
    hide Texts;
  }

  lemma KeptQuoted(lines: seq<string>)
    requires AllQuoted(lines)
    ensures (forall i :: 0 <= i < |lines| ==> Kept(lines[i])) <==> forall i :: 0 <= i < |lines| ==> NoMore(lines[i])
  {
    hide IsQuoted, NoMore;
  }

  lemma KeptUnquoted(lines: seq<string>)
    requires forall i :: 0 <= i < |lines| ==> !IsQuoted(lines[i])
    ensures (forall i :: 0 <= i < |lines| ==> Kept(lines[i])) <==> NotStuffed(lines)
    ensures NotStuffed(lines) ==> Unstuffed(lines) == lines
  {
    hide IsQuoted, NoMore, Unstuff;
  }

  /** With deleted spaces a line may also be nothing but its deleted space. */
  predicate KeptChopped(lines: seq<string>, l: nat)
    requires l < |lines|
  {
    if IsQuoted(lines[l]) then KeepsContent(lines, l)
    else Unstuff(lines[l]) == lines[l] || Blank(Unstuff(lines[l]))
  }

  /** The same where the spaces of flowed lines are deleted. */
  lemma DelSpMailMeetsRfc(plaintext: string, k: nat)
    requires k < BodyLength(Merged(FlowedDelSp, Lines(plaintext)))
    ensures
      var i, j := RunStart(Raw(plaintext), k), RunStart(Raw(plaintext), k + 1);
      && IsRun(Raw(plaintext), i, j)
      && var lines := Texts(Raw(plaintext)[i..j]);
      var said := UnquoteAll(lines);
      && (Merged(FlowedDelSp, Lines(plaintext))[k].text == ReflowDelSp(said)
          <==> NoSeparator(said) && (forall l :: 0 <= l < |lines| ==> KeptChopped(lines, l))
               && forall l :: 0 <= l < |lines| - 1 ==> ChopsWell(Unstuffed(said), l))
  {
    hide *;
    MailRun(FlowedDelSp, plaintext, k);
    var i, j := RunStart(Raw(plaintext), k), RunStart(Raw(plaintext), k + 1);
    RunIsSlice(Raw(plaintext), i, j);
    DelSpRun(Raw(plaintext)[i..j]);
  }

  lemma DelSpRun(run: seq<TextInfo>)
    requires |PrepareAll(FlowedDelSp, run)| == |run| > 0 && OneLiners(Texts(run)) && Alike(Texts(run))
    ensures
      var lines := Texts(run);
      var said := UnquoteAll(lines);
      && |said| == |Unstuffed(said)| == |lines| == |run|
      && (GlueAll(FlowedDelSp, PrepareAll(FlowedDelSp, run)) == ReflowDelSp(said)
          <==> NoSeparator(said) && (forall l :: 0 <= l < |lines| ==> KeptChopped(lines, l))
               && forall l :: 0 <= l < |lines| - 1 ==> ChopsWell(Unstuffed(said), l))
  {
    hide *;
    var lines := Texts(run);
    var a := ChopAll(StripAll(lines));
    TextsAre(run);
    PiecesAre(lines, 0);
    PreparedTexts(run);
    if AllQuoted(lines) {
      SoftnessIs(a);
      SameAsFlowed(PrepareAll(FlowedDelSp, run));
      GlueJoins(PrepareAll(FlowedDelSp, run), BySoftness(a));
      QuotedDelSpMeetsRfc(lines);
      KeptChoppedQuoted(lines);
    } else {
      NoneQuoted(lines);
      NothingToStrip(lines);
      OneLineTexts(PrepareAll(Flowed, run));
      DelSpMeetsRfc(PrepareAll(Flowed, run));
      KeptChoppedUnquoted(lines);
    }
  }

  lemma KeptChoppedQuoted(lines: seq<string>)
    requires AllQuoted(lines)
    ensures (forall i :: 0 <= i < |lines| ==> KeptChopped(lines, i))
       <==> forall i :: 0 <= i < |lines| ==> KeepsContent(lines, i)
  {
    hide IsQuoted, KeepsContent;
    forall i | 0 <= i < |lines| ensures KeptChopped(lines, i) == KeepsContent(lines, i) {
    }
  }

  lemma KeptChoppedUnquoted(lines: seq<string>)
    requires forall i :: 0 <= i < |lines| ==> !IsQuoted(lines[i])
    ensures (forall i :: 0 <= i < |lines| ==> KeptChopped(lines, i)) <==> OnlyBlankStuffed(lines)
  {
    hide IsQuoted, KeepsContent, Unstuff, Blank;
    forall i | 0 <= i < |lines|
      ensures KeptChopped(lines, i) == (Unstuff(lines[i]) == lines[i] || Blank(Unstuff(lines[i])))
    {
    }
  }
}
