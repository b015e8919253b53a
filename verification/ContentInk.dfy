/** What the stripping of quote marks takes away from the visible characters of a mail. */
module ContentInk {
  import opened Text
  import opened LineMarkup
  import opened QuoteLines
  import opened QuoteLinesFacts
  import opened JoinedText
  import opened FlowedFacts
  import opened QuotedContent
  import opened EscapedInk

  /** The signature counts as unquoted whatever the separators in it look like. */
  function AtZero(infos: seq<TextInfo>): seq<TextInfo> {
    seq(|infos|, i requires 0 <= i < |infos| => infos[i].(depth := 0))
  }

  /** The lines of the mail as they are stripped, the signature as it stands. */
  function Written(flow: Flow, lines: seq<TextInfo>): seq<TextInfo> {
    var n := BodyLength(lines);
    PrepareAll(flow, lines[..n]) + AtZero(lines[n..])
  }

  /** A line without its quote marks and one blank behind them. */
  function Said(flow: Flow, line: TextInfo): TextInfo {
    line.(text := if flow.FlowedDelSp? then ChopSpace(Content(line.text)) else Content(line.text))
  }

  function SaidAll(flow: Flow, lines: seq<TextInfo>): seq<TextInfo> {
    seq(|lines|, i requires 0 <= i < |lines| => Said(flow, lines[i]))
  }

  /** What the lines of the mail say, the signature as it stands. */
  function Contents(flow: Flow, lines: seq<TextInfo>): seq<TextInfo> {
    var n := BodyLength(lines);
    SaidAll(flow, lines[..n]) + AtZero(lines[n..])
  }

  /** What stripping takes away besides the marks and one blank. */
  function Lost(flow: Flow, line: string): string {
    if flow.FlowedDelSp? && StripMarks(line) == "" then ChopSpace(Further(line)) else Further(line)
  }

  /** No character but a CR is lost. */
  predicate InkKept(flow: Flow, line: string) {
    forall i :: 0 <= i < |Lost(flow, line)| ==> !IsInk(Lost(flow, line)[i])
  }

  lemma LostThenWritten(flow: Flow, line: TextInfo)
    ensures Said(flow, line).text == Lost(flow, line.text) + Prepare(flow, line).text
    ensures Said(flow, line).depth == Prepare(flow, line).depth == line.depth
    ensures forall i :: 0 <= i < |Lost(flow, line.text)| ==> Strippable(Lost(flow, line.text)[i])
  {
    hide Content, StripMarks, Further, IsSpace, ChopSpace, IsQuoted, NoMore;
    var f, t := Further(line.text), StripMarks(line.text);
    StripIs(line.text);
    ChopPart(f);
    ShortChops(t);
    UnquotedWhole(line.text);
    if t == "" {
      assert f + t == f && ChopSpace(f) + "" == ChopSpace(f);
    } else if IsQuoted(line.text) {
      ChopBehind(f, t);
    } else {
      assert f + t == t && f + ChopSpace(t) == ChopSpace(t);
    }
  }

  lemma UnquotedWhole(line: string)
    ensures !IsQuoted(line) ==> Further(line) == ""
  {
    hide IsQuoted;
  }

  lemma ChopPart(f: string)
    ensures forall i :: 0 <= i < |ChopSpace(f)| ==> ChopSpace(f)[i] in f
    ensures (forall i :: 0 <= i < |f| ==> Strippable(f[i])) ==>
              forall i :: 0 <= i < |ChopSpace(f)| ==> Strippable(ChopSpace(f)[i])
  {
    hide IsSpace;
    BlankIsSpace();
  }

  lemma {:induction false} NoInkLeft(text: string, depth: int)
    ensures Ink(text, depth) == [] <==> forall i :: 0 <= i < |text| ==> !IsInk(text[i])
  {
    if text != "" {
      NoInkLeft(text[1..], depth);
      assert forall i :: 1 <= i < |text| ==> text[i] == text[1..][i - 1];
    }
  }

  /** One line: the same letters, and no character more exactly if none is lost. */
  lemma LineInk(flow: Flow, line: TextInfo)
    ensures
      var said, written := Said(flow, line), Prepare(flow, line);
      var x, y := Ink(said.text, said.depth), Ink(written.text, written.depth);
      && Letters(EscapeInk(x)) == Letters(EscapeInk(y)) && |EscapeInk(y)| <= |EscapeInk(x)|
      && (InkKept(flow, line.text) <==> |EscapeInk(y)| == |EscapeInk(x)|)
      && (InkKept(flow, line.text) ==> x == y)
  {
    hide *;
    var lost, text, d := Lost(flow, line.text), Prepare(flow, line).text, line.depth;
    LostThenWritten(flow, line);
    LostStrippable(lost);
    InkConcat(lost, text, d);
    EscapeInkConcat(Ink(lost, d), Ink(text, d));
    LettersConcat(EscapeInk(Ink(lost, d)), EscapeInk(Ink(text, d)));
    NoLetters(lost, d);
    InkIsEscapedToInk(lost, d);
    NoInkLeft(lost, d);
    InkKeptIs(flow, line.text);
    assert [] + Ink(text, d) == Ink(text, d);
  }

  lemma LostStrippable(lost: string)
    requires forall i :: 0 <= i < |lost| ==> Strippable(lost[i])
    ensures forall i :: 0 <= i < |lost| ==> lost[i] == '>' || IsSpace(lost[i])
  {
    hide IsSpace;
  }

  lemma InkKeptIs(flow: Flow, line: string)
    ensures InkKept(flow, line) <==> forall i :: 0 <= i < |Lost(flow, line)| ==> !IsInk(Lost(flow, line)[i])
  {
  }

  ghost predicate AllKept(flow: Flow, lines: seq<TextInfo>) {
    forall i :: 0 <= i < |lines| ==> InkKept(flow, lines[i].text)
  }

  ghost predicate KeepsInk(x: seq<(char, int)>, y: seq<(char, int)>, kept: bool) {
    && Letters(EscapeInk(x)) == Letters(EscapeInk(y)) && |EscapeInk(y)| <= |EscapeInk(x)|
    && (kept <==> |EscapeInk(y)| == |EscapeInk(x)|) && (kept ==> x == y)
  }

  lemma KeepsInkConcat(x: seq<(char, int)>, y: seq<(char, int)>, kept: bool,
                       x': seq<(char, int)>, y': seq<(char, int)>, kept': bool)
    requires KeepsInk(x, y, kept) && KeepsInk(x', y', kept')
    ensures KeepsInk(x + x', y + y', kept && kept')
  {
    hide EscapeInk, Letters;
    EscapeInkConcat(x, x');
    EscapeInkConcat(y, y');
    LettersConcat(EscapeInk(x), EscapeInk(x'));
    LettersConcat(EscapeInk(y), EscapeInk(y'));
  }

  lemma {:induction false} LinesInk(flow: Flow, lines: seq<TextInfo>)
    ensures KeepsInk(AllInk(SaidAll(flow, lines)), AllInk(PrepareAll(flow, lines)), AllKept(flow, lines))
  {
    hide Said, Prepare, InkKept, Ink, EscapeInk, Letters;
    if lines == [] {
      assert SaidAll(flow, lines) == PrepareAll(flow, lines) == [];
    } else {
      var first, rest := lines[0], lines[1..];
      LinesInk(flow, rest);
      LineInk(flow, first);
      assert SaidAll(flow, lines) == [Said(flow, first)] + SaidAll(flow, rest);
      assert PrepareAll(flow, lines) == [Prepare(flow, first)] + PrepareAll(flow, rest);
      KeptCons(flow, lines);
      hide *;
      AllInkCons(Said(flow, first), SaidAll(flow, rest));
      AllInkCons(Prepare(flow, first), PrepareAll(flow, rest));
      LineKeepsInk(flow, first);
      KeepsInkConcat(Ink(Said(flow, first).text, Said(flow, first).depth),
                     Ink(Prepare(flow, first).text, Prepare(flow, first).depth), InkKept(flow, first.text),
                     AllInk(SaidAll(flow, rest)), AllInk(PrepareAll(flow, rest)), AllKept(flow, rest));
    }
  }

  lemma KeptCons(flow: Flow, lines: seq<TextInfo>)
    requires lines != []
    ensures AllKept(flow, lines) <==> InkKept(flow, lines[0].text) && AllKept(flow, lines[1..])
  {
    hide InkKept;
    assert forall i :: 1 <= i < |lines| ==> lines[i] == lines[1..][i - 1];
  }

  lemma LineKeepsInk(flow: Flow, line: TextInfo)
    ensures KeepsInk(Ink(Said(flow, line).text, Said(flow, line).depth),
                     Ink(Prepare(flow, line).text, Prepare(flow, line).depth), InkKept(flow, line.text))
  {
    hide Said, Prepare, InkKept, Ink, EscapeInk, Letters;
    LineInk(flow, line);
  }

  /** What the lines say and what is written of them: the same letters, and the same characters exactly if none is
      lost. */
  lemma ContentsInk(flow: Flow, lines: seq<TextInfo>)
    ensures BodyLength(lines) <= |lines|
    ensures KeepsInk(AllInk(Contents(flow, lines)), AllInk(Written(flow, lines)),
                     AllKept(flow, lines[..BodyLength(lines)]))
  {
    hide *;
    var n := BodyLength(lines);
    var body, rest := lines[..n], AtZero(lines[n..]);
    PartsAre(flow, lines);
    LinesInk(flow, body);
    AllInkConcat(SaidAll(flow, body), rest);
    AllInkConcat(PrepareAll(flow, body), rest);
    SameKeepsInk(AllInk(rest));
    KeepsInkConcat(AllInk(SaidAll(flow, body)), AllInk(PrepareAll(flow, body)), AllKept(flow, body), AllInk(rest),
                   AllInk(rest), true);
  }

  lemma PartsAre(flow: Flow, lines: seq<TextInfo>)
    ensures
      var n := BodyLength(lines);
      && Contents(flow, lines) == SaidAll(flow, lines[..n]) + AtZero(lines[n..])
      && Written(flow, lines) == PrepareAll(flow, lines[..n]) + AtZero(lines[n..])
  {
    hide SaidAll, PrepareAll, AtZero;
  }

  lemma SameKeepsInk(x: seq<(char, int)>)
    ensures KeepsInk(x, x, true)
  {
    hide EscapeInk, Letters;
  }
}
