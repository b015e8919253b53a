/** The three passes together, and what a reader gets to see of the mail. */
module PlainTextToHtml {
  import opened Text
  import opened Markup
  import opened LineMarkup
  import opened LineMarkupFacts
  import opened QuoteLines
  import opened QuoteLinesFacts
  import opened QuoteTree
  import opened QuoteTreeFacts
  import opened PlainTextFormatter
  import opened EscapedInk
  import opened ContentInk

  function Parsed(plaintext: string, flow: Flow, f: Matcher, summary: string -> string): Mail {
    Mail(f, summary, Merged(flow, Lines(plaintext)))
  }

  lemma ParsedShape(plaintext: string, flow: Flow, f: Matcher, summary: string -> string)
    ensures
      var b := Parsed(plaintext, flow, f, summary).blocks;
      Quotable(b) && Alternating(b[..BodyLength(b)])
  {
    hide *;
    var lines := Lines(plaintext);
    var b := Merged(flow, lines);
    LinesAre(plaintext);
    MergedShape(flow, lines);
    forall k | 0 <= k < |b| ensures b[k].depth >= 0 || b[k].depth == SIGNATURE {
      if k < BodyLength(b) { BodyDepths(flow, lines, k); } else { TailDepths(flow, lines, b, k); }
    }
    ParsedIs(plaintext, flow, f, summary);
    QuotableIs(b);
  }

  lemma LinesAre(plaintext: string)
    ensures forall line :: line in Lines(plaintext) ==> line.depth >= 0 || line.depth == SIGNATURE
  {
    hide Measure;
    MeasuredDepths(Split(plaintext), false);
  }

  lemma ParsedIs(plaintext: string, flow: Flow, f: Matcher, summary: string -> string)
    ensures Parsed(plaintext, flow, f, summary).blocks == Merged(flow, Lines(plaintext))
  {
    hide Merged, Lines;
  }

  lemma QuotableIs(b: seq<TextInfo>)
    requires forall k :: 0 <= k < |b| ==> b[k].depth >= 0 || b[k].depth == SIGNATURE
    ensures Quotable(b)
  {
  }

  lemma TailDepths(flow: Flow, lines: seq<TextInfo>, b: seq<TextInfo>, k: nat)
    requires forall line :: line in lines ==> line.depth >= 0 || line.depth == SIGNATURE
    requires BodyLength(b) <= k < |b| && b[BodyLength(b)..] == lines[BodyLength(lines)..]
    ensures b[k].depth >= 0 || b[k].depth == SIGNATURE
  {
    hide BodyLength;
    var n := BodyLength(b);
    assert b[k] == b[n..][k - n] == lines[BodyLength(lines)..][k - n];
    assert b[k] in lines;
  }

  lemma BodyDepths(flow: Flow, lines: seq<TextInfo>, k: nat)
    requires forall line :: line in lines ==> line.depth >= 0 || line.depth == SIGNATURE
    requires k < |Merged(flow, lines)| - (|lines| - BodyLength(lines))
    ensures Merged(flow, lines)[k].depth >= 0
  {
    var n := BodyLength(lines);
    var body := PrepareAll(flow, lines[..n]);
    forall line | line in body ensures line.depth >= 0 {
      var i :| 0 <= i < n && line == Prepare(flow, lines[i]);
      assert lines[i] in lines;
    }
    BlockDepths(flow, body);
    assert Blocks(flow, body)[k] in Blocks(flow, body);
  }

  method PlainTextToHtml(plaintext: string, flow: Flow, f: Matcher, summary: string -> string) returns (html: string)
    ensures html == Render(Document(Parsed(plaintext, flow, f, summary)))
  {
    var lineBuffer := FirstPass(plaintext);
    lineBuffer := SecondPass(flow, lineBuffer);
    ParsedShape(plaintext, flow, f, summary);
    html := FormatBlocks(Mail(f, summary, lineBuffer));
  }

  // ----- what is shown, line ends aside -----

  function DropBreaks(shown: seq<(char, nat)>): seq<(char, int)> {
    if shown == [] then [] else
    var (c, depth) := shown[0];
    (if c == '\r' || c == '\n' then [] else [(c, depth as int)]) + DropBreaks(shown[1..])
  }

  lemma {:induction false} DropBreaksConcat(a: seq<(char, nat)>, b: seq<(char, nat)>)
    ensures DropBreaks(a + b) == DropBreaks(a) + DropBreaks(b)
  {
    if a == [] {
      assert a + b == b;
    } else {
      assert (a + b)[1..] == a[1..] + b;
      DropBreaksConcat(a[1..], b);
    }
  }

  lemma {:induction false} DropBreaksAt(text: string, depth: nat)
    ensures DropBreaks(At(text, depth)) == Ink(text, depth)
  {
    if text != "" {
      assert At(text, depth)[1..] == At(text[1..], depth);
      DropBreaksAt(text[1..], depth);
    }
  }

  /** Every block is shown with nothing but entities put in place of characters: no emphasised word had
      to be escaped. */
  predicate Faithful(m: Mail) {
    forall k :: 0 <= k < |m.blocks| ==> PlainEmphasis(m.f, Escape(m.blocks[k].text))
  }

  lemma InkOfBlock(m: Mail, k: nat, depth: nat)
    requires k < |m.blocks| && Faithful(m)
    ensures Ink(TextOf(Htmlify(m.f, m.blocks[k].text)), depth) == EscapeInk(Ink(m.blocks[k].text, depth))
    ensures DropBreaks(At(BlockText(m, k), depth)) == EscapeInk(Ink(m.blocks[k].text, depth))
  {
    hide Ink, TextOf, Htmlify, EscapeInk, DropBreaks, At, BlockText;
    ReaderSeesTheLine(m.f, m.blocks[k].text);
    InkOfEscaped(m.blocks[k].text, depth);
    BlockInk(m, k, depth);
  }

  lemma BlockInk(m: Mail, k: nat, depth: nat)
    requires k < |m.blocks|
    ensures DropBreaks(At(BlockText(m, k), depth)) == Ink(TextOf(Htmlify(m.f, m.blocks[k].text)), depth)
  {
    hide Ink, TextOf, Htmlify, Break, EscapeInk;
    var text, behind := TextOf(Htmlify(m.f, m.blocks[k].text)), LineEnd(m.blocks, k);
    DropBreaksAt(BlockText(m, k), depth);
    InkConcat(text, behind, depth);
    InkOfBreak(m.blocks, k, depth);
    assert Ink(text, depth) + [] == Ink(text, depth);
  }

  lemma InkOfBreak(b: seq<TextInfo>, k: nat, depth: int)
    requires k < |b|
    ensures Ink(LineEnd(b, k), depth) == []
  {
    assert "\n"[1..] == "";
    assert Ink("\n", depth) == [];
  }

  lemma {:induction false} InkOfBody(m: Mail, i: nat, j: nat)
    requires i <= j <= |m.blocks| && forall k :: i <= k < j ==> m.blocks[k].depth >= 0
    requires Faithful(m)
    ensures DropBreaks(Visible(m, i, j)) == EscapeInk(AllInk(m.blocks[i..j]))
    decreases j - i
  {
    hide AllInk, Ink, Visible, At, EscapeInk, DropBreaks, TextOf, Htmlify, BlockText, PlainEmphasis;
    if i == j {
      NothingShown(m, i);
      assert m.blocks[i..j] == [];
    } else {
      InkOfBlock(m, i, m.blocks[i].depth);
      InkOfBody(m, i + 1, j);
      BlockThenRest(m, i, j);
    }
  }

  lemma {:induction false} InkOfTail(m: Mail, i: nat)
    requires i <= |m.blocks| && Faithful(m)
    ensures Ink(TailText(m, i), 0) == EscapeInk(AllInk(AtZero(m.blocks[i..])))
    decreases |m.blocks| - i
  {
    if i < |m.blocks| {
      InkOfTail(m, i + 1);
      InkOfLine(m, i, i + 1 < |m.blocks|, TailText(m, i + 1));
    }
  }

  lemma InkOfLine(m: Mail, i: nat, newline: bool, rest: string)
    requires i < |m.blocks| && Faithful(m)
    requires Ink(rest, 0) == EscapeInk(AllInk(AtZero(m.blocks[i + 1..])))
    ensures Ink(TextOf(Htmlify(m.f, m.blocks[i].text)) + (if newline then "\n" else "") + rest, 0)
         == EscapeInk(AllInk(AtZero(m.blocks[i..])))
  {
    var text, ending := TextOf(Htmlify(m.f, m.blocks[i].text)), if newline then "\n" else "";
    var first, others := m.blocks[i].(depth := 0), AtZero(m.blocks[i + 1..]);
    InkOfBlock(m, i, 0);
    NoInk(newline);
    AllInkCons(first, others);
    assert AtZero(m.blocks[i..]) == [first] + others;
    hide *;
    InkConcat(text + ending, rest, 0);
    InkConcat(text, ending, 0);
    EscapeInkConcat(Ink(first.text, 0), AllInk(others));
    assert Ink(text, 0) + [] == Ink(text, 0);
  }

  lemma NoInk(newline: bool)
    ensures Ink(if newline then "\n" else "", 0) == []
  {
    assert "\n"[1..] == "";
  }

  lemma InkOfMail(m: Mail)
    requires Quotable(m.blocks) && Faithful(m)
    ensures
      var sig := BodyLength(m.blocks);
      DropBreaks(VisibleMail(m)) == EscapeInk(AllInk(m.blocks[..sig] + AtZero(m.blocks[sig..])))
  {
    var sig := BodyLength(m.blocks);
    var body, tail := m.blocks[..sig], AtZero(m.blocks[sig..]);
    var shown := if sig < |m.blocks| then At(SignatureText(m, sig), 0) else [];
    InkOfBody(m, 0, sig);
    InkOfEnd(m, sig);
    AllInkConcat(body, tail);
    EscapeInkConcat(AllInk(body), AllInk(tail));
    DropBreaksConcat(Visible(m, 0, sig), shown);
    assert VisibleMail(m) == Visible(m, 0, sig) + shown;
  }

  lemma InkOfEnd(m: Mail, sig: nat)
    requires sig <= |m.blocks| && Faithful(m)
    ensures DropBreaks(if sig < |m.blocks| then At(SignatureText(m, sig), 0) else [])
         == EscapeInk(AllInk(AtZero(m.blocks[sig..])))
  {
    if sig < |m.blocks| {
      InkOfTail(m, sig + 1);
      InkOfLine(m, sig, true, TailText(m, sig + 1));
      DropBreaksAt(SignatureText(m, sig), 0);
    } else {
      assert AtZero(m.blocks[sig..]) == [];
    }
  }

  // ----- a word that is escaped twice adds to the letters of the mail -----

  predicate PlainBlock(m: Mail, k: nat)
    requires k < |m.blocks|
  {
    PlainEmphasis(m.f, Escape(m.blocks[k].text))
  }

  /** No block shows fewer letters than its escaped text, and only a block with a word that is escaped twice shows
      more. */
  lemma BlockIsLonger(m: Mail, k: nat, depth: int)
    requires k < |m.blocks|
    ensures
      var escaped, shown := EscapeInk(Ink(m.blocks[k].text, depth)), Ink(TextOf(Htmlify(m.f, m.blocks[k].text)), depth);
      Letters(escaped) <= Letters(shown) && (Letters(escaped) == Letters(shown) <==> PlainBlock(m, k))
  {
    hide *;
    var text := m.blocks[k].text;
    var escaped := Escape(text);
    InkOfEscaped(text, depth);
    EscapeIsInert(text);
    DroppingTags(m.f, escaped);
    ScanKeepsWeight(m.f, escaped);
    LettersOfInk(escaped, depth);
    LettersOfInk(TextOf(Scan(m.f, escaped)), depth);
    BlockIs(m, k);
    LongerByLetters(escaped, TextOf(Scan(m.f, escaped)));
  }

  lemma BlockIs(m: Mail, k: nat)
    requires k < |m.blocks|
    ensures Htmlify(m.f, m.blocks[k].text) == Scan(m.f, Escape(m.blocks[k].text))
    ensures PlainBlock(m, k) == PlainEmphasis(m.f, Escape(m.blocks[k].text))
  {
    hide Scan, Escape, PlainEmphasis;
  }

  lemma LongerByLetters(a: string, b: string)
    requires Weight(a) == Weight(b) && |a| <= |b|
    ensures Count(a, 'a') <= Count(b, 'a') && (Count(a, 'a') == Count(b, 'a') <==> |a| == |b|)
  {
    hide Count;
  }

  lemma {:induction false} BodyIsLonger(m: Mail, i: nat, j: nat)
    requires i <= j <= |m.blocks| && forall k :: i <= k < j ==> m.blocks[k].depth >= 0
    ensures
      var escaped, shown := EscapeInk(AllInk(m.blocks[i..j])), DropBreaks(Visible(m, i, j));
      && Letters(escaped) <= Letters(shown)
      && (Letters(escaped) == Letters(shown) <==> forall k :: i <= k < j ==> PlainBlock(m, k))
    decreases j - i
  {
    hide PlainBlock, EscapeInk, DropBreaks, AllInk, Ink, Visible, At;
    if i == j {
      NothingShown(m, i);
      assert m.blocks[i..j] == [];
    } else {
      BodyIsLonger(m, i + 1, j);
      BlockIsLonger(m, i, m.blocks[i].depth);
      BlockThenRest(m, i, j);
      var b := m.blocks[i];
      LettersConcat(EscapeInk(Ink(b.text, b.depth)), EscapeInk(AllInk(m.blocks[i + 1..j])));
      LettersConcat(Ink(TextOf(Htmlify(m.f, b.text)), b.depth), DropBreaks(Visible(m, i + 1, j)));
      assert (forall k :: i <= k < j ==> PlainBlock(m, k)) <==>
             PlainBlock(m, i) && forall k :: i + 1 <= k < j ==> PlainBlock(m, k);
    }
  }

  lemma NothingShown(m: Mail, i: nat)
    requires i <= |m.blocks|
    ensures EscapeInk(AllInk([])) == [] && DropBreaks(Visible(m, i, i)) == []
  {
  }

  lemma BlockThenRest(m: Mail, i: nat, j: nat)
    requires i < j <= |m.blocks| && forall k :: i <= k < j ==> m.blocks[k].depth >= 0
    ensures
      var b := m.blocks[i];
      && EscapeInk(AllInk(m.blocks[i..j])) == EscapeInk(Ink(b.text, b.depth)) + EscapeInk(AllInk(m.blocks[i + 1..j]))
      && DropBreaks(Visible(m, i, j)) == Ink(TextOf(Htmlify(m.f, b.text)), b.depth) + DropBreaks(Visible(m, i + 1, j))
  {
    hide *;
    var b := m.blocks[i];
    VisibleCons(m, i, j);
    assert m.blocks[i..j] == [b] + m.blocks[i + 1..j];
    AllInkCons(b, m.blocks[i + 1..j]);
    EscapeInkConcat(Ink(b.text, b.depth), AllInk(m.blocks[i + 1..j]));
    DropBreaksConcat(At(BlockText(m, i), b.depth), Visible(m, i + 1, j));
    BlockInk(m, i, b.depth);
  }

  lemma VisibleCons(m: Mail, i: nat, j: nat)
    requires i < j <= |m.blocks| && forall k :: i <= k < j ==> m.blocks[k].depth >= 0
    ensures Visible(m, i, j) == At(BlockText(m, i), m.blocks[i].depth) + Visible(m, i + 1, j)
  {
    hide At, BlockText;
  }

  lemma {:induction false} TailIsLonger(m: Mail, i: nat)
    requires i <= |m.blocks|
    ensures
      var escaped, shown := EscapeInk(AllInk(AtZero(m.blocks[i..]))), Ink(TailText(m, i), 0);
      && Letters(escaped) <= Letters(shown)
      && (Letters(escaped) == Letters(shown) <==> forall k :: i <= k < |m.blocks| ==> PlainBlock(m, k))
    decreases |m.blocks| - i
  {
    hide PlainBlock, EscapeInk, AllInk, Ink, TextOf, Htmlify;
    if i == |m.blocks| {
      NothingInTail(m);
    } else {
      TailIsLonger(m, i + 1);
      LineIsLonger(m, i, i + 1 < |m.blocks|, TailText(m, i + 1));
    }
  }

  lemma NothingInTail(m: Mail)
    ensures EscapeInk(AllInk(AtZero(m.blocks[|m.blocks|..]))) == [] && Ink(TailText(m, |m.blocks|), 0) == []
  {
  }

  lemma LineIsLonger(m: Mail, i: nat, newline: bool, rest: string)
    requires i < |m.blocks|
    ensures
      var shown := TextOf(Htmlify(m.f, m.blocks[i].text)) + (if newline then "\n" else "") + rest;
      var escaped, behind := EscapeInk(AllInk(AtZero(m.blocks[i..]))), EscapeInk(AllInk(AtZero(m.blocks[i + 1..])));
      var added := Letters(Ink(shown, 0)) - Letters(Ink(rest, 0));
      var written := Letters(escaped) - Letters(behind);
      written <= added && (written == added <==> PlainBlock(m, i))
  {
    var first, others := m.blocks[i].(depth := 0), AtZero(m.blocks[i + 1..]);
    var text, ending := TextOf(Htmlify(m.f, m.blocks[i].text)), if newline then "\n" else "";
    assert AtZero(m.blocks[i..]) == [first] + others;
    hide *;
    BlockIsLonger(m, i, 0);
    NoInk(newline);
    AllInkCons(first, others);
    EscapeInkConcat(Ink(first.text, 0), AllInk(others));
    InkConcat(text + ending, rest, 0);
    InkConcat(text, ending, 0);
    assert Ink(text, 0) + [] == Ink(text, 0);
    LettersConcat(EscapeInk(Ink(first.text, 0)), EscapeInk(AllInk(others)));
    LettersConcat(Ink(text, 0), Ink(rest, 0));
  }

  lemma MailIsLonger(m: Mail)
    requires Quotable(m.blocks)
    ensures
      var sig := BodyLength(m.blocks);
      var escaped := EscapeInk(AllInk(m.blocks[..sig] + AtZero(m.blocks[sig..])));
      var shown := DropBreaks(VisibleMail(m));
      Letters(escaped) <= Letters(shown) && (Letters(escaped) == Letters(shown) ==> Faithful(m))
  {
    var sig := BodyLength(m.blocks);
    var shown := if sig < |m.blocks| then At(SignatureText(m, sig), 0) else [];
    BodyIsLonger(m, 0, sig);
    EndIsLonger(m, sig);
    assert m.blocks[0..sig] == m.blocks[..sig];
    assert VisibleMail(m) == Visible(m, 0, sig) + shown;
    hide AllInk, EscapeInk, DropBreaks, Visible, SignatureText, At, VisibleMail, AtZero, PlainEmphasis;
    AllInkConcat(m.blocks[..sig], AtZero(m.blocks[sig..]));
    EscapeInkConcat(AllInk(m.blocks[..sig]), AllInk(AtZero(m.blocks[sig..])));
    DropBreaksConcat(Visible(m, 0, sig), shown);
    LettersConcat(EscapeInk(AllInk(m.blocks[..sig])), EscapeInk(AllInk(AtZero(m.blocks[sig..]))));
    LettersConcat(DropBreaks(Visible(m, 0, sig)), DropBreaks(shown));
    if forall k :: 0 <= k < |m.blocks| ==> PlainBlock(m, k) {
      forall k | 0 <= k < |m.blocks| ensures PlainEmphasis(m.f, Escape(m.blocks[k].text)) {
        assert PlainBlock(m, k);
      }
    }
  }

  lemma EndIsLonger(m: Mail, sig: nat)
    requires sig <= |m.blocks|
    ensures
      var escaped := EscapeInk(AllInk(AtZero(m.blocks[sig..])));
      var shown := DropBreaks(if sig < |m.blocks| then At(SignatureText(m, sig), 0) else []);
      && Letters(escaped) <= Letters(shown)
      && (Letters(escaped) == Letters(shown) <==> forall k :: sig <= k < |m.blocks| ==> PlainBlock(m, k))
  {
    hide PlainBlock, EscapeInk, AllInk, Ink, TextOf, Htmlify, At;
    if sig < |m.blocks| {
      TailIsLonger(m, sig + 1);
      LineIsLonger(m, sig, true, TailText(m, sig + 1));
      DropBreaksAt(SignatureText(m, sig), 0);
    } else {
      NothingInTail(m);
    }
  }

  /** What a reader sees of any mail, in every mode. The page is well formed, its controls are numbered from one, and
      its visible characters are, line ends aside, those of the lines behind their quote marks and one blank, in order,
      each inside as many blockquotes as its line is quoted deep. That is so if and only if no emphasised word of the
      mail had to be escaped and no quoted line goes on with a further mark or white space other than CR. */
  lemma ReaderSeesTheMail(plaintext: string, flow: Flow, f: Matcher, summary: string -> string)
    ensures
      var m, lines := Parsed(plaintext, flow, f, summary), Lines(plaintext);
      && Quotable(m.blocks)
      && Feed(Document(m), BLANK) == Page(Base, VisibleMail(m), BoxesIn(m, 0, 0, 0, 0), SignatureEnds(m), {})
      && Numbered(BoxesIn(m, 0, 0, 0, 0), 0)
      && (DropBreaks(VisibleMail(m)) == EscapeInk(AllInk(Written(flow, lines))) <==> Faithful(m))
      && (DropBreaks(VisibleMail(m)) == EscapeInk(AllInk(Contents(flow, lines)))
          <==> Faithful(m) && forall i :: 0 <= i < BodyLength(lines) ==> InkKept(flow, lines[i].text))
  {
    hide *;
    var m, lines := Parsed(plaintext, flow, f, summary), Lines(plaintext);
    ParsedShape(plaintext, flow, f, summary);
    DocumentReads(m);
    BlocksInk(plaintext, flow, f, summary);
    MailIsLonger(m);
    if Faithful(m) { InkOfMail(m); }
    ContentsInk(flow, lines);
    KeepsInkIs(AllInk(Contents(flow, lines)), AllInk(Written(flow, lines)), AllKept(flow, lines[..BodyLength(lines)]));
    BodyKept(flow, lines);
  }

  lemma BlocksInk(plaintext: string, flow: Flow, f: Matcher, summary: string -> string)
    ensures
      var m := Parsed(plaintext, flow, f, summary);
      var sig := BodyLength(m.blocks);
      AllInk(m.blocks[..sig] + AtZero(m.blocks[sig..])) == AllInk(Written(flow, Lines(plaintext)))
  {
    hide AllInk, AtZero, Written, Merged, BodyLength;
    MeasuredDepths(Split(plaintext), false);
    MergedInk(flow, Lines(plaintext));
  }

  lemma KeepsInkIs(x: seq<(char, int)>, y: seq<(char, int)>, kept: bool)
    requires KeepsInk(x, y, kept)
    ensures Letters(EscapeInk(x)) == Letters(EscapeInk(y)) && (kept <==> EscapeInk(x) == EscapeInk(y))
  {
    hide EscapeInk, Letters;
  }

  lemma BodyKept(flow: Flow, lines: seq<TextInfo>)
    ensures
      AllKept(flow, lines[..BodyLength(lines)])
      <==> forall i :: 0 <= i < BodyLength(lines) ==> InkKept(flow, lines[i].text)
  {
    hide InkKept;
    var body := lines[..BodyLength(lines)];
    assert forall i :: 0 <= i < |body| ==> body[i] == lines[i];
  }

  /** A mail whose only word is a bold ampersand is one that the reader does not see as it was written. */
  lemma MailEscapedTwice(plaintext: string, summary: string -> string)
    requires plaintext == "*&*"
    ensures
      var m := Parsed(plaintext, Plain, BOLD_AMPERSAND, summary);
      && Quotable(m.blocks)
      && DropBreaks(VisibleMail(m)) != EscapeInk(AllInk(Contents(Plain, Lines(plaintext))))
  {
    var m := Parsed(plaintext, Plain, BOLD_AMPERSAND, summary);
    hide *;
    OneParsed(plaintext, BOLD_AMPERSAND, summary);
    EscapedTwice(plaintext);
    ReaderSeesTheLine(BOLD_AMPERSAND, plaintext);
    NotFaithful(m, 0);
    ReaderSeesTheMail(plaintext, Plain, BOLD_AMPERSAND, summary);
  }

  lemma NotFaithful(m: Mail, k: nat)
    requires k < |m.blocks| && !PlainEmphasis(m.f, Escape(m.blocks[k].text))
    ensures !Faithful(m)
  {
    hide PlainEmphasis, Escape;
  }

  lemma OneParsed(line: string, f: Matcher, summary: string -> string)
    requires line == "*&*"
    ensures Parsed(line, Plain, f, summary) == Mail(f, summary, [TextInfo(0, line)])
  {
    hide Merged, Lines;
    OneBlock(line);
  }

  lemma OneBlock(line: string)
    requires line == "*&*"
    ensures Merged(Plain, Lines(line)) == [TextInfo(0, line)]
  {
    SplitLine(line);
    var one := [line];
    assert one[1..] == [];
    var lines := [TextInfo(0, line)];
    assert Lines(line) == lines;
    assert lines[..1] == lines && lines[1..] == [] && BodyLength(lines) == 1;
    assert PrepareAll(Plain, lines) == lines;
    BlocksOfRun(Plain, lines);
    assert lines + [] == lines;
  }

  lemma MergedInk(flow: Flow, lines: seq<TextInfo>)
    requires forall line :: line in lines ==> line.depth >= 0 || line.depth == SIGNATURE
    ensures
      var b := Merged(flow, lines);
      var sig := BodyLength(b);
      AllInk(b[..sig] + AtZero(b[sig..])) == AllInk(Written(flow, lines))
  {
    var n := BodyLength(lines);
    var body := PrepareAll(flow, lines[..n]);
    var b := Merged(flow, lines);
    MergedShape(flow, lines);
    MergeKeepsInk(flow, body);
    AllInkConcat(Blocks(flow, body), AtZero(lines[n..]));
    AllInkConcat(body, AtZero(lines[n..]));
    assert b[..BodyLength(b)] == Blocks(flow, body);
  }
}
