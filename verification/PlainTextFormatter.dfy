/** The formatter: one pass over the blocks with a running quote level, a counter for control ids and a
    stack of open controls. It is proved to write exactly the reference markup of the quotations. */
module PlainTextFormatter {
  import opened Text
  import opened Markup
  import opened LineMarkup
  import opened QuoteLines
  import opened QuoteLinesFacts
  import opened QuoteTree
  import opened QuoteTreeFacts
  import opened QuoteStack

  // ----- quote marks behind every newline -----

  /** QString::replace of each newline by a newline and the quote marks. */
  function MarkNewlines(text: string, marks: string): string {
    if text == "" then ""
    else [text[0]] + (if text[0] == '\n' then marks else "") + MarkNewlines(text[1..], marks)
  }

  lemma {:induction false} MarkNewlinesConcat(a: string, b: string, marks: string)
    ensures MarkNewlines(a + b, marks) == MarkNewlines(a, marks) + MarkNewlines(b, marks)
  {
    if a == "" {
      assert a + b == b;
    } else {
      assert (a + b)[1..] == a[1..] + b;
      MarkNewlinesConcat(a[1..], b, marks);
      var first := [a[0]] + if a[0] == '\n' then marks else "";
      hide MarkNewlines;
      assert first + MarkNewlines(a[1..], marks) + MarkNewlines(b, marks)
          == first + (MarkNewlines(a[1..], marks) + MarkNewlines(b, marks));
    }
  }

  lemma {:induction false} NothingToMark(text: string, marks: string)
    requires '\n' !in text
    ensures MarkNewlines(text, marks) == text
  {
    if text != "" {
      assert text[0] in text && forall c :: c in text[1..] ==> c in text;
      NothingToMark(text[1..], marks);
    }
  }

  lemma {:induction false} RenderMarkLines(text: string, marks: seq<Token>)
    ensures Render(MarkLines(text, marks)) == MarkNewlines(text, Render(marks))
  {
    if text != "" {
      var first, between := [Chars([text[0]])], if text[0] == '\n' then marks else [];
      RenderMarkLines(text[1..], marks);
      RenderConcat(first + between, MarkLines(text[1..], marks));
      RenderConcat(first, between);
      RenderSnoc([], first[0]);
      assert [] + [first[0]] == first && "" + [text[0]] == [text[0]];
    }
  }

  predicate TagsHaveNoNewline(ts: seq<Token>) {
    forall i :: 0 <= i < |ts| ==> ts[i].Chars? || '\n' !in Spell(ts[i])
  }

  lemma {:induction false} RenderWithMarks(ts: seq<Token>, marks: seq<Token>)
    requires TagsHaveNoNewline(ts)
    ensures Render(WithMarks(ts, marks)) == MarkNewlines(Render(ts), Render(marks))
  {
    if ts != [] {
      var first := if ts[0].Chars? then MarkLines(ts[0].text, marks) else [ts[0]];
      RenderWithMarks(ts[1..], marks);
      RenderConcat(first, WithMarks(ts[1..], marks));
      MarkNewlinesConcat(Spell(ts[0]), Render(ts[1..]), Render(marks));
      if ts[0].Chars? {
        RenderMarkLines(ts[0].text, marks);
      } else {
        RenderSnoc([], ts[0]);
        assert [] + [ts[0]] == first && "" + Spell(ts[0]) == Spell(ts[0]);
        NothingToMark(Spell(ts[0]), Render(marks));
      }
    }
  }

  lemma EmphasisTags(style: Style)
    ensures '\n' !in Spell(OpenStyle(style)) && '\n' !in Spell(Close(Styled(style)))
  {
  }

  lemma MarkSpanTags()
    ensures '\n' !in Spell(OpenSpan(MarkChar)) && '\n' !in Spell(Close(Span))
  {
  }

  lemma AnchorTags(href: string)
    requires '\n' !in href
    ensures '\n' !in Spell(OpenAnchor(href)) && '\n' !in Spell(Close(Anchor))
  {
  }

  lemma {:induction false} ScanTags(f: Matcher, rest: string)
    ensures TagsHaveNoNewline(Scan(f, rest))
    decreases MarkCount(rest), |rest|, 1
  {
    hide Spell, Replacement, TagsHaveNoNewline;
    if rest != "" && f(rest).Some? && f(rest).value.pos < |rest| {
      var m := f(rest).value;
      var tail := rest[m.pos + |Matched(m)|..];
      MatchParts(m, rest);
      ReplacementTags(f, rest, m);
      ScanTags(f, tail);
      var replaced := Replacement(f, rest, m);
      assert Scan(f, rest) == [Chars(rest[..m.pos])] + replaced + Scan(f, tail);
      NoNewlineThree([Chars(rest[..m.pos])], replaced, Scan(f, tail));
    } else {
      NoNewlineChars(rest);
    }
  }

  lemma NoNewlineChars(rest: string)
    ensures TagsHaveNoNewline([]) && TagsHaveNoNewline([Chars(rest)])
  {
  }

  lemma NoNewlineThree(a: seq<Token>, b: seq<Token>, c: seq<Token>)
    requires |a| == 1 && a[0].Chars? && TagsHaveNoNewline(b) && TagsHaveNoNewline(c)
    ensures TagsHaveNoNewline(a + b + c)
  {
    hide Spell;
  }

  lemma {:induction false} ReplacementTags(f: Matcher, rest: string, m: Match)
    requires Found(m, rest) && WellShaped(m)
    ensures TagsHaveNoNewline(Replacement(f, rest, m))
    decreases MarkCount(rest), |rest|, 0
  {
    hide Spell, Scan, Escape, MarkCount;
    if m.Emphasis? {
      InnerHasFewerMarks(m, rest);
      ScanTags(f, Escape(m.inner));
      EmphasisTags(m.style);
      MarkSpanTags();
      hide Found, WellShaped;
      assert TagsHaveNoNewline(EmphasisHead(m.style, m.intro));
      assert TagsHaveNoNewline(EmphasisTail(m.style, m.extro));
    } else {
      AnchorTags(if m.Link? then m.text else "mailto:" + m.text);
    }
  }

  // ----- pieces of markup -----

  method QuoteMarkText(depth: nat) returns (quotemarks: string)
    ensures quotemarks == Render(MarkSpan(depth))
  {
    var marks := "";
    for i := 0 to depth
      invariant marks == Repeat("&gt;", i)
    {
      marks := marks + "&gt;";
    }
    quotemarks := Render([OpenSpan(QuoteMarks), Chars(marks + " "), Close(Span)]);
  }

  /** A block with its quote marks: `quotemarks + helperHtmlifySingleLine(text).replace(...)`. */
  method QuotedText(f: Matcher, text: string, depth: nat) returns (quoted: string)
    ensures quoted == Render(Quoted(f, text, depth))
  {
    var quotemarks := "";
    if depth > 0 {
      quotemarks := QuoteMarkText(depth);
    }
    var html := HtmlifySingleLine(f, text);
    quoted := quotemarks + MarkNewlines(html, quotemarks);
    ScanTags(f, Escape(text));
    RenderWithMarks(Htmlify(f, text), Marks(depth));
    RenderConcat(Marks(depth), WithMarks(Htmlify(f, text), Marks(depth)));
  }

  method ClosestDepth(b: seq<TextInfo>, it: nat, runner: nat) returns (closestDepth: int)
    requires it < runner <= |b|
    ensures closestDepth == MinDepth(b, it, runner)
  {
    closestDepth := b[it].depth;
    for depthRunner := it + 1 to runner
      invariant closestDepth == MinDepth(b, it, depthRunner)
    {
      closestDepth := if b[depthRunner].depth < closestDepth then b[depthRunner].depth else closestDepth;
    }
  }

  /** As many tags in a row as the loops of the program append. */
  method Repeated(tag: Token, n: nat) returns (tags: string)
    ensures tags == Render(seq(n, _ => tag))
  {
    tags := "";
    for i := 0 to n
      invariant tags == Render(seq(i, _ => tag))
    {
      RenderSnoc(seq(i, _ => tag), tag);
      assert seq(i + 1, _ => tag) == seq(i, _ => tag) + [tag];
      tags := tags + Spell(tag);
    }
  }

  /** The preview of the quotation at `level`, whose own text starts at block `runner`. */
  method PreviewText(m: Mail, it: nat, runner: nat, level: nat, id: nat) returns (preview: string)
    requires it < |m.blocks| && 0 < level && HasOwnText(m.blocks, it, level)
    requires runner == FirstAt(m.blocks, it, level)
    ensures preview == Render(Preview(m, it, level, id))
  {
    hide Render, Preview, Omitted, Quoted, MarkSpan, Ellipsis, MinDepth, HasOwnText, FirstAt;
    PreviewIs(m, it, level, id);
    NothingOmitted(m.blocks, it, level, id);
    var b := m.blocks;
    var currentChunk := m.summary(b[runner].text);
    var omitted := "";
    if runner != it {
      var closestDepth := ClosestDepth(b, it, runner);
      var prefix := Repeated(OpenQuote, closestDepth - level);
      var quotemarks := QuoteMarkText(closestDepth);
      var suffix := Repeated(Close(Quote), closestDepth - level);
      omitted := prefix + quotemarks + Render(Ellipsis(id)) + suffix;
      RenderOmitted(b, it, runner, level, id);
    }
    var quoted := QuotedText(m.f, currentChunk, level);
    preview := omitted + quoted;
    RenderConcat(Omitted(b, it, runner, level, id), Quoted(m.f, currentChunk, level));
  }

  lemma PreviewIs(m: Mail, it: nat, level: nat, id: nat)
    requires it < |m.blocks| && HasOwnText(m.blocks, it, level)
    ensures
      var runner := FirstAt(m.blocks, it, level);
      && runner < |m.blocks|
      && Preview(m, it, level, id)
         == Omitted(m.blocks, it, runner, level, id) + Quoted(m.f, m.summary(m.blocks[runner].text), level)
  {
    hide Omitted, Quoted;
  }

  lemma NothingOmitted(b: seq<TextInfo>, it: nat, level: nat, id: nat)
    requires it <= |b|
    ensures Render(Omitted(b, it, it, level, id)) == ""
  {
  }

  lemma RenderOmitted(b: seq<TextInfo>, i: nat, j: nat, level: nat, id: nat)
    requires i < j <= |b| && forall k :: i <= k < j ==> b[k].depth > level
    ensures
      var closest := MinDepth(b, i, j);
      Render(Omitted(b, i, j, level, id))
        == Render(Quotes(closest - level)) + Render(MarkSpan(closest)) + Render(Ellipsis(id))
           + Render(Unquotes(closest - level))
  {
    hide Quotes, MarkSpan, Ellipsis, Unquotes, Render, MinDepth;
    var closest := MinDepth(b, i, j);
    RenderFourLists(Quotes(closest - level), MarkSpan(closest), Ellipsis(id), Unquotes(closest - level));
  }

  lemma RenderFourLists(a: seq<Token>, b: seq<Token>, c: seq<Token>, d: seq<Token>)
    ensures Render(a + b + c + d) == Render(a) + Render(b) + Render(c) + Render(d)
  {
    hide Render;
    RenderConcat(a + b + c, d);
    RenderConcat(a + b, c);
    RenderConcat(a, b);
  }

  // ----- entering deeper quotations -----

  /** Where the quotation at this level first has text of its own, if it has any. */
  method FindOwnText(b: seq<TextInfo>, it: nat, quoteLevel: nat) returns (anythingOnJustThisLevel: bool, runner: nat)
    requires it < |b|
    ensures anythingOnJustThisLevel == HasOwnText(b, it, quoteLevel)
    ensures runner == FirstAt(b, it, quoteLevel)
  {
    anythingOnJustThisLevel, runner := false, it;
    while runner < |b|
      invariant it <= runner <= |b| && FirstAt(b, runner, quoteLevel) == FirstAt(b, it, quoteLevel)
      invariant !anythingOnJustThisLevel
    {
      if b[runner].depth == quoteLevel {
        anythingOnJustThisLevel := true;
        break;
      }
      if b[runner].depth < quoteLevel {
        break;
      }
      runner := runner + 1;
    }
  }

  /** Whether the rest of the body, up to the signature, holds only quotations and empty blocks. */
  method OnlyQuotesBehind(b: seq<TextInfo>, it: nat) returns (nothingButQuotes: bool)
    requires it < BodyLength(b)
    ensures nothingButQuotes == NothingButQuotesBehind(b, it)
  {
    nothingButQuotes := true;
    var runner := it + 1;
    while runner < |b| && b[runner].depth != SIGNATURE
      invariant it < runner <= BodyLength(b) && nothingButQuotes
      invariant forall k :: it < k < runner ==> b[k].depth != 0 || b[k].text == ""
    {
      if b[runner].depth == 0 && b[runner].text != "" {
        nothingButQuotes := false;
        break;
      }
      runner := runner + 1;
    }
  }

  /** Characters and lines of a quotation together with everything quoted inside it. */
  method LevelSize(b: seq<TextInfo>, it: nat, quoteLevel: nat) returns (chars: nat, lines: nat)
    requires it < |b|
    ensures chars == CharCount(b, it, RunEnd(b, it, quoteLevel))
    ensures lines == LineCount(b, it, RunEnd(b, it, quoteLevel))
  {
    chars, lines := 0, 0;
    var runner := it;
    while runner < |b| && b[runner].depth >= quoteLevel
      invariant it <= runner <= |b| && RunEnd(b, runner, quoteLevel) == RunEnd(b, it, quoteLevel)
      invariant chars == CharCount(b, it, runner) && lines == LineCount(b, it, runner)
    {
      chars := chars + |b[runner].text|;
      lines := lines + Count(b[runner].text, '\n') + 1;
      runner := runner + 1;
    }
  }

  /** The elements that start the quotation at `level`, when it gets a control. */
  method LevelStart(m: Mail, it: nat, level: nat, id: nat, preview: string) returns (start: string)
    requires it < BodyLength(m.blocks) && 0 < level <= m.blocks[it].depth && HasOwnText(m.blocks, it, level)
    requires preview == Render(Preview(m, it, level, id))
    ensures start == Render(Opening(m, it, level, id))
  {
    hide Render, LevelHead, Preview, ShortEnd, HasOwnText, CharCount, LineCount, RunEnd, NothingButQuotesBehind;
    var b := m.blocks;
    var nothingButQuotes := OnlyQuotesBehind(b, it);
    var chars, lines := LevelSize(b, it, level);
    if level == b[it].depth && chars <= CHARS_PER_LINE * PREVIEW_LINES && lines <= PREVIEW_LINES {
      start := Render(LevelHead(id, Bare, ShortQuote));
    } else {
      var collapsed := nothingButQuotes || level > 1
        || chars >= CHARS_PER_LINE * FORCE_COLLAPSE_AFTER_LINES || lines >= FORCE_COLLAPSE_AFTER_LINES;
      var preset := if collapsed then Checked else Unchecked;
      start := Render(LevelHead(id, preset, Short)) + preview + Render(ShortEnd(id))
        + Render([OpenSpan(Class.Full), OpenQuote]);
      assert preset == if IsCollapsed(b, it, level) then Checked else Unchecked;
      RenderFourLists(LevelHead(id, preset, Short), Preview(m, it, level, id), ShortEnd(id),
                      [OpenSpan(Class.Full), OpenQuote]);
    }
  }

  /** All quotations that start in front of block `it`, one level after the other, and that block's text. */
  method OpenQuotes(m: Mail, it: nat, quoteLevel0: nat, controls0: seq<Control>, ids0: nat)
    returns (line: string, controlStack: seq<Control>, ids: nat)
    requires it < BodyLength(m.blocks) && quoteLevel0 < m.blocks[it].depth && Stacked(controls0, quoteLevel0)
    ensures Stacked(controlStack, m.blocks[it].depth)
    ensures line + Render(Break(m.blocks, it) + Pending(m, it + 1, m.blocks[it].depth, controlStack, ids))
         == Render(Pending(m, it, quoteLevel0, controls0, ids0))
  {
    hide *;
    line, controlStack, ids := "", controls0, ids0;
    var quoteLevel := quoteLevel0;
    ghost var all := Render(Pending(m, it, quoteLevel0, controls0, ids0));
    assert "" + all == all;
    AheadOf(m, it, quoteLevel, controlStack, ids);
    while quoteLevel < m.blocks[it].depth
      invariant quoteLevel0 <= quoteLevel <= m.blocks[it].depth && Stacked(controlStack, quoteLevel)
      invariant line + Render(Ahead(m, it, quoteLevel, controlStack, ids)) == all
    {
      AheadOf(m, it, quoteLevel, controlStack, ids);
      var entered;
      entered, controlStack, ids := EnterLevel(m, it, quoteLevel + 1, controlStack, ids);
      PushLine(line, entered, Render(Ahead(m, it, quoteLevel + 1, controlStack, ids)));
      quoteLevel := quoteLevel + 1;
      line := line + entered;
    }
    AheadOf(m, it, quoteLevel, controlStack, ids);
  }

  /** What comes next while quotations are being entered: at its own depth the text of block `it` has
      just been written. */
  function Ahead(m: Mail, it: nat, quoteLevel: nat, controls: seq<Control>, n: nat): seq<Token>
    requires it < |m.blocks|
  {
    if quoteLevel == m.blocks[it].depth then Break(m.blocks, it) + Pending(m, it + 1, quoteLevel, controls, n)
    else Pending(m, it, quoteLevel, controls, n)
  }

  /** One level of quotation is entered, with a control if it has text of its own. */
  method EnterLevel(m: Mail, it: nat, quoteLevel: nat, controls0: seq<Control>, ids0: nat)
    returns (line: string, controlStack: seq<Control>, ids: nat)
    requires it < BodyLength(m.blocks) && 0 < quoteLevel <= m.blocks[it].depth && Stacked(controls0, quoteLevel - 1)
    ensures Stacked(controlStack, quoteLevel)
    ensures line + Render(Ahead(m, it, quoteLevel, controlStack, ids))
         == Render(Pending(m, it, quoteLevel - 1, controls0, ids0))
  {
    hide *;
    var b := m.blocks;
    controlStack, ids := controls0, ids0;
    PendingOpens(m, it, quoteLevel - 1, controlStack, ids);
    PushStacked(controlStack, quoteLevel - 1, ids + 1);
    OwnTextAtDepth(b, it);
    var anythingOnJustThisLevel, runner := FindOwnText(b, it, quoteLevel);
    if !anythingOnJustThisLevel {
      line := Render([OpenQuote]);
      RenderConcat([OpenQuote], Pending(m, it, quoteLevel, controlStack, ids));
      AheadOf(m, it, quoteLevel, controlStack, ids);
      return;
    }
    ids := ids + 1;
    controlStack := controlStack + [Control(quoteLevel, ids)];
    var preview := PreviewText(m, it, runner, quoteLevel, ids);
    line := LevelStart(m, it, quoteLevel, ids, preview);
    RenderConcat(Opening(m, it, quoteLevel, ids), Pending(m, it, quoteLevel, controlStack, ids));
    AheadOf(m, it, quoteLevel, controlStack, ids);
    if quoteLevel == b[it].depth {
      var quoted := QuotedText(m.f, b[it].text, quoteLevel);
      PendingBlock(m, it, controlStack, ids);
      LineGrows(line, Quoted(m.f, b[it].text, quoteLevel), Ahead(m, it, quoteLevel, controlStack, ids));
      line := line + quoted;
    }
  }

  lemma AheadOf(m: Mail, it: nat, quoteLevel: nat, controls: seq<Control>, n: nat)
    requires it < |m.blocks|
    ensures Ahead(m, it, quoteLevel, controls, n)
         == if quoteLevel == m.blocks[it].depth then Break(m.blocks, it) + Pending(m, it + 1, quoteLevel, controls, n)
            else Pending(m, it, quoteLevel, controls, n)
  {
  }

  /** At its own depth a block is its quotation's own text. */
  lemma OwnTextAtDepth(b: seq<TextInfo>, i: nat)
    requires i < |b|
    ensures HasOwnText(b, i, b[i].depth)
  {
  }

  lemma LineGrows(line: string, ts: seq<Token>, rest: seq<Token>)
    ensures line + Render(ts) + Render(rest) == line + Render(ts + rest)
  {
    RenderConcat(ts, rest);
    hide Render;
  }

  // ----- the pass -----

  /** One block before the signature: quotations end or start, then the block follows. */
  method EmitBlock(m: Mail, it: nat, markup0: seq<string>, controls0: seq<Control>, quoteLevel0: nat, ids0: nat)
    returns (markup: seq<string>, controlStack: seq<Control>, quoteLevel: nat, ids: nat)
    requires it < BodyLength(m.blocks) && m.blocks[it].depth >= 0 && Stacked(controls0, quoteLevel0)
    requires quoteLevel0 == 0 || quoteLevel0 != m.blocks[it].depth
    ensures quoteLevel == m.blocks[it].depth && Stacked(controlStack, quoteLevel)
    ensures Concat(markup) + Render(Pending(m, it + 1, quoteLevel, controlStack, ids))
         == Concat(markup0) + Render(Pending(m, it, quoteLevel0, controls0, ids0))
  {
    var b := m.blocks;
    markup, controlStack, quoteLevel, ids := markup0, controls0, quoteLevel0, ids0;
    hide *;
    if quoteLevel > b[it].depth {
      PendingCloses(m, it, quoteLevel, b[it].depth, controlStack, ids);
      PopAllStacked(controlStack, quoteLevel, b[it].depth);
      LineGrows(Concat(markup), CloseAll(controlStack, quoteLevel, b[it].depth),
                Pending(m, it, b[it].depth, PopAll(controlStack, quoteLevel, b[it].depth), ids));
      markup, controlStack, quoteLevel := CloseQuotesUpTo(markup, controlStack, quoteLevel, b[it].depth);
    }
    if quoteLevel < b[it].depth {
      var line;
      line, controlStack, ids := OpenQuotes(m, it, quoteLevel, controlStack, ids);
      quoteLevel := b[it].depth;
      ConcatAppend(markup, line);
      PushLine(Concat(markup), line, Render(Break(b, it) + Pending(m, it + 1, quoteLevel, controlStack, ids)));
      markup := markup + [line];
    } else {
      var quoted := QuotedText(m.f, b[it].text, quoteLevel);
      PendingBlock(m, it, controlStack, ids);
      Emit(markup, Quoted(m.f, b[it].text, quoteLevel),
           Break(b, it) + Pending(m, it + 1, quoteLevel, controlStack, ids));
      markup := markup + [quoted];
    }
    markup := EndBlock(b, it, markup, Pending(m, it + 1, quoteLevel, controlStack, ids));
  }

  lemma PushLine(done: string, line: string, rest: string)
    ensures done + line + rest == done + (line + rest)
  {
  }

  /** The newline behind a block. */
  method EndBlock(b: seq<TextInfo>, it: nat, markup0: seq<string>, ghost rest: seq<Token>) returns (markup: seq<string>)
    requires it < |b|
    ensures Concat(markup) + Render(rest) == Concat(markup0) + Render(Break(b, it) + rest)
  {
    markup := markup0;
    var next := it + 1;
    assert [] + rest == rest;
    if next < |b| {
      if b[next].depth >= 0 && b[next].depth < b[it].depth {
        Emit(markup, [Chars("\n")], rest);
        markup := markup + [Render([Chars("\n")])];
      } else if b[it].depth == 0 {
        Emit(markup, [Chars("\n")], rest);
        markup := markup + [Render([Chars("\n")])];
      }
    }
  }

  /** Before the signature: the markup so far and what is pending make up the document. */
  ghost predicate InBody(m: Mail, it: nat, markup: seq<string>, controls: seq<Control>, quoteLevel: nat, ids: nat) {
    && it <= BodyLength(m.blocks)
    && Stacked(controls, quoteLevel)
    && (quoteLevel == 0 || (it > 0 && quoteLevel == m.blocks[it - 1].depth))
    && Concat(markup) + Render(Pending(m, it, quoteLevel, controls, ids) + End(m)) == Render(Document(m))
  }

  ghost predicate InSignature(m: Mail, it: nat, markup: seq<string>) {
    && it <= |m.blocks|
    && Concat(markup) + Render(Tail(m, it) + [Close(Span)]) == Render(Document(m))
  }

  lemma StartDocument(m: Mail)
    ensures InBody(m, 0, [], [], 0, 0)
  {
    hide Segment, End, Render, Pending;
    PendingAtZero(m, 0, [], 0);
    NothingWritten();
  }

  lemma NothingWritten()
    ensures Concat([]) == "" && forall s: string :: "" + s == s
  {
  }

  /** A block of the body leaves the end of the document as it was. */
  lemma BlockWritten(m: Mail, it: nat, markup0: seq<string>, controls0: seq<Control>, quoteLevel0: nat, ids0: nat,
                     markup: seq<string>, controls: seq<Control>, quoteLevel: nat, ids: nat)
    requires InBody(m, it, markup0, controls0, quoteLevel0, ids0) && it < BodyLength(m.blocks)
    requires quoteLevel == m.blocks[it].depth && Stacked(controls, quoteLevel)
    requires Concat(markup) + Render(Pending(m, it + 1, quoteLevel, controls, ids))
          == Concat(markup0) + Render(Pending(m, it, quoteLevel0, controls0, ids0))
    ensures InBody(m, it + 1, markup, controls, quoteLevel, ids)
  {
    hide Render, Pending, End, Concat, Stacked, Document;
    LineGrows(Concat(markup), Pending(m, it + 1, quoteLevel, controls, ids), End(m));
    LineGrows(Concat(markup0), Pending(m, it, quoteLevel0, controls0, ids0), End(m));
  }

  method StartSignature(m: Mail, it: nat, markup0: seq<string>, controls0: seq<Control>, quoteLevel0: nat,
                        ghost ids: nat)
    returns (markup: seq<string>, controlStack: seq<Control>, quoteLevel: nat)
    requires InBody(m, it, markup0, controls0, quoteLevel0, ids) && it < |m.blocks| && m.blocks[it].depth == SIGNATURE
    ensures controlStack == [] && quoteLevel == 0
    ensures InSignature(m, it + 1, markup)
  {
    var text := m.blocks[it].text;
    assert it == BodyLength(m.blocks);
    SignatureBehind(m, it, quoteLevel0, controls0, ids);
    var closed := PopAll(controls0, quoteLevel0, 0);
    PopAllStacked(controls0, quoteLevel0, 0);
    NoLevels(closed, 0);
    markup, controlStack, quoteLevel := CloseQuotesUpTo(markup0, controls0, quoteLevel0, 0);
    ghost var behind := Tail(m, it + 1) + [Close(Span)];
    ghost var open := [OpenSpan(Signature)] + Htmlify(m.f, text);
    LineGrows(Concat(markup0), CloseAll(controls0, quoteLevel0, 0), open + ([Chars("\n")] + behind));
    var html := HtmlifySingleLine(m.f, text);
    RenderConcat([OpenSpan(Signature)], Htmlify(m.f, text));
    hide *;
    Emit(markup, open, [Chars("\n")] + behind);
    markup := markup + [Render([OpenSpan(Signature)]) + html];
    Emit(markup, [Chars("\n")], behind);
    markup := markup + [Render([Chars("\n")])];
  }

  lemma SignatureBehind(m: Mail, i: nat, quoteLevel: nat, controls: seq<Control>, n: nat)
    requires i == BodyLength(m.blocks) < |m.blocks|
    ensures Pending(m, i, quoteLevel, controls, n) + End(m)
         == CloseAll(controls, quoteLevel, 0)
            + ([OpenSpan(Signature)] + Htmlify(m.f, m.blocks[i].text)
               + ([Chars("\n")] + (Tail(m, i + 1) + [Close(Span)])))
  {
    PendingCloses(m, i, quoteLevel, 0, controls, n);
    PendingAtZero(m, i, PopAll(controls, quoteLevel, 0), n);
    assert Segment(m, i, 0, n) == [];
    var closings := CloseAll(controls, quoteLevel, 0);
    assert closings + [] == closings;
    assert End(m) == SignaturePart(m, i);
    SignatureGroups(m, i);
  }

  lemma SignatureGroups(m: Mail, i: nat)
    requires i < |m.blocks|
    ensures SignaturePart(m, i)
         == [OpenSpan(Signature)] + Htmlify(m.f, m.blocks[i].text)
            + ([Chars("\n")] + (Tail(m, i + 1) + [Close(Span)]))
  {
    hide Htmlify, Tail;
  }

  method CopyLine(m: Mail, it: nat, markup0: seq<string>) returns (markup: seq<string>)
    requires it < |m.blocks|
    requires InSignature(m, it, markup0)
    ensures InSignature(m, it + 1, markup)
  {
    var text := m.blocks[it].text;
    ghost var line, behind := Htmlify(m.f, text), Tail(m, it + 1) + [Close(Span)];
    TailGroups(m, it);
    var html := HtmlifySingleLine(m.f, text);
    hide *;
    markup := markup0;
    if it + 1 != |m.blocks| {
      Emit(markup, line, [Chars("\n")] + behind);
      markup := markup + [html];
      Emit(markup, [Chars("\n")], behind);
      markup := markup + [Render([Chars("\n")])];
    } else {
      Emit(markup, line, behind);
      markup := markup + [html];
    }
  }

  lemma TailGroups(m: Mail, i: nat)
    requires i < |m.blocks|
    ensures
      var behind := Tail(m, i + 1) + [Close(Span)];
      Tail(m, i) + [Close(Span)]
        == Htmlify(m.f, m.blocks[i].text) + (if i + 1 < |m.blocks| then [Chars("\n")] + behind else behind)
  {
    hide Htmlify;
  }

  lemma LastQuotes(m: Mail, markup: seq<string>, controls: seq<Control>, quoteLevel: nat, ids: nat)
    requires InBody(m, |m.blocks|, markup, controls, quoteLevel, ids)
    ensures Concat(markup) + Render(CloseAll(controls, quoteLevel, 0)) == Render(Document(m))
    ensures PopAll(controls, quoteLevel, 0) == []
  {
    PendingCloses(m, |m.blocks|, quoteLevel, 0, controls, ids);
    PendingAtZero(m, |m.blocks|, PopAll(controls, quoteLevel, 0), ids);
    assert Segment(m, |m.blocks|, 0, ids) == [] && End(m) == [];
    PopAllStacked(controls, quoteLevel, 0);
    NoLevels(PopAll(controls, quoteLevel, 0), 0);
    hide Pending, Segment, Render, Concat, Document, CloseAll, PopAll;
    assert CloseAll(controls, quoteLevel, 0) + [] + [] == CloseAll(controls, quoteLevel, 0);
  }

  lemma LastSpan(m: Mail, markup: seq<string>)
    requires InSignature(m, |m.blocks|, markup)
    ensures Concat(markup + [Render([Close(Span)])]) == Render(Document(m))
  {
    ConcatAppend(markup, Render([Close(Span)]));
    assert [] + [Close(Span)] == [Close(Span)];
  }

  lemma CloseNothing(controls: seq<Control>, markup: seq<string>)
    ensures Concat(markup) + Render(CloseAll(controls, 0, 0)) == Concat(markup) && PopAll(controls, 0, 0) == controls
  {
  }

  lemma NoLevels(controls: seq<Control>, quoteLevel: int)
    requires Stacked(controls, quoteLevel)
    ensures controls != [] ==> quoteLevel >= 1
  {
    if controls != [] {
      assert 1 <= controls[0].level <= quoteLevel;
    }
  }

  /** All blocks of a mail. Neither assertion can fail: a block is never as deep as the quotation in
      front of it, and at the end no control is open. */
  method FormatBlocks(m: Mail) returns (html: string)
    requires Quotable(m.blocks) && Alternating(m.blocks[..BodyLength(m.blocks)])
    ensures html == Render(Document(m))
  {
    hide *;
    var b := m.blocks;
    var signatureSeparatorSeen := false;
    var quoteLevel := 0;
    var markup: seq<string> := [];
    var interactiveControlsId := 0;
    var controlStack: seq<Control> := [];
    StartDocument(m);
    for it := 0 to |b|
      invariant !signatureSeparatorSeen ==> InBody(m, it, markup, controlStack, quoteLevel, interactiveControlsId)
      invariant signatureSeparatorSeen ==> InSignature(m, it, markup) && quoteLevel == 0 && controlStack == []
    {
      if b[it].depth == SIGNATURE && !signatureSeparatorSeen {
        signatureSeparatorSeen := true;
        markup, controlStack, quoteLevel :=
          StartSignature(m, it, markup, controlStack, quoteLevel, interactiveControlsId);
      } else if signatureSeparatorSeen {
        markup := CopyLine(m, it, markup);
      } else {
        DepthChanges(m, it, markup, controlStack, quoteLevel, interactiveControlsId);
        assert quoteLevel == 0 || quoteLevel != b[it].depth;
        var written, controls, level, ids :=
          EmitBlock(m, it, markup, controlStack, quoteLevel, interactiveControlsId);
        BlockWritten(m, it, markup, controlStack, quoteLevel, interactiveControlsId, written, controls, level, ids);
        markup, controlStack, quoteLevel, interactiveControlsId := written, controls, level, ids;
      }
    }
    if signatureSeparatorSeen {
      LastSpan(m, markup);
      markup := markup + [Render([Close(Span)])];
    } else {
      LastQuotes(m, markup, controlStack, quoteLevel, interactiveControlsId);
      CloseNothing(controlStack, markup);
    }
    if quoteLevel > 0 {
      markup, controlStack, quoteLevel := CloseQuotesUpTo(markup, controlStack, quoteLevel, 0);
    }
    assert controlStack == [];
    html := Concat(markup);
  }

  lemma DepthChanges(m: Mail, it: nat, markup: seq<string>, controls: seq<Control>, quoteLevel: nat, ids: nat)
    requires Quotable(m.blocks) && Alternating(m.blocks[..BodyLength(m.blocks)])
    requires it < |m.blocks| && InBody(m, it, markup, controls, quoteLevel, ids) && m.blocks[it].depth != SIGNATURE
    ensures it < BodyLength(m.blocks) && m.blocks[it].depth >= 0 && Stacked(controls, quoteLevel)
    ensures quoteLevel == 0 || quoteLevel != m.blocks[it].depth
  {
    hide Pending, Render, End, Concat, Document;
    var body := m.blocks[..BodyLength(m.blocks)];
    assert it > 0 ==> body[it - 1].depth != body[it].depth;
  }
}
