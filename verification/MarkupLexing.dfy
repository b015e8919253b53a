/** The markup as a string: its tags are exactly the tokens, since no text can end or start one. */
module MarkupLexing {
  import opened Text
  import opened Markup
  import opened LineMarkup
  import opened LineMarkupFacts
  import opened QuoteLines
  import opened QuoteTree
  import opened QuoteTreeFacts
  import opened QuoteStack

  /** How far the tag at the start of a string reaches. */
  function TagLength(s: string): (n: nat)
    requires s != ""
    ensures 1 <= n <= |s|
  {
    if s[0] == '>' || |s| == 1 then 1 else 1 + TagLength(s[1..])
  }

  /** What stands between angle brackets in a string, as a browser cuts it. */
  function Tags(s: string): seq<string>
    decreases |s|
  {
    if s == "" then []
    else if s[0] != '<' then Tags(s[1..])
    else [s[..TagLength(s)]] + Tags(s[TagLength(s)..])
  }

  function TagsOf(ts: seq<Token>): seq<string> {
    if ts == [] then [] else (if ts[0].Chars? then [] else [Spell(ts[0])]) + TagsOf(ts[1..])
  }

  lemma {:induction false} TagsBehindText(text: string, rest: string)
    requires Inert(text)
    ensures Tags(text + rest) == Tags(rest)
  {
    if text == "" {
      assert text + rest == rest;
    } else {
      assert text[0] in text && forall c :: c in text[1..] ==> c in text;
      assert (text + rest)[1..] == text[1..] + rest;
      TagsBehindText(text[1..], rest);
    }
  }

  lemma {:induction false} TagLengthIs(front: string, rest: string)
    requires '>' !in front
    ensures TagLength(front + ">" + rest) == |front| + 1
  {
    var s := front + ">" + rest;
    if front != "" {
      assert front[0] in front && forall c :: c in front[1..] ==> c in front;
      assert s[1..] == front[1..] + ">" + rest;
      TagLengthIs(front[1..], rest);
    }
  }

  lemma TagsBehindTag(front: string, rest: string)
    requires front != "" && front[0] == '<' && '>' !in front
    ensures Tags(front + ">" + rest) == [front + ">"] + Tags(rest)
  {
    var s := front + ">" + rest;
    TagLengthIs(front, rest);
    assert s[..|front| + 1] == front + ">" && s[|front| + 1..] == rest;
  }

  /** The part of a tag in front of its closing bracket. */
  function Front(t: Token): string
    requires !t.Chars?
  {
    match t
    case OpenQuote => "<blockquote"
    case OpenSpan(cls) => "<span class=\"" + ClassName(cls) + "\""
    case OpenLabel(target) => "<label for=\"q" + Decimal(target) + "\""
    case OpenAnchor(href) => "<a href=\"" + href + "\""
    case OpenStyle(style) => "<" + StyleName(style)
    case Checkbox(id, preset) =>
      "<input type=\"checkbox\" id=\"q" + Decimal(id) + "\"" + PresetFront(preset)
    case Close(kind) => "</" + KindName(kind)
  }

  function PresetFront(preset: Preset): string {
    match preset
    case Bare => "/"
    case Unchecked => " /"
    case Checked => " checked=\"checked\"/"
  }

  lemma {:induction false} DecimalHasNoBracket(n: nat)
    ensures '>' !in Decimal(n)
  {
    if n >= 10 { DecimalHasNoBracket(n / 10); }
  }

  lemma SpellIsFront(t: Token)
    requires !t.Chars?
    ensures Spell(t) == Front(t) + ">"
  {
    hide Decimal, PresetText, PresetFront;
    if t.Checkbox? { PresetIsFront(t.preset); }
  }

  lemma PresetIsFront(preset: Preset)
    ensures PresetText(preset) == PresetFront(preset) + ">"
  {
  }

  lemma NoBracketIn(a: string, b: string)
    requires '>' !in a && '>' !in b
    ensures '>' !in a + b
  {
  }

  lemma FrontHasNoBracket(t: Token)
    requires !t.Chars? && Contained(t)
    ensures Front(t) != "" && Front(t)[0] == '<' && '>' !in Front(t)
  {
    match t
    case OpenQuote =>
    case OpenSpan(cls) => ClassFront(cls);
    case OpenLabel(target) => LabelFront(target);
    case OpenAnchor(href) => AnchorFront(href);
    case OpenStyle(style) =>
    case Checkbox(id, preset) => CheckboxFront(id, preset);
    case Close(kind) =>
  }

  lemma ClassFront(cls: Class)
    ensures '>' !in Front(OpenSpan(cls))
  {
    NoBracketIn("<span class=\"", ClassName(cls));
  }

  lemma LabelFront(target: nat)
    ensures '>' !in Front(OpenLabel(target))
  {
    DecimalHasNoBracket(target);
    hide Decimal;
    NoBracketIn("<label for=\"q", Decimal(target));
  }

  lemma AnchorFront(href: string)
    requires Inert(href)
    ensures '>' !in Front(OpenAnchor(href))
  {
    NoBracketIn("<a href=\"", href);
  }

  lemma CheckboxFront(id: nat, preset: Preset)
    ensures '>' !in Front(Checkbox(id, preset))
  {
    DecimalHasNoBracket(id);
    hide Decimal;
    NoBracketIn("<input type=\"checkbox\" id=\"q", Decimal(id));
    NoBracketIn("<input type=\"checkbox\" id=\"q" + Decimal(id), "\"");
    NoBracketIn("<input type=\"checkbox\" id=\"q" + Decimal(id) + "\"", PresetFront(preset));
  }

  /** Cutting the written markup at its angle brackets gives back its tags, one by one. */
  lemma {:induction false} TagsOfRender(ts: seq<Token>)
    requires AllContained(ts)
    ensures Tags(Render(ts)) == TagsOf(ts)
  {
    if ts != [] {
      assert ts[0] in ts && forall t :: t in ts[1..] ==> t in ts;
      TagsOfRender(ts[1..]);
      if ts[0].Chars? {
        TagsBehindText(ts[0].text, Render(ts[1..]));
      } else {
        FrontHasNoBracket(ts[0]);
        SpellIsFront(ts[0]);
        TagsBehindTag(Front(ts[0]), Render(ts[1..]));
      }
    }
  }

  // ----- the whole document -----

  lemma ContainedConcat(a: seq<Token>, b: seq<Token>)
    ensures AllContained(a + b) <==> AllContained(a) && AllContained(b)
  {
    assert forall t :: t in a + b <==> t in a || t in b;
  }

  lemma {:induction false} RepeatIsInert(n: nat)
    ensures Inert(Repeat("&gt;", n)) && Inert(Repeat("&gt;", n) + " ")
  {
    if n > 0 { RepeatIsInert(n - 1); }
  }

  lemma MarksAreContained(depth: nat)
    ensures AllContained(MarkSpan(depth)) && AllContained(Marks(depth))
  {
    RepeatIsInert(depth);
  }

  lemma {:induction false} MarkLinesAreContained(text: string, marks: seq<Token>)
    requires Inert(text) && AllContained(marks)
    ensures AllContained(MarkLines(text, marks))
  {
    if text != "" {
      assert text[0] in text && forall c :: c in text[1..] ==> c in text;
      MarkLinesAreContained(text[1..], marks);
      var between := if text[0] == '\n' then marks else [];
      ContainedConcat([Chars([text[0]])] + between, MarkLines(text[1..], marks));
      ContainedConcat([Chars([text[0]])], between);
    }
  }

  lemma {:induction false} WithMarksIsContained(ts: seq<Token>, marks: seq<Token>)
    requires AllContained(ts) && AllContained(marks)
    ensures AllContained(WithMarks(ts, marks))
  {
    if ts != [] {
      assert ts[0] in ts && forall t :: t in ts[1..] ==> t in ts;
      WithMarksIsContained(ts[1..], marks);
      if ts[0].Chars? { MarkLinesAreContained(ts[0].text, marks); }
      ContainedConcat(if ts[0].Chars? then MarkLines(ts[0].text, marks) else [ts[0]], WithMarks(ts[1..], marks));
    }
  }

  lemma QuotedIsContained(f: Matcher, text: string, depth: nat)
    ensures AllContained(Quoted(f, text, depth))
  {
    MarksAreContained(depth);
    HtmlifyIsContained(f, text);
    WithMarksIsContained(Htmlify(f, text), Marks(depth));
    ContainedConcat(Marks(depth), WithMarks(Htmlify(f, text), Marks(depth)));
  }

  lemma OpeningIsContained(m: Mail, i: nat, level: nat, id: nat)
    requires i < |m.blocks| && HasOwnText(m.blocks, i, level)
    ensures AllContained(Opening(m, i, level, id))
  {
    var preset := if IsCollapsed(m.blocks, i, level) then Checked else Unchecked;
    var head, end, last := LevelHead(id, preset, Short), ShortEnd(id), [OpenSpan(Class.Full), OpenQuote];
    hide Preview, IsShort, IsCollapsed, LevelHead, ShortEnd, AllContained, HasOwnText;
    PreviewIsContained(m, i, level, id);
    HeadIsContained(id, preset, Short);
    HeadIsContained(id, Bare, ShortQuote);
    ShortEndIsContained(id);
    ContainedConcat(head + Preview(m, i, level, id) + end, last);
    ContainedConcat(head + Preview(m, i, level, id), end);
    ContainedConcat(head, Preview(m, i, level, id));
  }

  lemma HeadIsContained(id: nat, preset: Preset, cls: Class)
    ensures AllContained(LevelHead(id, preset, cls))
  {
  }

  lemma ShortEndIsContained(id: nat)
    ensures AllContained(ShortEnd(id)) && AllContained([OpenSpan(Class.Full), OpenQuote])
  {
  }

  lemma PreviewIsContained(m: Mail, i: nat, level: nat, id: nat)
    requires i < |m.blocks| && HasOwnText(m.blocks, i, level)
    ensures AllContained(Preview(m, i, level, id))
  {
    var j := FirstAt(m.blocks, i, level);
    if i < j { MarksAreContained(MinDepth(m.blocks, i, j)); }
    assert AllContained(Omitted(m.blocks, i, j, level, id));
    QuotedIsContained(m.f, m.summary(m.blocks[j].text), level);
    hide AllContained, Omitted, Quoted;
    ContainedConcat(Omitted(m.blocks, i, j, level, id), Quoted(m.f, m.summary(m.blocks[j].text), level));
  }

  lemma BreakIsContained(b: seq<TextInfo>, i: nat)
    requires i < |b|
    ensures AllContained(Break(b, i)) && AllContained([OpenQuote]) && AllContained([Close(Quote)])
  {
  }

  lemma ClosingIsContained(id: nat)
    ensures AllContained(Closing(id))
  {
  }

  lemma NothingIsContained(m: Mail, i: nat, level: nat, n: nat)
    requires i <= |m.blocks| && (i < |m.blocks| ==> m.blocks[i].depth < level)
    ensures AllContained(Segment(m, i, level, n))
  {
  }

  lemma {:induction false} SegmentIsContained(m: Mail, i: nat, level: nat, n: nat)
    requires i <= |m.blocks|
    ensures AllContained(Segment(m, i, level, n))
    decreases |m.blocks| - i, if i < |m.blocks| then m.blocks[i].depth - level else 0, 0
  {
    hide *;
    var b := m.blocks;
    if i == |b| || b[i].depth < level {
      NothingIsContained(m, i, level, n);
      return;
    }
    SegmentStep(m, i, level, n);
    if b[i].depth == level {
      QuotedIsContained(m.f, b[i].text, level);
      BreakIsContained(b, i);
      SegmentIsContained(m, i + 1, level, n);
      ContainedConcat(Quoted(m.f, b[i].text, level) + Break(b, i), Segment(m, i + 1, level, n));
      ContainedConcat(Quoted(m.f, b[i].text, level), Break(b, i));
    } else {
      var e, used := RunEnd(b, i, level + 1), Used(b, i, level + 1);
      EndIsBehind(b, i, level + 1);
      QuotationIsContained(m, i, level + 1, n);
      SegmentIsContained(m, e, level, n + used);
      ContainedConcat(Quotation(m, i, level + 1, n), Segment(m, e, level, n + used));
    }
  }

  lemma {:induction false} QuotationIsContained(m: Mail, i: nat, level: nat, n: nat)
    requires i < |m.blocks| && 0 < level <= m.blocks[i].depth
    ensures AllContained(Quotation(m, i, level, n))
    decreases |m.blocks| - i, m.blocks[i].depth - level, 1
  {
    hide *;
    QuotationUnfold(m, i, level, n);
    if HasOwnText(m.blocks, i, level) {
      OpeningIsContained(m, i, level, n + 1);
      SegmentIsContained(m, i, level, n + 1);
      ClosingIsContained(n + 1);
      ContainedConcat(Opening(m, i, level, n + 1) + Segment(m, i, level, n + 1), Closing(n + 1));
      ContainedConcat(Opening(m, i, level, n + 1), Segment(m, i, level, n + 1));
    } else {
      SegmentIsContained(m, i, level, n);
      BreakIsContained(m.blocks, i);
      ContainedConcat([OpenQuote] + Segment(m, i, level, n), [Close(Quote)]);
      ContainedConcat([OpenQuote], Segment(m, i, level, n));
    }
  }

  lemma {:induction false} TailIsContained(m: Mail, i: nat)
    requires i <= |m.blocks|
    ensures AllContained(Tail(m, i))
    decreases |m.blocks| - i
  {
    if i < |m.blocks| {
      HtmlifyIsContained(m.f, m.blocks[i].text);
      TailIsContained(m, i + 1);
      hide Htmlify;
      var html, newline := Htmlify(m.f, m.blocks[i].text), if i + 1 < |m.blocks| then [Chars("\n")] else [];
      ContainedConcat(html + newline, Tail(m, i + 1));
      ContainedConcat(html, newline);
    }
  }

  lemma EndIsContained(m: Mail)
    ensures AllContained(End(m))
  {
    hide *;
    var i := BodyLength(m.blocks);
    EndIs(m);
    if i < |m.blocks| {
      var html, tail := Htmlify(m.f, m.blocks[i].text), Tail(m, i + 1);
      HtmlifyIsContained(m.f, m.blocks[i].text);
      TailIsContained(m, i + 1);
      SignatureTokens();
      ContainedConcat([OpenSpan(Signature)] + (html + [Chars("\n")]) + tail, [Close(Span)]);
      ContainedConcat([OpenSpan(Signature)] + (html + [Chars("\n")]), tail);
      ContainedConcat([OpenSpan(Signature)], html + [Chars("\n")]);
      ContainedConcat(html, [Chars("\n")]);
    }
  }

  lemma EndIs(m: Mail)
    ensures
      var i := BodyLength(m.blocks);
      if i < |m.blocks|
      then End(m) == [OpenSpan(Signature)] + (Htmlify(m.f, m.blocks[i].text) + [Chars("\n")]) + Tail(m, i + 1)
                     + [Close(Span)]
      else End(m) == [] && AllContained([])
  {
    hide Htmlify, Tail;
  }

  lemma SignatureTokens()
    ensures AllContained([OpenSpan(Signature)]) && AllContained([Chars("\n")]) && AllContained([Close(Span)])
  {
  }

  /** The tags of the written document are its tokens: no mail text can inject markup. */
  lemma DocumentTags(m: Mail)
    ensures Tags(Render(Document(m))) == TagsOf(Document(m))
  {
    hide *;
    DocumentIsContained(m);
    TagsOfRender(Document(m));
  }

  lemma DocumentIsContained(m: Mail)
    ensures AllContained(Document(m))
  {
    hide Segment, End, AllContained;
    SegmentIsContained(m, 0, 0, 0);
    EndIsContained(m);
    ContainedConcat(Segment(m, 0, 0, 0), End(m));
  }
}
