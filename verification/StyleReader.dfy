/** Emphasis as a reader of the written string sees it. */
module StyleReader {
  import opened Text
  import opened Markup
  import opened LineMarkup
  import opened LineMarkupFacts
  import opened HtmlReader

  /** The text of a page, each character with the styles that are open around it, the innermost first. */
  function Looks(ts: seq<Token>, styles: seq<Style>): seq<(char, seq<Style>)> {
    if ts == [] then [] else Dressed(OwnText(ts[0]), styles) + Looks(ts[1..], NextStyles(ts[0], styles))
  }

  function Dressed(text: string, styles: seq<Style>): (r: seq<(char, seq<Style>)>)
    ensures |r| == |text|
  {
    seq(|text|, i requires 0 <= i < |text| => (text[i], styles))
  }

  function NextStyles(t: Token, styles: seq<Style>): seq<Style> {
    match t
    case OpenStyle(style) => [style] + styles
    case Close(kind) => if kind.Styled? && styles != [] then styles[1..] else styles
    case _ => styles
  }

  /** The styles that are open behind a list of tokens. */
  function OpenStyles(ts: seq<Token>, styles: seq<Style>): seq<Style> {
    if ts == [] then styles else OpenStyles(ts[1..], NextStyles(ts[0], styles))
  }

  lemma LooksUnfold(ts: seq<Token>, styles: seq<Style>)
    ensures
      Looks(ts, styles)
      == if ts == [] then [] else Dressed(OwnText(ts[0]), styles) + Looks(ts[1..], NextStyles(ts[0], styles))
    ensures OpenStyles(ts, styles) == if ts == [] then styles else OpenStyles(ts[1..], NextStyles(ts[0], styles))
  {
    hide NextStyles, Dressed;
  }

  lemma {:induction false} LooksConcat(a: seq<Token>, b: seq<Token>, styles: seq<Style>)
    ensures Looks(a + b, styles) == Looks(a, styles) + Looks(b, OpenStyles(a, styles))
    ensures OpenStyles(a + b, styles) == OpenStyles(b, OpenStyles(a, styles))
    decreases |a|
  {
    hide *;
    LooksUnfold(a, styles);
    LooksUnfold(a + b, styles);
    if a == [] {
      assert a + b == b;
    } else {
      assert (a + b)[0] == a[0] && (a + b)[1..] == a[1..] + b;
      LooksConcat(a[1..], b, NextStyles(a[0], styles));
    }
  }

  lemma LooksCons(t: Token, rest: seq<Token>, styles: seq<Style>)
    ensures Looks([t] + rest, styles) == Dressed(OwnText(t), styles) + Looks(rest, NextStyles(t, styles))
    ensures OpenStyles([t] + rest, styles) == OpenStyles(rest, NextStyles(t, styles))
  {
    hide NextStyles, Dressed;
    assert ([t] + rest)[0] == t && ([t] + rest)[1..] == rest;
  }

  lemma LooksNothing(styles: seq<Style>)
    ensures Looks([], styles) == [] && OpenStyles([], styles) == styles
    ensures Dressed("", styles) == []
  {
  }

  lemma {:induction false} LooksSingles(text: string, rest: seq<Token>, styles: seq<Style>)
    ensures Looks(Singles(text) + rest, styles) == Dressed(text, styles) + Looks(rest, styles)
  {
    hide *;
    SinglesUnfold(text, styles);
    if text == "" {
      LooksNothing(styles);
      assert Singles(text) + rest == rest;
      assert [] + Looks(rest, styles) == Looks(rest, styles);
    } else {
      var first, more := Chars([text[0]]), Singles(text[1..]) + rest;
      assert Singles(text) + rest == [first] + more;
      LooksCons(first, more, styles);
      LooksSingles(text[1..], rest, styles);
      var front, behind := Dressed([text[0]], styles), Dressed(text[1..], styles);
      assert front + (behind + Looks(rest, styles)) == front + behind + Looks(rest, styles);
    }
  }

  lemma SinglesUnfold(text: string, styles: seq<Style>)
    ensures text == "" ==> Singles(text) == []
    ensures text != "" ==>
              && Singles(text) == [Chars([text[0]])] + Singles(text[1..])
              && Dressed(text, styles) == Dressed([text[0]], styles) + Dressed(text[1..], styles)
              && NextStyles(Chars([text[0]]), styles) == styles && OwnText(Chars([text[0]])) == [text[0]]
  {
  }

  lemma {:induction false} LooksOneByOne(ts: seq<Token>, styles: seq<Style>)
    ensures Looks(OneByOne(ts), styles) == Looks(ts, styles)
    decreases |ts|
  {
    hide Looks, Dressed;
    if ts != [] {
      var rest := OneByOne(ts[1..]);
      LooksOneByOne(ts[1..], NextStyles(ts[0], styles));
      LooksCons(ts[0], ts[1..], styles);
      LooksCons(ts[0], rest, styles);
      assert ts == [ts[0]] + ts[1..];
      if ts[0].Chars? { LooksSingles(ts[0].text, rest, styles); }
    }
  }

  /** Every character has the styles `outer` around its own. */
  predicate Within(look: seq<(char, seq<Style>)>, outer: seq<Style>) {
    forall k :: 0 <= k < |look| ==> |outer| <= |look[k].1| && look[k].1[|look[k].1| - |outer|..] == outer
  }

  /** What a list of tokens shows inside `styles`: it closes what it opens. */
  ghost predicate Enclosed(ts: seq<Token>, styles: seq<Style>) {
    OpenStyles(ts, styles) == styles && Within(Looks(ts, styles), styles)
  }

  lemma EnclosedConcat(a: seq<Token>, b: seq<Token>, styles: seq<Style>)
    requires Enclosed(a, styles) && Enclosed(b, styles)
    ensures Enclosed(a + b, styles) && Looks(a + b, styles) == Looks(a, styles) + Looks(b, styles)
  {
    hide Looks, OpenStyles;
    LooksConcat(a, b, styles);
  }

  lemma EnclosedText(text: string, styles: seq<Style>)
    ensures Enclosed([Chars(text)], styles) && Looks([Chars(text)], styles) == Dressed(text, styles)
  {
    LooksCons(Chars(text), [], styles);
    LooksNothing(styles);
    assert [Chars(text)] + [] == [Chars(text)];
    assert Dressed(text, styles) + [] == Dressed(text, styles);
  }

  /** Text between two tags that are none of styles. */
  lemma EnclosedBetween(a: Token, text: string, c: Token, styles: seq<Style>)
    requires !a.Chars? && !a.OpenStyle? && !a.Close? && c.Close? && !c.kind.Styled?
    ensures Enclosed([a, Chars(text), c], styles) && Looks([a, Chars(text), c], styles) == Dressed(text, styles)
  {
    LooksCons(a, [Chars(text), c], styles);
    LooksCons(Chars(text), [c], styles);
    LooksCons(c, [], styles);
    LooksNothing(styles);
    assert [a] + [Chars(text), c] == [a, Chars(text), c] && [Chars(text)] + [c] == [Chars(text), c] && [c] + [] == [c];
    assert [] + (Dressed(text, styles) + ([] + [])) == Dressed(text, styles);
  }

  /** An emphasised word with its marks: in its style and the ones around it. */
  lemma EnclosedStyle(style: Style, mark: string, inside: seq<Token>, styles: seq<Style>)
    requires Enclosed(inside, [style] + styles)
    ensures
      var span := [OpenSpan(MarkChar), Chars(mark), Close(Span)];
      var word := [OpenStyle(style)] + (span + inside + span) + [Close(Styled(style))];
      var look := Dressed(mark, [style] + styles) + Looks(inside, [style] + styles) + Dressed(mark, [style] + styles);
      && Enclosed(word, styles) && Looks(word, styles) == look && Within(look, [style] + styles)
  {
    var span := [OpenSpan(MarkChar), Chars(mark), Close(Span)];
    var inner := [style] + styles;
    EnclosedBetween(OpenSpan(MarkChar), mark, Close(Span), inner);
    EnclosedConcat(span, inside, inner);
    EnclosedConcat(span + inside, span, inner);
    StyleAround(style, span + inside + span, styles);
  }

  lemma StyleAround(style: Style, inside: seq<Token>, styles: seq<Style>)
    requires Enclosed(inside, [style] + styles)
    ensures
      var word := [OpenStyle(style)] + inside + [Close(Styled(style))];
      Enclosed(word, styles) && Looks(word, styles) == Looks(inside, [style] + styles)
  {
    hide *;
    var inner := [style] + styles;
    var word := inside + [Close(Styled(style))];
    LooksCons(OpenStyle(style), word, styles);
    LooksConcat(inside, [Close(Styled(style))], inner);
    LooksCons(Close(Styled(style)), [], inner);
    LooksNothing(styles);
    LooksNothing(inner);
    NothingDressed(style, styles);
    assert [OpenStyle(style)] + inside + [Close(Styled(style))] == [OpenStyle(style)] + word;
    assert [Close(Styled(style))] + [] == [Close(Styled(style))];
    EnclosedIs(inside, inner);
    var look := Looks(inside, inner);
    assert [] + (look + ([] + [])) == look;
    Outer(look, style, styles);
    EnclosedIs([OpenStyle(style)] + word, styles);
  }

  lemma EnclosedIs(ts: seq<Token>, styles: seq<Style>)
    ensures Enclosed(ts, styles) <==> OpenStyles(ts, styles) == styles && Within(Looks(ts, styles), styles)
  {
  }

  lemma NothingDressed(style: Style, styles: seq<Style>)
    ensures NextStyles(OpenStyle(style), styles) == [style] + styles
    ensures NextStyles(Close(Styled(style)), [style] + styles) == styles
    ensures OwnText(OpenStyle(style)) == OwnText(Close(Styled(style))) == ""
  {
    assert ([style] + styles)[1..] == styles;
  }

  lemma Outer(look: seq<(char, seq<Style>)>, style: Style, styles: seq<Style>)
    requires Within(look, [style] + styles)
    ensures Within(look, styles)
  {
    var inner := [style] + styles;
    assert inner[1..] == styles;
    forall k | 0 <= k < |look| ensures |styles| <= |look[k].1| && look[k].1[|look[k].1| - |styles|..] == styles {
      var own := look[k].1;
      assert own[|own| - |inner|..] == inner;
      assert own[|own| - |styles|..] == own[|own| - |inner|..][1..];
    }
  }

  // ----- formatted lines -----

  /** The markup of a line closes every style it opens. */
  lemma {:induction false} ScanEncloses(f: Matcher, rest: string, styles: seq<Style>)
    ensures Enclosed(Scan(f, rest), styles)
    decreases MarkCount(rest), |rest|, 1
  {
    hide *;
    if rest == "" || f(rest).None? || f(rest).value.pos == |rest| {
      ScanEnd(f, rest);
      EnclosedText(rest, styles);
      EnclosedNothing(styles);
    } else {
      var m := f(rest).value;
      MatchHere(f, rest);
      MatchParts(m, rest);
      MatchIsShorter(m, rest);
      ScanUnfolds(f, rest, m);
      var tail := rest[m.pos + |Matched(m)|..];
      EnclosedText(rest[..m.pos], styles);
      ReplacementEncloses(f, rest, m, styles);
      ScanEncloses(f, tail, styles);
      EnclosedConcat([Chars(rest[..m.pos])], Replacement(f, rest, m), styles);
      EnclosedConcat([Chars(rest[..m.pos])] + Replacement(f, rest, m), Scan(f, tail), styles);
    }
  }

  lemma ScanEnd(f: Matcher, rest: string)
    requires rest == "" || f(rest).None? || f(rest).value.pos == |rest|
    ensures Scan(f, rest) == if rest == "" then [] else [Chars(rest)]
  {
  }

  lemma EnclosedNothing(styles: seq<Style>)
    ensures Enclosed([], styles)
  {
  }

  lemma {:induction false} ReplacementEncloses(f: Matcher, rest: string, m: Match, styles: seq<Style>)
    requires Found(m, rest)
    ensures Enclosed(Replacement(f, rest, m), styles)
    decreases MarkCount(rest), |rest|, 0
  {
    hide *;
    ReplacementIs(f, rest, m);
    if m.Emphasis? {
      InnerHasFewerMarks(m, rest);
      ScanEncloses(f, Escape(m.inner), [m.style] + styles);
      EmphasisLooks(m.style, m.intro, Scan(f, Escape(m.inner)), m.extro, styles);
    } else {
      EnclosedBetween(OpenAnchor(if m.Link? then m.text else "mailto:" + m.text), m.text, Close(Anchor), styles);
    }
  }

  lemma EmphasisLooks(style: Style, intro: string, inside: seq<Token>, extro: string, styles: seq<Style>)
    requires Enclosed(inside, [style] + styles)
    ensures
      var word := EmphasisHead(style, intro) + inside + EmphasisTail(style, extro);
      var mark, inner := [MarkOf(style)], [style] + styles;
      && Enclosed(word, styles)
      && Looks(word, styles)
         == Dressed(intro, styles) + (Dressed(mark, inner) + Looks(inside, inner) + Dressed(mark, inner))
            + Dressed(extro, styles)
      && Within(Looks(inside, inner), inner)
  {
    var mark := [MarkOf(style)];
    var span := [OpenSpan(MarkChar), Chars(mark), Close(Span)];
    var word := [OpenStyle(style)] + (span + inside + span) + [Close(Styled(style))];
    assert EmphasisHead(style, intro) + inside + EmphasisTail(style, extro) == [Chars(intro)] + word + [Chars(extro)];
    hide Looks, OpenStyles, Within;
    EnclosedStyle(style, mark, inside, styles);
    EnclosedText(intro, styles);
    EnclosedText(extro, styles);
    EnclosedConcat([Chars(intro)], word, styles);
    EnclosedConcat([Chars(intro)] + word, [Chars(extro)], styles);
  }

  /** What a character that marks emphasis stands for. */
  predicate MarksStyle(mark: char, style: Style) {
    (mark == '*' && style == Bold) || (mark == '/' && style == Italic) || (mark == '_' && style == Underline)
  }

  /** An emphasised word as it is read: the word with its two mark characters is in the style, whatever styles are
      inside it, and what was captured around it is in none. */
  predicate ReadsAsWord(look: seq<(char, seq<Style>)>, intro: string, mark: char, style: Style, text: string,
                        extro: string)
  {
    && |look| == |intro| + |text| + 2 + |extro|
    && (forall k :: 0 <= k < |intro| ==> look[k] == (intro[k], []))
    && look[|intro|] == look[|intro| + 1 + |text|] == (mark, [style])
    && (forall k :: 0 <= k < |text| ==>
          var (c, styles) := look[|intro| + 1 + k];
          c == text[k] && styles != [] && styles[|styles| - 1] == style)
    && forall k :: 0 <= k < |extro| ==> look[|intro| + 2 + |text| + k] == (extro[k], [])
  }

  /** The written string of an emphasised word is read as one: in the style that its mark character stands for. */
  lemma EmphasisIsRead(f: Matcher, rest: string, m: Match)
    requires Found(m, rest) && m.Emphasis? && Inert(Matched(m))
    ensures
      var html, mark := ReadHtml(Render(Replacement(f, rest, m))), rest[m.pos + |m.intro|];
      && html.Some? && MarksStyle(mark, m.style)
      && ReadsAsWord(Looks(html.value, []), m.intro, mark, m.style, TextOf(Scan(f, Escape(m.inner))), m.extro)
  {
    hide *;
    var ts, inside := Replacement(f, rest, m), Scan(f, Escape(m.inner));
    ReplacementIsContained(f, rest, m);
    RenderReads(ts);
    LooksOneByOne(ts, []);
    ReplacementIs(f, rest, m);
    ScanEncloses(f, Escape(m.inner), [m.style] + []);
    EmphasisLooks(m.style, m.intro, inside, m.extro, []);
    LooksText(inside, [m.style] + []);
    MarkInText(m, rest);
    FiveParts(m.intro, MarkOf(m.style), m.style, Looks(inside, [m.style] + []), TextOf(inside), m.extro, Looks(ts, []));
  }

  lemma {:induction false} LooksText(ts: seq<Token>, styles: seq<Style>)
    ensures |Looks(ts, styles)| == |TextOf(ts)|
    ensures forall k :: 0 <= k < |TextOf(ts)| ==> Looks(ts, styles)[k].0 == TextOf(ts)[k]
  {
    hide NextStyles, OwnText;
    if ts != [] { LooksText(ts[1..], NextStyles(ts[0], styles)); }
  }

  lemma MarkInText(m: Match, rest: string)
    requires Found(m, rest) && m.Emphasis?
    ensures m.pos + |m.intro| < |rest|
    ensures rest[m.pos + |m.intro|] == MarkOf(m.style) && MarksStyle(MarkOf(m.style), m.style)
  {
    MarkStands(m, rest);
  }

  lemma FiveParts(intro: string, mark: char, style: Style, inside: seq<(char, seq<Style>)>, text: string, extro: string,
                  look: seq<(char, seq<Style>)>)
    requires Within(inside, [style] + []) && |inside| == |text|
    requires forall k :: 0 <= k < |text| ==> inside[k].0 == text[k]
    requires look == Dressed(intro, []) + (Dressed([mark], [style] + []) + inside + Dressed([mark], [style] + []))
                     + Dressed(extro, [])
    ensures ReadsAsWord(look, intro, mark, style, text, extro)
  {
    assert [style] + [] == [style];
    var marked := Dressed([mark], [style]);
    assert marked == [(mark, [style])];
    forall k | 0 <= k < |text|
      ensures look[|intro| + 1 + k] == inside[k] && inside[k].1 != [] && inside[k].1[|inside[k].1| - 1] == style
    {
      var own := inside[k].1;
      assert own[|own| - 1..] == [style];
    }
  }
}
