/** What a reader makes of the reference markup: it nests, every label belongs to its quotation, every
    block is shown once at its depth, and the controls are numbered from one. */
module QuoteTreeFacts {
  import opened Text
  import opened Markup
  import opened LineMarkup
  import opened LineMarkupFacts
  import opened QuoteLines
  import opened QuoteTree

  // ----- quote marks are not part of the text -----

  lemma {:induction false} FeedMalformed(ts: seq<Token>)
    ensures Feed(ts, Malformed) == Malformed
  {
    if ts != [] { FeedMalformed(ts[1..]); }
  }

  lemma MarksUnseen(depth: nat, p: Page)
    ensures Feed(MarkSpan(depth), p) == p && Feed(Marks(depth), p) == p
  {
    ReadThree(OpenSpan(QuoteMarks), Chars(Repeat("&gt;", depth) + " "), Close(Span), p);
  }

  lemma {:induction false} FeedMarkLines(text: string, depth: nat, p: Page)
    ensures Feed(MarkLines(text, Marks(depth)), p) == Show(p, text)
  {
    if text == "" {
      ShowNothing(p);
    } else {
      var first := [Chars([text[0]])];
      var marks := if text[0] == '\n' then Marks(depth) else [];
      var rest := MarkLines(text[1..], Marks(depth));
      FeedConcat(first + marks, rest, p);
      FeedConcat(first, marks, p);
      FeedOne(first[0], p);
      MarksUnseen(depth, Show(p, [text[0]]));
      FeedMarkLines(text[1..], depth, Show(p, [text[0]]));
      ShowShow(p, [text[0]], text[1..]);
      assert [text[0]] + text[1..] == text;
    }
  }

  lemma {:induction false} FeedWithMarks(ts: seq<Token>, depth: nat, p: Page)
    ensures Feed(WithMarks(ts, Marks(depth)), p) == Feed(ts, p)
  {
    if ts != [] {
      var first := if ts[0].Chars? then MarkLines(ts[0].text, Marks(depth)) else [ts[0]];
      FeedConcat(first, WithMarks(ts[1..], Marks(depth)), p);
      if ts[0].Chars? {
        FeedMarkLines(ts[0].text, depth, p);
      } else {
        FeedOne(ts[0], p);
      }
      FeedWithMarks(ts[1..], depth, Step(ts[0], p));
    }
  }

  lemma FeedQuoted(f: Matcher, text: string, depth: nat, p: Page)
    requires p.Page?
    ensures Feed(Quoted(f, text, depth), p) == Show(p, TextOf(Htmlify(f, text)))
  {
    FeedConcat(Marks(depth), WithMarks(Htmlify(f, text), Marks(depth)), p);
    MarksUnseen(depth, p);
    FeedWithMarks(Htmlify(f, text), depth, p);
    ScanShowsItsText(f, Escape(text), p);
  }

  // ----- previews are not part of the text -----

  function InQuotes(s: Stack, n: nat): Stack {
    if n == 0 then s else On(Element(Quote), InQuotes(s, n - 1))
  }

  lemma {:induction false} InQuotesFacts(s: Stack, n: nat, closed: set<nat>)
    ensures InnermostBox(InQuotes(s, n)) == InnermostBox(s)
    ensures Hidden(InQuotes(s, n), closed) == Hidden(s, closed)
    ensures QuoteDepth(InQuotes(s, n)) == n + QuoteDepth(s)
  {
    if n > 0 { InQuotesFacts(s, n - 1, closed); }
  }

  lemma {:induction false} FeedQuotes(n: nat, p: Page)
    requires p.Page?
    ensures Feed(Quotes(n), p) == p.(stack := InQuotes(p.stack, n))
  {
    if n > 0 {
      FeedQuotes(n - 1, p);
      assert Quotes(n) == Quotes(n - 1) + [OpenQuote];
      FeedConcat(Quotes(n - 1), [OpenQuote], p);
      FeedOne(OpenQuote, p.(stack := InQuotes(p.stack, n - 1)));
    }
  }

  lemma {:induction false} FeedUnquotes(n: nat, p: Page, s: Stack)
    requires p.Page? && p.stack == InQuotes(s, n)
    ensures Feed(Unquotes(n), p) == p.(stack := s)
  {
    if n > 0 {
      assert Unquotes(n) == [Close(Quote)] + Unquotes(n - 1);
      FeedConcat([Close(Quote)], Unquotes(n - 1), p);
      FeedOne(Close(Quote), p);
      FeedUnquotes(n - 1, p.(stack := InQuotes(s, n - 1)), s);
    }
  }

  /** The page with more characters on view, unless it is hidden. */
  function Sees(p: Page, more: seq<(char, nat)>): Page {
    if p.Malformed? || Hidden(p.stack, p.closed) then p else p.(shown := p.shown + more)
  }

  lemma SeesBoth(p: Page, a: seq<(char, nat)>, b: seq<(char, nat)>)
    ensures Sees(Sees(p, a), b) == Sees(p, a + b) && Sees(p, []) == p
  {
    if p.Page? {
      assert p.shown + a + b == p.shown + (a + b) && p.shown + [] == p.shown;
    }
  }

  /** A label must name the innermost checkbox. */
  lemma FeedEllipsis(id: nat, p: Page)
    requires p.Page? && InnermostBox(p.stack) == Some(id)
    ensures Feed(Ellipsis(id), p) == Sees(p, At("...", QuoteDepth(p.stack)))
  {
    hide *;
    ReadThree(OpenLabel(id), Chars("..."), Close(Label), p);
    LabelShows(id, "...", p);
    EllipsisIs(id);
  }

  lemma EllipsisIs(id: nat)
    ensures Ellipsis(id) == [OpenLabel(id), Chars("..."), Close(Label)]
  {
  }

  lemma LabelShows(id: nat, text: string, p: Page)
    requires p.Page? && InnermostBox(p.stack) == Some(id)
    ensures Step(Close(Label), Step(Chars(text), Step(OpenLabel(id), p))) == Sees(p, At(text, QuoteDepth(p.stack)))
  {
    var q := Push(p, Element(Label));
    assert Step(OpenLabel(id), p) == q;
    assert QuoteDepth(q.stack) == QuoteDepth(p.stack) && Hidden(q.stack, q.closed) == Hidden(p.stack, p.closed);
    hide At, QuoteDepth, Hidden, InnermostBox;
  }

  /** What a reader sees of the mark for the deeper quotations in front of the previewed block `j`. */
  function OmittedText(b: seq<TextInfo>, i: nat, j: nat): seq<(char, nat)>
    requires i <= j <= |b| && forall k :: i <= k < j ==> b[k].depth >= 0
  {
    if i == j then [] else At("...", MinDepth(b, i, j))
  }

  lemma FeedOmitted(b: seq<TextInfo>, i: nat, j: nat, level: nat, id: nat, p: Page)
    requires i <= j <= |b| && forall k :: i <= k < j ==> b[k].depth > level
    requires p.Page? && InnermostBox(p.stack) == Some(id) && QuoteDepth(p.stack) == level
    ensures Feed(Omitted(b, i, j, level, id), p) == Sees(p, OmittedText(b, i, j))
  {
    hide *;
    if i < j {
      OmittedIs(b, i, j, level, id);
      FeedMarked(MinDepth(b, i, j) - level, MinDepth(b, i, j), id, p);
    } else {
      NothingSeen(b, i, level, id, p);
    }
  }

  lemma NothingSeen(b: seq<TextInfo>, i: nat, level: nat, id: nat, p: Page)
    requires i <= |b|
    ensures Feed(Omitted(b, i, i, level, id), p) == Sees(p, OmittedText(b, i, i))
  {
    SeesBoth(p, [], []);
  }

  lemma OmittedIs(b: seq<TextInfo>, i: nat, j: nat, level: nat, id: nat)
    requires i < j <= |b| && forall k :: i <= k < j ==> b[k].depth > level
    ensures
      var closest := MinDepth(b, i, j);
      && closest > level && OmittedText(b, i, j) == At("...", closest)
      && Omitted(b, i, j, level, id)
         == Quotes(closest - level) + MarkSpan(closest) + Ellipsis(id) + Unquotes(closest - level)
  {
    hide Quotes, MarkSpan, Ellipsis, Unquotes, At;
  }

  lemma FeedMarked(n: nat, depth: nat, id: nat, p: Page)
    requires p.Page? && InnermostBox(p.stack) == Some(id)
    ensures Feed(Quotes(n) + MarkSpan(depth) + Ellipsis(id) + Unquotes(n), p)
         == Sees(p, At("...", QuoteDepth(p.stack) + n))
  {
    hide *;
    var q := p.(stack := InQuotes(p.stack, n));
    var r := Sees(q, At("...", QuoteDepth(p.stack) + n));
    InQuotesFacts(p.stack, n, p.closed);
    SeesInside(p, q.stack, At("...", QuoteDepth(p.stack) + n));
    FeedQuotes(n, p);
    MarksUnseen(depth, q);
    FeedEllipsis(id, q);
    FeedUnquotes(n, r, p.stack);
    Then(Quotes(n), MarkSpan(depth), p, q, q);
    Then(Quotes(n) + MarkSpan(depth), Ellipsis(id), p, q, r);
    Then(Quotes(n) + MarkSpan(depth) + Ellipsis(id), Unquotes(n), p, r, r.(stack := p.stack));
  }

  /** What is seen inside of elements that hide no more. */
  lemma SeesInside(p: Page, inner: Stack, more: seq<(char, nat)>)
    requires p.Page? && Hidden(inner, p.closed) == Hidden(p.stack, p.closed)
    ensures
      var r := Sees(p.(stack := inner), more);
      r.Page? && r.stack == inner && r.(stack := p.stack) == Sees(p, more)
  {
    hide Hidden;
  }

  /** What a reader sees of a preview. */
  function PreviewText(m: Mail, i: nat, level: nat): seq<(char, nat)>
    requires i < |m.blocks| && HasOwnText(m.blocks, i, level)
  {
    var j := FirstAt(m.blocks, i, level);
    OmittedText(m.blocks, i, j) + At(TextOf(Htmlify(m.f, m.summary(m.blocks[j].text))), level)
  }

  lemma FeedPreview(m: Mail, i: nat, level: nat, id: nat, p: Page)
    requires i < |m.blocks| && HasOwnText(m.blocks, i, level)
    requires p.Page? && InnermostBox(p.stack) == Some(id) && QuoteDepth(p.stack) == level
    ensures Feed(Preview(m, i, level, id), p) == Sees(p, PreviewText(m, i, level))
  {
    hide *;
    PreviewUnfolds(m, i, level, id);
    var j := FirstAt(m.blocks, i, level);
    var text := m.summary(m.blocks[j].text);
    var omitted, shown := OmittedText(m.blocks, i, j), At(TextOf(Htmlify(m.f, text)), level);
    FeedOmitted(m.blocks, i, j, level, id, p);
    SeesPage(p, omitted);
    FeedQuoted(m.f, text, level, Sees(p, omitted));
    ShowSees(Sees(p, omitted), TextOf(Htmlify(m.f, text)));
    SeesBoth(p, omitted, shown);
    Then(Omitted(m.blocks, i, j, level, id), Quoted(m.f, text, level), p, Sees(p, omitted), Sees(p, omitted + shown));
  }

  lemma SeesPage(p: Page, more: seq<(char, nat)>)
    requires p.Page?
    ensures Sees(p, more).Page? && Sees(p, more).stack == p.stack && Sees(p, more).closed == p.closed
  {
    hide Hidden;
  }

  lemma ShowSees(p: Page, text: string)
    requires p.Page?
    ensures Show(p, text) == Sees(p, At(text, QuoteDepth(p.stack)))
  {
    hide Hidden, At, QuoteDepth;
  }

  lemma PreviewUnfolds(m: Mail, i: nat, level: nat, id: nat)
    requires i < |m.blocks| && HasOwnText(m.blocks, i, level)
    ensures
      var j := FirstAt(m.blocks, i, level);
      && i <= j < |m.blocks| && (forall k :: i <= k < j ==> m.blocks[k].depth > level)
      && var text := m.summary(m.blocks[j].text);
      && Preview(m, i, level, id) == Omitted(m.blocks, i, j, level, id) + Quoted(m.f, text, level)
      && PreviewText(m, i, level) == OmittedText(m.blocks, i, j) + At(TextOf(Htmlify(m.f, text)), level)
  {
    hide Omitted, Quoted, OmittedText, At, TextOf, Htmlify;
  }

  // ----- the markup around one quotation -----

  /** The stack inside a quotation with a control. */
  function InLevel(s: Stack, id: nat, cls: Class): Stack {
    On(Element(Quote), On(Region(cls, None), On(Region(Level, Some(id)), s)))
  }

  lemma InLevelFacts(s: Stack, id: nat, cls: Class, closed: set<nat>)
    requires cls != Level
    ensures InnermostBox(InLevel(s, id, cls)) == Some(id)
    ensures Hidden(InLevel(s, id, cls), closed)
         == (Hidden(s, closed) || cls == QuoteMarks || (cls == Short && id !in closed)
             || (cls == Class.Full && id in closed))
    ensures QuoteDepth(InLevel(s, id, cls)) == 1 + QuoteDepth(s)
  {
    var level := On(Region(Level, Some(id)), s);
    assert InnermostBox(On(Region(cls, None), level)) == InnermostBox(level) == Some(id);
    assert Hidden(level, closed) == Hidden(s, closed);
    assert Hidden(On(Region(cls, None), level), closed)
        == (HidesItself(Region(cls, None), level, closed) || Hidden(s, closed));
    assert QuoteDepth(On(Region(cls, None), level)) == QuoteDepth(s);
  }

  lemma FeedLevelHead(id: nat, preset: Preset, cls: Class, p: Page)
    requires p.Page? && cls != Signature
    ensures Feed(LevelHead(id, preset, cls), p)
         == p.(stack := InLevel(p.stack, id, cls),
              boxes := p.boxes + [Box(id, preset, QuoteDepth(p.stack) + 1, |p.shown|)])
  {
    hide Feed, Step, QuoteDepth, InLevel;
    ReadFour(OpenSpan(Level), Checkbox(id, preset), OpenSpan(cls), OpenQuote, p);
    LevelSteps(id, preset, cls, p);
  }

  lemma LevelSteps(id: nat, preset: Preset, cls: Class, p: Page)
    requires p.Page? && cls != Signature
    ensures
      Step(OpenQuote, Step(OpenSpan(cls), Step(Checkbox(id, preset), Step(OpenSpan(Level), p))))
      == p.(stack := InLevel(p.stack, id, cls),
              boxes := p.boxes + [Box(id, preset, QuoteDepth(p.stack) + 1, |p.shown|)])
  {
    var q := Step(OpenSpan(Level), p);
    assert QuoteDepth(q.stack) == QuoteDepth(p.stack);
    hide QuoteDepth;
  }

  lemma FeedShortEnd(id: nat, s: Stack, p: Page)
    requires p.Page? && p.stack == InLevel(s, id, Short)
    ensures Sees(p, At(" ...", QuoteDepth(s) + 1)).Page?
    ensures Feed(ShortEnd(id), p)
         == Sees(p, At(" ...", QuoteDepth(s) + 1)).(stack := On(Region(Level, Some(id)), s))
  {
    hide *;
    var blank, r := Sees(p, At(" ", QuoteDepth(s) + 1)), Sees(p, At(" ...", QuoteDepth(s) + 1));
    InLevelFacts(s, id, Short, p.closed);
    SeesPage(p, At(" ", QuoteDepth(s) + 1));
    SeesPage(p, At(" ...", QuoteDepth(s) + 1));
    FeedOne(Chars(" "), p);
    StepSees(" ", p);
    FeedEllipsis(id, blank);
    SeesBoth(p, At(" ", QuoteDepth(s) + 1), At("...", QuoteDepth(s) + 1));
    AtParts(QuoteDepth(s) + 1);
    FeedShortLast(id, s, r);
    ShortEndIs(id);
    Then([Chars(" ")], Ellipsis(id), p, blank, r);
    Then([Chars(" ")] + Ellipsis(id), [Close(Quote), Close(Span)], p, r, r.(stack := On(Region(Level, Some(id)), s)));
  }

  lemma ShortEndIs(id: nat)
    ensures ShortEnd(id) == [Chars(" ")] + Ellipsis(id) + [Close(Quote), Close(Span)]
  {
  }

  lemma AtParts(depth: nat)
    ensures At(" ", depth) + At("...", depth) == At(" ...", depth)
  {
  }

  lemma StepSees(text: string, p: Page)
    requires p.Page?
    ensures Step(Chars(text), p) == Sees(p, At(text, QuoteDepth(p.stack)))
  {
    hide Hidden, At, QuoteDepth;
  }

  lemma FeedShortLast(id: nat, s: Stack, r: Page)
    requires r.Page? && r.stack == InLevel(s, id, Short)
    ensures Feed([Close(Quote), Close(Span)], r) == r.(stack := On(Region(Level, Some(id)), s))
  {
    var last := [Close(Quote), Close(Span)];
    assert last[1..] == [Close(Span)];
    FeedOne(Close(Span), Step(Close(Quote), r));
  }

  /** The elements a quotation with a control opens, previews closed again. */
  function FormOf(m: Mail, i: nat, level: nat): Class
    requires i < |m.blocks|
  {
    if IsShort(m.blocks, i, level) then ShortQuote else Class.Full
  }

  /** How the checkbox of a quotation starts. */
  function PresetOf(b: seq<TextInfo>, i: nat, level: int): Preset
    requires i < |b|
  {
    if IsShort(b, i, level) then Bare else if IsCollapsed(b, i, level) then Checked else Unchecked
  }

  /** The short form is what is on view of a quotation whose checkbox is checked. */
  function ShortText(m: Mail, i: nat, level: nat): seq<(char, nat)>
    requires i < |m.blocks| && HasOwnText(m.blocks, i, level)
  {
    PreviewText(m, i, level) + At(" ...", level)
  }

  /** The page in front of the full form. */
  function Opened(m: Mail, i: nat, level: nat, id: nat, p: Page): Page
    requires i < |m.blocks| && HasOwnText(m.blocks, i, level)
  {
    if !IsShort(m.blocks, i, level) && p.Page? && id in p.closed then Sees(p, ShortText(m, i, level)) else p
  }

  lemma FeedOpening(m: Mail, i: nat, level: nat, id: nat, p: Page)
    requires i < |m.blocks| && HasOwnText(m.blocks, i, level) && p.Page? && level == QuoteDepth(p.stack) + 1
    ensures Opened(m, i, level, id, p).Page?
    ensures Feed(Opening(m, i, level, id), p)
         == Opened(m, i, level, id, p)
            .(stack := InLevel(p.stack, id, FormOf(m, i, level)),
              boxes := p.boxes + [Box(id, PresetOf(m.blocks, i, level), level, |p.shown|)])
  {
    hide *;
    OpeningUnfolds(m, i, level, id, p);
    var preset := PresetOf(m.blocks, i, level);
    if IsShort(m.blocks, i, level) {
      FeedLevelHead(id, Bare, ShortQuote, p);
    } else {
      var head, preview, end := LevelHead(id, preset, Short), Preview(m, i, level, id), ShortEnd(id);
      var last := [OpenSpan(Class.Full), OpenQuote];
      var boxes := p.boxes + [Box(id, preset, level, |p.shown|)];
      var q := p.(stack := InLevel(p.stack, id, Short), boxes := boxes);
      var text, more := PreviewText(m, i, level), At(" ...", level);
      FeedLevelHead(id, preset, Short, p);
      InLevelFacts(p.stack, id, Short, p.closed);
      FeedPreview(m, i, level, id, q);
      SeesPage(q, text);
      var r := Sees(q, text);
      FeedShortEnd(id, p.stack, r);
      SeesBoth(q, text, more);
      SeesPage(q, text + more);
      var shown := Sees(q, text + more);
      var t := shown.(stack := On(Region(Level, Some(id)), p.stack));
      FeedFullHead(id, p.stack, shown);
      OpenedIs(m, i, level, id, p, boxes);
      Then(head, preview, p, q, r);
      Then(head + preview, end, p, r, t);
      Then(head + preview + end, last, p, t, shown.(stack := InLevel(p.stack, id, Class.Full)));
    }
  }

  lemma OpeningUnfolds(m: Mail, i: nat, level: nat, id: nat, p: Page)
    requires i < |m.blocks| && HasOwnText(m.blocks, i, level) && p.Page?
    ensures
      var preset := PresetOf(m.blocks, i, level);
      && ShortText(m, i, level) == PreviewText(m, i, level) + At(" ...", level)
      && if IsShort(m.blocks, i, level) then
           && preset == Bare && Opening(m, i, level, id) == LevelHead(id, Bare, ShortQuote)
           && Opened(m, i, level, id, p) == p && FormOf(m, i, level) == ShortQuote
         else
           && FormOf(m, i, level) == Class.Full
           && Opening(m, i, level, id)
              == LevelHead(id, preset, Short) + Preview(m, i, level, id) + ShortEnd(id)
                 + [OpenSpan(Class.Full), OpenQuote]
  {
    hide LevelHead, Preview, ShortEnd, IsShort, IsCollapsed, PreviewText, At;
  }

  /** Inside of the short form nothing is hidden that is not hidden outside, if the checkbox is checked. */
  lemma OpenedIs(m: Mail, i: nat, level: nat, id: nat, p: Page, boxes: seq<Box>)
    requires i < |m.blocks| && HasOwnText(m.blocks, i, level) && p.Page? && !IsShort(m.blocks, i, level)
    ensures Opened(m, i, level, id, p).Page?
    ensures
      var q := p.(stack := InLevel(p.stack, id, Short), boxes := boxes);
      var shown := Sees(q, ShortText(m, i, level));
      && shown.Page?
      && forall s: Stack :: shown.(stack := s) == Opened(m, i, level, id, p).(stack := s, boxes := boxes)
  {
    InLevelFacts(p.stack, id, Short, p.closed);
    hide ShortText, IsShort, InLevel, Hidden;
  }

  lemma FeedFullHead(id: nat, s: Stack, p: Page)
    requires p.Page?
    ensures
      Feed([OpenSpan(Class.Full), OpenQuote], p.(stack := On(Region(Level, Some(id)), s)))
      == p.(stack := InLevel(s, id, Class.Full))
  {
    var last := [OpenSpan(Class.Full), OpenQuote];
    assert last[1..] == [OpenQuote];
    FeedOne(OpenQuote, Step(OpenSpan(Class.Full), p.(stack := On(Region(Level, Some(id)), s))));
  }

  lemma FeedClosing(id: nat, cls: Class, s: Stack, p: Page)
    requires p.Page? && p.stack == InLevel(s, id, cls) && cls != Level && cls != Signature
    ensures Feed(Closing(id), p) == p.(stack := s)
  {
    InLevelFacts(s, id, cls, p.closed);
    ReadFive(OpenLabel(id), Close(Label), Close(Quote), Close(Span), Close(Span), p);
    assert Closing(id) == [OpenLabel(id), Close(Label), Close(Quote), Close(Span), Close(Span)];
  }

  // ----- the recursion -----

  lemma {:induction false} RunEndSkip(b: seq<TextInfo>, i: nat, e: nat, level: int)
    requires i <= e <= |b| && forall k :: i <= k < e ==> b[k].depth >= level
    ensures RunEnd(b, i, level) == RunEnd(b, e, level)
    decreases e - i
  {
    if i < e { RunEndSkip(b, i + 1, e, level); }
  }

  predicate Quotable(b: seq<TextInfo>) {
    forall k :: 0 <= k < |b| ==> b[k].depth >= 0 || b[k].depth == SIGNATURE
  }

  /** A line ends behind an unquoted block, and in front of a block that is quoted less. */
  function LineEnd(b: seq<TextInfo>, k: nat): string
    requires k < |b|
  {
    if k + 1 < |b| && (b[k].depth == 0 || 0 <= b[k + 1].depth < b[k].depth) then "\n" else ""
  }

  function BlockText(m: Mail, k: nat): string
    requires k < |m.blocks|
  {
    TextOf(Htmlify(m.f, m.blocks[k].text)) + LineEnd(m.blocks, k)
  }

  /** The blocks from `i` to `j`, each once and in order, every character at the depth of its block. */
  function Visible(m: Mail, i: nat, j: nat): seq<(char, nat)>
    requires i <= j <= |m.blocks| && forall k :: i <= k < j ==> m.blocks[k].depth >= 0
    decreases j - i
  {
    if i == j then [] else At(BlockText(m, i), m.blocks[i].depth) + Visible(m, i + 1, j)
  }

  lemma {:induction false} VisibleSplit(m: Mail, i: nat, e: nat, j: nat)
    requires i <= e <= j <= |m.blocks| && forall k :: i <= k < j ==> m.blocks[k].depth >= 0
    ensures Visible(m, i, j) == Visible(m, i, e) + Visible(m, e, j)
    decreases e - i
  {
    hide BlockText, At;
    if i < e { VisibleSplit(m, i + 1, e, j); }
  }

  /** The checkboxes of a run of blocks, numbered on from `n`, when `at` characters are on view in front of it. */
  function BoxesIn(m: Mail, i: nat, level: nat, n: nat, at: nat): seq<Box>
    requires i <= |m.blocks|
    decreases |m.blocks| - i, if i < |m.blocks| then m.blocks[i].depth - level else 0, 0
  {
    var b := m.blocks;
    if i == |b| || b[i].depth < level then []
    else if b[i].depth == level then BoxesIn(m, i + 1, level, n, at + |BlockText(m, i)|)
    else
      var e, used := RunEnd(b, i, level + 1), Used(b, i, level + 1);
      BoxesOf(m, i, level + 1, n, at) + BoxesIn(m, e, level, n + used, at + |Visible(m, i, e)|)
  }

  /** The checkboxes of one quotation: its own, if it has text of its own, and those inside. */
  function BoxesOf(m: Mail, i: nat, level: nat, n: nat, at: nat): seq<Box>
    requires i < |m.blocks| && 0 < level <= m.blocks[i].depth
    decreases |m.blocks| - i, m.blocks[i].depth - level, 1
  {
    if HasOwnText(m.blocks, i, level)
    then [Box(n + 1, PresetOf(m.blocks, i, level), level, at)] + BoxesIn(m, i, level, n + 1, at)
    else BoxesIn(m, i, level, n, at)
  }

  /** The page after a run of blocks: the same open elements, more text, more controls. */
  function After(p: Page, shown: seq<(char, nat)>, boxes: seq<Box>): (q: Page)
    requires p.Page?
    ensures q.Page? && q.stack == p.stack && q.closed == p.closed
  {
    p.(shown := p.shown + shown, boxes := p.boxes + boxes)
  }

  lemma AfterAfter(p: Page, a: seq<(char, nat)>, x: seq<Box>, c: seq<(char, nat)>, y: seq<Box>)
    requires p.Page?
    ensures After(After(p, a, x), c, y) == After(p, a + c, x + y)
  {
  }

  lemma FeedBlock(m: Mail, i: nat, level: nat, p: Page)
    requires i < |m.blocks| && m.blocks[i].depth == level
    requires p.Page? && QuoteDepth(p.stack) == level
    ensures Feed(Quoted(m.f, m.blocks[i].text, level) + Break(m.blocks, i), p) == Sees(p, At(BlockText(m, i), level))
  {
    var text := TextOf(Htmlify(m.f, m.blocks[i].text));
    FeedConcat(Quoted(m.f, m.blocks[i].text, level), Break(m.blocks, i), p);
    FeedQuoted(m.f, m.blocks[i].text, level, p);
    FeedBreak(m.blocks, i, Show(p, text));
    ShowShow(p, text, LineEnd(m.blocks, i));
    ShowSees(p, BlockText(m, i));
  }

  lemma FeedBreak(b: seq<TextInfo>, i: nat, p: Page)
    requires i < |b|
    ensures Feed(Break(b, i), p) == Show(p, LineEnd(b, i))
  {
    if Break(b, i) == [] {
      ShowNothing(p);
    } else {
      ReadOne(Chars("\n"), p);
    }
  }

  lemma SeesAfter(p: Page, shown: seq<(char, nat)>)
    requires p.Page? && !Hidden(p.stack, p.closed)
    ensures Sees(p, shown) == After(p, shown, [])
  {
    assert p.boxes + [] == p.boxes;
  }

  lemma Then(a: seq<Token>, c: seq<Token>, p: Page, q: Page, r: Page)
    requires Feed(a, p) == q && Feed(c, q) == r
    ensures Feed(a + c, p) == r
  {
    FeedConcat(a, c, p);
  }

  /** A new control in front of others. */
  lemma OneMoreControl(p: Page, inner: Stack, shown: seq<(char, nat)>, box: Box, boxes: seq<Box>)
    requires p.Page?
    ensures Back(After(p.(stack := inner, boxes := p.boxes + [box]), shown, boxes), p) == After(p, shown, [box] + boxes)
  {
    assert p.boxes + [box] + boxes == p.boxes + ([box] + boxes);
  }

  /** The page `p` with the open elements of `outer`. */
  function Back(p: Page, outer: Page): Page
    requires p.Page? && outer.Page?
  {
    p.(stack := outer.stack)
  }

  /** How the reference continues behind a block of the current depth, and behind a quotation. */
  lemma SegmentStep(m: Mail, i: nat, level: nat, n: nat)
    requires i < |m.blocks| && m.blocks[i].depth >= level
    ensures
      var b := m.blocks;
      if b[i].depth == level then
        && Segment(m, i, level, n)
           == Quoted(m.f, b[i].text, level) + Break(b, i) + Segment(m, i + 1, level, n)
        && Controls(b, i, level) == Controls(b, i + 1, level)
        && RunEnd(b, i, level) == RunEnd(b, i + 1, level)
      else
        var e, used := RunEnd(b, i, level + 1), Used(b, i, level + 1);
        && Segment(m, i, level, n) == Quotation(m, i, level + 1, n) + Segment(m, e, level, n + used)
        && Controls(b, i, level) == used + Controls(b, e, level)
        && RunEnd(b, i, level) == RunEnd(b, e, level)
  {
    hide Quoted, Break, Quotation, HasOwnText;
    if m.blocks[i].depth > level {
      RunEndSkip(m.blocks, i, RunEnd(m.blocks, i, level + 1), level);
    }
  }

  /** What the theorem below says of a run of blocks, and of one quotation. */
  predicate SegmentReads(m: Mail, i: nat, level: nat, n: nat, p: Page)
    requires i <= |m.blocks| && p.Page?
  {
    Feed(Segment(m, i, level, n), p)
      == After(p, Visible(m, i, RunEnd(m.blocks, i, level)), BoxesIn(m, i, level, n, |p.shown|))
  }

  predicate QuotationReads(m: Mail, i: nat, level: nat, n: nat, p: Page)
    requires i < |m.blocks| && 0 < level <= m.blocks[i].depth && p.Page?
  {
    Feed(Quotation(m, i, level, n), p)
      == After(p, Visible(m, i, RunEnd(m.blocks, i, level)), BoxesOf(m, i, level, n, |p.shown|))
  }

  lemma {:induction false} FeedSegment(m: Mail, i: nat, level: nat, n: nat, p: Page)
    requires i <= |m.blocks|
    requires p.Page? && p.closed == {} && !Hidden(p.stack, {}) && QuoteDepth(p.stack) == level
    ensures SegmentReads(m, i, level, n, p)
    decreases |m.blocks| - i, if i < |m.blocks| then m.blocks[i].depth - level else 0, 0
  {
    hide *;
    var b := m.blocks;
    if i == |b| || b[i].depth < level {
      NothingThen(m, i, level, n, p);
    } else if b[i].depth == level {
      FeedSegment(m, i + 1, level, n, After(p, At(BlockText(m, i), level), []));
      BlockThen(m, i, level, n, p);
    } else {
      var e, used := RunEnd(b, i, level + 1), Used(b, i, level + 1);
      EndIsBehind(b, i, level + 1);
      FeedQuotation(m, i, level + 1, n, p);
      FeedSegment(m, e, level, n + used, After(p, Visible(m, i, e), BoxesOf(m, i, level + 1, n, |p.shown|)));
      QuotationThen(m, i, level, n, p);
    }
  }

  lemma EndIsBehind(b: seq<TextInfo>, i: nat, level: int)
    requires i < |b| && b[i].depth >= level
    ensures i < RunEnd(b, i, level)
  {
  }

  lemma NothingThen(m: Mail, i: nat, level: nat, n: nat, p: Page)
    requires i <= |m.blocks| && (i < |m.blocks| ==> m.blocks[i].depth < level) && p.Page?
    ensures SegmentReads(m, i, level, n, p)
  {
    assert p.shown + [] == p.shown && p.boxes + [] == p.boxes;
  }

  lemma BlockThen(m: Mail, i: nat, level: nat, n: nat, p: Page)
    requires i < |m.blocks| && m.blocks[i].depth == level
    requires p.Page? && p.closed == {} && !Hidden(p.stack, {}) && QuoteDepth(p.stack) == level
    requires SegmentReads(m, i + 1, level, n, After(p, At(BlockText(m, i), level), []))
    ensures SegmentReads(m, i, level, n, p)
  {
    hide *;
    var b := m.blocks;
    var block := Quoted(m.f, b[i].text, level) + Break(b, i);
    var text := At(BlockText(m, i), level);
    var q := After(p, text, []);
    FeedBlock(m, i, level, p);
    SeesAfter(p, text);
    BlockUnfolds(m, i, level, n, |p.shown|);
    AfterShows(p, text, []);
    SegmentIs(m, i + 1, level, n, q);
    SegmentIs(m, i, level, n, p);
    var rest, boxes := Visible(m, i + 1, RunEnd(b, i + 1, level)), BoxesIn(m, i, level, n, |p.shown|);
    Then(block, Segment(m, i + 1, level, n), p, q, After(q, rest, boxes));
    AfterAfter(p, text, [], rest, boxes);
    assert [] + boxes == boxes;
  }

  lemma BlockUnfolds(m: Mail, i: nat, level: nat, n: nat, at: nat)
    requires i < |m.blocks| && m.blocks[i].depth == level
    ensures
      var b := m.blocks;
      var end := RunEnd(b, i, level);
      && end == RunEnd(b, i + 1, level) && i + 1 <= end <= |b|
      && (forall k :: i <= k < end ==> b[k].depth >= 0)
      && Segment(m, i, level, n) == Quoted(m.f, b[i].text, level) + Break(b, i) + Segment(m, i + 1, level, n)
      && Visible(m, i, end) == At(BlockText(m, i), level) + Visible(m, i + 1, end)
      && BoxesIn(m, i, level, n, at) == BoxesIn(m, i + 1, level, n, at + |At(BlockText(m, i), level)|)
  {
    hide Quoted, Break, BlockText, At;
  }

  lemma QuotationThen(m: Mail, i: nat, level: nat, n: nat, p: Page)
    requires i < |m.blocks| && m.blocks[i].depth > level && p.Page?
    requires QuotationReads(m, i, level + 1, n, p)
    requires
      var e, used := RunEnd(m.blocks, i, level + 1), Used(m.blocks, i, level + 1);
      SegmentReads(m, e, level, n + used, After(p, Visible(m, i, e), BoxesOf(m, i, level + 1, n, |p.shown|)))
    ensures SegmentReads(m, i, level, n, p)
  {
    hide Feed, Used, BoxesIn, BoxesOf, Quotation, Segment, Controls, Visible, RunEnd, HasOwnText, FirstAt, After;
    var b := m.blocks;
    var e, used := RunEnd(b, i, level + 1), Used(b, i, level + 1);
    var end := RunEnd(b, e, level);
    QuotationThenFacts(m, i, level, n, |p.shown|);
    var first := BoxesOf(m, i, level + 1, n, |p.shown|);
    var q := After(p, Visible(m, i, e), first);
    AfterShows(p, Visible(m, i, e), first);
    var shown, more := Visible(m, e, end), BoxesIn(m, e, level, n + used, |q.shown|);
    Then(Quotation(m, i, level + 1, n), Segment(m, e, level, n + used), p, q, After(q, shown, more));
    AfterAfter(p, Visible(m, i, e), first, shown, more);
  }

  lemma AfterShows(p: Page, shown: seq<(char, nat)>, boxes: seq<Box>)
    requires p.Page?
    ensures |After(p, shown, boxes).shown| == |p.shown| + |shown|
  {
  }

  lemma QuotationThenFacts(m: Mail, i: nat, level: nat, n: nat, at: nat)
    requires i < |m.blocks| && m.blocks[i].depth > level
    ensures
      var b := m.blocks;
      var e, used := RunEnd(b, i, level + 1), Used(b, i, level + 1);
      var end := RunEnd(b, i, level);
      && e <= end == RunEnd(b, e, level)
      && Segment(m, i, level, n) == Quotation(m, i, level + 1, n) + Segment(m, e, level, n + used)
      && Visible(m, i, end) == Visible(m, i, e) + Visible(m, e, end)
      && BoxesIn(m, i, level, n, at)
         == BoxesOf(m, i, level + 1, n, at) + BoxesIn(m, e, level, n + used, at + |Visible(m, i, e)|)
  {
    hide *;
    SegmentStep(m, i, level, n);
    VisibleSplit(m, i, RunEnd(m.blocks, i, level + 1), RunEnd(m.blocks, i, level));
    BoxesUnfold(m, i, level, n, at);
  }

  lemma BoxesUnfold(m: Mail, i: nat, level: nat, n: nat, at: nat)
    requires i < |m.blocks| && m.blocks[i].depth > level
    ensures
      var e, used := RunEnd(m.blocks, i, level + 1), Used(m.blocks, i, level + 1);
      && i <= e <= |m.blocks| && (forall k :: i <= k < e ==> m.blocks[k].depth >= 0)
      && BoxesIn(m, i, level, n, at)
         == BoxesOf(m, i, level + 1, n, at) + BoxesIn(m, e, level, n + used, at + |Visible(m, i, e)|)
  {
    hide Used, Visible, BoxesOf, RunEnd, HasOwnText, BlockText;
  }

  lemma {:induction false} FeedQuotation(m: Mail, i: nat, level: nat, n: nat, p: Page)
    requires i < |m.blocks| && 0 < level <= m.blocks[i].depth
    requires p.Page? && p.closed == {} && !Hidden(p.stack, {}) && QuoteDepth(p.stack) == level - 1
    ensures QuotationReads(m, i, level, n, p)
    decreases |m.blocks| - i, m.blocks[i].depth - level, 1
  {
    hide *;
    var b := m.blocks;
    QuotationUnfolds(m, i, level, n, |p.shown|);
    var shown := Visible(m, i, RunEnd(b, i, level));
    if HasOwnText(b, i, level) {
      var cls, box := FormOf(m, i, level), Box(n + 1, PresetOf(b, i, level), level, |p.shown|);
      var q := p.(stack := InLevel(p.stack, n + 1, cls), boxes := p.boxes + [box]);
      var boxes := BoxesIn(m, i, level, n + 1, |p.shown|);
      var r := After(q, shown, boxes);
      FullIsNoLevel(m, i, level);
      InLevelFacts(p.stack, n + 1, cls, p.closed);
      FeedOpening(m, i, level, n + 1, p);
      OpenedOpen(m, i, level, n + 1, p);
      FeedSegment(m, i, level, n + 1, q);
      SegmentIs(m, i, level, n + 1, q);
      FeedClosing(n + 1, cls, p.stack, r);
      OneMoreControl(p, q.stack, shown, box, boxes);
      BackIs(r, p);
      Then(Opening(m, i, level, n + 1), Segment(m, i, level, n + 1), p, q, r);
      Then(Opening(m, i, level, n + 1) + Segment(m, i, level, n + 1), Closing(n + 1), p, r, Back(r, p));
    } else {
      var q, boxes := Push(p, Element(Quote)), BoxesIn(m, i, level, n, |p.shown|);
      OneQuoteMore(p, shown, boxes);
      var r := After(q, shown, boxes);
      FeedOne(OpenQuote, p);
      FeedSegment(m, i, level, n, q);
      SegmentIs(m, i, level, n, q);
      FeedOne(Close(Quote), r);
      Then([OpenQuote], Segment(m, i, level, n), p, q, r);
      Then([OpenQuote] + Segment(m, i, level, n), [Close(Quote)], p, r, After(p, shown, boxes));
    }
    QuotationIs(m, i, level, n, p);
  }

  lemma SegmentIs(m: Mail, i: nat, level: nat, n: nat, p: Page)
    requires i <= |m.blocks| && p.Page?
    ensures forall k :: i <= k < RunEnd(m.blocks, i, level) ==> m.blocks[k].depth >= 0
    ensures
      SegmentReads(m, i, level, n, p)
      <==> Feed(Segment(m, i, level, n), p)
           == After(p, Visible(m, i, RunEnd(m.blocks, i, level)), BoxesIn(m, i, level, n, |p.shown|))
  {
    hide Feed, Segment, After, Visible, BoxesIn, RunEnd;
  }

  lemma QuotationIs(m: Mail, i: nat, level: nat, n: nat, p: Page)
    requires i < |m.blocks| && 0 < level <= m.blocks[i].depth && p.Page?
    ensures forall k :: i <= k < RunEnd(m.blocks, i, level) ==> m.blocks[k].depth >= 0
    ensures
      QuotationReads(m, i, level, n, p)
      <==> Feed(Quotation(m, i, level, n), p)
           == After(p, Visible(m, i, RunEnd(m.blocks, i, level)), BoxesOf(m, i, level, n, |p.shown|))
  {
    hide Feed, Quotation, After, Visible, BoxesOf, RunEnd;
  }

  lemma QuotationUnfolds(m: Mail, i: nat, level: nat, n: nat, at: nat)
    requires i < |m.blocks| && 0 < level <= m.blocks[i].depth
    ensures i <= RunEnd(m.blocks, i, level) <= |m.blocks|
    ensures forall k :: i <= k < RunEnd(m.blocks, i, level) ==> m.blocks[k].depth >= 0
    ensures
      if HasOwnText(m.blocks, i, level) then
        && Quotation(m, i, level, n) == Opening(m, i, level, n + 1) + Segment(m, i, level, n + 1) + Closing(n + 1)
        && BoxesOf(m, i, level, n, at)
           == [Box(n + 1, PresetOf(m.blocks, i, level), level, at)] + BoxesIn(m, i, level, n + 1, at)
      else
        && Quotation(m, i, level, n) == [OpenQuote] + Segment(m, i, level, n) + [Close(Quote)]
        && BoxesOf(m, i, level, n, at) == BoxesIn(m, i, level, n, at)
  {
    hide HasOwnText, Opening, Segment, Closing, PresetOf, BoxesIn;
  }

  /** Nothing is on view of a short form whose checkbox is not checked. */
  lemma OpenedOpen(m: Mail, i: nat, level: nat, id: nat, p: Page)
    requires i < |m.blocks| && HasOwnText(m.blocks, i, level) && p.Page? && id !in p.closed
    ensures Opened(m, i, level, id, p) == p
  {
  }

  lemma FullIsNoLevel(m: Mail, i: nat, level: nat)
    requires i < |m.blocks|
    ensures FormOf(m, i, level) in {ShortQuote, Class.Full}
  {
  }

  lemma BackIs(r: Page, p: Page)
    requires r.Page? && p.Page?
    ensures Back(r, p) == r.(stack := p.stack)
  {
  }

  lemma OneQuoteMore(p: Page, shown: seq<(char, nat)>, boxes: seq<Box>)
    requires p.Page?
    ensures
      var q := Push(p, Element(Quote));
      && Step(OpenQuote, p) == q && q.Page? && q.shown == p.shown && q.closed == p.closed
      && QuoteDepth(q.stack) == 1 + QuoteDepth(p.stack) && Hidden(q.stack, q.closed) == Hidden(p.stack, p.closed)
      && Step(Close(Quote), After(q, shown, boxes)) == After(p, shown, boxes)
  {
  }

  // ----- the whole document -----

  lemma BodyIsOneRun(b: seq<TextInfo>)
    requires Quotable(b)
    ensures RunEnd(b, 0, 0) == BodyLength(b)
  {
  }

  /** The text behind the signature separator, one line per block. */
  function TailText(m: Mail, i: nat): string
    requires i <= |m.blocks|
    decreases |m.blocks| - i
  {
    if i == |m.blocks| then "" else
    TextOf(Htmlify(m.f, m.blocks[i].text)) + (if i + 1 < |m.blocks| then "\n" else "") + TailText(m, i + 1)
  }

  function SignatureText(m: Mail, i: nat): string
    requires i < |m.blocks|
  {
    TextOf(Htmlify(m.f, m.blocks[i].text)) + "\n" + TailText(m, i + 1)
  }

  lemma FeedLine(m: Mail, i: nat, newline: bool, p: Page)
    requires i < |m.blocks| && p.Page?
    ensures Feed(Htmlify(m.f, m.blocks[i].text) + (if newline then [Chars("\n")] else []), p)
         == Show(p, TextOf(Htmlify(m.f, m.blocks[i].text)) + if newline then "\n" else "")
  {
    var line := Htmlify(m.f, m.blocks[i].text);
    var ending := if newline then [Chars("\n")] else [];
    ScanShowsItsText(m.f, Escape(m.blocks[i].text), p);
    ReadOne(Chars("\n"), Show(p, TextOf(line)));
    ShowNothing(Show(p, TextOf(line)));
    ShowShow(p, TextOf(line), if newline then "\n" else "");
    Then(line, ending, p, Show(p, TextOf(line)), Show(Show(p, TextOf(line)), if newline then "\n" else ""));
  }

  lemma {:induction false} FeedTail(m: Mail, i: nat, p: Page)
    requires i <= |m.blocks| && p.Page?
    ensures Feed(Tail(m, i), p) == Show(p, TailText(m, i))
    decreases |m.blocks| - i
  {
    if i == |m.blocks| {
      ShowNothing(p);
    } else {
      var newline := i + 1 < |m.blocks|;
      var line := Htmlify(m.f, m.blocks[i].text) + if newline then [Chars("\n")] else [];
      var text := TextOf(Htmlify(m.f, m.blocks[i].text)) + if newline then "\n" else "";
      FeedLine(m, i, newline, p);
      FeedTail(m, i + 1, Show(p, text));
      ShowShow(p, text, TailText(m, i + 1));
      assert Tail(m, i) == line + Tail(m, i + 1) && TailText(m, i) == text + TailText(m, i + 1);
      hide Tail, TailText, Show, Feed, Htmlify, TextOf;
      Then(line, Tail(m, i + 1), p, Show(p, text), Show(Show(p, text), TailText(m, i + 1)));
    }
  }

  /** The page behind a signature with that text. */
  function Signed(p: Page, text: string): (q: Page)
    requires p.Page?
    ensures q.Page? && q.stack == p.stack && q.closed == p.closed && q.boxes == p.boxes
    ensures q.shown == p.shown + At(text, 0)
    ensures q.signatures == p.signatures + [|p.shown|, |p.shown| + |text|]
  {
    p.(shown := p.shown + At(text, 0), signatures := p.signatures + [|p.shown|, |p.shown| + |text|])
  }

  lemma FeedSignature(m: Mail, i: nat, p: Page)
    requires i < |m.blocks| && p.Page? && p.stack == Base
    ensures Feed(SignaturePart(m, i), p) == Signed(p, SignatureText(m, i))
  {
    hide *;
    var q := Push(Sign(p), Region(Signature, None));
    var line := Htmlify(m.f, m.blocks[i].text) + [Chars("\n")];
    var text := TextOf(Htmlify(m.f, m.blocks[i].text)) + "\n";
    FeedOne(OpenSpan(Signature), p);
    PushIs(p);
    FeedLine(m, i, true, q);
    ShowPage(q, text);
    FeedTail(m, i + 1, Show(q, text));
    ShowShow(q, text, TailText(m, i + 1));
    var r := Show(q, SignatureText(m, i));
    InSignature(p, SignatureText(m, i));
    FeedOne(Close(Span), r);
    SignatureIs(m, i);
    Then([OpenSpan(Signature)], line, p, q, Show(q, text));
    Then([OpenSpan(Signature)] + line, Tail(m, i + 1), p, Show(q, text), r);
    Then([OpenSpan(Signature)] + line + Tail(m, i + 1), [Close(Span)], p, r, Signed(p, SignatureText(m, i)));
  }

  lemma SignatureIs(m: Mail, i: nat)
    requires i < |m.blocks|
    ensures SignatureText(m, i) == TextOf(Htmlify(m.f, m.blocks[i].text)) + "\n" + TailText(m, i + 1)
    ensures SignaturePart(m, i)
         == [OpenSpan(Signature)] + (Htmlify(m.f, m.blocks[i].text) + [Chars("\n")]) + Tail(m, i + 1) + [Close(Span)]
  {
    hide Htmlify, Tail, TailText, TextOf;
  }

  lemma ShowPage(p: Page, text: string)
    requires p.Page?
    ensures Show(p, text).Page?
  {
  }

  lemma PushIs(p: Page)
    requires p.Page?
    ensures Step(OpenSpan(Signature), p) == Push(Sign(p), Region(Signature, None))
    ensures Push(Sign(p), Region(Signature, None)).Page?
  {
  }

  lemma InSignature(p: Page, text: string)
    requires p.Page? && p.stack == Base
    ensures Step(Close(Span), Show(Push(Sign(p), Region(Signature, None)), text)) == Signed(p, text)
  {
    var q := Push(Sign(p), Region(Signature, None));
    assert !Hidden(q.stack.rest, p.closed) && QuoteDepth(q.stack.rest) == 0;
    assert !HidesItself(q.stack.top, q.stack.rest, p.closed) && q.stack.top != Element(Quote);
    assert p.signatures + [|p.shown|] + [|p.shown| + |text|] == p.signatures + [|p.shown|, |p.shown| + |text|];
  }

  /** What a mail shows: its blocks at their depths, then the signature outside all quotations. */
  function VisibleMail(m: Mail): seq<(char, nat)>
    requires Quotable(m.blocks)
  {
    var sig := BodyLength(m.blocks);
    Visible(m, 0, sig) + if sig < |m.blocks| then At(SignatureText(m, sig), 0) else []
  }

  /** The signature reaches from the end of the body to the end of the page. */
  function SignatureEnds(m: Mail): seq<nat>
    requires Quotable(m.blocks)
  {
    if BodyLength(m.blocks) < |m.blocks|
    then [|Visible(m, 0, BodyLength(m.blocks))|, |VisibleMail(m)|]
    else []
  }

  /** The markup of a mail is well nested and every label names the checkbox of its quotation, or the
      page would be malformed. Every block is shown exactly once, in order, each character inside as
      many blockquotes as its block is deep; the checkboxes are numbered 1, 2, 3 and so on. */
  lemma DocumentReads(m: Mail)
    requires Quotable(m.blocks)
    ensures Feed(Document(m), BLANK) == Page(Base, VisibleMail(m), BoxesIn(m, 0, 0, 0, 0), SignatureEnds(m), {})
    ensures Numbered(BoxesIn(m, 0, 0, 0, 0), 0) && |BoxesIn(m, 0, 0, 0, 0)| == Controls(m.blocks, 0, 0)
  {
    hide *;
    var sig := BodyLength(m.blocks);
    var ids := BoxesIn(m, 0, 0, 0, 0);
    BoxesNumbered(m, 0, 0, 0, 0);
    FeedBody(m);
    DocumentIs(m);
    VisibleIs(m);
    var p := Page(Base, Visible(m, 0, sig), ids, [], {});
    if sig < |m.blocks| {
      FeedSignature(m, sig, p);
      Then(Segment(m, 0, 0, 0), SignaturePart(m, sig), BLANK, p, Signed(p, SignatureText(m, sig)));
    }
  }

  /** The numbers go on from `n`. */
  predicate Numbered(boxes: seq<Box>, n: nat) {
    forall k :: 0 <= k < |boxes| ==> boxes[k].id == n + 1 + k
  }

  lemma {:induction false} BoxesNumbered(m: Mail, i: nat, level: nat, n: nat, at: nat)
    requires i <= |m.blocks|
    ensures Numbered(BoxesIn(m, i, level, n, at), n)
    ensures |BoxesIn(m, i, level, n, at)| == Controls(m.blocks, i, level)
    decreases |m.blocks| - i, if i < |m.blocks| then m.blocks[i].depth - level else 0, 0
  {
    hide Visible, BlockText, HasOwnText, PresetOf;
    var b := m.blocks;
    if i < |b| && b[i].depth == level {
      BoxesNumbered(m, i + 1, level, n, at + |BlockText(m, i)|);
    } else if i < |b| && b[i].depth > level {
      var e, used := RunEnd(b, i, level + 1), Used(b, i, level + 1);
      QuotationNumbered(m, i, level + 1, n, at);
      BoxesNumbered(m, e, level, n + used, at + |Visible(m, i, e)|);
    }
  }

  lemma {:induction false} QuotationNumbered(m: Mail, i: nat, level: nat, n: nat, at: nat)
    requires i < |m.blocks| && 0 < level <= m.blocks[i].depth
    ensures Numbered(BoxesOf(m, i, level, n, at), n)
    ensures |BoxesOf(m, i, level, n, at)| == Used(m.blocks, i, level)
    decreases |m.blocks| - i, m.blocks[i].depth - level, 1
  {
    hide HasOwnText, PresetOf;
    BoxesNumbered(m, i, level, if HasOwnText(m.blocks, i, level) then n + 1 else n, at);
  }

  lemma FeedBody(m: Mail)
    requires Quotable(m.blocks)
    ensures forall k :: 0 <= k < BodyLength(m.blocks) ==> m.blocks[k].depth >= 0
    ensures
      Feed(Segment(m, 0, 0, 0), BLANK)
      == Page(Base, Visible(m, 0, BodyLength(m.blocks)), BoxesIn(m, 0, 0, 0, 0), [], {})
  {
    hide Segment, Feed, Visible, BoxesIn, RunEnd, BodyLength;
    BodyIsOneRun(m.blocks);
    FeedSegment(m, 0, 0, 0, BLANK);
  }

  lemma DocumentIs(m: Mail)
    ensures
      var sig := BodyLength(m.blocks);
      Document(m) == if sig < |m.blocks| then Segment(m, 0, 0, 0) + SignaturePart(m, sig) else Segment(m, 0, 0, 0)
  {
    hide Segment, SignaturePart;
  }

  lemma VisibleIs(m: Mail)
    requires Quotable(m.blocks)
    ensures
      var sig := BodyLength(m.blocks);
      VisibleMail(m)
      == if sig < |m.blocks| then Visible(m, 0, sig) + At(SignatureText(m, sig), 0) else Visible(m, 0, sig)
    ensures
      var sig := BodyLength(m.blocks);
      SignatureEnds(m) == if sig < |m.blocks| then [|Visible(m, 0, sig)|, |VisibleMail(m)|] else []
  {
    hide Visible, SignatureText, At;
  }
}
