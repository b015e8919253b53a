/** Every control that is on view can be switched: the labels on view are those of the controls on view. */
module QuoteToggles {
  import opened Text
  import opened Markup
  import opened LineMarkup
  import opened LineMarkupFacts
  import opened QuoteLines
  import opened QuoteTree
  import opened QuoteTreeFacts
  import opened QuoteControls
  import opened CollapsedQuotes
  import opened MarkupLexing
  import opened HtmlReader

  /** The style sheet hides the labels of quotations that are too short to be collapsed. */
  predicate InShortQuote(s: Stack) {
    && s.On? && s.top == Element(Quote)
    && s.rest.On? && s.rest.top.Region? && s.rest.top.cls == ShortQuote
  }

  predicate OnView(p: Page) { p.Page? && !Hidden(p.stack, p.closed) }

  /** The checkboxes that the labels on view belong to. */
  function Labels(ts: seq<Token>, p: Page): set<nat> {
    if ts == [] then {}
    else
      (if ts[0].OpenLabel? && OnView(p) && !InShortQuote(p.stack) then {ts[0].target} else {})
      + Labels(ts[1..], Step(ts[0], p))
  }

  /** The checkboxes that are on view and have something to be checked. */
  function Switches(ts: seq<Token>, p: Page): set<nat> {
    if ts == [] then {}
    else
      (if ts[0].Checkbox? && ts[0].preset != Bare && OnView(p) then {ts[0].id} else {})
      + Switches(ts[1..], Step(ts[0], p))
  }

  lemma {:induction false} TogglesConcat(a: seq<Token>, b: seq<Token>, p: Page)
    ensures Labels(a + b, p) == Labels(a, p) + Labels(b, Feed(a, p))
    ensures Switches(a + b, p) == Switches(a, p) + Switches(b, Feed(a, p))
  {
    hide *;
    TogglesUnfold(a, p);
    TogglesUnfold(a + b, p);
    if a == [] {
      assert a + b == b;
    } else {
      assert (a + b)[1..] == a[1..] + b && (a + b)[0] == a[0];
      TogglesConcat(a[1..], b, Step(a[0], p));
    }
  }

  lemma TogglesUnfold(ts: seq<Token>, p: Page)
    ensures Feed(ts, p) == if ts == [] then p else Feed(ts[1..], Step(ts[0], p))
    ensures
      Labels(ts, p)
      == if ts == [] then {}
         else (if ts[0].OpenLabel? && OnView(p) && !InShortQuote(p.stack) then {ts[0].target} else {})
              + Labels(ts[1..], Step(ts[0], p))
    ensures
      Switches(ts, p)
      == if ts == [] then {}
         else (if ts[0].Checkbox? && ts[0].preset != Bare && OnView(p) then {ts[0].id} else {})
              + Switches(ts[1..], Step(ts[0], p))
  {
    hide Step, OnView, InShortQuote;
  }

  predicate NoSwitch(ts: seq<Token>) { forall t :: t in ts ==> !t.OpenLabel? && !t.Checkbox? }

  lemma {:induction false} NothingToggled(ts: seq<Token>, p: Page)
    requires NoSwitch(ts)
    ensures Labels(ts, p) == {} && Switches(ts, p) == {}
  {
    if ts != [] {
      TogglesUnfold(ts, p);
      hide Step, OnView, InShortQuote;
      assert ts[0] in ts && forall t :: t in ts[1..] ==> t in ts;
      NothingToggled(ts[1..], Step(ts[0], p));
    }
  }

  // ----- text has no controls -----

  lemma NoSwitchConcat(a: seq<Token>, b: seq<Token>)
    requires NoSwitch(a) && NoSwitch(b)
    ensures NoSwitch(a + b)
  {
  }

  lemma {:induction false} ScanHasNone(f: Matcher, rest: string)
    ensures NoSwitch(Scan(f, rest))
    decreases MarkCount(rest), |rest|, 1
  {
    hide *;
    if rest == "" || f(rest).None? || f(rest).value.pos == |rest| {
      ScanEndHasNone(f, rest);
    } else {
      var m := f(rest).value;
      MatchHere(f, rest);
      MatchParts(m, rest);
      MatchIsShorter(m, rest);
      ScanUnfolds(f, rest, m);
      ScanHasNone(f, rest[m.pos + |Matched(m)|..]);
      ReplacementIs(f, rest, m);
      if m.Emphasis? {
        InnerHasFewerMarks(m, rest);
        ScanHasNone(f, Escape(m.inner));
        EmphasisHasNone(m.style, m.intro, Scan(f, Escape(m.inner)), m.extro);
      } else {
        AnchorHasNone(if m.Link? then m.text else "mailto:" + m.text, m.text);
      }
      TextHasNone(rest[..m.pos]);
      NoSwitchConcat([Chars(rest[..m.pos])], Replacement(f, rest, m));
      NoSwitchConcat([Chars(rest[..m.pos])] + Replacement(f, rest, m), Scan(f, rest[m.pos + |Matched(m)|..]));
    }
  }

  lemma ScanEndHasNone(f: Matcher, rest: string)
    requires rest == "" || f(rest).None? || f(rest).value.pos == |rest|
    ensures NoSwitch(Scan(f, rest))
  {
  }

  lemma TextHasNone(text: string)
    ensures NoSwitch([Chars(text)])
  {
  }

  lemma AnchorHasNone(href: string, text: string)
    ensures NoSwitch([OpenAnchor(href), Chars(text), Close(Anchor)])
  {
  }

  lemma EmphasisHasNone(style: Style, intro: string, inside: seq<Token>, extro: string)
    requires NoSwitch(inside)
    ensures NoSwitch(EmphasisHead(style, intro) + inside + EmphasisTail(style, extro))
  {
  }

  lemma {:induction false} MarkLinesHasNone(text: string, marks: seq<Token>)
    requires NoSwitch(marks)
    ensures NoSwitch(MarkLines(text, marks))
  {
    if text != "" { MarkLinesHasNone(text[1..], marks); }
  }

  lemma {:induction false} WithMarksHasNone(ts: seq<Token>, marks: seq<Token>)
    requires NoSwitch(ts) && NoSwitch(marks)
    ensures NoSwitch(WithMarks(ts, marks))
  {
    if ts != [] {
      assert ts[0] in ts && forall t :: t in ts[1..] ==> t in ts;
      WithMarksHasNone(ts[1..], marks);
      if ts[0].Chars? { MarkLinesHasNone(ts[0].text, marks); }
    }
  }

  lemma MarksHaveNone(depth: nat)
    ensures NoSwitch(MarkSpan(depth)) && NoSwitch(Marks(depth))
  {
  }

  lemma QuotedHasNone(f: Matcher, text: string, depth: nat)
    ensures NoSwitch(Quoted(f, text, depth))
  {
    ScanHasNone(f, Escape(text));
    MarksHaveNone(depth);
    WithMarksHasNone(Htmlify(f, text), Marks(depth));
    hide Scan, WithMarks;
  }

  lemma {:induction false} TailHasNone(m: Mail, i: nat)
    requires i <= |m.blocks|
    ensures NoSwitch(Tail(m, i))
    decreases |m.blocks| - i
  {
    if i < |m.blocks| {
      ScanHasNone(m.f, Escape(m.blocks[i].text));
      TailHasNone(m, i + 1);
    }
  }

  lemma EndHasNone(m: Mail)
    ensures NoSwitch(End(m))
  {
    hide Tail, Scan, BodyLength;
    var sig := BodyLength(m.blocks);
    if sig < |m.blocks| {
      ScanHasNone(m.f, Escape(m.blocks[sig].text));
      TailHasNone(m, sig + 1);
    }
  }

  lemma QuotesHaveNone(n: nat)
    ensures NoSwitch(Quotes(n)) && NoSwitch(Unquotes(n))
  {
  }

  // ----- one quotation -----

  lemma EllipsisToggles(id: nat, p: Page)
    ensures Labels(Ellipsis(id), p) == if OnView(p) && !InShortQuote(p.stack) then {id} else {}
    ensures Switches(Ellipsis(id), p) == {}
  {
    hide OnView, InShortQuote, Step;
    var rest := [Chars("..."), Close(Label)];
    assert Ellipsis(id)[1..] == rest;
    NothingToggled(rest, Step(OpenLabel(id), p));
  }

  /** In front of a preview the innermost blockquote is that of the short form. */
  predicate InShort(p: Page, s: Stack, id: nat) { p.Page? && p.stack == InLevel(s, id, Short) }

  lemma PreviewToggles(m: Mail, i: nat, level: nat, id: nat, s: Stack, p: Page)
    requires i < |m.blocks| && HasOwnText(m.blocks, i, level) && InShort(p, s, id) && QuoteDepth(s) + 1 == level
    ensures Labels(Preview(m, i, level, id), p) <= (if OnView(p) then {id} else {})
    ensures Switches(Preview(m, i, level, id), p) == {}
  {
    hide *;
    PreviewUnfolds(m, i, level, id);
    var j := FirstAt(m.blocks, i, level);
    var text := m.summary(m.blocks[j].text);
    var omitted, quoted := Omitted(m.blocks, i, j, level, id), Quoted(m.f, text, level);
    OmittedToggles(m.blocks, i, j, level, id, s, p);
    TogglesConcat(omitted, quoted, p);
    QuotedHasNone(m.f, text, level);
    NothingToggled(quoted, Feed(omitted, p));
  }

  lemma OmittedToggles(b: seq<TextInfo>, i: nat, j: nat, level: nat, id: nat, s: Stack, p: Page)
    requires i <= j <= |b| && (forall k :: i <= k < j ==> b[k].depth > level) && InShort(p, s, id)
    ensures Labels(Omitted(b, i, j, level, id), p) <= (if OnView(p) then {id} else {})
    ensures Switches(Omitted(b, i, j, level, id), p) == {}
  {
    hide *;
    if i < j {
      OmittedIs(b, i, j, level, id);
      var n, closest := MinDepth(b, i, j) - level, MinDepth(b, i, j);
      var q := Feed(Quotes(n), p);
      ShortPage(p, s, id);
      FeedQuotes(n, p);
      InQuotesFacts(p.stack, n, p.closed);
      StillOnView(p, q, n, s, id);
      QuotesHaveNone(n);
      MarksHaveNone(closest);
      TogglesConcat(Quotes(n) + MarkSpan(closest) + Ellipsis(id), Unquotes(n), p);
      TogglesConcat(Quotes(n) + MarkSpan(closest), Ellipsis(id), p);
      TogglesConcat(Quotes(n), MarkSpan(closest), p);
      FeedConcat(Quotes(n), MarkSpan(closest), p);
      MarksUnseen(closest, q);
      NothingToggled(Quotes(n), p);
      NothingToggled(MarkSpan(closest), q);
      EllipsisToggles(id, q);
      NothingToggled(Unquotes(n), Feed(Quotes(n) + MarkSpan(closest) + Ellipsis(id), p));
    } else {
      NothingOmitted(b, i, level, id);
      NothingToggled([], p);
    }
  }

  lemma NothingOmitted(b: seq<TextInfo>, i: nat, level: nat, id: nat)
    requires i <= |b|
    ensures Omitted(b, i, i, level, id) == [] && NoSwitch([])
  {
  }

  lemma ShortPage(p: Page, s: Stack, id: nat)
    requires InShort(p, s, id)
    ensures p.Page? && p.stack == InLevel(s, id, Short)
  {
    hide InLevel;
  }

  lemma StillOnView(p: Page, q: Page, n: nat, s: Stack, id: nat)
    requires InShort(p, s, id) && p.Page? && q == p.(stack := InQuotes(p.stack, n))
    requires Hidden(InQuotes(p.stack, n), p.closed) == Hidden(p.stack, p.closed)
    ensures OnView(q) == OnView(p)
  {
    hide Hidden, InQuotes, InLevel;
  }

  lemma HeadToggles(id: nat, preset: Preset, cls: Class, p: Page)
    requires p.Page? && cls != Signature
    ensures Labels(LevelHead(id, preset, cls), p) == {}
    ensures Switches(LevelHead(id, preset, cls), p) == if OnView(p) && preset != Bare then {id} else {}
  {
    hide *;
    var q := Step(OpenSpan(Level), p);
    var last := [OpenSpan(cls), OpenQuote];
    var rest := [Checkbox(id, preset)] + last;
    LevelIsNoCover(p);
    HeadIs(id, preset, cls);
    assert ([OpenSpan(Level)] + rest)[1..] == rest && rest[1..] == last;
    TogglesUnfold(LevelHead(id, preset, cls), p);
    TogglesUnfold(rest, q);
    NothingToggled(last, Step(Checkbox(id, preset), q));
  }

  lemma HeadIs(id: nat, preset: Preset, cls: Class)
    ensures LevelHead(id, preset, cls) == [OpenSpan(Level)] + ([Checkbox(id, preset)] + [OpenSpan(cls), OpenQuote])
    ensures NoSwitch([OpenSpan(cls), OpenQuote])
  {
  }

  lemma LevelIsNoCover(p: Page)
    requires p.Page?
    ensures OnView(Step(OpenSpan(Level), p)) == OnView(p)
  {
  }

  /** In front of the full form the control has its switch, and its label if it is closed. */
  lemma OpeningToggles(m: Mail, i: nat, level: nat, id: nat, p: Page)
    requires i < |m.blocks| && HasOwnText(m.blocks, i, level) && p.Page? && level == QuoteDepth(p.stack) + 1
    ensures Switches(Opening(m, i, level, id), p)
         == if OnView(p) && !IsShort(m.blocks, i, level) then {id} else {}
    ensures Labels(Opening(m, i, level, id), p)
         == if OnView(p) && !IsShort(m.blocks, i, level) && id in p.closed then {id} else {}
  {
    hide *;
    OpeningUnfolds(m, i, level, id, p);
    var preset := PresetOf(m.blocks, i, level);
    if IsShort(m.blocks, i, level) {
      HeadToggles(id, Bare, ShortQuote, p);
    } else {
      var head, preview, end := LevelHead(id, preset, Short), Preview(m, i, level, id), ShortEnd(id);
      var last := [OpenSpan(Class.Full), OpenQuote];
      var q, r := Feed(head, p), Feed(preview, Feed(head, p));
      NotBare(m.blocks, i, level);
      HeadToggles(id, preset, Short, p);
      FeedLevelHead(id, preset, Short, p);
      InLevelFacts(p.stack, id, Short, p.closed);
      OnViewIs(p);
      OnViewIs(q);
      ShortIs(q, p.stack, id);
      PreviewToggles(m, i, level, id, p.stack, q);
      FeedPreview(m, i, level, id, q);
      SeesPage(q, PreviewText(m, i, level));
      OnViewIs(r);
      EndToggles(id, p.stack, r);
      LastHasNone();
      NothingToggled(last, Feed(end, r));
      FeedConcat(head, preview, p);
      FeedConcat(head + preview, end, p);
      TogglesConcat(head + preview + end, last, p);
      TogglesConcat(head + preview, end, p);
      TogglesConcat(head, preview, p);
    }
  }

  lemma NotBare(b: seq<TextInfo>, i: nat, level: nat)
    requires i < |b| && !IsShort(b, i, level)
    ensures PresetOf(b, i, level) != Bare
  {
    hide IsShort, IsCollapsed;
  }

  lemma OnViewIs(p: Page)
    ensures OnView(p) == (p.Page? && !Hidden(p.stack, p.closed))
  {
    hide Hidden;
  }

  lemma ShortIs(p: Page, s: Stack, id: nat)
    requires p.Page? && p.stack == InLevel(s, id, Short)
    ensures InShort(p, s, id)
  {
    hide InLevel;
  }

  lemma LastHasNone()
    ensures NoSwitch([OpenSpan(Class.Full), OpenQuote])
  {
  }

  lemma EndToggles(id: nat, s: Stack, p: Page)
    requires p.Page? && p.stack == InLevel(s, id, Short)
    ensures Labels(ShortEnd(id), p) == if OnView(p) then {id} else {}
    ensures Switches(ShortEnd(id), p) == {}
  {
    hide *;
    var blank, last := [Chars(" ")], [Close(Quote), Close(Span)];
    ShortEndIs(id);
    SpaceIs(p, s, id);
    FeedOne(Chars(" "), p);
    TextHasNone(" ");
    EndsHaveNone();
    TogglesConcat(blank + Ellipsis(id), last, p);
    TogglesConcat(blank, Ellipsis(id), p);
    NothingToggled(blank, p);
    EllipsisToggles(id, Step(Chars(" "), p));
    NothingToggled(last, Feed(blank + Ellipsis(id), p));
  }

  lemma SpaceIs(p: Page, s: Stack, id: nat)
    requires p.Page? && p.stack == InLevel(s, id, Short)
    ensures var q := Step(Chars(" "), p); q.Page? && OnView(q) == OnView(p) && !InShortQuote(q.stack)
  {
    hide Hidden;
  }

  lemma EndsHaveNone()
    ensures NoSwitch([Close(Quote), Close(Span)]) && NoSwitch([OpenQuote]) && NoSwitch([Close(Quote)])
  {
  }

  /** Behind the full form the control has its label, if it is not closed. */
  lemma ClosingToggles(id: nat, cls: Class, s: Stack, p: Page)
    requires p.Page? && p.stack == InLevel(s, id, cls) && cls in {ShortQuote, Class.Full}
    ensures Labels(Closing(id), p) == if cls == Class.Full && id !in p.closed && !Hidden(s, p.closed) then {id} else {}
    ensures Switches(Closing(id), p) == {}
  {
    InLevelFacts(s, id, cls, p.closed);
    hide Hidden, Step;
    var rest := [Close(Label), Close(Quote), Close(Span), Close(Span)];
    assert Closing(id)[0] == OpenLabel(id) && Closing(id)[1..] == rest;
    TogglesUnfold(Closing(id), p);
    NothingToggled(rest, Step(OpenLabel(id), p));
  }

  // ----- the recursion -----

  predicate Balanced(ts: seq<Token>, p: Page) { Labels(ts, p) == Switches(ts, p) }

  lemma BalancedConcat(a: seq<Token>, b: seq<Token>, p: Page)
    requires Balanced(a, p) && Balanced(b, Feed(a, p))
    ensures Balanced(a + b, p)
  {
    hide Labels, Switches;
    TogglesConcat(a, b, p);
  }

  lemma NoSwitchBalanced(ts: seq<Token>, p: Page)
    requires NoSwitch(ts)
    ensures Balanced(ts, p)
  {
    NothingToggled(ts, p);
    hide Labels, Switches;
  }

  lemma {:induction false} SegmentBalanced(m: Mail, i: nat, level: nat, n: nat, p: Page)
    requires i <= |m.blocks| && p.Page? && QuoteDepth(p.stack) == level
    ensures Balanced(Segment(m, i, level, n), p)
    decreases |m.blocks| - i, if i < |m.blocks| then m.blocks[i].depth - level else 0, 0
  {
    hide *;
    var b := m.blocks;
    if i == |b| || b[i].depth < level {
      NoSegment(m, i, level, n);
      NoSwitchBalanced([], p);
    } else {
      SegmentStep(m, i, level, n);
      if b[i].depth == level {
        var block := Quoted(m.f, b[i].text, level) + Break(b, i);
        FeedBlock(m, i, level, p);
        SeesPage(p, At(BlockText(m, i), level));
        BlockHasNone(m, i, level);
        NoSwitchBalanced(block, p);
        SegmentBalanced(m, i + 1, level, n, Feed(block, p));
        BalancedConcat(block, Segment(m, i + 1, level, n), p);
      } else {
        var e, used := RunEnd(b, i, level + 1), Used(b, i, level + 1);
        EndIsBehind(b, i, level + 1);
        var first := Quotation(m, i, level + 1, n);
        QuotationSeen(m, i, level + 1, n, p);
        ReadsPage(first, p, SeenOf(m, i, level + 1, n, p.closed));
        QuotationBalanced(m, i, level + 1, n, p);
        SegmentBalanced(m, e, level, n + used, Feed(first, p));
        BalancedConcat(first, Segment(m, e, level, n + used), p);
      }
    }
  }

  lemma NoSegment(m: Mail, i: nat, level: nat, n: nat)
    requires i <= |m.blocks| && (i < |m.blocks| ==> m.blocks[i].depth < level)
    ensures Segment(m, i, level, n) == [] && NoSwitch([])
  {
  }

  lemma BlockHasNone(m: Mail, i: nat, level: nat)
    requires i < |m.blocks|
    ensures NoSwitch(Quoted(m.f, m.blocks[i].text, level) + Break(m.blocks, i))
  {
    QuotedHasNone(m.f, m.blocks[i].text, level);
    hide Quoted;
  }

  lemma {:induction false} QuotationBalanced(m: Mail, i: nat, level: nat, n: nat, p: Page)
    requires i < |m.blocks| && 0 < level <= m.blocks[i].depth && p.Page? && QuoteDepth(p.stack) == level - 1
    ensures Balanced(Quotation(m, i, level, n), p)
    decreases |m.blocks| - i, m.blocks[i].depth - level, 1
  {
    hide *;
    QuotationUnfolds(m, i, level, n, 0);
    if HasOwnText(m.blocks, i, level) {
      var opening, inside, cls := Opening(m, i, level, n + 1), Segment(m, i, level, n + 1), FormOf(m, i, level);
      var q := Feed(opening, p);
      FeedOpening(m, i, level, n + 1, p);
      OpenedPage(m, i, level, n + 1, p);
      OpeningUnfolds(m, i, level, n + 1, p);
      FullIsNoLevel(m, i, level);
      InLevelFacts(p.stack, n + 1, cls, p.closed);
      SegmentSeen(m, i, level, n + 1, q);
      ReadsPage(inside, q, Seen(m, i, level, n + 1, p.closed));
      var r := Feed(inside, q);
      SegmentBalanced(m, i, level, n + 1, q);
      OpeningToggles(m, i, level, n + 1, p);
      ClosingToggles(n + 1, cls, p.stack, r);
      OnViewIs(p);
      FeedConcat(opening, inside, p);
      ThreeBalanced(opening, inside, Closing(n + 1), p);
    } else {
      var q, inside := Push(p, Element(Quote)), Segment(m, i, level, n);
      InQuote(p);
      FeedOne(OpenQuote, p);
      SegmentBalanced(m, i, level, n, q);
      EndsHaveNone();
      NoSwitchBalanced([OpenQuote], p);
      NoSwitchBalanced([Close(Quote)], Feed([OpenQuote] + inside, p));
      BalancedConcat([OpenQuote], inside, p);
      BalancedConcat([OpenQuote] + inside, [Close(Quote)], p);
    }
  }

  lemma ThreeBalanced(a: seq<Token>, b: seq<Token>, c: seq<Token>, p: Page)
    requires Balanced(b, Feed(a, p)) && Switches(c, Feed(a + b, p)) == {}
    requires Labels(a, p) + Labels(c, Feed(a + b, p)) == Switches(a, p)
    ensures Balanced(a + b + c, p)
  {
    hide Labels, Switches, Feed;
    TogglesConcat(a, b, p);
    TogglesConcat(a + b, c, p);
  }

  // ----- the written page -----

  lemma {:induction false} SinglesHaveNone(text: string)
    ensures NoSwitch(Singles(text))
  {
    if text != "" { SinglesHaveNone(text[1..]); }
  }

  lemma {:induction false} TogglesOneByOne(ts: seq<Token>, p: Page)
    ensures Labels(OneByOne(ts), p) == Labels(ts, p) && Switches(OneByOne(ts), p) == Switches(ts, p)
  {
    hide *;
    OneByOneUnfolds(ts);
    if ts != [] {
      var first, rest := if ts[0].Chars? then Singles(ts[0].text) else [ts[0]], ts[1..];
      TogglesOneByOne(rest, Step(ts[0], p));
      TogglesConcat(first, OneByOne(rest), p);
      TogglesConcat([ts[0]], rest, p);
      FeedOne(ts[0], p);
      assert [ts[0]] + rest == ts;
      if ts[0].Chars? {
        FeedSingles(ts[0].text, p);
        MalformedShows(p, ts[0].text);
        SinglesHaveNone(ts[0].text);
        NothingToggled(first, p);
        TextHasNone(ts[0].text);
        NothingToggled([ts[0]], p);
      }
    }
  }

  lemma OneByOneUnfolds(ts: seq<Token>)
    ensures
      OneByOne(ts)
      == if ts == [] then []
         else (if ts[0].Chars? then Singles(ts[0].text) else [ts[0]]) + OneByOne(ts[1..])
  {
    hide Singles;
  }

  /** Whichever checkboxes are checked, a reader of the written page finds labels on view for exactly the controls that
      are on view: a quotation can be opened and closed again wherever it stands. */
  lemma EveryControlHasALabel(m: Mail, closed: set<nat>)
    ensures
      var html := ReadHtml(Render(Document(m)));
      html.Some? && Labels(html.value, Blank(closed)) == Switches(html.value, Blank(closed))
  {
    hide *;
    var p := Blank(closed);
    DocumentIsContained(m);
    RenderReads(Document(m));
    TogglesOneByOne(Document(m), p);
    BlankIs(closed);
    SegmentBalanced(m, 0, 0, 0, p);
    EndHasNone(m);
    NoSwitchBalanced(End(m), Feed(Segment(m, 0, 0, 0), p));
    BalancedConcat(Segment(m, 0, 0, 0), End(m), p);
    WholeIs(m);
    BalancedIs(Document(m), p);
  }

  lemma WholeIs(m: Mail)
    ensures Document(m) == Segment(m, 0, 0, 0) + End(m)
  {
    hide Segment, End;
  }

  lemma BalancedIs(ts: seq<Token>, p: Page)
    ensures Balanced(ts, p) <==> Labels(ts, p) == Switches(ts, p)
  {
    hide Labels, Switches;
  }
}
