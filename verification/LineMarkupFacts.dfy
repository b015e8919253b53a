/** What the markup of a line keeps: it nests, it shows the escaped text, and it injects nothing. */
module LineMarkupFacts {
  import opened Text
  import opened Markup
  import opened LineMarkup
  import opened Entities

  // ----- nesting -----

  /** Wherever it is put, the markup of a text leaves the open elements as they were and shows
      exactly its text. */
  lemma {:induction false} ScanShowsItsText(f: Matcher, rest: string, p: Page)
    requires p.Page?
    ensures Feed(Scan(f, rest), p) == Show(p, TextOf(Scan(f, rest)))
    decreases MarkCount(rest), |rest|
  {
    hide *;
    if rest == "" || f(rest).None? || f(rest).value.pos == |rest| {
      ScanEnds(f, rest, p);
    } else {
      var m := f(rest).value;
      MatchHere(f, rest);
      MatchParts(m, rest);
      MatchIsShorter(m, rest);
      ScanUnfolds(f, rest, m);
      var tail := rest[m.pos + |Matched(m)|..];
      var before, replaced := [Chars(rest[..m.pos])], Replacement(f, rest, m);
      CharsShow(rest[..m.pos], p);
      StillPage();
      ReplacementIs(f, rest, m);
      if m.Emphasis? {
        InnerHasFewerMarks(m, rest);
        ScanShowsItsText(f, Escape(m.inner), Inside(Show(Show(p, rest[..m.pos]), m.intro), m.style));
        EmphasisShows(m.style, m.intro, Scan(f, Escape(m.inner)), m.extro, Show(p, rest[..m.pos]));
      } else {
        AnchorShows(if m.Link? then m.text else "mailto:" + m.text, m.text, Show(p, rest[..m.pos]));
      }
      ScanShowsItsText(f, tail, Show(Show(p, rest[..m.pos]), TextOf(replaced)));
      FeedConcat(before + replaced, Scan(f, tail), p);
      FeedConcat(before, replaced, p);
      TextOfConcat(before + replaced, Scan(f, tail));
      TextOfConcat(before, replaced);
      ShowShow(p, rest[..m.pos], TextOf(replaced));
      ShowShow(p, rest[..m.pos] + TextOf(replaced), TextOf(Scan(f, tail)));
    }
  }

  lemma ScanEnds(f: Matcher, rest: string, p: Page)
    requires p.Page? && (rest == "" || f(rest).None? || f(rest).value.pos == |rest|)
    ensures Feed(Scan(f, rest), p) == Show(p, TextOf(Scan(f, rest)))
  {
    if rest == "" { ShowNothing(p); } else { CharsShow(rest, p); }
  }

  lemma CharsShow(text: string, p: Page)
    requires p.Page?
    ensures Feed([Chars(text)], p) == Show(p, text) && TextOf([Chars(text)]) == text
  {
    FeedOne(Chars(text), p);
    assert [Chars(text)][1..] == [];
    assert TextOf([]) == "" && text + "" == text;
  }

  lemma StillPage()
    ensures forall p: Page, text :: p.Page? ==> Show(p, text).Page?
    ensures forall p: Page, style :: p.Page? ==> Inside(p, style).Page?
  {
  }

  lemma MatchIsShorter(m: Match, rest: string)
    requires Found(m, rest) && WellShaped(m)
    ensures |rest[m.pos + |Matched(m)|..]| < |rest|
  {
    MatchedFits(m, rest);
  }

  lemma ReplacementIs(f: Matcher, rest: string, m: Match)
    requires Found(m, rest)
    ensures
      Replacement(f, rest, m)
      == match m
         case Link(_, text) => [OpenAnchor(text), Chars(text), Close(Anchor)]
         case Address(_, text) => [OpenAnchor("mailto:" + text), Chars(text), Close(Anchor)]
         case Emphasis(_, style, intro, inner, extro) =>
           EmphasisHead(style, intro) + Scan(f, Escape(inner)) + EmphasisTail(style, extro)
  {
  }

  lemma AnchorShows(href: string, text: string, p: Page)
    requires p.Page?
    ensures TextOf([OpenAnchor(href), Chars(text), Close(Anchor)]) == text
    ensures Feed([OpenAnchor(href), Chars(text), Close(Anchor)], p) == Show(p, text)
  {
    ReadThree(OpenAnchor(href), Chars(text), Close(Anchor), p);
    assert "" + (text + "") == text;
  }

  /** The page within an emphasised word, after its opening mark. */
  function Inside(p: Page, style: Style): Page
    requires p.Page?
  {
    Show(Push(p, Element(Styled(style))), [MarkOf(style)])
  }

  lemma EmphasisShows(style: Style, intro: string, inside: seq<Token>, extro: string, p: Page)
    requires p.Page?
    requires Feed(inside, Inside(Show(p, intro), style)) == Show(Inside(Show(p, intro), style), TextOf(inside))
    ensures
      var ts := EmphasisHead(style, intro) + inside + EmphasisTail(style, extro);
      var mark := [MarkOf(style)];
      && TextOf(ts) == intro + mark + TextOf(inside) + mark + extro
      && Feed(ts, p) == Show(p, TextOf(ts))
  {
    hide EmphasisHead, EmphasisTail, Feed, TextOf, MarkOf;
    var head, tail := EmphasisHead(style, intro), EmphasisTail(style, extro);
    var mark := [MarkOf(style)];
    HeadShows(style, intro, p);
    ShowShow(p, intro, mark);
    ShowShow(p, intro + mark, TextOf(inside));
    var q := Show(Inside(Show(p, intro), style), TextOf(inside));
    TailShows(style, extro, q, Show(p, intro + mark + TextOf(inside)));
    FeedConcat(head + inside, tail, p);
    FeedConcat(head, inside, p);
    TextOfConcat(head + inside, tail);
    TextOfConcat(head, inside);
    ShowShow(p, intro + mark + TextOf(inside), mark);
    ShowShow(p, intro + mark + TextOf(inside) + mark, extro);
    assert intro + mark + TextOf(inside) + (mark + extro) == intro + mark + TextOf(inside) + mark + extro;
  }

  lemma HeadShows(style: Style, intro: string, p: Page)
    requires p.Page?
    ensures TextOf(EmphasisHead(style, intro)) == intro + [MarkOf(style)]
    ensures Feed(EmphasisHead(style, intro), p) == Inside(Show(p, intro), style)
  {
    var mark := [MarkOf(style)];
    ReadFive(Chars(intro), OpenStyle(style), OpenSpan(MarkChar), Chars(mark), Close(Span), p);
    ShowInMarkSpan(Push(Show(p, intro), Element(Styled(style))), mark);
    assert intro + ("" + ("" + (mark + ""))) == intro + mark;
  }

  lemma TailShows(style: Style, extro: string, p: Page, outer: Page)
    requires outer.Page? && p == Push(outer, Element(Styled(style)))
    ensures TextOf(EmphasisTail(style, extro)) == [MarkOf(style)] + extro
    ensures Feed(EmphasisTail(style, extro), p) == Show(Show(outer, [MarkOf(style)]), extro)
  {
    var mark := [MarkOf(style)];
    ReadFive(OpenSpan(MarkChar), Chars(mark), Close(Span), Close(Styled(style)), Chars(extro), p);
    ShowInMarkSpan(p, mark);
    assert "" + (mark + ("" + ("" + extro))) == mark + extro;
  }

  lemma ShowInMarkSpan(p: Page, mark: string)
    requires p.Page?
    ensures Step(Close(Span), Show(Push(p, Region(MarkChar, None)), mark)) == Show(p, mark)
  {
  }

  // ----- the text that is shown -----

  /** No emphasised word holds a character that escaping has replaced. */
  predicate PlainEmphasis(f: Matcher, rest: string)
    decreases |rest|
  {
    rest == "" || f(rest).None? || f(rest).value.pos == |rest| ||
    var m := f(rest).value;
    (m.Emphasis? ==> Ordinary(m.inner)) && PlainEmphasis(f, rest[m.pos + |Matched(m)|..])
  }

  lemma {:induction false} OrdinaryIsPlain(f: Matcher, rest: string)
    requires Ordinary(rest)
    ensures PlainEmphasis(f, rest)
    decreases |rest|
  {
    hide Ordinary;
    if rest != "" && f(rest).Some? && f(rest).value.pos < |rest| {
      var m := f(rest).value;
      OrdinaryMatch(m, rest);
      OrdinaryIsPlain(f, rest[m.pos + |Matched(m)|..]);
    }
  }

  lemma OrdinaryMatch(m: Match, rest: string)
    requires Ordinary(rest) && Found(m, rest)
    ensures m.Emphasis? ==> Ordinary(m.inner)
    ensures Ordinary(rest[m.pos + |Matched(m)|..])
  {
    OrdinarySlice(rest, m.pos, m.pos + |Matched(m)|);
    OrdinarySlice(rest, m.pos + |Matched(m)|, |rest|);
    assert rest[m.pos + |Matched(m)|..|rest|] == rest[m.pos + |Matched(m)|..];
    if m.Emphasis? { InnerWithinMatch(m); }
  }

  lemma OrdinarySlice(s: string, i: nat, j: nat)
    requires Ordinary(s) && i <= j <= |s|
    ensures Ordinary(s[i..j])
  {
    assert forall c :: c in s[i..j] ==> c in s;
  }

  lemma InnerWithinMatch(m: Match)
    requires m.Emphasis?
    ensures forall c :: c in m.inner ==> c in Matched(m)
  {
    var k := |m.intro| + 1;
    assert Matched(m)[k..k + |m.inner|] == m.inner;
  }

  /** Dropping the tags gives back the scanned text exactly when no emphasised word had to be escaped;
      otherwise that word is escaped a second time and the text has grown. */
  lemma {:induction false} DroppingTags(f: Matcher, rest: string)
    ensures |rest| <= |TextOf(Scan(f, rest))|
    ensures |rest| == |TextOf(Scan(f, rest))| <==> PlainEmphasis(f, rest)
    ensures PlainEmphasis(f, rest) ==> TextOf(Scan(f, rest)) == rest
    decreases MarkCount(rest), |rest|
  {
    if rest == "" {
    } else if f(rest).None? || f(rest).value.pos == |rest| {
    } else {
      var m := f(rest).value;
      var tail := rest[m.pos + |Matched(m)|..];
      var before, replaced := [Chars(rest[..m.pos])], Replacement(f, rest, m);
      MatchParts(m, rest);
      assert Scan(f, rest) == before + replaced + Scan(f, tail);
      TextOfConcat(before + replaced, Scan(f, tail));
      TextOfConcat(before, replaced);
      ReplacementText(f, rest, m);
      DroppingTags(f, tail);
    }
  }

  lemma {:induction false} ReplacementText(f: Matcher, rest: string, m: Match)
    requires rest != "" && f(rest) == Some(m) && m.pos < |rest|
    ensures |Matched(m)| <= |TextOf(Replacement(f, rest, m))|
    ensures |Matched(m)| == |TextOf(Replacement(f, rest, m))| <==> (m.Emphasis? ==> Ordinary(m.inner))
    ensures (m.Emphasis? ==> Ordinary(m.inner)) ==> TextOf(Replacement(f, rest, m)) == Matched(m)
    decreases MarkCount(rest), |rest|, 0
  {
    if m.Emphasis? {
      InnerHasFewerMarks(m, rest);
      var inside := Scan(f, Escape(m.inner));
      ScanShowsItsText(f, Escape(m.inner), Inside(Show(BLANK, m.intro), m.style));
      EmphasisShows(m.style, m.intro, inside, m.extro, BLANK);
      EscapeGrows(m.inner);
      DroppingTags(f, Escape(m.inner));
      if Ordinary(m.inner) { OrdinaryIsPlain(f, m.inner); }
    } else {
      AnchorShows(if m.Link? then m.text else "mailto:" + m.text, m.text, BLANK);
    }
  }

  /** Even where the inside of an emphasised word is escaped again, the text that is shown is escaped text: no
      entity is cut in two or put together. */
  lemma {:induction false} ScanReads(f: Matcher, rest: string, pending: string)
    requires Reads(pending, rest).Some?
    ensures Reads(pending, TextOf(Scan(f, rest))) == Reads(pending, rest)
    decreases MarkCount(rest), |rest|, 1
  {
    hide Reads, Ordinary;
    if rest == "" {
    } else if f(rest).None? || f(rest).value.pos == |rest| {
      OneText(rest);
    } else {
      var m := f(rest).value;
      var before, replaced := rest[..m.pos], Replacement(f, rest, m);
      ScanSplits(f, rest, m);
      hide Scan, Replacement, TextOf, MarkCount;
      var matched, tail := Matched(m), rest[m.pos + |Matched(m)|..];
      ReadsConcat(pending, before + matched, tail);
      ReadsConcat(pending, before, matched);
      var p := Reads(pending, before).value;
      ReplacementReads(f, rest, m, p);
      ScanReads(f, tail, Reads(p, matched).value);
      ReadsConcat(pending, before + TextOf(replaced), TextOf(Scan(f, tail)));
      ReadsConcat(pending, before, TextOf(replaced));
    }
  }

  lemma OneText(text: string)
    ensures TextOf([Chars(text)]) == text
  {
    ReadOne(Chars(text), BLANK);
  }

  /** The text in front of a match, the match and the text behind it, and what is shown for each. */
  lemma ScanSplits(f: Matcher, rest: string, m: Match)
    requires rest != "" && f(rest) == Some(m) && m.pos < |rest|
    ensures m.pos + |Matched(m)| <= |rest|
    ensures
      var matched, tail := Matched(m), rest[m.pos + |Matched(m)|..];
      && rest == rest[..m.pos] + matched + tail
      && MarkCount(tail) <= MarkCount(rest) && |tail| < |rest|
      && TextOf(Scan(f, rest)) == rest[..m.pos] + TextOf(Replacement(f, rest, m)) + TextOf(Scan(f, tail))
  {
    MatchParts(m, rest);
    assert |Matched(m)| > 0;
    var before, replaced := [Chars(rest[..m.pos])], Replacement(f, rest, m);
    var behind := Scan(f, rest[m.pos + |Matched(m)|..]);
    assert Scan(f, rest) == before + replaced + behind;
    hide Matched, Replacement;
    TextOfConcat(before + replaced, behind);
    TextOfConcat(before, replaced);
    OneText(rest[..m.pos]);
  }

  /** What is shown for a match: the match itself, unless it is an emphasised word. */
  lemma ReplacementShows(f: Matcher, rest: string, m: Match)
    requires Found(m, rest)
    ensures !m.Emphasis? ==> TextOf(Replacement(f, rest, m)) == Matched(m)
    ensures m.Emphasis? ==>
      var mark := [MarkOf(m.style)];
      && Matched(m) == m.intro + mark + m.inner + mark + m.extro
      && TextOf(Replacement(f, rest, m)) == m.intro + mark + TextOf(Scan(f, Escape(m.inner))) + mark + m.extro
  {
    if m.Emphasis? {
      var inside := Scan(f, Escape(m.inner));
      ScanShowsItsText(f, Escape(m.inner), Inside(Show(BLANK, m.intro), m.style));
      EmphasisShows(m.style, m.intro, inside, m.extro, BLANK);
    } else {
      AnchorShows(if m.Link? then m.text else "mailto:" + m.text, m.text, BLANK);
    }
  }

  lemma {:induction false} ReplacementReads(f: Matcher, rest: string, m: Match, pending: string)
    requires Found(m, rest) && Reads(pending, Matched(m)).Some?
    ensures Reads(pending, TextOf(Replacement(f, rest, m))) == Reads(pending, Matched(m))
    decreases MarkCount(rest), |rest|, 0
  {
    hide *;
    ReplacementShows(f, rest, m);
    if m.Emphasis? {
      InnerHasFewerMarks(m, rest);
      EscapeReads(m.inner);
      ScanReads(f, Escape(m.inner), "");
      MarkIs(m.style);
      SameAround(pending, m.intro, MarkOf(m.style), m.inner, TextOf(Scan(f, Escape(m.inner))), m.extro);
    }
  }

  lemma MarkIs(style: Style)
    ensures IsMark(MarkOf(style))
  {
  }

  /** Between two marks one piece of escaped text can stand for another. */
  lemma SameAround(pending: string, intro: string, mark: char, inner: string, shown: string, extro: string)
    requires IsMark(mark) && Reads("", shown) == Some("")
    requires Reads(pending, intro + [mark] + inner + [mark] + extro).Some?
    ensures Reads(pending, intro + [mark] + shown + [mark] + extro)
         == Reads(pending, intro + [mark] + inner + [mark] + extro)
  {
    hide *;
    FiveParts(pending, intro, mark, inner, extro);
    FiveParts(pending, intro, mark, shown, extro);
    MarkIsAlone(Reads(pending, intro).value, mark);
    MarkIsAlone(Reads("", inner).value, mark);
  }

  lemma FiveParts(pending: string, a: string, mark: char, b: string, c: string)
    ensures
      var p := Reads(pending, a);
      var q := if p.None? then None else Reads(p.value, [mark]);
      var r := if q.None? then None else Reads(q.value, b);
      var t := if r.None? then None else Reads(r.value, [mark]);
      Reads(pending, a + [mark] + b + [mark] + c) == if t.None? then None else Reads(t.value, c)
  {
    hide *;
    ReadsConcat(pending, a + [mark] + b + [mark], c);
    ReadsConcat(pending, a + [mark] + b, [mark]);
    ReadsConcat(pending, a + [mark], b);
    ReadsConcat(pending, a, [mark]);
  }

  /** A length in which `&amp;` is no longer than the character it stands for. */
  function Weight(s: string): int { |s| - 4 * Count(s, 'a') }

  lemma WeightConcat(a: string, b: string)
    ensures Weight(a + b) == Weight(a) + Weight(b)
  {
    CountConcat(a, b, 'a');
  }

  lemma {:induction false} EscapeKeepsWeight(line: string)
    requires Inert(line)
    ensures Weight(Escape(line)) == Weight(line)
  {
    if line != "" {
      var c, rest := line[0], line[1..];
      assert c in line && forall x :: x in rest ==> x in line;
      EscapeKeepsWeight(rest);
      EscapedWeight(c);
      assert Escape(line) == EscapeChar(c) + Escape(rest) && line == [c] + rest;
      hide *;
      WeightConcat(EscapeChar(c), Escape(rest));
      WeightConcat([c], rest);
    }
  }

  lemma EscapedWeight(c: char)
    requires c != '<' && c != '>' && c != '"'
    ensures Weight(EscapeChar(c)) == Weight([c])
  {
    assert [c][1..] == "" && Count([c], 'a') == if c == 'a' then 1 else 0;
    if c == '&' {
      var e := "&amp;";
      assert e == "&" + "a" + "mp;" && Count("&", 'a') == 0;
      CountConcat("&" + "a", "mp;", 'a');
      CountConcat("&", "a", 'a');
      NoneCounted("mp;");
      assert "a"[1..] == "" && Count("a", 'a') == 1;
      assert "&"[1..] == "";
    }
  }

  lemma NoneCounted(s: string)
    requires s == "mp;"
    ensures Count(s, 'a') == 0
  {
    assert s[1..] == "p;" && "p;"[1..] == ";" && ";"[1..] == "";
  }

  /** However often a word is escaped, each time one more `a` is shown for four characters more. */
  lemma {:induction false} ScanKeepsWeight(f: Matcher, rest: string)
    requires Inert(rest)
    ensures Weight(TextOf(Scan(f, rest))) == Weight(rest)
    decreases MarkCount(rest), |rest|, 1
  {
    hide *;
    if rest == "" || f(rest).None? || f(rest).value.pos == |rest| {
      ScanIsText(f, rest);
    } else {
      var m := f(rest).value;
      MatchHere(f, rest);
      ScanSplits(f, rest, m);
      var before, replaced := rest[..m.pos], Replacement(f, rest, m);
      var matched, tail := Matched(m), rest[m.pos + |Matched(m)|..];
      InertParts(before, matched, tail);
      WeightConcat(before + matched, tail);
      WeightConcat(before, matched);
      ReplacementKeepsWeight(f, rest, m);
      ScanKeepsWeight(f, tail);
      WeightConcat(before + TextOf(replaced), TextOf(Scan(f, tail)));
      WeightConcat(before, TextOf(replaced));
    }
  }

  lemma ScanIsText(f: Matcher, rest: string)
    requires rest == "" || f(rest).None? || f(rest).value.pos == |rest|
    ensures TextOf(Scan(f, rest)) == rest
  {
    if rest != "" { OneText(rest); }
  }

  lemma {:induction false} ReplacementKeepsWeight(f: Matcher, rest: string, m: Match)
    requires Found(m, rest) && Inert(Matched(m))
    ensures Weight(TextOf(Replacement(f, rest, m))) == Weight(Matched(m))
    decreases MarkCount(rest), |rest|, 0
  {
    hide *;
    ReplacementShows(f, rest, m);
    if m.Emphasis? {
      MatchedIsInert(m);
      InnerHasFewerMarks(m, rest);
      EscapeKeepsWeight(m.inner);
      EscapeIsInert(m.inner);
      ScanKeepsWeight(f, Escape(m.inner));
      var mark := [MarkOf(m.style)];
      WeightOfFive(m.intro, mark, m.inner, m.extro);
      WeightOfFive(m.intro, mark, TextOf(Scan(f, Escape(m.inner))), m.extro);
    }
  }

  lemma WeightOfFive(a: string, mark: string, b: string, z: string)
    ensures Weight(a + mark + b + mark + z) == Weight(a) + Weight(mark) + Weight(b) + Weight(mark) + Weight(z)
  {
    hide *;
    WeightConcat(a + mark + b + mark, z);
    WeightConcat(a + mark + b, mark);
    WeightConcat(a + mark, b);
    WeightConcat(a, mark);
  }

  /** The reader sees the line as it was written exactly when no emphasised word had to be escaped again. */
  lemma ReaderSeesTheLine(f: Matcher, line: string)
    ensures TextOf(Htmlify(f, line)) == Escape(line) <==> PlainEmphasis(f, Escape(line))
    ensures Unescape(TextOf(Htmlify(f, line))) == line <==> PlainEmphasis(f, Escape(line))
    ensures Ordinary(line) ==> TextOf(Htmlify(f, line)) == line
  {
    hide Scan, TextOf, Unescape, Reads, PlainEmphasis;
    DroppingTags(f, Escape(line));
    UnescapeEscape(line);
    EscapeReads(line);
    ScanReads(f, Escape(line), "");
    EscapeUnescape(TextOf(Htmlify(f, line)));
    EscapeGrows(line);
    if Ordinary(line) { OrdinaryIsPlain(f, line); }
  }

  function BoldAmpersand(rest: string): Option<Match> {
    if rest == "*&amp;*" then Some(Emphasis(0, Bold, "", "&amp;", "")) else None
  }

  const BOLD_AMPERSAND: Matcher := (BoldAmpersandConforms(); BoldAmpersand)

  /** A bold ampersand is escaped twice, so the reader does not get the line back. */
  lemma EscapedTwice(line: string)
    requires line == "*&*"
    ensures TextOf(Htmlify(BOLD_AMPERSAND, line)) != Escape(line)
    ensures Unescape(TextOf(Htmlify(BOLD_AMPERSAND, line))) != line
  {
    hide *;
    EscapedIs(line);
    BoldAmpersandFound();
    var m := Emphasis(0, Bold, "", "&amp;", "");
    assert m.inner[0] == '&';
    NotPlain(BOLD_AMPERSAND, Escape(line), m);
    ReaderSeesTheLine(BOLD_AMPERSAND, line);
  }

  lemma EscapedIs(line: string)
    requires line == "*&*"
    ensures Escape(line) == "*&amp;*"
  {
    EscapeConcat("*&", "*");
    EscapeConcat("*", "&");
    assert line == "*" + "&" + "*";
    assert Escape("*") == "*" + Escape("") && Escape("&") == "&amp;" + Escape("");
  }

  lemma NotPlain(f: Matcher, rest: string, m: Match)
    requires rest != "" && f(rest) == Some(m) && m.pos < |rest|
    requires m.Emphasis? && '&' in m.inner
    ensures !PlainEmphasis(f, rest)
  {
  }

  lemma BoldAmpersandConforms()
    ensures Conforms(BoldAmpersand)
  {
    var m := Emphasis(0, Bold, "", "&amp;", "");
    assert Matched(m) == "*&amp;*";
  }

  lemma BoldAmpersandFound()
    ensures BOLD_AMPERSAND("*&amp;*") == Some(Emphasis(0, Bold, "", "&amp;", ""))
  {
  }

  // ----- no injection -----

  /** Neither text nor a link target can end or start a tag. */
  predicate Contained(t: Token) {
    (t.Chars? ==> Inert(t.text)) && (t.OpenAnchor? ==> Inert(t.href))
  }

  predicate AllContained(ts: seq<Token>) {
    forall t :: t in ts ==> Contained(t)
  }

  lemma {:induction false} ScanIsContained(f: Matcher, rest: string)
    requires Inert(rest)
    ensures AllContained(Scan(f, rest))
    decreases MarkCount(rest), |rest|, 1
  {
    if rest != "" && f(rest).Some? && f(rest).value.pos < |rest| {
      var m := f(rest).value;
      var before, matched, tail := rest[..m.pos], Matched(m), rest[m.pos + |Matched(m)|..];
      MatchParts(m, rest);
      InertParts(before, matched, tail);
      ReplacementIsContained(f, rest, m);
      ScanIsContained(f, tail);
      assert Scan(f, rest) == [Chars(before)] + Replacement(f, rest, m) + Scan(f, tail);
    }
  }

  lemma {:induction false} ReplacementIsContained(f: Matcher, rest: string, m: Match)
    requires Found(m, rest) && Inert(Matched(m))
    ensures AllContained(Replacement(f, rest, m))
    decreases MarkCount(rest), |rest|, 0
  {
    hide *;
    ReplacementIs(f, rest, m);
    MatchedIsInert(m);
    if m.Emphasis? {
      InnerHasFewerMarks(m, rest);
      EscapeIsInert(m.inner);
      ScanIsContained(f, Escape(m.inner));
      EmphasisIsContained(m.style, m.intro, Scan(f, Escape(m.inner)), m.extro);
    } else {
      AnchorIsContained(m.text);
    }
  }

  lemma MatchedIsInert(m: Match)
    requires Inert(Matched(m))
    ensures if m.Emphasis? then Inert(m.intro) && Inert(m.inner) && Inert(m.extro) else Inert(m.text)
  {
    hide Inert;
    if m.Emphasis? {
      var mark := [MarkOf(m.style)];
      assert Matched(m) == m.intro + mark + m.inner + mark + m.extro;
      InertParts(m.intro + mark + m.inner, mark, m.extro);
      InertParts(m.intro, mark, m.inner);
    }
  }

  lemma EmphasisIsContained(style: Style, intro: string, inside: seq<Token>, extro: string)
    requires Inert(intro) && Inert(extro) && AllContained(inside)
    ensures AllContained(EmphasisHead(style, intro) + inside + EmphasisTail(style, extro))
  {
    HeadIsContained(style, intro);
    TailIsContained(style, extro);
    hide EmphasisHead, EmphasisTail, Contained, Inert;
  }

  lemma HeadIsContained(style: Style, intro: string)
    requires Inert(intro)
    ensures AllContained(EmphasisHead(style, intro))
  {
  }

  lemma TailIsContained(style: Style, extro: string)
    requires Inert(extro)
    ensures AllContained(EmphasisTail(style, extro))
  {
  }

  lemma AnchorIsContained(text: string)
    requires Inert(text)
    ensures AllContained([OpenAnchor(text), Chars(text), Close(Anchor)])
    ensures AllContained([OpenAnchor("mailto:" + text), Chars(text), Close(Anchor)])
  {
    assert Inert("mailto:" + text);
    hide Inert;
  }

  lemma InertParts(a: string, b: string, c: string)
    ensures Inert(a + b + c) <==> Inert(a) && Inert(b) && Inert(c)
  {
    assert forall x :: x in a + b + c <==> x in a || x in b || x in c;
  }

  lemma HtmlifyIsContained(f: Matcher, line: string)
    ensures AllContained(Htmlify(f, line))
  {
    EscapeIsInert(line);
    ScanIsContained(f, Escape(line));
  }
}
