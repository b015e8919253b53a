/** Escaping of one piece of plain text and its links, addresses and emphasis. */
module LineMarkup {
  import opened Text
  import opened Markup

  // ----- escaping -----

  function EscapeChar(c: char): string {
    match c
    case '&' => "&amp;"
    case '<' => "&lt;"
    case '>' => "&gt;"
    case '"' => "&quot;"
    case _ => [c]
  }

  function Escape(line: string): string {
    if line == "" then "" else EscapeChar(line[0]) + Escape(line[1..])
  }

  predicate IsMark(c: char) { c == '*' || c == '/' || c == '_' }

  function MarkCount(s: string): nat {
    if s == "" then 0 else (if IsMark(s[0]) then 1 else 0) + MarkCount(s[1..])
  }

  /** No character of an HTML tag or attribute delimiter. */
  predicate Inert(s: string) {
    forall c :: c in s ==> c != '<' && c != '>' && c != '"'
  }

  /** No character that escaping changes. */
  predicate Ordinary(s: string) {
    forall c :: c in s ==> c != '&' && c != '<' && c != '>' && c != '"'
  }

  // ----- the pattern matcher -----

  /** What the pattern can capture, leftmost match at `pos`: a link, a mail address, or an emphasised
      word `inner` between two mark characters, with at most one character captured on either side. */
  datatype Match =
    | Link(pos: nat, text: string)
    | Address(pos: nat, text: string)
    | Emphasis(pos: nat, style: Style, intro: string, inner: string, extro: string)

  function MarkOf(style: Style): char {
    match style
    case Bold => '*'
    case Italic => '/'
    case Underline => '_'
  }

  function Matched(m: Match): string {
    match m
    case Link(_, text) => text
    case Address(_, text) => text
    case Emphasis(_, style, intro, inner, extro) => intro + [MarkOf(style)] + inner + [MarkOf(style)] + extro
  }

  predicate Found(m: Match, rest: string) {
    m.pos + |Matched(m)| <= |rest| && rest[m.pos..m.pos + |Matched(m)|] == Matched(m)
  }

  predicate WellShaped(m: Match) {
    match m
    case Link(_, text) => text != "" && '\n' !in text
    case Address(_, text) => text != "" && '\n' !in text
    case Emphasis(_, style, intro, inner, extro) =>
      && |intro| <= 1 && |extro| <= 1
      && inner != "" && inner[0] != MarkOf(style) && forall c :: c in inner ==> !IsSpace(c)
  }

  ghost predicate Conforms(f: string -> Option<Match>) {
    forall rest :: f(rest).Some? ==> Found(f(rest).value, rest) && WellShaped(f(rest).value)
  }

  const NEVER: string -> Option<Match> := rest => None

  /** Any matcher of the pattern's shape. The search is anchored at its start offset, so it sees only
      the part of the line that is still to be scanned. */
  type Matcher = f: string -> Option<Match> | Conforms(f) ghost witness NEVER

  // ----- facts about escaping and counting -----

  lemma {:induction false} MarkCountConcat(a: string, b: string)
    ensures MarkCount(a + b) == MarkCount(a) + MarkCount(b)
  {
    if a == "" {
      assert a + b == b;
    } else {
      assert (a + b)[1..] == a[1..] + b;
      MarkCountConcat(a[1..], b);
    }
  }

  lemma EscapeCharMarks(c: char)
    ensures MarkCount(EscapeChar(c)) == MarkCount([c])
  {
    var e := EscapeChar(c);
    if c == '&' || c == '<' || c == '>' || c == '"' {
      assert forall i :: 0 <= i < |e| ==> !IsMark(e[i]);
      NoMarks(e);
    }
  }

  lemma {:induction false} NoMarks(s: string)
    requires forall i :: 0 <= i < |s| ==> !IsMark(s[i])
    ensures MarkCount(s) == 0
  {
    if s != "" { NoMarks(s[1..]); }
  }

  /** Escaping lengthens a line but never adds a mark character. */
  lemma {:induction false} EscapeKeepsMarks(line: string)
    ensures MarkCount(Escape(line)) == MarkCount(line)
  {
    if line != "" {
      EscapeCharMarks(line[0]);
      EscapeKeepsMarks(line[1..]);
      MarkCountConcat(EscapeChar(line[0]), Escape(line[1..]));
      assert [line[0]][1..] == "";
    }
  }

  lemma {:induction false} EscapeIsInert(line: string)
    ensures Inert(Escape(line))
  {
    if line != "" {
      EscapeIsInert(line[1..]);
      assert Inert(EscapeChar(line[0]));
    }
  }

  lemma {:induction false} EscapeConcat(a: string, b: string)
    ensures Escape(a + b) == Escape(a) + Escape(b)
  {
    if a == "" {
      assert a + b == b;
    } else {
      assert (a + b)[1..] == a[1..] + b;
      EscapeConcat(a[1..], b);
    }
  }

  lemma EscapeCharGrows(c: char)
    ensures |EscapeChar(c)| >= 1
    ensures |EscapeChar(c)| == 1 <==> c != '&' && c != '<' && c != '>' && c != '"'
    ensures |EscapeChar(c)| == 1 ==> EscapeChar(c) == [c]
  {
  }

  lemma {:induction false} EscapeGrows(line: string)
    ensures |line| <= |Escape(line)|
    ensures |line| == |Escape(line)| <==> Ordinary(line)
    ensures Ordinary(line) ==> Escape(line) == line
  {
    if line != "" {
      EscapeGrows(line[1..]);
      assert forall c :: c in line <==> c == line[0] || c in line[1..];
      EscapeCharGrows(line[0]);
      if Ordinary(line) {
        assert line[0] in line && Ordinary(line[1..]);
      }
    }
  }

  /** The part of a scanned text around a match. */
  lemma MatchParts(m: Match, rest: string)
    requires Found(m, rest)
    ensures rest == rest[..m.pos] + Matched(m) + rest[m.pos + |Matched(m)|..]
    ensures
      var behind := rest[m.pos + |Matched(m)|..];
      MarkCount(rest) == MarkCount(rest[..m.pos]) + MarkCount(Matched(m)) + MarkCount(behind)
  {
    var head, tail := rest[..m.pos], rest[m.pos + |Matched(m)|..];
    assert rest == head + Matched(m) + tail;
    MarkCountConcat(head + Matched(m), tail);
    MarkCountConcat(head, Matched(m));
  }

  /** The text handed to the recursive call holds at least two mark characters less, escaped or not. */
  lemma InnerHasFewerMarks(m: Match, rest: string)
    requires Found(m, rest) && m.Emphasis?
    ensures MarkCount(Escape(m.inner)) + 2 <= MarkCount(rest)
  {
    MatchParts(m, rest);
    EscapeKeepsMarks(m.inner);
    var mark := [MarkOf(m.style)];
    assert mark[1..] == "";
    assert Matched(m) == m.intro + mark + m.inner + mark + m.extro;
    MarkCountConcat(m.intro + mark + m.inner + mark, m.extro);
    MarkCountConcat(m.intro + mark + m.inner, mark);
    MarkCountConcat(m.intro + mark, m.inner);
    MarkCountConcat(m.intro, mark);
  }

  // ----- the markup of one line -----

  function Htmlify(f: Matcher, line: string): seq<Token> {
    Scan(f, Escape(line))
  }

  /** The markup of the escaped text that is still to be scanned. */
  function Scan(f: Matcher, rest: string): seq<Token>
    decreases MarkCount(rest), |rest|, 1
  {
    if rest == "" then [] else
    match f(rest)
    case None => [Chars(rest)]
    case Some(m) =>
      if m.pos == |rest| then [Chars(rest)] else
      MatchParts(m, rest);
      [Chars(rest[..m.pos])] + Replacement(f, rest, m) + Scan(f, rest[m.pos + |Matched(m)|..])
  }

  function Replacement(f: Matcher, ghost rest: string, m: Match): seq<Token>
    requires Found(m, rest)
    decreases MarkCount(rest), |rest|, 0
  {
    match m
    case Link(_, text) => [OpenAnchor(text), Chars(text), Close(Anchor)]
    case Address(_, text) => [OpenAnchor("mailto:" + text), Chars(text), Close(Anchor)]
    case Emphasis(_, style, intro, inner, extro) =>
      InnerHasFewerMarks(m, rest);
      EmphasisHead(style, intro) + Scan(f, Escape(inner)) + EmphasisTail(style, extro)
  }

  function EmphasisHead(style: Style, intro: string): seq<Token> {
    [Chars(intro), OpenStyle(style), OpenSpan(MarkChar), Chars([MarkOf(style)]), Close(Span)]
  }

  function EmphasisTail(style: Style, extro: string): seq<Token> {
    [OpenSpan(MarkChar), Chars([MarkOf(style)]), Close(Span), Close(Styled(style)), Chars(extro)]
  }

  /** The line is always the finished markup followed by escaped text that is still to be scanned. */
  ghost predicate InStep(f: Matcher, whole: seq<Token>, marks: nat, line: string, start: int,
                         done: seq<Token>, rest: string) {
    && line == Render(done) + rest && start == |Render(done)|
    && whole == done + Scan(f, rest)
    && MarkCount(rest) <= marks
  }

  /** Each match is replaced in place and the scan goes on behind the replacement. */
  method HtmlifySingleLine(f: Matcher, input: string) returns (line: string)
    ensures line == Render(Htmlify(f, input))
    decreases MarkCount(input)
  {
    hide *;
    line := Escape(input);
    ghost var whole, done, rest := Htmlify(f, input), [], line;
    StartScan(f, input);
    var start := 0;
    while start < |line|
      invariant InStep(f, whole, MarkCount(input), line, start, done, rest)
      decreases |line| - start
    {
      StepIs(f, whole, MarkCount(input), line, start, done, rest);
      var ahead := line[start..];
      var found := f(ahead);
      if found.None? || found.value.pos == |ahead| {
        StopScan(f, whole, MarkCount(input), line, start, done, rest);
        return;
      }
      MatchHere(f, ahead);
      var replacement := Replace(f, found.value, ahead);
      var pos, end := start + found.value.pos, start + found.value.pos + |Matched(found.value)|;
      var front, behind := line[..pos] + replacement, line[end..];
      done, rest := Turn(f, whole, MarkCount(input), line, start, done, rest, found.value, front, behind);
      line, start := front + behind, |front|;
    }
    StepIs(f, whole, MarkCount(input), line, start, done, rest);
    StopScan(f, whole, MarkCount(input), line, start, done, rest);
  }

  lemma StepIs(f: Matcher, whole: seq<Token>, marks: nat, line: string, start: int, done: seq<Token>, rest: string)
    requires InStep(f, whole, marks, line, start, done, rest)
    ensures 0 <= start <= |line| && line[start..] == rest && MarkCount(rest) <= marks
  {
    hide Scan, Render, MarkCount;
  }

  lemma ScanUnfolds(f: Matcher, rest: string, m: Match)
    requires rest != "" && f(rest) == Some(m) && m.pos < |rest|
    requires Found(m, rest) && m.pos + |Matched(m)| <= |rest|
    ensures
      Scan(f, rest) == [Chars(rest[..m.pos])] + Replacement(f, rest, m) + Scan(f, rest[m.pos + |Matched(m)|..])
  {
    hide Replacement, Matched, Found, WellShaped, Conforms, MarkCount, IsMark, Inert, Ordinary, Escape, EscapeChar,
         MarkOf, EmphasisHead, EmphasisTail;
  }

  lemma SpellChars(text: string)
    ensures Spell(Chars(text)) == text
  {
  }

  lemma MatchHere(f: Matcher, rest: string)
    requires f(rest).Some? && rest != ""
    ensures
      var m := f(rest).value;
      m.pos != |rest| ==> m.pos < |rest| && Found(m, rest) && WellShaped(m) && m.pos + |Matched(m)| <= |rest|
  {
  }

  lemma StartScan(f: Matcher, input: string)
    ensures InStep(f, Htmlify(f, input), MarkCount(input), Escape(input), 0, [], Escape(input))
  {
    EscapeKeepsMarks(input);
    assert [] + Htmlify(f, input) == Htmlify(f, input) && "" + Escape(input) == Escape(input);
  }

  lemma StopScan(f: Matcher, whole: seq<Token>, marks: nat, line: string, start: int, done: seq<Token>, rest: string)
    requires InStep(f, whole, marks, line, start, done, rest)
    requires rest == "" || f(rest).None? || f(rest).value.pos == |rest|
    ensures line == Render(whole)
  {
    if rest == "" {
      assert done + Scan(f, rest) == done;
    } else {
      RenderSnoc(done, Chars(rest));
    }
  }

  /** One turn of the loop. */
  lemma Turn(f: Matcher, whole: seq<Token>, marks: nat, line: string, start: int, done: seq<Token>, rest: string,
             m: Match, front: string, behind: string)
    returns (more: seq<Token>, tail: string)
    requires InStep(f, whole, marks, line, start, done, rest)
    requires rest != "" && f(rest) == Some(m) && m.pos < |rest|
    requires front == line[..start + m.pos] + Render(Replacement(f, rest, m))
    requires behind == line[start + m.pos + |Matched(m)|..]
    ensures InStep(f, whole, marks, front + behind, |front|, more, tail) && |behind| < |line| - start
  {
    hide Matched, Scan, Replacement, Render, MarkCount, Found, WellShaped;
    Splice(line, Render(done), rest, m, Render(Replacement(f, rest, m)), front, behind);
    more, tail := Advance(f, rest, m, done);
    assert front == Render(more) && behind == tail;
  }

  lemma Advance(f: Matcher, rest: string, m: Match, done: seq<Token>) returns (more: seq<Token>, tail: string)
    requires rest != "" && f(rest) == Some(m) && m.pos < |rest|
    ensures tail == rest[m.pos + |Matched(m)|..] && MarkCount(tail) <= MarkCount(rest)
    ensures Render(more) == Render(done) + rest[..m.pos] + Render(Replacement(f, rest, m))
    ensures more + Scan(f, tail) == done + Scan(f, rest)
  {
    hide *;
    MatchHere(f, rest);
    ScanUnfolds(f, rest, m);
    MatchParts(m, rest);
    tail := rest[m.pos + |Matched(m)|..];
    var before, replaced := [Chars(rest[..m.pos])], Replacement(f, rest, m);
    more := done + before + replaced;
    SpellChars(rest[..m.pos]);
    RenderConcat(done + before, replaced);
    RenderSnoc(done, before[0]);
    Regroup(done, before, replaced, Scan(f, tail));
  }

  lemma Regroup(a: seq<Token>, b: seq<Token>, c: seq<Token>, d: seq<Token>)
    ensures a + (b + c + d) == a + b + c + d
  {
  }

  /** The same turn on the string: the text around the match is cut out unchanged. */
  lemma Splice(line: string, done: string, rest: string, m: Match, replacement: string, front: string, behind: string)
    requires line == done + rest && Found(m, rest) && WellShaped(m)
    requires front == line[..|done| + m.pos] + replacement
    requires behind == line[|done| + m.pos + |Matched(m)|..]
    ensures front == done + rest[..m.pos] + replacement
    ensures behind == rest[m.pos + |Matched(m)|..] && |behind| < |line| - |done|
  {
    MatchedFits(m, rest);
    hide Matched, Found, WellShaped;
    assert line[..|done| + m.pos] == done + rest[..m.pos];
  }

  lemma MatchedFits(m: Match, rest: string)
    requires Found(m, rest) && WellShaped(m)
    ensures |Matched(m)| > 0 && m.pos + |Matched(m)| <= |rest|
  {
  }

  /** The written form of an emphasised word, by the character it is marked with. */
  function Emphasised(mark: char, intro: string, inside: string, extro: string): string {
    var shown := "<span class=\"markup\">" + [mark] + "</span>";
    if mark == '*' then intro + "<b>" + shown + inside + shown + "</b>" + extro
    else if mark == '/' then intro + "<i>" + shown + inside + shown + "</i>" + extro
    else intro + "<u>" + shown + inside + shown + "</u>" + extro
  }

  lemma EmphasisedIs(style: Style, intro: string, inside: string, extro: string)
    ensures Emphasised(MarkOf(style), intro, inside, extro)
         == intro + ("<" + StyleName(style) + ">") + OPEN_MARK + [MarkOf(style)] + "</span>" + inside
            + OPEN_MARK + [MarkOf(style)] + "</span>" + ("</" + StyleName(style) + ">") + extro
  {
    StyleTags(style);
    SpansGroup(intro + ("<" + StyleName(style) + ">"), OPEN_MARK, [MarkOf(style)], "</span>", inside,
               "</" + StyleName(style) + ">", extro);
    hide StyleName;
  }

  lemma StyleTags(style: Style)
    ensures "<" + StyleName(style) + ">" == match style case Bold => "<b>" case Italic => "<i>" case Underline => "<u>"
    ensures "</" + StyleName(style) + ">"
         == match style case Bold => "</b>" case Italic => "</i>" case Underline => "</u>"
  {
  }

  lemma SpansGroup(a: string, x: string, y: string, z: string, inside: string, b: string, c: string)
    ensures a + x + y + z + inside + x + y + z + b + c == a + (x + y + z) + inside + (x + y + z) + b + c
  {
    assert a + x + y + z == a + (x + y + z);
    var front := a + (x + y + z) + inside;
    assert front + x + y + z == front + (x + y + z);
  }

  lemma MarkStands(m: Match, rest: string)
    requires Found(m, rest) && m.Emphasis?
    ensures m.pos + |m.intro| < |rest| && rest[m.pos + |m.intro|] == MarkOf(m.style)
  {
    var matched := Matched(m);
    assert matched[|m.intro|] == MarkOf(m.style);
    assert rest[m.pos..m.pos + |matched|][|m.intro|] == rest[m.pos + |m.intro|];
  }

  lemma LinkWritten(f: Matcher, m: Match, rest: string)
    requires Found(m, rest) && !m.Emphasis?
    ensures
      var target := if m.Link? then m.text else "mailto:" + m.text;
      var written := "<a href=\"" + target + "\">" + m.text + "</a>";
      && Render(Replacement(f, rest, m)) == written
      && (m.Address? ==> written == "<a href=\"mailto:" + m.text + "\">" + m.text + "</a>")
  {
    hide Render, Found;
    RenderAnchor(if m.Link? then m.text else "mailto:" + m.text, m.text);
    assert "<a href=\"" + ("mailto:" + m.text) == "<a href=\"mailto:" + m.text;
  }

  lemma EmphasisReplaced(f: Matcher, m: Match, rest: string)
    requires Found(m, rest) && WellShaped(m) && m.Emphasis?
    ensures Replacement(f, rest, m)
         == EmphasisHead(m.style, m.intro) + Htmlify(f, m.inner) + EmphasisTail(m.style, m.extro)
  {
  }

  lemma EmphasisWritten(f: Matcher, m: Match, rest: string)
    requires Found(m, rest) && WellShaped(m) && m.Emphasis?
    ensures var inside, element, mark := Render(Htmlify(f, m.inner)), StyleName(m.style), [MarkOf(m.style)];
      var written := m.intro + ("<" + element + ">") + OPEN_MARK + mark + "</span>" + inside
        + OPEN_MARK + mark + "</span>" + ("</" + element + ">") + m.extro;
      && written == Render(Replacement(f, rest, m))
      && m.pos + |m.intro| < |rest|
      && written == Emphasised(rest[m.pos + |m.intro|], m.intro, inside, m.extro)
  {
    hide Render, Htmlify, StyleName, MarkOf, Emphasised, Found, WellShaped, OPEN_MARK;
    RenderEmphasis(m.style, m.intro, Htmlify(f, m.inner), m.extro);
    EmphasisReplaced(f, m, rest);
    MarkStands(m, rest);
    EmphasisedIs(m.style, m.intro, Render(Htmlify(f, m.inner)), m.extro);
  }

  /** The replacement text of one match; the inside of an emphasised word is formatted in its turn. */
  method Replace(f: Matcher, m: Match, rest: string) returns (replacement: string)
    requires Found(m, rest) && WellShaped(m)
    ensures replacement == Render(Replacement(f, rest, m))
    ensures m.Link? ==> replacement == "<a href=\"" + m.text + "\">" + m.text + "</a>"
    ensures m.Address? ==> replacement == "<a href=\"mailto:" + m.text + "\">" + m.text + "</a>"
    ensures m.Emphasis?
        ==> replacement == Emphasised(rest[m.pos + |m.intro|], m.intro, Render(Htmlify(f, m.inner)), m.extro)
    decreases MarkCount(rest), 0
  {
    hide Render, Found, WellShaped, Inert, Conforms, Emphasised, Escape, Scan, MarkCount, StyleName, MarkOf, OPEN_MARK;
    match m {
      case Link(_, text) =>
        replacement := "<a href=\"" + text + "\">" + text + "</a>";
        LinkWritten(f, m, rest);
      case Address(_, text) =>
        replacement := "<a href=\"" + ("mailto:" + text) + "\">" + text + "</a>";
        LinkWritten(f, m, rest);
      case Emphasis(_, style, intro, inner, extro) =>
        InnerHasFewerMarks(m, rest);
        EscapeKeepsMarks(inner);
        var element := StyleName(style);
        var formatted := HtmlifySingleLine(f, inner);
        replacement := intro + ("<" + element + ">") + OPEN_MARK + [MarkOf(style)] + "</span>" + formatted
          + OPEN_MARK + [MarkOf(style)] + "</span>" + ("</" + element + ">") + extro;
        EmphasisWritten(f, m, rest);
    }
  }

  const OPEN_MARK := "<span class=\"markup\">"

  lemma RenderSnoc(ts: seq<Token>, t: Token)
    ensures Render(ts + [t]) == Render(ts) + Spell(t)
  {
    RenderConcat(ts, [t]);
    assert [t][1..] == [];
    assert Render([t]) == Spell(t) + "" == Spell(t);
  }

  lemma RenderAnchor(href: string, text: string)
    ensures Render([OpenAnchor(href), Chars(text), Close(Anchor)]) == "<a href=\"" + href + "\">" + text + "</a>"
  {
    var a, b, c := OpenAnchor(href), Chars(text), Close(Anchor);
    RenderSnoc([], a);
    RenderSnoc([a], b);
    RenderSnoc([a, b], c);
    assert [] + [a] == [a] && [a] + [b] == [a, b] && [a, b] + [c] == [a, b, c];
    assert "" + Spell(a) == Spell(a);
    assert Spell(c) == "</a>";
  }

  lemma RenderFive(ts: seq<Token>, a: Token, b: Token, c: Token, d: Token, e: Token)
    ensures Render(ts + [a, b, c, d, e]) == Render(ts) + Spell(a) + Spell(b) + Spell(c) + Spell(d) + Spell(e)
  {
    hide *;
    FiveSnocs(ts, a, b, c, d, e);
    RenderSnoc(ts, a);
    RenderSnoc(ts + [a], b);
    RenderSnoc(ts + [a] + [b], c);
    RenderSnoc(ts + [a] + [b] + [c], d);
    RenderSnoc(ts + [a] + [b] + [c] + [d], e);
  }

  lemma FiveSnocs(ts: seq<Token>, a: Token, b: Token, c: Token, d: Token, e: Token)
    ensures ts + [a] + [b] + [c] + [d] + [e] == ts + [a, b, c, d, e]
  {
  }

  lemma RenderEmphasis(style: Style, intro: string, inside: seq<Token>, extro: string)
    ensures Render(EmphasisHead(style, intro) + inside + EmphasisTail(style, extro))
         == intro + ("<" + StyleName(style) + ">") + OPEN_MARK + [MarkOf(style)] + "</span>" + Render(inside)
            + OPEN_MARK + [MarkOf(style)] + "</span>" + ("</" + StyleName(style) + ">") + extro
  {
    var head := EmphasisHead(style, intro);
    var c := Chars([MarkOf(style)]);
    RenderConcat(head, inside);
    RenderFive([], Chars(intro), OpenStyle(style), OpenSpan(MarkChar), c, Close(Span));
    assert [] + head == head && "" + intro == intro;
    RenderFive(head + inside, OpenSpan(MarkChar), c, Close(Span), Close(Styled(style)), Chars(extro));
    SpellMark(style);
  }

  lemma SpellMark(style: Style)
    ensures Spell(OpenSpan(MarkChar)) == OPEN_MARK && Spell(Close(Span)) == "</span>"
    ensures Spell(OpenStyle(style)) == "<" + StyleName(style) + ">"
    ensures Spell(Close(Styled(style))) == "</" + StyleName(style) + ">"
  {
    assert Spell(OpenSpan(MarkChar)) == OPEN_MARK;
    assert Spell(Close(Span)) == "</span>";
  }
}
