/** A reader of the written string: its tags are known by their spelling alone. */
module HtmlReader {
  import opened Text
  import opened Markup
  import opened LineMarkup
  import opened LineMarkupFacts
  import opened MarkupLexing

  // ----- reading one tag -----

  function Digit(c: char): Option<nat> {
    if '0' <= c <= '9' then Some(c as int - '0' as int) else None
  }

  function ReadNumber(s: string): Option<nat> {
    if s == "" then None
    else
      var front, last := s[..|s| - 1], Digit(s[|s| - 1]);
      if last.None? then None
      else if front == "" then last
      else if ReadNumber(front).None? then None
      else Some(10 * ReadNumber(front).value + last.value)
  }

  /** Where the attribute value at the start of a string ends. */
  function ValueEnd(s: string): (n: nat)
    ensures n <= |s| && '"' !in s[..n] && (n < |s| ==> s[n] == '"')
  {
    if s == "" || s[0] == '"' then 0 else 1 + ValueEnd(s[1..])
  }

  function ReadAnchor(value: string): Option<Token> {
    var n := ValueEnd(value);
    if value[n..] == "\">" then Some(OpenAnchor(value[..n])) else None
  }

  function ReadLabel(value: string): Option<Token> {
    var n := ValueEnd(value);
    var id := ReadNumber(value[..n]);
    if id.Some? && value[n..] == "\">" then Some(OpenLabel(id.value)) else None
  }

  function ReadCheckbox(value: string): Option<Token> {
    var n := ValueEnd(value);
    var id, preset := ReadNumber(value[..n]), ReadPreset(value[n..]);
    if id.Some? && preset.Some? then Some(Checkbox(id.value, preset.value)) else None
  }

  function ReadPreset(behind: string): Option<Preset> {
    if behind == "\"/>" then Some(Bare)
    else if behind == "\" />" then Some(Unchecked)
    else if behind == "\" checked=\"checked\"/>" then Some(Checked)
    else None
  }

  function ReadClass(value: string): Option<Token> {
    if value == "level\">" then Some(OpenSpan(Level))
    else if value == "short\">" then Some(OpenSpan(Short))
    else if value == "full\">" then Some(OpenSpan(Full))
    else if value == "shortquote\">" then Some(OpenSpan(ShortQuote))
    else if value == "quotemarks\">" then Some(OpenSpan(QuoteMarks))
    else if value == "signature\">" then Some(OpenSpan(Signature))
    else if value == "markup\">" then Some(OpenSpan(MarkChar))
    else None
  }

  function ReadName(name: string): Option<Token> {
    if name == "blockquote>" then Some(OpenQuote)
    else if name == "b>" then Some(OpenStyle(Bold))
    else if name == "i>" then Some(OpenStyle(Italic))
    else if name == "u>" then Some(OpenStyle(Underline))
    else None
  }

  function ReadClosing(tag: string): Option<Token> {
    if tag == "</blockquote>" then Some(Close(Quote))
    else if tag == "</span>" then Some(Close(Span))
    else if tag == "</label>" then Some(Close(Label))
    else if tag == "</a>" then Some(Close(Anchor))
    else if tag == "</b>" then Some(Close(Styled(Bold)))
    else if tag == "</i>" then Some(Close(Styled(Italic)))
    else if tag == "</u>" then Some(Close(Styled(Underline)))
    else None
  }

  function ReadTag(tag: string): Option<Token> {
    if StartsWith(tag, "<a href=\"") then ReadAnchor(tag[9..])
    else if StartsWith(tag, "<label for=\"q") then ReadLabel(tag[13..])
    else if StartsWith(tag, "<input type=\"checkbox\" id=\"q") then ReadCheckbox(tag[28..])
    else if StartsWith(tag, "<span class=\"") then ReadClass(tag[13..])
    else if StartsWith(tag, "</") then ReadClosing(tag)
    else if StartsWith(tag, "<") then ReadName(tag[1..])
    else None
  }

  /** The page as a browser cuts it: tags and single characters. */
  function ReadHtml(s: string): Option<seq<Token>>
    decreases |s|
  {
    if s == "" then Some([])
    else
      var first := if s[0] == '<' then ReadTag(s[..TagLength(s)]) else Some(Chars([s[0]]));
      var rest := ReadHtml(if s[0] == '<' then s[TagLength(s)..] else s[1..]);
      if first.Some? && rest.Some? then Some([first.value] + rest.value) else None
  }

  // ----- numbers -----

  lemma {:induction false} NumberReadsBack(n: nat)
    ensures ReadNumber(Decimal(n)) == Some(n) && '"' !in Decimal(n) && Decimal(n) != ""
  {
    hide *;
    LastDigit(n);
    var digit := "0123456789"[n % 10];
    if n < 10 {
      ReadLast("", digit);
      assert "" + [digit] == [digit];
    } else {
      NumberReadsBack(n / 10);
      ReadLast(Decimal(n / 10), digit);
    }
  }

  lemma LastDigit(n: nat)
    ensures
      var digit := "0123456789"[n % 10];
      && Digit(digit) == Some(n % 10) && digit != '"'
      && Decimal(n) == if n < 10 then [digit] else Decimal(n / 10) + [digit]
  {
  }

  lemma ReadLast(front: string, digit: char)
    requires Digit(digit).Some? && (front == "" || ReadNumber(front).Some?)
    ensures ReadNumber(front + [digit])
         == Some((if front == "" then 0 else 10 * ReadNumber(front).value) + Digit(digit).value)
  {
    hide Digit;
    var s := front + [digit];
    assert s[..|s| - 1] == front && s[|s| - 1] == digit;
  }

  /** Different numbers are written differently. */
  lemma DecimalIsInjective(a: nat, b: nat)
    requires Decimal(a) == Decimal(b)
    ensures a == b
  {
    NumberReadsBack(a);
    NumberReadsBack(b);
  }

  lemma {:induction false} ValueEndIs(value: string, behind: string)
    requires '"' !in value && (behind == "" || behind[0] == '"')
    ensures ValueEnd(value + behind) == |value|
    ensures (value + behind)[..|value|] == value && (value + behind)[|value|..] == behind
  {
    var s := value + behind;
    if value != "" {
      assert value[0] in value && forall c :: c in value[1..] ==> c in value;
      assert s[1..] == value[1..] + behind;
      ValueEndIs(value[1..], behind);
    } else {
      assert s == behind;
    }
  }

  // ----- every written tag is read back -----

  lemma Behind(front: string, value: string)
    ensures StartsWith(front + value, front) && (front + value)[|front|..] == value
  {
  }

  lemma NotStarting(tag: string, front: string, k: nat)
    requires k < |front| && (k < |tag| ==> tag[k] != front[k])
    ensures !StartsWith(tag, front)
  {
    assert |front| <= |tag| ==> tag[..|front|][k] == tag[k];
  }

  lemma ReadAsLabel(value: string)
    ensures ReadTag("<label for=\"q" + value) == ReadLabel(value)
  {
    hide ReadLabel, ReadAnchor, ReadCheckbox, ReadClass, ReadClosing, ReadName, StartsWith;
    var front := "<label for=\"q";
    Behind(front, value);
    NotStarting(front + value, "<a href=\"", 1);
  }

  lemma ReadAsCheckbox(value: string)
    ensures ReadTag("<input type=\"checkbox\" id=\"q" + value) == ReadCheckbox(value)
  {
    hide ReadLabel, ReadAnchor, ReadCheckbox, ReadClass, ReadClosing, ReadName, StartsWith;
    var front := "<input type=\"checkbox\" id=\"q";
    Behind(front, value);
    NotStarting(front + value, "<a href=\"", 1);
    NotStarting(front + value, "<label for=\"q", 1);
  }

  lemma ReadAsClass(value: string)
    ensures ReadTag("<span class=\"" + value) == ReadClass(value)
  {
    hide ReadLabel, ReadAnchor, ReadCheckbox, ReadClass, ReadClosing, ReadName, StartsWith;
    var front := "<span class=\"";
    Behind(front, value);
    NotStarting(front + value, "<a href=\"", 1);
    NotStarting(front + value, "<label for=\"q", 1);
    NotStarting(front + value, "<input type=\"checkbox\" id=\"q", 1);
  }

  lemma ReadAsClosing(name: string)
    ensures ReadTag("</" + name) == ReadClosing("</" + name)
  {
    hide ReadLabel, ReadAnchor, ReadCheckbox, ReadClass, ReadClosing, ReadName, StartsWith;
    var tag := "</" + name;
    Behind("</", name);
    NotStarting(tag, "<a href=\"", 1);
    NotStarting(tag, "<label for=\"q", 1);
    NotStarting(tag, "<input type=\"checkbox\" id=\"q", 1);
    NotStarting(tag, "<span class=\"", 1);
  }

  /** A name in brackets, without attributes. */
  lemma ReadAsName(name: string)
    requires |name| >= 2 && (name[0] == 'b' || name[1] == '>') && name[0] != '/'
    ensures ReadTag("<" + name) == ReadName(name)
  {
    hide ReadLabel, ReadAnchor, ReadCheckbox, ReadClass, ReadClosing, ReadName, StartsWith;
    var tag := "<" + name;
    assert tag[1] == name[0] && tag[2] == name[1];
    Behind("<", name);
    var k := if name[0] == 'b' then 1 else 2;
    NotStarting(tag, "<a href=\"", k);
    NotStarting(tag, "<label for=\"q", k);
    NotStarting(tag, "<input type=\"checkbox\" id=\"q", k);
    NotStarting(tag, "<span class=\"", k);
    NotStarting(tag, "</", 1);
  }

  lemma AnchorReads(href: string)
    requires Inert(href)
    ensures ReadTag(Spell(OpenAnchor(href))) == Some(OpenAnchor(href))
  {
    var front, value := "<a href=\"", href + "\">";
    assert Spell(OpenAnchor(href)) == front + value;
    hide Spell;
    Behind(front, value);
    ValueEndIs(href, "\">");
  }

  lemma LabelReads(target: nat)
    ensures ReadTag(Spell(OpenLabel(target))) == Some(OpenLabel(target))
  {
    hide Decimal, ReadNumber, ReadTag;
    NumberReadsBack(target);
    var value := Decimal(target) + "\">";
    assert Spell(OpenLabel(target)) == "<label for=\"q" + value;
    hide Spell;
    ReadAsLabel(value);
    ValueEndIs(Decimal(target), "\">");
  }

  lemma CheckboxReads(id: nat, preset: Preset)
    ensures ReadTag(Spell(Checkbox(id, preset))) == Some(Checkbox(id, preset))
  {
    hide *;
    NumberReadsBack(id);
    var behind := "\"" + PresetText(preset);
    SpellCheckbox(id, preset);
    ReadAsCheckbox(Decimal(id) + behind);
    ValueEndIs(Decimal(id), behind);
    PresetReads(preset);
    ReadCheckboxIs(Decimal(id), behind);
  }

  lemma ReadCheckboxIs(number: string, behind: string)
    requires ValueEnd(number + behind) == |number|
    requires ReadNumber(number).Some? && ReadPreset(behind).Some?
    ensures ReadCheckbox(number + behind) == Some(Checkbox(ReadNumber(number).value, ReadPreset(behind).value))
  {
    hide ReadNumber, ReadPreset, ValueEnd;
    assert (number + behind)[..|number|] == number && (number + behind)[|number|..] == behind;
  }

  lemma SpellCheckbox(id: nat, preset: Preset)
    ensures Spell(Checkbox(id, preset))
         == "<input type=\"checkbox\" id=\"q" + (Decimal(id) + ("\"" + PresetText(preset)))
  {
    hide Decimal, PresetText;
  }

  lemma PresetReads(preset: Preset)
    ensures ReadPreset("\"" + PresetText(preset)) == Some(preset) && ("\"" + PresetText(preset))[0] == '"'
  {
    var behind := "\"" + PresetText(preset);
    match preset
    case Bare => assert |behind| == 3;
    case Unchecked => assert |behind| == 4 && behind[1] == ' ';
    case Checked => assert |behind| > 4 && behind[1] == ' ';
  }

  lemma ClassReads(cls: Class)
    ensures ReadTag(Spell(OpenSpan(cls))) == Some(OpenSpan(cls))
  {
    var value := ClassName(cls) + "\">";
    assert Spell(OpenSpan(cls)) == "<span class=\"" + value;
    hide *;
    ReadAsClass(value);
    ClassIs(cls, value);
  }

  lemma ClassIs(cls: Class, value: string)
    requires value == ClassName(cls) + "\">"
    ensures ReadClass(value) == Some(OpenSpan(cls))
  {
    match cls
    case Level => assert value == "level\">";
    case Short => assert value == "short\">" && value[0] == 's' && |value| == 7;
    case Full => assert value == "full\">" && value[0] == 'f';
    case ShortQuote => assert value == "shortquote\">" && value[0] == 's' && |value| == 12;
    case QuoteMarks => assert value == "quotemarks\">" && value[0] == 'q';
    case Signature => assert value == "signature\">" && value[1] == 'i' && |value| == 11;
    case MarkChar => assert value == "markup\">" && value[0] == 'm';
  }

  lemma CloseReads(kind: Kind)
    ensures ReadTag(Spell(Close(kind))) == Some(Close(kind))
  {
    var name := KindName(kind) + ">";
    var tag := "</" + name;
    assert Spell(Close(kind)) == tag;
    hide ReadTag, Spell;
    ReadAsClosing(name);
    ClosingIs(kind, tag);
  }

  lemma ClosingIs(kind: Kind, tag: string)
    requires tag == "</" + (KindName(kind) + ">")
    ensures ReadClosing(tag) == Some(Close(kind))
  {
    match kind
    case Quote => assert tag == "</blockquote>" && |tag| == 13;
    case Span => assert tag == "</span>" && |tag| == 7;
    case Label => assert tag == "</label>" && |tag| == 8;
    case Anchor => assert tag == "</a>" && tag[2] == 'a';
    case Styled(style) =>
      match style
      case Bold => assert tag == "</b>" && tag[2] == 'b' && |tag| == 4;
      case Italic => assert tag == "</i>" && tag[2] == 'i' && |tag| == 4;
      case Underline => assert tag == "</u>" && tag[2] == 'u' && |tag| == 4;
  }

  lemma StyleReads(style: Style)
    ensures ReadTag(Spell(OpenStyle(style))) == Some(OpenStyle(style))
  {
    var name := StyleName(style) + ">";
    assert Spell(OpenStyle(style)) == "<" + name;
    hide ReadTag, Spell;
    ReadAsName(name);
    match style
    case Bold => assert name == "b>" && |name| == 2;
    case Italic => assert name == "i>" && name[0] == 'i' && |name| == 2;
    case Underline => assert name == "u>" && name[0] == 'u' && |name| == 2;
  }

  lemma QuoteReads()
    ensures ReadTag(Spell(OpenQuote)) == Some(OpenQuote)
  {
    assert Spell(OpenQuote) == "<" + "blockquote>";
    hide ReadTag, Spell;
    ReadAsName("blockquote>");
  }

  /** The tag of every token, text aside, is read as that token. */
  lemma TagReads(t: Token)
    requires !t.Chars? && Contained(t)
    ensures ReadTag(Spell(t)) == Some(t)
  {
    hide ReadTag, Spell;
    match t
    case OpenQuote => QuoteReads();
    case OpenSpan(cls) => ClassReads(cls);
    case OpenLabel(target) => LabelReads(target);
    case OpenAnchor(href) => AnchorReads(href);
    case OpenStyle(style) => StyleReads(style);
    case Checkbox(id, preset) => CheckboxReads(id, preset);
    case Close(kind) => CloseReads(kind);
  }

  // ----- the written page is read back -----

  /** The same tokens, text one character at a time. */
  function OneByOne(ts: seq<Token>): seq<Token> {
    if ts == [] then []
    else (if ts[0].Chars? then Singles(ts[0].text) else [ts[0]]) + OneByOne(ts[1..])
  }

  function Singles(text: string): seq<Token> {
    if text == "" then [] else [Chars([text[0]])] + Singles(text[1..])
  }

  lemma {:induction false} TextReads(text: string, rest: string)
    requires Inert(text) && ReadHtml(rest).Some?
    ensures ReadHtml(text + rest) == Some(Singles(text) + ReadHtml(rest).value)
  {
    hide *;
    SinglesUnfold(text);
    if text == "" {
      assert text + rest == rest && [] + ReadHtml(rest).value == ReadHtml(rest).value;
    } else {
      InertRest(text);
      TextReads(text[1..], rest);
      assert (text + rest)[0] == text[0] && (text + rest)[1..] == text[1..] + rest;
      ReadCharacter(text + rest);
      var first, more := [Chars([text[0]])], ReadHtml(rest).value;
      assert first + (Singles(text[1..]) + more) == first + Singles(text[1..]) + more;
    }
  }

  lemma SinglesUnfold(text: string)
    ensures Singles(text) == if text == "" then [] else [Chars([text[0]])] + Singles(text[1..])
  {
  }

  lemma InertRest(text: string)
    requires Inert(text) && text != ""
    ensures text[0] != '<' && Inert(text[1..])
  {
    assert text[0] in text && forall c :: c in text[1..] ==> c in text;
  }

  lemma ReadCharacter(s: string)
    requires s != "" && s[0] != '<' && ReadHtml(s[1..]).Some?
    ensures ReadHtml(s) == Some([Chars([s[0]])] + ReadHtml(s[1..]).value)
  {
    hide ReadTag, TagLength;
  }

  lemma TagThenRest(t: Token, rest: string)
    requires !t.Chars? && Contained(t) && ReadHtml(rest).Some?
    ensures ReadHtml(Spell(t) + rest) == Some([t] + ReadHtml(rest).value)
  {
    hide ReadTag, TagLength, Spell, Front, Contained;
    TagReads(t);
    FrontHasNoBracket(t);
    SpellIsFront(t);
    TagLengthIs(Front(t), rest);
    var s := Front(t) + ">" + rest;
    assert s[..|Front(t)| + 1] == Front(t) + ">" && s[|Front(t)| + 1..] == rest && s[0] == Front(t)[0];
  }

  /** What is written is read back, token by token. */
  lemma {:induction false} RenderReads(ts: seq<Token>)
    requires AllContained(ts)
    ensures ReadHtml(Render(ts)) == Some(OneByOne(ts))
  {
    hide Spell, ReadTag, TagLength, Contained;
    if ts != [] {
      assert ts[0] in ts && forall t :: t in ts[1..] ==> t in ts;
      RenderReads(ts[1..]);
      if ts[0].Chars? {
        SpellText(ts[0]);
        TextReads(ts[0].text, Render(ts[1..]));
      } else {
        TagThenRest(ts[0], Render(ts[1..]));
      }
    }
  }

  lemma SpellText(t: Token)
    requires t.Chars? && Contained(t)
    ensures Spell(t) == t.text && Inert(t.text)
  {
  }

  lemma {:induction false} FeedSingles(text: string, p: Page)
    ensures Feed(Singles(text), p) == Show(p, text)
  {
    if text == "" {
      ShowNothing(p);
    } else {
      FeedSingles(text[1..], Show(p, [text[0]]));
      ShowShow(p, [text[0]], text[1..]);
      assert [text[0]] + text[1..] == text;
      assert Singles(text)[1..] == Singles(text[1..]);
    }
  }

  /** Read one character at a time or not, the page is the same. */
  lemma {:induction false} FeedOneByOne(ts: seq<Token>, p: Page)
    ensures Feed(OneByOne(ts), p) == Feed(ts, p)
  {
    if ts != [] {
      var first := if ts[0].Chars? then Singles(ts[0].text) else [ts[0]];
      FeedOneByOne(ts[1..], Step(ts[0], p));
      FeedConcat(first, OneByOne(ts[1..]), p);
      if ts[0].Chars? {
        FeedSingles(ts[0].text, p);
        MalformedShows(p, ts[0].text);
      } else {
        FeedOne(ts[0], p);
      }
    }
  }

  lemma MalformedShows(p: Page, text: string)
    ensures Step(Chars(text), p) == Show(p, text)
  {
  }
}
