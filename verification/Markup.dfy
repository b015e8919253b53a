/** The HTML the formatter writes, as a list of tokens: how a token is spelled,
    and how a browser reads a list of them. */
module Markup {
  import opened Text

  datatype Class = Level | Short | Full | ShortQuote | QuoteMarks | Signature | MarkChar

  datatype Style = Bold | Italic | Underline

  datatype Kind = Quote | Span | Label | Anchor | Styled(style: Style)

  datatype Preset = Bare | Unchecked | Checked

  datatype Token =
    | Chars(text: string)
    | OpenQuote
    | OpenSpan(cls: Class)
    | OpenLabel(target: nat)
    | OpenAnchor(href: string)
    | OpenStyle(style: Style)
    | Checkbox(id: nat, preset: Preset)
    | Close(kind: Kind)

  // ----- spelling -----

  function ClassName(cls: Class): string {
    match cls
    case Level => "level"
    case Short => "short"
    case Full => "full"
    case ShortQuote => "shortquote"
    case QuoteMarks => "quotemarks"
    case Signature => "signature"
    case MarkChar => "markup"
  }

  function StyleName(style: Style): string {
    match style
    case Bold => "b"
    case Italic => "i"
    case Underline => "u"
  }

  function KindName(kind: Kind): string {
    match kind
    case Quote => "blockquote"
    case Span => "span"
    case Label => "label"
    case Anchor => "a"
    case Styled(style) => StyleName(style)
  }

  function PresetText(preset: Preset): string {
    match preset
    case Bare => "/>"
    case Unchecked => " />"
    case Checked => " checked=\"checked\"/>"
  }

  function Spell(t: Token): string {
    match t
    case Chars(text) => text
    case OpenQuote => "<blockquote>"
    case OpenSpan(cls) => "<span class=\"" + ClassName(cls) + "\">"
    case OpenLabel(target) => "<label for=\"q" + Decimal(target) + "\">"
    case OpenAnchor(href) => "<a href=\"" + href + "\">"
    case OpenStyle(style) => "<" + StyleName(style) + ">"
    case Checkbox(id, preset) => "<input type=\"checkbox\" id=\"q" + Decimal(id) + "\"" + PresetText(preset)
    case Close(kind) => "</" + KindName(kind) + ">"
  }

  function Render(ts: seq<Token>): string {
    if ts == [] then "" else Spell(ts[0]) + Render(ts[1..])
  }

  lemma {:induction false} RenderConcat(a: seq<Token>, b: seq<Token>)
    ensures Render(a + b) == Render(a) + Render(b)
  {
    hide Spell;
    if a == [] {
      assert a + b == b;
    } else {
      assert (a + b)[1..] == a[1..] + b;
      RenderConcat(a[1..], b);
    }
  }

  // ----- reading -----

  /** The open elements, innermost first. A level span knows the checkbox it holds. */
  datatype Stack = Base | On(top: Frame, rest: Stack)

  datatype Frame = Element(kind: Kind) | Region(cls: Class, box: Option<nat>)

  /** A checkbox: whether it starts checked, the depth of the quotation it controls, and how many characters are on
      view in front of it. */
  datatype Box = Box(id: nat, preset: Preset, level: nat, at: nat)

  /** What a reader of the page has seen: the open elements, the characters on view, each with the
      number of blockquotes around it, the checkboxes in order, and after how many characters each signature begins
      and ends; `closed` are the checkboxes that are checked while the page is read. Malformed once a closing tag does
      not match the innermost open element, a checkbox does not come first in a level span, or a label
      names another checkbox than that of its innermost enclosing level span. */
  datatype Page =
    | Page(stack: Stack, shown: seq<(char, nat)>, boxes: seq<Box>, signatures: seq<nat>, closed: set<nat>)
    | Malformed

  /** An empty page, on which the given checkboxes will be checked. */
  function Blank(closed: set<nat>): (p: Page)
    ensures p.Page?
  {
    Page(Base, [], [], [], closed)
  }

  const BLANK: Page := Blank({})

  function KindOf(f: Frame): Kind {
    match f
    case Element(kind) => kind
    case Region(_, _) => Span
  }

  function QuoteDepth(s: Stack): nat {
    match s
    case Base => 0
    case On(top, rest) => (if top == Element(Quote) then 1 else 0) + QuoteDepth(rest)
  }

  function InnermostBox(s: Stack): Option<nat> {
    match s
    case Base => None
    case On(top, rest) => if top.Region? && top.cls == Level then top.box else InnermostBox(rest)
  }

  /** The innermost checkbox is checked. */
  predicate IsClosed(s: Stack, closed: set<nat>) {
    InnermostBox(s).Some? && InnermostBox(s).value in closed
  }

  /** The style sheet hides quote marks, the short form of a quotation whose checkbox is not checked, and the full form
      of one whose checkbox is. */
  predicate Hidden(s: Stack, closed: set<nat>) {
    s.On? && (HidesItself(s.top, s.rest, closed) || Hidden(s.rest, closed))
  }

  predicate HidesItself(top: Frame, rest: Stack, closed: set<nat>) {
    top.Region? && match top.cls
                   case QuoteMarks => true
                   case Short => !IsClosed(rest, closed)
                   case Full => IsClosed(rest, closed)
                   case _ => false
  }

  function At(text: string, depth: nat): (r: seq<(char, nat)>)
    ensures |r| == |text|
  {
    seq(|text|, i requires 0 <= i < |text| => (text[i], depth))
  }

  function Show(p: Page, text: string): Page {
    if p.Malformed? || Hidden(p.stack, p.closed) then p
    else p.(shown := p.shown + At(text, QuoteDepth(p.stack)))
  }

  function Push(p: Page, f: Frame): Page
    requires p.Page?
  {
    p.(stack := On(f, p.stack))
  }

  /** A signature begins or ends here. */
  function Sign(p: Page): (q: Page)
    requires p.Page?
    ensures q.Page?
  {
    p.(signatures := p.signatures + [|p.shown|])
  }

  function Step(t: Token, p: Page): Page {
    if p.Malformed? then p else
    match t
    case Chars(text) => Show(p, text)
    case OpenQuote => Push(p, Element(Quote))
    case OpenSpan(cls) => Push(if cls == Signature then Sign(p) else p, Region(cls, None))
    case OpenLabel(target) =>
      if InnermostBox(p.stack) == Some(target) then Push(p, Element(Label)) else Malformed
    case OpenAnchor(_) => Push(p, Element(Anchor))
    case OpenStyle(style) => Push(p, Element(Styled(style)))
    case Checkbox(id, preset) =>
      if p.stack.On? && p.stack.top == Region(Level, None)
      then p.(stack := On(Region(Level, Some(id)), p.stack.rest),
              boxes := p.boxes + [Box(id, preset, QuoteDepth(p.stack) + 1, |p.shown|)])
      else Malformed
    case Close(kind) =>
      if p.stack.On? && KindOf(p.stack.top) == kind
      then (if p.stack.top.Region? && p.stack.top.cls == Signature then Sign(p) else p).(stack := p.stack.rest)
      else Malformed
  }

  function Feed(ts: seq<Token>, p: Page): Page {
    if ts == [] then p else Feed(ts[1..], Step(ts[0], p))
  }

  lemma {:induction false} FeedConcat(a: seq<Token>, b: seq<Token>, p: Page)
    ensures Feed(a + b, p) == Feed(b, Feed(a, p))
  {
    if a == [] {
      assert a + b == b;
    } else {
      assert (a + b)[1..] == a[1..] + b;
      FeedConcat(a[1..], b, Step(a[0], p));
    }
  }

  lemma FeedOne(t: Token, p: Page)
    ensures Feed([t], p) == Step(t, p)
  {
    assert [t][1..] == [];
  }

  lemma ShowShow(p: Page, a: string, b: string)
    ensures Show(Show(p, a), b) == Show(p, a + b)
  {
    if p.Page? && !Hidden(p.stack, p.closed) {
      var d := QuoteDepth(p.stack);
      assert (p.shown + At(a, d)) + At(b, d) == p.shown + At(a + b, d);
    }
  }

  lemma ShowNothing(p: Page)
    ensures Show(p, "") == p
  {
    if p.Page? {
      assert p.shown + At("", QuoteDepth(p.stack)) == p.shown;
    }
  }

  function OwnText(t: Token): string {
    if t.Chars? then t.text else ""
  }

  /** The text of a list of tokens with every tag dropped. */
  function TextOf(ts: seq<Token>): string {
    if ts == [] then "" else OwnText(ts[0]) + TextOf(ts[1..])
  }

  lemma ReadOne(a: Token, p: Page)
    ensures Feed([a], p) == Step(a, p) && TextOf([a]) == OwnText(a)
  {
    FeedOne(a, p);
    assert [a][1..] == [] && OwnText(a) + "" == OwnText(a);
  }

  lemma ReadThree(a: Token, b: Token, c: Token, p: Page)
    ensures Feed([a, b, c], p) == Step(c, Step(b, Step(a, p)))
    ensures TextOf([a, b, c]) == OwnText(a) + (OwnText(b) + OwnText(c))
  {
    assert [a, b, c][1..] == [b, c] && [b, c][1..] == [c];
    ReadOne(c, Step(b, Step(a, p)));
  }

  lemma ReadFour(a: Token, b: Token, c: Token, d: Token, p: Page)
    ensures Feed([a, b, c, d], p) == Step(d, Step(c, Step(b, Step(a, p))))
  {
    assert [a, b, c, d][1..] == [b, c, d];
    ReadThree(b, c, d, Step(a, p));
  }

  lemma ReadFive(a: Token, b: Token, c: Token, d: Token, e: Token, p: Page)
    ensures Feed([a, b, c, d, e], p) == Step(e, Step(d, Step(c, Step(b, Step(a, p)))))
    ensures TextOf([a, b, c, d, e]) == OwnText(a) + (OwnText(b) + (OwnText(c) + (OwnText(d) + OwnText(e))))
  {
    assert [a, b, c, d, e][1..] == [b, c, d, e] && [b, c, d, e][1..] == [c, d, e];
    ReadThree(c, d, e, Step(b, Step(a, p)));
  }

  lemma {:induction false} TextOfConcat(a: seq<Token>, b: seq<Token>)
    ensures TextOf(a + b) == TextOf(a) + TextOf(b)
  {
    if a == [] {
      assert a + b == b;
    } else {
      assert (a + b)[1..] == a[1..] + b;
      TextOfConcat(a[1..], b);
    }
  }
}
