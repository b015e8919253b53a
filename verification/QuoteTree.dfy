/** The markup of a whole mail as a recursive function of its nested quotations. It is the reference
    the one-pass formatter with its explicit stack is proved against. */
module QuoteTree {
  import opened Text
  import opened Markup
  import opened LineMarkup
  import opened QuoteLines

  const PREVIEW_LINES := 5
  const CHARS_PER_LINE := 160
  const FORCE_COLLAPSE_AFTER_LINES := 10

  /** The blocks of a mail, with the matcher for its links and the function that shortens a quoted
      block to a preview. */
  datatype Mail = Mail(f: Matcher, summary: string -> string, blocks: seq<TextInfo>)

  // ----- the shape of the quotations -----

  /** Where the blocks from `i` on stop being at least `level` deep. */
  function RunEnd(b: seq<TextInfo>, i: nat, level: int): (end: nat)
    requires i <= |b|
    ensures i <= end <= |b|
    ensures forall k :: i <= k < end ==> b[k].depth >= level
    ensures end < |b| ==> b[end].depth < level
    decreases |b| - i
  {
    if i < |b| && b[i].depth >= level then RunEnd(b, i + 1, level) else i
  }

  /** The first block from `i` on that is not deeper than `level`. */
  function FirstAt(b: seq<TextInfo>, i: nat, level: int): (j: nat)
    requires i <= |b|
    ensures i <= j <= |b|
    ensures forall k :: i <= k < j ==> b[k].depth > level
    ensures j < |b| ==> b[j].depth <= level
    decreases |b| - i
  {
    if i < |b| && b[i].depth > level then FirstAt(b, i + 1, level) else i
  }

  /** The quotation of depth `level` that `i` lies in has text of its own. */
  predicate HasOwnText(b: seq<TextInfo>, i: nat, level: int)
    requires i <= |b|
  {
    FirstAt(b, i, level) < |b| && b[FirstAt(b, i, level)].depth == level
  }

  function MinDepth(b: seq<TextInfo>, i: nat, j: nat): (d: int)
    requires i < j <= |b|
    ensures forall k :: i <= k < j ==> d <= b[k].depth
    ensures exists k :: i <= k < j && b[k].depth == d
    decreases j - i
  {
    if i + 1 == j then b[i].depth
    else
      var d := MinDepth(b, i, j - 1);
      if b[j - 1].depth < d then b[j - 1].depth else d
  }

  function CharCount(b: seq<TextInfo>, i: nat, j: nat): nat
    requires i <= j <= |b|
  {
    if i == j then 0 else CharCount(b, i, j - 1) + |b[j - 1].text|
  }

  function LineCount(b: seq<TextInfo>, i: nat, j: nat): nat
    requires i <= j <= |b|
  {
    if i == j then 0 else LineCount(b, i, j - 1) + Count(b[j - 1].text, '\n') + 1
  }

  predicate NothingButQuotesBehind(b: seq<TextInfo>, i: nat) {
    forall k :: i < k < BodyLength(b) ==> b[k].depth != 0 || b[k].text == ""
  }

  predicate IsShort(b: seq<TextInfo>, i: nat, level: int)
    requires i < |b|
  {
    var end := RunEnd(b, i, level);
    && level == b[i].depth
    && CharCount(b, i, end) <= CHARS_PER_LINE * PREVIEW_LINES
    && LineCount(b, i, end) <= PREVIEW_LINES
  }

  predicate IsCollapsed(b: seq<TextInfo>, i: nat, level: int)
    requires i < |b|
  {
    var end := RunEnd(b, i, level);
    || NothingButQuotesBehind(b, i)
    || level > 1
    || CharCount(b, i, end) >= CHARS_PER_LINE * FORCE_COLLAPSE_AFTER_LINES
    || LineCount(b, i, end) >= FORCE_COLLAPSE_AFTER_LINES
  }

  // ----- the markup of one block -----

  function MarkSpan(depth: nat): seq<Token> {
    [OpenSpan(QuoteMarks), Chars(Repeat("&gt;", depth) + " "), Close(Span)]
  }

  function Marks(depth: nat): seq<Token> {
    if depth == 0 then [] else MarkSpan(depth)
  }

  /** A text with the quote marks repeated after each newline. */
  function MarkLines(text: string, marks: seq<Token>): seq<Token> {
    if text == "" then []
    else [Chars([text[0]])] + (if text[0] == '\n' then marks else []) + MarkLines(text[1..], marks)
  }

  function WithMarks(ts: seq<Token>, marks: seq<Token>): seq<Token> {
    if ts == [] then []
    else (if ts[0].Chars? then MarkLines(ts[0].text, marks) else [ts[0]]) + WithMarks(ts[1..], marks)
  }

  function Quoted(f: Matcher, text: string, depth: nat): seq<Token> {
    Marks(depth) + WithMarks(Htmlify(f, text), Marks(depth))
  }

  /** The newline between a block and the next one: none where a quotation opens or the signature starts
      behind a quotation, since the elements break the line there. */
  function Break(b: seq<TextInfo>, i: nat): seq<Token>
    requires i < |b|
  {
    if i + 1 < |b| && (0 <= b[i + 1].depth < b[i].depth || b[i].depth == 0) then [Chars("\n")] else []
  }

  // ----- the markup around one quotation -----

  function Quotes(n: nat): seq<Token> { seq(n, _ => OpenQuote) }

  function Unquotes(n: nat): seq<Token> { seq(n, _ => Close(Quote)) }

  function Ellipsis(id: nat): seq<Token> { [OpenLabel(id), Chars("..."), Close(Label)] }

  /** The mark for the deeper quotations that stand in front of the previewed block `j`. */
  function Omitted(b: seq<TextInfo>, i: nat, j: nat, level: nat, id: nat): seq<Token>
    requires i <= j <= |b| && forall k :: i <= k < j ==> b[k].depth > level
  {
    if i == j then [] else
    var closest := MinDepth(b, i, j);
    Quotes(closest - level) + MarkSpan(closest) + Ellipsis(id) + Unquotes(closest - level)
  }

  function Preview(m: Mail, i: nat, level: nat, id: nat): seq<Token>
    requires i < |m.blocks| && HasOwnText(m.blocks, i, level)
  {
    var j := FirstAt(m.blocks, i, level);
    Omitted(m.blocks, i, j, level, id) + Quoted(m.f, m.summary(m.blocks[j].text), level)
  }

  function LevelHead(id: nat, preset: Preset, cls: Class): seq<Token> {
    [OpenSpan(Level), Checkbox(id, preset), OpenSpan(cls), OpenQuote]
  }

  function ShortEnd(id: nat): seq<Token> {
    [Chars(" ")] + Ellipsis(id) + [Close(Quote), Close(Span)]
  }

  function Opening(m: Mail, i: nat, level: nat, id: nat): seq<Token>
    requires i < |m.blocks| && HasOwnText(m.blocks, i, level)
  {
    if IsShort(m.blocks, i, level) then LevelHead(id, Bare, ShortQuote) else
    var preset := if IsCollapsed(m.blocks, i, level) then Checked else Unchecked;
    LevelHead(id, preset, Short) + Preview(m, i, level, id) + ShortEnd(id) + [OpenSpan(Full), OpenQuote]
  }

  function Closing(id: nat): seq<Token> {
    [OpenLabel(id), Close(Label)] + [Close(Quote)] + [Close(Span), Close(Span)]
  }

  // ----- the recursion over nested quotations -----

  /** How many interactive controls the quotations in the run from `i` at `level` need. */
  function Controls(b: seq<TextInfo>, i: nat, level: nat): nat
    requires i <= |b|
    decreases |b| - i, if i < |b| then b[i].depth - level else 0
  {
    if i == |b| || b[i].depth < level then 0
    else if b[i].depth == level then Controls(b, i + 1, level)
    else
      (if HasOwnText(b, i, level + 1) then 1 else 0) + Controls(b, i, level + 1)
      + Controls(b, RunEnd(b, i, level + 1), level)
  }

  /** The blocks from `i` on that are at least `level` deep, inside `level` open blockquotes. The ids up
      to `n` are taken. */
  function Segment(m: Mail, i: nat, level: nat, n: nat): seq<Token>
    requires i <= |m.blocks|
    decreases |m.blocks| - i, if i < |m.blocks| then m.blocks[i].depth - level else 0, 0
  {
    var b := m.blocks;
    if i == |b| || b[i].depth < level then []
    else if b[i].depth == level then Quoted(m.f, b[i].text, level) + Break(b, i) + Segment(m, i + 1, level, n)
    else Quotation(m, i, level + 1, n) + Segment(m, RunEnd(b, i, level + 1), level, n + Used(b, i, level + 1))
  }

  /** One quotation of depth `level`, from `i` to the end of its run. */
  function Quotation(m: Mail, i: nat, level: nat, n: nat): seq<Token>
    requires i < |m.blocks| && 0 < level <= m.blocks[i].depth
    decreases |m.blocks| - i, m.blocks[i].depth - level, 1
  {
    if HasOwnText(m.blocks, i, level)
    then Opening(m, i, level, n + 1) + Segment(m, i, level, n + 1) + Closing(n + 1)
    else [OpenQuote] + Segment(m, i, level, n) + [Close(Quote)]
  }

  function Used(b: seq<TextInfo>, i: nat, level: nat): nat
    requires i <= |b|
  {
    (if HasOwnText(b, i, level) then 1 else 0) + Controls(b, i, level)
  }

  /** The signature separator and everything behind it, without quotations. */
  function Tail(m: Mail, i: nat): seq<Token>
    requires i <= |m.blocks|
    decreases |m.blocks| - i
  {
    if i == |m.blocks| then [] else
    Htmlify(m.f, m.blocks[i].text) + (if i + 1 < |m.blocks| then [Chars("\n")] else []) + Tail(m, i + 1)
  }

  function SignaturePart(m: Mail, i: nat): seq<Token>
    requires i < |m.blocks|
  {
    [OpenSpan(Signature)] + (Htmlify(m.f, m.blocks[i].text) + [Chars("\n")]) + Tail(m, i + 1) + [Close(Span)]
  }

  function End(m: Mail): seq<Token> {
    var sig := BodyLength(m.blocks);
    if sig < |m.blocks| then SignaturePart(m, sig) else []
  }

  function Document(m: Mail): seq<Token> {
    Segment(m, 0, 0, 0) + End(m)
  }
}
