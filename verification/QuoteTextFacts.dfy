/** What quoting promises: the text survives, one level deeper, on lines that are short wherever they can be. */
module QuoteTextFacts {
  import opened Text
  import opened QuoteLines
  import opened QuoteText

  // ----- wrapping -----

  /** Nowhere to break: no space, except perhaps as the last character. */
  predicate Unbreakable(piece: string) { forall i :: 0 <= i < |piece| - 1 ==> piece[i] != ' ' }

  lemma {:induction false} WrapKeepsText(s: string, limit: int, later: int)
    ensures Concat(Wrap(s, limit, later)) == s
    decreases |s|
  {
    if |s| <= limit || !HasSpace(s) {
      OnePart(s);
    } else {
      var k := Cut(s, limit + 1);
      var rest := Wrap(s[k..], later, later);
      WrapKeepsText(s[k..], later, later);
      hide *;
      ConcatCons(s[..k], rest);
      assert s[..k] + s[k..] == s;
    }
  }

  lemma OnePart(s: string)
    ensures Concat([s]) == s
  {
    assert [s][1..] == [];
  }

  lemma ConcatCons(part: string, rest: seq<string>)
    ensures Concat([part] + rest) == part + Concat(rest)
  {
    assert ([part] + rest)[1..] == rest;
  }

  /** A piece is too wide only where there is no space to break it at. */
  lemma {:induction false} PieceWidth(s: string, limit: int, later: int, k: nat)
    requires k < |Wrap(s, limit, later)|
    ensures
      var piece := Wrap(s, limit, later)[k];
      |piece| <= (if k == 0 then limit else later) + 1 || Unbreakable(piece)
    decreases k
  {
    if |s| <= limit || !HasSpace(s) {
      assert !HasSpace(s) ==> Unbreakable(s);
    } else {
      var n := Cut(s, limit + 1);
      CutWidth(s, limit + 1);
      hide Cut, Unbreakable, HasSpace;
      if k > 0 { PieceWidth(s[n..], later, later, k - 1); }
    }
  }

  lemma CutWidth(s: string, limit: int)
    requires HasSpace(s)
    ensures var n := Cut(s, limit); n <= limit || Unbreakable(s[..n])
  {
  }

  /** Every piece but the last ends behind a space and could not have taken one word more. */
  predicate Filled(piece: string, rest: string, limit: int) {
    && piece != "" && piece[|piece| - 1] == ' '
    && |piece| + |rest| > limit
    && forall i :: 0 <= i < |rest| && |piece| + i <= limit ==> rest[i] != ' '
  }

  lemma {:induction false} PiecesAreFilled(s: string, limit: int, later: int, k: nat)
    requires k + 1 < |Wrap(s, limit, later)|
    ensures
      var pieces := Wrap(s, limit, later);
      Filled(pieces[k], Concat(pieces[k + 1..]), if k == 0 then limit else later)
    decreases k
  {
    var pieces := Wrap(s, limit, later);
    var n := Cut(s, limit + 1);
    var rest := Wrap(s[n..], later, later);
    assert pieces == [s[..n]] + rest;
    assert pieces[k + 1..] == rest[k..];
    if k == 0 {
      WrapKeepsText(s[n..], later, later);
      assert rest[0..] == rest;
      FirstIsFilled(s, limit);
    } else {
      PiecesAreFilled(s[n..], later, later, k - 1);
    }
  }

  lemma FirstIsFilled(s: string, limit: int)
    requires HasSpace(s) && |s| > limit
    ensures var n := Cut(s, limit + 1); Filled(s[..n], s[n..], limit)
  {
    var n := Cut(s, limit + 1);
    forall i | 0 <= i < |s[n..]| && n + i <= limit
      ensures s[n..][i] != ' '
    {
      assert s[n..][i] == s[n + i];
    }
  }

  // ----- one line -----

  function Content(line: string): string { line[ContentStart(line)..] }

  /** Each character with a quote level. */
  function At(text: string, level: nat): (r: seq<(char, nat)>)
    ensures |r| == |text|
  {
    seq(|text|, i requires 0 <= i < |text| => (text[i], level))
  }

  /** The content of all lines, each character at the level of its line, made `deeper`. */
  function Contents(lines: seq<string>, deeper: nat): seq<(char, nat)> {
    if lines == [] then [] else At(Content(lines[0]), LeadingMarks(lines[0]) + deeper) + Contents(lines[1..], deeper)
  }

  lemma {:induction false} ContentsConcat(a: seq<string>, b: seq<string>, deeper: nat)
    ensures Contents(a + b, deeper) == Contents(a, deeper) + Contents(b, deeper)
  {
    hide At, Content, LeadingMarks;
    if a == [] {
      assert a + b == b;
    } else {
      assert (a + b)[1..] == a[1..] + b;
      ContentsConcat(a[1..], b, deeper);
    }
  }

  lemma ContentsCons(line: string, rest: seq<string>, deeper: nat)
    ensures Contents([line] + rest, deeper) == At(Content(line), LeadingMarks(line) + deeper) + Contents(rest, deeper)
    ensures Contents([], deeper) == []
  {
    hide At, Content, LeadingMarks;
    assert ([line] + rest)[1..] == rest;
  }

  lemma {:induction false} MarkedPiece(level: nat, piece: string)
    ensures LeadingMarks(Prefix(level) + piece) == level + 1
  {
    var s := Prefix(level) + piece;
    if level == 0 {
      assert s[1..] == " " + piece;
    } else {
      assert s[1..] == Prefix(level - 1) + piece;
      MarkedPiece(level - 1, piece);
    }
  }

  lemma {:induction false} PrefixEndsInSpace(level: nat)
    ensures Prefix(level)[level + 1] == ' '
  {
    if level > 0 { PrefixEndsInSpace(level - 1); }
  }

  lemma MarkedContent(level: nat, piece: string)
    ensures Content(Prefix(level) + piece) == piece
  {
    MarkedPiece(level, piece);
    PrefixEndsInSpace(level);
    assert (Prefix(level) + piece)[level + 1] == ' ';
  }

  lemma {:induction false} PrefixedContents(level: nat, pieces: seq<string>)
    ensures |PrefixAll(Prefix(level), pieces)| == |pieces|
    ensures Contents(PrefixAll(Prefix(level), pieces), 0) == At(Concat(pieces), level + 1)
    ensures forall k :: 0 <= k < |pieces| ==> PrefixAll(Prefix(level), pieces)[k] == Prefix(level) + pieces[k]
  {
    if pieces != [] {
      PrefixedContents(level, pieces[1..]);
      MarkedPiece(level, pieces[0]);
      MarkedContent(level, pieces[0]);
      hide Content, LeadingMarks, Prefix;
      assert pieces == [pieces[0]] + pieces[1..];
      var first, rest := pieces[0], Concat(pieces[1..]);
      assert At(first + rest, level + 1) == At(first, level + 1) + At(rest, level + 1);
    }
  }

  /** A line of less than 77 characters gets one more mark, with a blank behind the first one. */
  lemma ShortQuote(line: string)
    requires |line| < 77
    ensures
      var quoted := if line == "" || line[0] == '>' then ">" + line else "> " + line;
      QuoteLine(line) == [quoted] && |quoted| <= 78
      && LeadingMarks(quoted) == LeadingMarks(line) + 1 && Content(quoted) == Content(line)
  {
    if line == "" || line[0] == '>' {
      var quoted := ">" + line;
      assert quoted[1..] == line;
      var level := LeadingMarks(line);
      assert level < |line| ==> quoted[level + 1] == line[level];
      assert quoted[ContentStart(quoted)..] == line[ContentStart(line)..];
    } else {
      var quoted := "> " + line;
      assert quoted[1..] == " " + line;
      assert LeadingMarks(quoted[1..]) == 0;
      assert ContentStart(quoted) == 2;
      assert quoted[2..] == line;
    }
  }

  /** The content of a quoted line can be read back one level deeper, and so is every line it takes. */
  lemma QuoteLineReadsBack(line: string)
    ensures Contents(QuoteLine(line), 0) == At(Content(line), LeadingMarks(line) + 1)
    ensures forall k :: 0 <= k < |QuoteLine(line)| ==> LeadingMarks(QuoteLine(line)[k]) == LeadingMarks(line) + 1
  {
    hide *;
    if |line| < 77 {
      ShortQuote(line);
      var quoted := if line == "" || line[0] == '>' then ">" + line else "> " + line;
      OneContent(quoted, 0);
    } else {
      WrappedReadsBack(line);
    }
  }

  lemma OneContent(line: string, deeper: nat)
    ensures Contents([line], deeper) == At(Content(line), LeadingMarks(line) + deeper)
  {
    hide *;
    ContentsCons(line, [], deeper);
    assert [line] + [] == [line];
    assert At(Content(line), LeadingMarks(line) + deeper) + [] == At(Content(line), LeadingMarks(line) + deeper);
  }

  lemma WrappedReadsBack(line: string)
    requires |line| >= 77
    ensures Contents(QuoteLine(line), 0) == At(Content(line), LeadingMarks(line) + 1)
    ensures forall k :: 0 <= k < |QuoteLine(line)| ==> LeadingMarks(QuoteLine(line)[k]) == LeadingMarks(line) + 1
  {
    hide Contents, PrefixAll, Wrap, At, LeadingMarks, Prefix;
    var level := LeadingMarks(line);
    var pieces := WrapLine(line);
    PrefixedContents(level, pieces);
    var limit := 65 - |Prefix(level)|;
    WrapKeepsText(Content(line), limit, limit + 1);
    forall k | 0 <= k < |QuoteLine(line)|
      ensures LeadingMarks(QuoteLine(line)[k]) == level + 1
    {
      MarkedPiece(level, pieces[k]);
    }
  }

  /** A wrapped line takes at most 67 columns with its marks, unless its content cannot be broken. */
  lemma WrappedWidth(line: string, k: nat)
    requires |line| >= 77 && k < |QuoteLine(line)|
    ensures |QuoteLine(line)[k]| <= 67 || Unbreakable(Content(QuoteLine(line)[k]))
  {
    hide Contents, PrefixAll, Wrap, Unbreakable, LeadingMarks, Prefix, At;
    var level := LeadingMarks(line);
    var limit := 65 - |Prefix(level)|;
    PrefixedContents(level, WrapLine(line));
    PieceWidth(Content(line), limit, limit + 1, k);
    MarkedContent(level, WrapLine(line)[k]);
  }

  /** The contents of some quoted lines, one after the other. */
  function ContentText(lines: seq<string>): string {
    if lines == [] then "" else Content(lines[0]) + ContentText(lines[1..])
  }

  lemma {:induction false} PrefixedText(level: nat, pieces: seq<string>)
    ensures ContentText(PrefixAll(Prefix(level), pieces)) == Concat(pieces)
  {
    hide Content, Prefix;
    if pieces != [] {
      MarkedContent(level, pieces[0]);
      PrefixedText(level, pieces[1..]);
    }
  }

  lemma {:induction false} PrefixedRest(marks: string, pieces: seq<string>, k: nat)
    requires k <= |pieces|
    ensures |PrefixAll(marks, pieces)| == |pieces| && PrefixAll(marks, pieces)[k..] == PrefixAll(marks, pieces[k..])
  {
    if k > 0 {
      PrefixedRest(marks, pieces[1..], k - 1);
      assert pieces[k..] == pieces[1..][k - 1..];
    } else {
      assert pieces[0..] == pieces;
      if pieces != [] { PrefixedRest(marks, pieces[1..], 0); }
    }
  }

  /** A wrapped line but the last could not take one word more within 65 characters with its marks, or within 66 behind
      the first one. */
  lemma LinesAreFilled(line: string, k: nat)
    requires |line| >= 77 && k + 1 < |QuoteLine(line)|
    ensures
      var quoted := QuoteLine(line);
      Filled(quoted[k], ContentText(quoted[k + 1..]), if k == 0 then 65 else 66)
  {
    hide *;
    var level := LeadingMarks(line);
    var marks, limit, pieces := Prefix(level), 65 - |Prefix(level)|, WrapLine(line);
    LongQuote(line);
    PrefixedContents(level, pieces);
    PrefixedRest(marks, pieces, k + 1);
    PrefixedText(level, pieces[k + 1..]);
    PiecesAreFilled(Content(line), limit, limit + 1, k);
    MarksInFront(marks, pieces[k], Concat(pieces[k + 1..]), if k == 0 then limit else limit + 1);
  }

  lemma LongQuote(line: string)
    requires |line| >= 77
    ensures
      var marks := Prefix(LeadingMarks(line));
      var limit := 65 - |marks|;
      && WrapLine(line) == Wrap(Content(line), limit, limit + 1)
      && QuoteLine(line) == PrefixAll(marks, WrapLine(line))
  {
    hide PrefixAll, Wrap, LeadingMarks, Prefix;
  }

  lemma MarksInFront(marks: string, piece: string, rest: string, limit: int)
    requires Filled(piece, rest, limit)
    ensures Filled(marks + piece, rest, limit + |marks|)
  {
  }

  // ----- the whole message -----

  predicate Fits(line: string) { |line| < 79 || Unbreakable(Content(line)) }

  lemma QuoteLineFits(line: string, k: nat)
    requires k < |QuoteLine(line)|
    ensures Fits(QuoteLine(line)[k])
  {
    if |line| < 77 {
      ShortQuote(line);
    } else {
      WrappedWidth(line, k);
    }
  }

  /** How many lines there are in front of the signature separator. */
  function SeparatorAt(lines: seq<string>): (n: nat)
    ensures n <= |lines|
  {
    if lines == [] || IsSignatureSeparator(lines[0]) then 0 else 1 + SeparatorAt(lines[1..])
  }

  lemma {:induction false} SeparatorAtIsFirst(lines: seq<string>)
    ensures
      var n := SeparatorAt(lines);
      && (forall i :: 0 <= i < n ==> !IsSignatureSeparator(lines[i]))
      && (n < |lines| ==> IsSignatureSeparator(lines[n]))
  {
    hide IsSignatureSeparator;
    if lines != [] && !IsSignatureSeparator(lines[0]) {
      SeparatorAtIsFirst(lines[1..]);
      assert forall i :: 1 <= i < |lines| ==> lines[i] == lines[1..][i - 1];
    }
  }

  /** Everything in front of the signature separator, and nothing behind it, can be read from the quote, every
      character exactly one level deeper. */
  lemma {:induction false} QuoteReadsBack(lines: seq<string>)
    ensures Contents(QuoteAll(lines), 0) == Contents(lines[..SeparatorAt(lines)], 1)
  {
    hide *;
    if lines == [] || IsSignatureSeparator(lines[0]) {
      NothingQuoted(lines);
    } else {
      var line, rest := lines[0], lines[1..];
      QuotedCons(lines);
      ContentsConcat(QuoteLine(line), QuoteAll(rest), 0);
      ContentsCons(line, rest[..SeparatorAt(rest)], 1);
      QuoteLineReadsBack(line);
      QuoteReadsBack(rest);
    }
  }

  lemma NothingQuoted(lines: seq<string>)
    requires lines == [] || IsSignatureSeparator(lines[0])
    ensures Contents(QuoteAll(lines), 0) == Contents(lines[..SeparatorAt(lines)], 1)
  {
    assert lines[..SeparatorAt(lines)] == [];
  }

  lemma QuotedCons(lines: seq<string>)
    requires lines != [] && !IsSignatureSeparator(lines[0])
    ensures QuoteAll(lines) == QuoteLine(lines[0]) + QuoteAll(lines[1..])
    ensures lines[..SeparatorAt(lines)] == [lines[0]] + lines[1..][..SeparatorAt(lines[1..])]
  {
    hide QuoteLine;
  }

  /** Every line of a quote fits into 78 columns or cannot be broken. */
  lemma {:induction false} QuoteFits(lines: seq<string>, k: nat)
    requires k < |QuoteAll(lines)|
    ensures Fits(QuoteAll(lines)[k])
  {
    hide QuoteLine, Fits;
    var first := QuoteLine(lines[0]);
    if k < |first| {
      QuoteLineFits(lines[0], k);
    } else {
      QuoteFits(lines[1..], k - |first|);
    }
  }
}
