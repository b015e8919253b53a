/** Quoting a message in a reply: short lines get a quote mark, long lines are wrapped first. */
module QuoteText {
  import opened Text
  import opened QuoteLines

  // ----- the reference: greedy wrapping -----

  predicate HasSpace(s: string) { exists i :: 0 <= i < |s| && s[i] == ' ' }

  /** The end of the last word, with its space, that lies within the first `limit` characters; 0 if none. */
  function LastCut(s: string, limit: int): (k: nat)
    requires limit <= |s|
    ensures k <= |s| && (k > 0 ==> k <= limit && s[k - 1] == ' ')
    ensures forall i :: k <= i < limit ==> s[i] != ' '
    decreases limit
  {
    if limit <= 0 then 0 else if s[limit - 1] == ' ' then limit else LastCut(s, limit - 1)
  }

  function FirstCut(s: string, from: nat): (k: nat)
    requires from <= |s|
    requires exists i :: from <= i < |s| && s[i] == ' '
    ensures from < k <= |s| && s[k - 1] == ' '
    ensures forall i :: from <= i < k - 1 ==> s[i] != ' '
    decreases |s| - from
  {
    if s[from] == ' ' then from + 1 else FirstCut(s, from + 1)
  }

  /** Where the first piece ends: as late as a width of `limit` allows, but behind a space. */
  function Cut(s: string, limit: int): (k: nat)
    requires HasSpace(s)
    ensures 0 < k <= |s| && s[k - 1] == ' '
  {
    var last := LastCut(s, if limit < |s| then limit else |s|);
    if last > 0 then last else FirstCut(s, 0)
  }

  /** Greedy wrapping. A piece may be one character wider than the limit, and the count of every piece
      but the first starts one too low, so those may be one wider still. */
  function Wrap(s: string, limit: int, later: int): seq<string>
    decreases |s|
  {
    if |s| <= limit || !HasSpace(s) then [s]
    else
      var k := Cut(s, limit + 1);
      [s[..k]] + Wrap(s[k..], later, later)
  }

  // ----- one line -----

  const MAX_LINE := 79

  /** The quote marks in a row at the start of a line. */
  function LeadingMarks(line: string): (n: nat)
    ensures n <= |line|
  {
    if line == "" || line[0] != '>' then 0 else 1 + LeadingMarks(line[1..])
  }

  function ContentStart(line: string): (n: nat)
    ensures n <= |line|
  {
    var level := LeadingMarks(line);
    if 0 < level < |line| && line[level] == ' ' then level + 1 else level
  }

  function Prefix(level: nat): (marks: string)
    ensures |marks| == level + 2
  {
    if level == 0 then "> " else ">" + Prefix(level - 1)
  }

  function PrefixAll(marks: string, pieces: seq<string>): seq<string> {
    if pieces == [] then [] else [marks + pieces[0]] + PrefixAll(marks, pieces[1..])
  }

  function WrapLine(line: string): seq<string> {
    var limit := 65 - |Prefix(LeadingMarks(line))|;
    Wrap(line[ContentStart(line)..], limit, limit + 1)
  }

  function QuoteLine(line: string): seq<string> {
    if |line| < MAX_LINE - 2 then [if line == "" || line[0] == '>' then ">" + line else "> " + line]
    else PrefixAll(Prefix(LeadingMarks(line)), WrapLine(line))
  }

  /** All lines in front of the signature separator. */
  function QuoteAll(lines: seq<string>): seq<string> {
    if lines == [] || IsSignatureSeparator(lines[0]) then []
    else QuoteLine(lines[0]) + QuoteAll(lines[1..])
  }

  // ----- the loops -----

  method CountMarks(line: string) returns (quoteLevel: nat, contentStart: nat)
    requires line != ""
    ensures quoteLevel == LeadingMarks(line) && contentStart == ContentStart(line)
  {
    quoteLevel, contentStart := 0, 0;
    if line[0] == '>' {
      quoteLevel := 1;
      while quoteLevel < |line| && line[quoteLevel] == '>'
        invariant 1 <= quoteLevel <= |line|
        invariant LeadingMarks(line) == quoteLevel + LeadingMarks(line[quoteLevel..])
      {
        assert line[quoteLevel..][1..] == line[quoteLevel + 1..];
        quoteLevel := quoteLevel + 1;
      }
      contentStart := quoteLevel;
      if quoteLevel < |line| && line[quoteLevel] == ' ' {
        contentStart := contentStart + 1;
      }
    }
  }

  /** Where the wrapping loop stands: since `lastSpace` it has seen everything up to `pos`, the last
      space seen ends at `space`, and the piece is not yet too wide to take that space. */
  ghost predicate Scanning(line: string, lastSpace: nat, space: nat, pos: nat, width: int) {
    && lastSpace <= space <= pos <= |line|
    && (forall i :: space <= i < pos ==> line[i] != ' ')
    && (space != lastSpace ==> line[space - 1] == ' ' && pos - lastSpace <= width)
  }

  lemma CutHere(line: string, lastSpace: nat, space: nat, pos: nat, width: int)
    requires lastSpace <= pos < |line| && lastSpace < space <= pos + 1
    requires line[space - 1] == ' ' && forall i :: space <= i <= pos ==> line[i] != ' '
    requires pos + 1 - lastSpace > width
    requires space <= pos ==> pos - lastSpace <= width
    requires space == pos + 1 ==> pos - lastSpace <= width || forall i :: lastSpace <= i < pos ==> line[i] != ' '
    ensures
      var s := line[lastSpace..];
      HasSpace(s) && |s| > width && Cut(s, width + 1) == space - lastSpace
  {
    var s := line[lastSpace..];
    var k := space - lastSpace;
    assert s[k - 1] == ' ';
    var n := pos + 1 - lastSpace;
    assert forall i :: k <= i < n ==> s[i] == line[lastSpace + i];
    if n != width + 1 {
      assert forall i :: 0 <= i < k - 1 ==> s[i] == line[lastSpace + i];
    }
  }

  method QuoteLongLine(quote0: seq<string>, line: string) returns (quote: seq<string>)
    requires |line| >= MAX_LINE - 2
    ensures quote == quote0 + QuoteLine(line)
  {
    var quoteLevel, contentStart := CountMarks(line);
    var quotemarks := QuoteString(quoteLevel);
    hide *;
    quote := WrapContent(quote0, line, contentStart, quotemarks);
  }

  method QuoteString(quoteLevel: nat) returns (quotemarks: string)
    ensures quotemarks == Prefix(quoteLevel)
  {
    hide *;
    quotemarks := "";
    for i := 0 to quoteLevel
      invariant quotemarks + Prefix(quoteLevel - i) == Prefix(quoteLevel)
    {
      OneMoreMark(quotemarks, quoteLevel - i);
      quotemarks := quotemarks + ">";
    }
    NoMoreMarks();
    quotemarks := quotemarks + "> ";
  }

  lemma OneMoreMark(quotemarks: string, n: nat)
    requires n > 0
    ensures quotemarks + Prefix(n) == quotemarks + ">" + Prefix(n - 1)
  {
    var rest := Prefix(n - 1);
    assert Prefix(n) == ">" + rest;
    assert quotemarks + (">" + rest) == quotemarks + ">" + rest;
  }

  lemma NoMoreMarks()
    ensures Prefix(0) == "> "
  {
  }

  /** The wrapping loop. Its character count starts one too low behind the first wrap. */
  method WrapContent(quote0: seq<string>, line: string, contentStart: nat, quotemarks: string)
    returns (quote: seq<string>)
    requires contentStart <= |line|
    ensures
      var limit := 65 - |quotemarks|;
      quote == quote0 + PrefixAll(quotemarks, Wrap(line[contentStart..], limit, limit + 1))
  {
    hide *;
    quote := quote0;
    var limit := 65 - |quotemarks|;
    var space: nat, lastSpace: nat, pos: nat, length := contentStart, contentStart, contentStart, 0;
    ghost var wrapped := 0;
    ghost var whole := quote0 + PrefixAll(quotemarks, Wrap(line[contentStart..], limit, limit + 1));
    FirstPiece(whole, quote, line, contentStart, limit, limit + 1, quotemarks);
    while pos < |line|
      invariant lastSpace <= space <= pos <= |line|
      invariant 0 <= wrapped <= 1 && length == pos - lastSpace - wrapped
      invariant Wrapping(whole, quote, line, lastSpace, space, pos, limit + wrapped, limit + 1, quotemarks)
    {
      ghost var before := space;
      if line[pos] == ' ' {
        space := pos + 1;
      }
      length := length + 1;
      if length > limit && space != lastSpace {
        WrapStep(whole, quote, line, lastSpace, before, space, pos, limit + wrapped, limit + 1, quotemarks);
        quote := quote + [quotemarks + line[lastSpace..space]];
        lastSpace := space;
        length := pos - space;
        wrapped := 1;
      } else {
        ScanStep(whole, quote, line, lastSpace, before, space, pos, limit + wrapped, limit + 1, quotemarks);
      }
      pos := pos + 1;
    }
    LastPiece(whole, quote, line, lastSpace, space, limit + wrapped, limit + 1, quotemarks);
    quote := quote + [quotemarks + line[lastSpace..]];
  }

  ghost predicate Wrapping(whole: seq<string>, quote: seq<string>, line: string, lastSpace: nat, space: nat,
                           pos: nat, width: int, later: int, marks: string) {
    Scanning(line, lastSpace, space, pos, width) && Owed(whole, quote, line, lastSpace, width, later, marks)
  }

  lemma FirstPiece(whole: seq<string>, quote: seq<string>, line: string, start: nat, width: int, later: int,
                   marks: string)
    requires start <= |line| && whole == quote + PrefixAll(marks, Wrap(line[start..], width, later))
    ensures Wrapping(whole, quote, line, start, start, start, width, later, marks)
  {
  }

  lemma ScanStep(whole: seq<string>, quote: seq<string>, line: string, lastSpace: nat, before: nat, space: nat,
                 pos: nat, width: int, later: int, marks: string)
    requires Wrapping(whole, quote, line, lastSpace, before, pos, width, later, marks) && pos < |line|
    requires space == if line[pos] == ' ' then pos + 1 else before
    requires space == lastSpace || pos + 1 - lastSpace <= width
    ensures Wrapping(whole, quote, line, lastSpace, space, pos + 1, width, later, marks)
  {
    hide Owed;
  }

  lemma WrapStep(whole: seq<string>, quote: seq<string>, line: string, lastSpace: nat, before: nat, space: nat,
                 pos: nat, width: int, later: int, marks: string)
    requires Wrapping(whole, quote, line, lastSpace, before, pos, width, later, marks) && pos < |line|
    requires space == if line[pos] == ' ' then pos + 1 else before
    requires space != lastSpace && pos + 1 - lastSpace > width
    ensures lastSpace < space <= pos + 1
    ensures Wrapping(whole, quote + [marks + line[lastSpace..space]], line, space, space, pos + 1, later, later, marks)
  {
    hide Owed, HasSpace, Cut;
    CutHere(line, lastSpace, space, pos, width);
    WrapHere(whole, quote, line, lastSpace, space, width, later, marks);
  }

  /** What is written so far and the wrapped rest of the line make up the whole. */
  ghost predicate Owed(whole: seq<string>, quote: seq<string>, line: string, lastSpace: nat,
                       width: int, later: int, marks: string) {
    lastSpace <= |line| && quote + PrefixAll(marks, Wrap(line[lastSpace..], width, later)) == whole
  }

  lemma WrapHere(whole: seq<string>, quote: seq<string>, line: string, lastSpace: nat, space: nat,
                 width: int, later: int, marks: string)
    requires Owed(whole, quote, line, lastSpace, width, later, marks) && lastSpace < space <= |line|
    requires HasSpace(line[lastSpace..]) && |line[lastSpace..]| > width
    requires Cut(line[lastSpace..], width + 1) == space - lastSpace
    ensures Owed(whole, quote + [marks + line[lastSpace..space]], line, space, later, later, marks)
  {
    hide Wrap, Cut, HasSpace, PrefixAll;
    var piece, rest := line[lastSpace..space], Wrap(line[space..], later, later);
    WrapUnfold(line, lastSpace, space, width, later);
    PrefixStep(marks, piece, rest);
    assert quote + ([marks + piece] + PrefixAll(marks, rest)) == (quote + [marks + piece]) + PrefixAll(marks, rest);
  }

  lemma WrapUnfold(line: string, lastSpace: nat, space: nat, width: int, later: int)
    requires lastSpace < space <= |line|
    requires HasSpace(line[lastSpace..]) && |line[lastSpace..]| > width
    requires Cut(line[lastSpace..], width + 1) == space - lastSpace
    ensures Wrap(line[lastSpace..], width, later) == [line[lastSpace..space]] + Wrap(line[space..], later, later)
  {
    hide HasSpace, Cut;
    var s := line[lastSpace..];
    assert s[..space - lastSpace] == line[lastSpace..space] && s[space - lastSpace..] == line[space..];
  }

  lemma PrefixStep(marks: string, piece: string, rest: seq<string>)
    ensures PrefixAll(marks, [piece] + rest) == [marks + piece] + PrefixAll(marks, rest)
  {
    assert ([piece] + rest)[1..] == rest;
  }

  lemma LastPiece(whole: seq<string>, quote: seq<string>, line: string, lastSpace: nat, space: nat,
                  width: int, later: int, marks: string)
    requires Wrapping(whole, quote, line, lastSpace, space, |line|, width, later, marks)
    ensures quote + [marks + line[lastSpace..]] == whole
  {
    var s := line[lastSpace..];
    if space == lastSpace {
      assert forall i :: 0 <= i < |s| ==> s[i] == line[lastSpace + i];
      assert !HasSpace(s);
    }
    assert Wrap(s, width, later) == [s];
    OnePrefixed(marks, s);
  }

  lemma OnePrefixed(marks: string, s: string)
    ensures PrefixAll(marks, [s]) == [marks + s]
  {
    var one: seq<string> := [s];
    assert one[1..] == [];
  }

  method QuoteTextLines(text: string) returns (quote: seq<string>)
    ensures quote == QuoteAll(Split(text)) + [""]
  {
    quote := [];
    var lines := Split(text);
    ghost var all := QuoteAll(lines);
    NoLinesYet(lines);
    hide *;
    var n := 0;
    while n < |lines| && !IsSignatureSeparator(lines[n])
      invariant 0 <= n <= |lines|
      invariant Quoted(all, quote, lines, n)
    {
      var line := lines[n];
      NextLine(all, quote, lines, n);
      if |line| < MAX_LINE - 2 {
        var short := QuoteShortLine(line);
        quote := quote + [short];
      } else {
        quote := QuoteLongLine(quote, line);
      }
      n := n + 1;
    }
    NoMoreLines(all, quote, lines, n);
    quote := quote + [""];
  }

  ghost predicate Quoted(all: seq<string>, quote: seq<string>, lines: seq<string>, n: nat) {
    n <= |lines| && quote + QuoteAll(lines[n..]) == all
  }

  lemma NoLinesYet(lines: seq<string>)
    ensures Quoted(QuoteAll(lines), [], lines, 0)
  {
    assert lines[0..] == lines;
  }

  lemma NoMoreLines(all: seq<string>, quote: seq<string>, lines: seq<string>, n: nat)
    requires Quoted(all, quote, lines, n)
    requires n == |lines| || IsSignatureSeparator(lines[n])
    ensures quote == all
  {
    assert n < |lines| ==> lines[n..][0] == lines[n];
    assert QuoteAll(lines[n..]) == [];
  }

  lemma NextLine(all: seq<string>, quote: seq<string>, lines: seq<string>, n: nat)
    requires Quoted(all, quote, lines, n) && n < |lines| && !IsSignatureSeparator(lines[n])
    ensures Quoted(all, quote + QuoteLine(lines[n]), lines, n + 1)
  {
    hide QuoteLine, QuoteAll, IsSignatureSeparator;
    QuoteAllStep(lines, n);
    var line, rest := QuoteLine(lines[n]), QuoteAll(lines[n + 1..]);
    assert quote + (line + rest) == (quote + line) + rest;
  }

  lemma QuoteAllStep(lines: seq<string>, n: nat)
    requires n < |lines| && !IsSignatureSeparator(lines[n])
    ensures QuoteAll(lines[n..]) == QuoteLine(lines[n]) + QuoteAll(lines[n + 1..])
  {
    hide QuoteLine, IsSignatureSeparator;
    assert lines[n..][0] == lines[n] && lines[n..][1..] == lines[n + 1..];
  }

  method QuoteShortLine(line: string) returns (quoted: string)
    requires |line| < MAX_LINE - 2
    ensures [quoted] == QuoteLine(line)
  {
    if line == "" || line[0] == '>' {
      quoted := ">" + line;
    } else {
      quoted := "> " + line;
    }
  }
}
