/** How far joining in the two flowed modes follows RFC 3676. */
module FlowedFacts {
  import opened Text
  import opened QuoteLines
  import opened QuoteLinesFacts
  import opened JoinedText
  import opened JoinComparison

  // ----- the reference -----

  /** Section 4.4 of RFC 3676: a space in front of a line is stuffing. */
  function Unstuff(line: string): string {
    if line != "" && line[0] == ' ' then line[1..] else line
  }

  function Unstuffed(lines: seq<string>): seq<string> {
    seq(|lines|, i requires 0 <= i < |lines| => Unstuff(lines[i]))
  }

  /** Section 4.3: a signature separator is neither fixed nor flowed, in a quotation as well. */
  predicate IsSeparator(line: string) { line == "-- " || line == "-- \r" }

  predicate Flows(line: string) { Soft(line) && !IsSeparator(line) }

  /** Section 4.1: the line break behind a flowed line goes, unless the paragraph ends at a separator. */
  predicate BreakGoes(lines: seq<string>, i: nat) {
    i + 1 < |lines| && Flows(lines[i]) && !IsSeparator(lines[i + 1])
  }

  function ByParagraph(lines: seq<string>): nat -> bool {
    (i: nat) => BreakGoes(lines, i)
  }

  function Reflow(lines: seq<string>): string
    requires lines != []
  {
    Joined(Unstuffed(lines), ByParagraph(Unstuffed(lines)))
  }

  /** With DelSp=yes the space that makes a line flowed is deleted. */
  function DeleteSpaces(lines: seq<string>): seq<string> {
    seq(|lines|, i requires 0 <= i < |lines| => if Flows(lines[i]) then ChopSpace(lines[i]) else lines[i])
  }

  function ReflowDelSp(lines: seq<string>): string
    requires lines != []
  {
    Joined(DeleteSpaces(Unstuffed(lines)), ByParagraph(Unstuffed(lines)))
  }

  // ----- the ink of joined text -----

  function InkSum(pieces: seq<string>): nat {
    if pieces == [] then 0 else InkSum(pieces[..|pieces| - 1]) + InkCount(pieces[|pieces| - 1])
  }

  lemma {:induction false} JoinedInk(pieces: seq<string>, joins: nat -> bool)
    requires pieces != []
    ensures InkCount(Joined(pieces, joins)) == InkSum(pieces)
  {
    hide InkCount, Onward;
    var n := |pieces| - 1;
    if n == 0 {
      assert InkSum(pieces[..0]) == 0;
    } else {
      JoinedInk(pieces[..n], joins);
      EndsInPiece(pieces[..n], joins);
      OnwardInk(Joined(pieces[..n], joins), pieces[n - 1], joins(n - 1), pieces[n]);
    }
  }

  /** Fewer ink in one piece and no more in the others. */
  lemma {:induction false} LessInk(a: seq<string>, b: seq<string>)
    requires |a| == |b| && forall i :: 0 <= i < |a| ==> InkCount(a[i]) <= InkCount(b[i])
    ensures InkSum(a) <= InkSum(b)
    ensures (exists i :: 0 <= i < |a| && InkCount(a[i]) < InkCount(b[i])) ==> InkSum(a) < InkSum(b)
  {
    hide InkCount;
    var n := |a| - 1;
    if n >= 0 {
      LessInk(a[..n], b[..n]);
      if i :| 0 <= i < |a| && InkCount(a[i]) < InkCount(b[i]) {
        assert i < n ==> a[..n][i] == a[i] && b[..n][i] == b[i];
      }
    }
  }

  lemma UnstuffInk(line: string)
    ensures InkCount(Unstuff(line)) + (if Unstuff(line) == line then 0 else 1) == InkCount(line)
  {
    if line != "" && line[0] == ' ' {
      hide InkCount;
      InkOfOne(' ');
      InkCountConcat([line[0]], line[1..]);
      assert line == [line[0]] + line[1..];
    }
  }

  // ----- flowed text -----

  function BySoftness(pieces: seq<string>): nat -> bool {
    (i: nat) => i < |pieces| && SoftSoFar(pieces, i)
  }

  predicate NotStuffed(lines: seq<string>) {
    forall i :: 0 <= i < |lines| ==> Unstuff(lines[i]) == lines[i]
  }

  /** What the break behind line `i` must be like: not behind a separator or in front of one, and not behind a blank
      line that follows a flowed one. */
  predicate FlowsWell(lines: seq<string>, i: nat)
    requires i + 1 < |lines|
  {
    && (Soft(lines[i]) ==> !IsSeparator(lines[i]) && !IsSeparator(lines[i + 1]))
    && (i > 0 && Soft(lines[i - 1]) ==> !Blank(lines[i]))
  }

  lemma {:induction false} SameBreaks(lines: seq<string>, n: nat)
    requires n < |lines|
    ensures (forall i :: 0 <= i < n ==> SoftSoFar(lines, i) == BreakGoes(lines, i))
       <==> forall i :: 0 <= i < n ==> FlowsWell(lines, i)
  {
    hide SoftSoFar, BreakGoes, FlowsWell;
    if n > 0 {
      SameBreaks(lines, n - 1);
      if forall i :: 0 <= i < n - 1 ==> FlowsWell(lines, i) {
        OneBreak(lines, n - 1);
      }
    }
  }

  lemma OneBreak(lines: seq<string>, i: nat)
    requires i + 1 < |lines|
    requires i > 0 ==> SoftSoFar(lines, i - 1) == BreakGoes(lines, i - 1) && FlowsWell(lines, i - 1)
    ensures SoftSoFar(lines, i) == BreakGoes(lines, i) <==> FlowsWell(lines, i)
  {
    hide Soft, Blank, IsSeparator;
    BlankOrSoft(lines[i]);
    if i > 0 { SoftUnfolds(lines, i); }
  }

  lemma BlankOrSoft(line: string)
    ensures !(Soft(line) && Blank(line)) && (IsSeparator(line) ==> Soft(line))
  {
  }

  /** The joined text is the one that RFC 3676 asks for if and only if no line is stuffed, no line that ends in a
      space in front of a further one is a signature separator or stands in front of one, and no blank line stands
      between a flowed line and a further line. */
  lemma FlowedMeetsRfc(run: seq<TextInfo>)
    requires run != [] && OneLineEach(run)
    ensures
      var lines := Texts(run);
      GlueAll(Flowed, run) == Reflow(lines)
      <==> NotStuffed(lines) && forall i :: 0 <= i < |lines| - 1 ==> FlowsWell(lines, i)
  {
    var lines := Texts(run);
    var n := |lines| - 1;
    var code, rfc := BySoftness(lines), ByParagraph(Unstuffed(lines));
    TextsAre(run);
    assert OneLinePieces(lines);
    assert JoinsBySoftness(lines, code);
    hide GlueAll, Joined, SoftSoFar, FlowsWell, InkCount, Unstuff, BreakGoes;
    GlueJoins(run, code);
    if NotStuffed(lines) {
      assert Unstuffed(lines) == lines;
      JoinsDecide(lines, code, rfc);
      assert forall i :: 0 <= i < n ==> code(i) == SoftSoFar(lines, i) && rfc(i) == BreakGoes(lines, i);
      SameBreaks(lines, n);
    } else {
      StuffingCounts(lines, code, rfc);
    }
  }

  lemma StuffingCounts(lines: seq<string>, code: nat -> bool, rfc: nat -> bool)
    requires lines != [] && !NotStuffed(lines)
    ensures Joined(lines, code) != Joined(Unstuffed(lines), rfc)
  {
    hide Joined, InkCount, Unstuff;
    forall i | 0 <= i < |lines|
      ensures InkCount(Unstuffed(lines)[i]) + (if Unstuff(lines[i]) == lines[i] then 0 else 1) == InkCount(lines[i])
    {
      UnstuffInk(lines[i]);
    }
    LessInk(Unstuffed(lines), lines);
    JoinedInk(lines, code);
    JoinedInk(Unstuffed(lines), rfc);
  }

  // ----- flowed text with deleted spaces -----

  /** Two spaces at the end, with at most a CR between or behind them. */
  predicate EndsInTwoSpaces(text: string) {
    var n := |text|;
    || (n >= 2 && text[n - 1] == ' ' && text[n - 2] == ' ')
    || (n >= 3 && text[n - 1] == '\r' && text[n - 2] == ' ' && text[n - 3] == ' ')
    || (n >= 3 && text[n - 1] == ' ' && text[n - 2] == '\r' && text[n - 3] == ' ')
  }

  lemma TwoSpaces(text: string)
    ensures Soft(ChopSpace(text)) <==> EndsInTwoSpaces(text)
  {
  }

  function Chopped(run: seq<TextInfo>): seq<TextInfo> {
    seq(|run|, i requires 0 <= i < |run| => run[i].(text := ChopSpace(run[i].text)))
  }

  function ChopAll(lines: seq<string>): seq<string> {
    seq(|lines|, i requires 0 <= i < |lines| => ChopSpace(lines[i]))
  }

  predicate NoSeparator(lines: seq<string>) {
    forall i :: 0 <= i < |lines| ==> !IsSeparator(Unstuff(lines[i]))
  }

  /** Nothing is stuffed but empty lines. */
  predicate OnlyBlankStuffed(lines: seq<string>) {
    forall i :: 0 <= i < |lines| ==> Unstuff(lines[i]) == lines[i] || Blank(Unstuff(lines[i]))
  }

  /** What line `i` must be like when its space is deleted before the joining: a flowed line keeps a second space,
      or nothing is left of it behind a flowed line; a fixed line is not blank behind a flowed line. */
  predicate ChopsWell(lines: seq<string>, i: nat)
    requires i < |lines|
  {
    var behindFlowed := i > 0 && Soft(lines[i - 1]);
    if Soft(lines[i]) then EndsInTwoSpaces(lines[i]) || (Blank(ChopSpace(lines[i])) && behindFlowed)
    else !(Blank(lines[i]) && behindFlowed)
  }

  lemma {:induction false} SameAsFlowed(run: seq<TextInfo>)
    requires run != []
    ensures GlueAll(FlowedDelSp, run) == GlueAll(Flowed, run)
  {
    if |run| > 1 { SameAsFlowed(run[..|run| - 1]); }
  }

  lemma {:induction false} SameChoppedBreaks(lines: seq<string>, n: nat)
    requires n < |lines| && forall i :: 0 <= i < |lines| ==> !IsSeparator(lines[i])
    ensures (forall i :: 0 <= i < n ==> SoftSoFar(ChopAll(lines), i) == BreakGoes(lines, i))
       <==> forall i :: 0 <= i < n ==> ChopsWell(lines, i)
  {
    hide SoftSoFar, BreakGoes, ChopsWell, IsSeparator;
    if n > 0 {
      SameChoppedBreaks(lines, n - 1);
      if forall i :: 0 <= i < n - 1 ==> ChopsWell(lines, i) {
        OneChoppedBreak(lines, n - 1);
      }
    }
  }

  lemma OneChoppedBreak(lines: seq<string>, i: nat)
    requires i + 1 < |lines| && forall k :: 0 <= k < |lines| ==> !IsSeparator(lines[k])
    requires i > 0 ==> SoftSoFar(ChopAll(lines), i - 1) == BreakGoes(lines, i - 1)
    ensures SoftSoFar(ChopAll(lines), i) == BreakGoes(lines, i) <==> ChopsWell(lines, i)
  {
    hide IsSeparator, EndsInTwoSpaces, ChopSpace, Soft, Blank;
    TwoSpaces(lines[i]);
    ChopOnlySoft(lines[i]);
    BlankOrSoft(lines[i]);
    if i > 0 { SoftUnfolds(ChopAll(lines), i); }
  }

  lemma ChopOnlySoft(line: string)
    ensures !Soft(line) ==> ChopSpace(line) == line && !EndsInTwoSpaces(line)
  {
  }

  /** Characters that neither unstuffing nor the deletion of spaces can take away. */
  function Solids(s: string): nat {
    if s == "" then 0 else (if s[0] == ' ' || !IsInk(s[0]) then 0 else 1) + Solids(s[1..])
  }

  lemma {:induction false} SolidsConcat(a: string, b: string)
    ensures Solids(a + b) == Solids(a) + Solids(b)
  {
    if a == "" {
      assert a + b == b;
    } else {
      assert (a + b)[1..] == a[1..] + b;
      SolidsConcat(a[1..], b);
    }
  }

  lemma SolidsOfOne(c: char)
    ensures Solids([c]) == if c == ' ' || !IsInk(c) then 0 else 1
  {
    assert [c][1..] == "" && Solids("") == 0;
  }

  lemma ChopKeepsSolids(line: string)
    ensures Solids(ChopSpace(line)) == Solids(line)
  {
    hide Solids;
    SolidsOfOne(' ');
    SolidsOfOne('\r');
    if EndsInSpaceCr(line) {
      var front := line[..|line| - 2];
      SolidsConcat(front + " ", "\r");
      SolidsConcat(front, " ");
      SolidsConcat(front, "\r");
      assert line == front + " " + "\r";
    } else if EndsInSpace(line) {
      SolidsConcat(line[..|line| - 1], " ");
      assert line == line[..|line| - 1] + " ";
    }
  }

  lemma UnstuffKeepsSolids(line: string)
    ensures Solids(Unstuff(line)) == Solids(line)
  {
  }

  function SolidSum(pieces: seq<string>): nat {
    if pieces == [] then 0 else SolidSum(pieces[..|pieces| - 1]) + Solids(pieces[|pieces| - 1])
  }

  lemma {:induction false} SameSolidSum(a: seq<string>, b: seq<string>)
    requires |a| == |b| && forall i :: 0 <= i < |a| ==> Solids(a[i]) == Solids(b[i])
    ensures SolidSum(a) == SolidSum(b)
  {
    hide Solids;
    if a != [] { SameSolidSum(a[..|a| - 1], b[..|b| - 1]); }
  }

  lemma {:induction false} JoinedSolids(pieces: seq<string>, joins: nat -> bool)
    requires pieces != []
    ensures Solids(Joined(pieces, joins)) == SolidSum(pieces)
  {
    hide Solids, Onward;
    var n := |pieces| - 1;
    if n == 0 {
      assert SolidSum(pieces[..0]) == 0;
    } else {
      JoinedSolids(pieces[..n], joins);
      EndsInPiece(pieces[..n], joins);
      OnwardSolids(Joined(pieces[..n], joins), pieces[n - 1], joins(n - 1), pieces[n]);
    }
  }

  lemma OnwardSolids(text: string, piece: string, join: bool, next: string)
    requires EndsWith(text, piece)
    ensures Solids(Onward(text, piece, join, next)) == Solids(text) + Solids(next)
  {
    hide Solids;
    var front := if join then WithoutCr(text, piece) else text + "\n";
    SolidsConcat(front, next);
    SolidsOfOne('\n');
    SolidsOfOne('\r');
    SolidsConcat(text, "\n");
    if EndsInCr(piece) {
      SameEnd(text, piece);
      SolidsConcat(text[..|text| - 1], "\r");
      assert text == text[..|text| - 1] + "\r";
    }
  }

  function Bare(piece: string): string {
    if EndsInCr(piece) then piece[..|piece| - 1] else piece
  }

  /** Where a piece stands in the joined text, without its CR, and what follows it. */
  lemma {:induction false} PieceStands(pieces: seq<string>, joins: nat -> bool, i: nat)
    returns (front: string, back: string)
    requires i < |pieces| && !joins(i)
    ensures Joined(pieces, joins) == front + Bare(pieces[i]) + back
    ensures Solids(front) == SolidSum(pieces[..i])
    ensures if i + 1 < |pieces| then StartsWith(back, "\n") || StartsWith(back, "\r\n") else back == "" || back == "\r"
  {
    hide Solids, SolidSum, StartsWith, Bare, Onward, EndsWith;
    var n := |pieces| - 1;
    if n > 0 { JoinedUnfolds(pieces, joins); }
    if i == n {
      front, back := LastStands(pieces, joins);
    } else {
      var text := Joined(pieces[..n], joins);
      assert pieces[..n][..i] == pieces[..i] && pieces[..n][i] == pieces[i];
      front, back := PieceStands(pieces[..n], joins, i);
      EndsInPiece(pieces[..n], joins);
      hide Joined;
      back := StandsOn(text, front, Bare(pieces[i]), back, pieces[n - 1], i == n - 1, joins(n - 1), pieces[n]);
    }
  }

  lemma LastStands(pieces: seq<string>, joins: nat -> bool) returns (front: string, back: string)
    requires pieces != []
    ensures Joined(pieces, joins) == front + Bare(pieces[|pieces| - 1]) + back
    ensures Solids(front) == SolidSum(pieces[..|pieces| - 1])
    ensures back == "" || back == "\r"
  {
    hide Solids;
    var n := |pieces| - 1;
    var last := pieces[n];
    back := if EndsInCr(last) then "\r" else "";
    assert last == Bare(last) + back;
    if n == 0 {
      front := "";
      NoSolids();
      assert Joined(pieces, joins) == front + Bare(last) + back;
    } else {
      var text := Joined(pieces[..n], joins);
      front := if joins(n - 1) then WithoutCr(text, pieces[n - 1]) else text + "\n";
      JoinedSolids(pieces[..n], joins);
      EndsInPiece(pieces[..n], joins);
      OnwardSolids(text, pieces[n - 1], joins(n - 1), "");
      NoSolids();
      assert Onward(text, pieces[n - 1], joins(n - 1), "") == front;
      assert pieces[..n] != [];
      assert Joined(pieces, joins) == front + last == front + Bare(last) + back;
    }
  }

  lemma NoSolids()
    ensures Solids("") == 0 && SolidSum([]) == 0
  {
  }

  lemma StandsOn(text: string, front: string, bare: string, back: string, piece: string, last: bool, join: bool,
                 next: string)
    returns (more: string)
    requires text == front + bare + back && EndsWith(text, piece) && (last ==> !join)
    requires if last then back == "" || back == "\r" else StartsWith(back, "\n") || StartsWith(back, "\r\n")
    ensures Onward(text, piece, join, next) == front + bare + more
    ensures StartsWith(more, "\n") || StartsWith(more, "\r\n")
  {
    if !join {
      more := back + "\n" + next;
      assert more[..1] == "\n" || more[..2] == "\r\n";
      assert text + "\n" + next == front + bare + (back + "\n" + next);
    } else if !EndsInCr(piece) {
      more := back + next;
      assert text + next == front + bare + (back + next);
      StillStarts(back, back, next);
    } else {
      SameEnd(text, piece);
      var cut := back[..|back| - 1];
      assert text[|text| - 1] == back[|back| - 1];
      more := cut + next;
      assert WithoutCr(text, piece) == front + bare + cut;
      assert front + bare + cut + next == front + bare + (cut + next);
      StillStarts(back, cut, next);
    }
  }

  lemma StillStarts(back: string, cut: string, next: string)
    requires StartsWith(back, "\n") || StartsWith(back, "\r\n")
    requires cut == back || (back[|back| - 1] == '\r' && cut == back[..|back| - 1])
    ensures StartsWith(cut + next, "\n") || StartsWith(cut + next, "\r\n")
  {
    if StartsWith(back, "\n") {
      assert back[0] == "\n"[0];
      assert (cut + next)[..1] == "\n";
    } else {
      assert back[..2][0] == back[0] == '\r' && back[..2][1] == back[1] == '\n';
      assert (cut + next)[..2] == "\r\n";
    }
  }

  /** A separator is flowed to the formatter, which takes its space away. */
  lemma SeparatorPieces(line: string) returns (pre: string)
    requires IsSeparator(Unstuff(line))
    ensures Bare(ChopSpace(line)) == pre + "--" && Solids(pre) == 0
    ensures Bare(Unstuff(line)) == "-- " && !Flows(Unstuff(line))
    ensures !Soft(ChopSpace(line)) && !Blank(ChopSpace(line))
  {
    SolidsOfOne(' ');
    NoSolids();
    Trimmed();
    if Unstuff(line) == line {
      pre := "";
      assert line == "-- " || line == "-- \r";
    } else {
      pre := " ";
      assert line == [' '] + Unstuff(line);
      assert line == " -- " || line == " -- \r";
    }
    hide ChopSpace, Soft, Bare, Solids, Unstuff;
  }

  lemma Trimmed()
    ensures ChopSpace("-- ") == "--" && ChopSpace("-- \r") == "--\r"
    ensures ChopSpace(" -- ") == " --" && ChopSpace(" -- \r") == " --\r"
    ensures Bare("--") == Bare("--\r") == "--" && Bare(" --") == Bare(" --\r") == " --"
    ensures Bare("-- ") == Bare("-- \r") == "-- "
    ensures !Soft("--") && !Soft("--\r") && !Soft(" --") && !Soft(" --\r")
  {
  }

  lemma DashInFront(b: string, k: nat)
    requires k < |b| && b[k] == '-'
    ensures Solids(b[..k]) < Solids(b)
  {
    hide Solids;
    assert b == b[..k] + "-" + b[k + 1..];
    SolidsConcat(b[..k] + "-", b[k + 1..]);
    SolidsConcat(b[..k], "-");
    SolidsOfOne('-');
  }

  lemma FrontIsNotShorter(text: string, i: nat, j: nat)
    requires i < |text| && j <= |text| && text[i] == '-' && Solids(text[..i]) == Solids(text[..j])
    ensures i >= j
  {
    hide Solids;
    if i < j {
      assert text[..j][..i] == text[..i];
      DashInFront(text[..j], i);
    }
  }

  lemma OtherBehind(a: string, back: string, b: string, back': string)
    requires Solids(a) == Solids(b) && (back == "" || back[0] != ' ')
    ensures a + "--" + back != b + "-- " + back'
  {
    hide Solids;
    var c, d := a + "--" + back, b + "-- " + back';
    assert c[..|a|] == a && c[|a|] == '-' && (back != "" ==> c[|a| + 2] == back[0]);
    assert d[..|b|] == b && d[|b|] == '-' && d[|b| + 2] == ' ';
    if c == d {
      FrontIsNotShorter(c, |a|, |b|);
      FrontIsNotShorter(c, |b|, |a|);
    }
  }

  /** A separator keeps its space in the reference and loses it in the formatter. */
  lemma SeparatorShows(lines: seq<string>, code: nat -> bool, rfc: nat -> bool, i: nat)
    requires i < |lines| && IsSeparator(Unstuff(lines[i]))
    requires !code(i) && !rfc(i)
    ensures Joined(ChopAll(lines), code) != Joined(DeleteSpaces(Unstuffed(lines)), rfc)
  {
    hide *;
    var chopped, deleted := ChopAll(lines), DeleteSpaces(Unstuffed(lines));
    ChoppedAre(lines, i);
    var pre := SeparatorPieces(lines[i]);
    var front, back := PieceStands(chopped, code, i);
    var front', back' := PieceStands(deleted, rfc, i);
    SameSolids(lines, i);
    SolidsConcat(front, pre);
    BehindPiece(back);
    assert front + (pre + "--") + back == (front + pre) + "--" + back;
    OtherBehind(front + pre, back, front', back');
  }

  lemma BehindPiece(back: string)
    requires StartsWith(back, "\n") || StartsWith(back, "\r\n") || back == "" || back == "\r"
    ensures back == "" || back[0] != ' '
  {
    assert StartsWith(back, "\n") ==> back[..1][0] == '\n';
    assert StartsWith(back, "\r\n") ==> back[..2][0] == '\r';
  }

  lemma ChoppedAre(lines: seq<string>, i: nat)
    requires i < |lines|
    ensures |ChopAll(lines)| == |DeleteSpaces(Unstuffed(lines))| == |lines|
    ensures ChopAll(lines)[i] == ChopSpace(lines[i])
    ensures
      var line := Unstuff(lines[i]);
      DeleteSpaces(Unstuffed(lines))[i] == if Flows(line) then ChopSpace(line) else line
  {
  }

  lemma SameSolids(lines: seq<string>, n: nat)
    requires n <= |lines| == |ChopAll(lines)| == |DeleteSpaces(Unstuffed(lines))|
    ensures SolidSum(ChopAll(lines)[..n]) == SolidSum(DeleteSpaces(Unstuffed(lines))[..n])
  {
    hide *;
    var chopped, deleted := ChopAll(lines), DeleteSpaces(Unstuffed(lines));
    forall k | 0 <= k < n ensures Solids(chopped[..n][k]) == Solids(deleted[..n][k]) {
      ChoppedAre(lines, k);
      ChopKeepsSolids(lines[k]);
      ChopKeepsSolids(Unstuff(lines[k]));
      UnstuffKeepsSolids(lines[k]);
    }
    SameSolidSum(chopped[..n], deleted[..n]);
  }

  /** Deleting the space of a stuffed line leaves more of it than its unstuffed text has, unless that is blank. */
  lemma ChoppedInk(line: string)
    requires !IsSeparator(Unstuff(line))
    ensures
      var deleted := if Flows(Unstuff(line)) then ChopSpace(Unstuff(line)) else Unstuff(line);
      if Unstuff(line) == line || Blank(Unstuff(line)) then InkCount(deleted) == InkCount(ChopSpace(line))
      else InkCount(deleted) < InkCount(ChopSpace(line))
  {
    hide InkCount;
    ChopOnlySoft(Unstuff(line));
    if line != "" && line[0] == ' ' {
      var rest := line[1..];
      assert line == [' '] + rest;
      if Blank(rest) {
        assert rest == "" || rest == "\r";
        assert line == " " || line == " \r";
        assert ChopSpace(line) == rest;
      } else {
        ChopBehindStuffing(rest);
        InkOfOne(' ');
        InkCountConcat([' '], ChopSpace(rest));
      }
    }
  }

  lemma ChopBehindStuffing(rest: string)
    requires !Blank(rest)
    ensures ChopSpace([' '] + rest) == [' '] + ChopSpace(rest)
  {
    var line := [' '] + rest;
    assert |rest| >= 1 ==> rest[|rest| - 1] == line[|line| - 1];
    assert |rest| >= 2 ==> rest[|rest| - 2] == line[|line| - 2];
  }

  /** Lines whose chopped text has more ink than the reference keeps. */
  lemma StuffingStays(lines: seq<string>, code: nat -> bool, rfc: nat -> bool)
    requires lines != [] && NoSeparator(lines) && !OnlyBlankStuffed(lines)
    ensures Joined(ChopAll(lines), code) != Joined(DeleteSpaces(Unstuffed(lines)), rfc)
  {
    var chopped, deleted := ChopAll(lines), DeleteSpaces(Unstuffed(lines));
    hide Joined, InkCount, Unstuff, ChopSpace, IsSeparator, Flows, Blank;
    forall i | 0 <= i < |lines|
      ensures InkCount(deleted[i]) <= InkCount(chopped[i])
      ensures
        !(Unstuff(lines[i]) == lines[i] || Blank(Unstuff(lines[i]))) ==> InkCount(deleted[i]) < InkCount(chopped[i])
    {
      ChoppedAre(lines, i);
      ChoppedInk(lines[i]);
    }
    LessInk(deleted, chopped);
    JoinedInk(chopped, code);
    JoinedInk(deleted, rfc);
  }

  /** Where only blank text is stuffed, unstuffing and deleting give what the formatter has deleted. */
  lemma SamePieces(lines: seq<string>)
    requires NoSeparator(lines) && OnlyBlankStuffed(lines)
    ensures ChopAll(lines) == ChopAll(Unstuffed(lines)) == DeleteSpaces(Unstuffed(lines))
    ensures forall i :: 0 <= i < |lines| ==> !IsSeparator(Unstuffed(lines)[i])
  {
    hide Unstuff, ChopSpace, IsSeparator, Soft, Blank;
    forall i | 0 <= i < |lines|
      ensures ChopSpace(lines[i]) == ChopSpace(Unstuff(lines[i]))
      ensures ChopAll(Unstuffed(lines))[i] == DeleteSpaces(Unstuffed(lines))[i]
    {
      ChopOnlySoft(Unstuff(lines[i]));
      if Unstuff(lines[i]) != lines[i] { ChoppedBlank(lines[i]); }
    }
  }

  lemma ChoppedBlank(line: string)
    requires Unstuff(line) != line && Blank(Unstuff(line))
    ensures ChopSpace(line) == ChopSpace(Unstuff(line))
  {
    assert line == [' '] + line[1..];
    assert line == " " || line == " \r";
  }

  lemma ChoppedPieces(run: seq<TextInfo>)
    requires OneLineEach(run)
    ensures Texts(Chopped(run)) == ChopAll(Texts(run)) && OneLinePieces(ChopAll(Texts(run)))
  {
    forall i | 0 <= i < |run| ensures '\n' !in ChopSpace(run[i].text) {
      ChopNoNewline(run[i].text);
    }
  }

  lemma ChopNoNewline(line: string)
    requires '\n' !in line
    ensures '\n' !in ChopSpace(line)
  {
  }

  /** With deleted spaces the joined text is the one that RFC 3676 asks for if and only if there is no signature
      separator among the lines, nothing but blank text is stuffed, and each flowed line in front of a further one
      ends in two spaces or is nothing but its space behind a flowed line, and no blank line follows a flowed one. */
  lemma DelSpMeetsRfc(run: seq<TextInfo>)
    requires run != [] && OneLineEach(run)
    ensures
      var lines := Texts(run);
      GlueAll(FlowedDelSp, Chopped(run)) == ReflowDelSp(lines)
      <==> NoSeparator(lines) && OnlyBlankStuffed(lines)
           && forall i :: 0 <= i < |lines| - 1 ==> ChopsWell(Unstuffed(lines), i)
  {
    hide *;
    var lines := Texts(run);
    var plain := Unstuffed(lines);
    var code, rfc := BySoftness(ChopAll(lines)), ByParagraph(plain);
    TextsAre(run);
    ChoppedPieces(run);
    SoftnessIs(ChopAll(lines));
    ChoppedRun(run);
    SameAsFlowed(Chopped(run));
    GlueJoins(Chopped(run), code);
    ReflowIs(lines);
    if !NoSeparator(lines) {
      SomeSeparator(lines);
    } else if !OnlyBlankStuffed(lines) {
      StuffingStays(lines, code, rfc);
    } else {
      SamePieces(lines);
      JoinsDecide(ChopAll(lines), code, rfc);
      SoftOrParagraph(lines, ChopAll(lines));
      SameChoppedBreaks(plain, |lines| - 1);
    }
  }

  lemma SoftnessIs(pieces: seq<string>)
    ensures JoinsBySoftness(pieces, BySoftness(pieces))
  {
    hide SoftSoFar;
  }

  lemma ChoppedRun(run: seq<TextInfo>)
    ensures |Chopped(run)| == |run|
  {
  }

  lemma ReflowIs(lines: seq<string>)
    requires lines != []
    ensures |Unstuffed(lines)| == |ChopAll(lines)| == |lines|
    ensures
      |DeleteSpaces(Unstuffed(lines))| == |lines|
      && ReflowDelSp(lines) == Joined(DeleteSpaces(Unstuffed(lines)), ByParagraph(Unstuffed(lines)))
  {
    hide Joined;
  }

  lemma SomeSeparator(lines: seq<string>)
    requires lines != [] && !NoSeparator(lines)
    ensures
      Joined(ChopAll(lines), BySoftness(ChopAll(lines)))
      != Joined(DeleteSpaces(Unstuffed(lines)), ByParagraph(Unstuffed(lines)))
  {
    hide Joined, Unstuff, IsSeparator, Soft, Blank, ChopSpace;
    var i :| 0 <= i < |lines| && IsSeparator(Unstuff(lines[i]));
    var pre := SeparatorPieces(lines[i]);
    SeparatorShows(lines, BySoftness(ChopAll(lines)), ByParagraph(Unstuffed(lines)), i);
  }

  lemma SoftOrParagraph(lines: seq<string>, pieces: seq<string>)
    requires |lines| == |pieces| > 0
    ensures forall i :: 0 <= i < |lines| ==> BySoftness(pieces)(i) == SoftSoFar(pieces, i)
    ensures forall i: nat :: ByParagraph(Unstuffed(lines))(i) == BreakGoes(Unstuffed(lines), i)
  {
    hide SoftSoFar, BreakGoes;
  }

  lemma JoinedThree(a: string, b: string, c: string, joins: nat -> bool)
    ensures Joined([a, b, c], joins) == Onward(Onward(a, a, joins(0), b), b, joins(1), c)
  {
    hide Joined, Onward;
    assert [a, b, c][..2] == [a, b] && [a, b][..1] == [a];
    JoinedUnfolds([a, b, c], joins);
    JoinedUnfolds([a, b], joins);
    JoinedOne(a, joins);
  }

  lemma JoinedOne(a: string, joins: nat -> bool)
    ensures Joined([a], joins) == a
  {
  }

  lemma GluedThree(flow: Flow, a: string, b: string, c: string)
    ensures GlueAll(flow, InRun(a, b, c)) == Glue(flow, Glue(flow, a, b), c)
  {
    hide Glue;
    var run := InRun(a, b, c);
    var two := [run[0], run[1]];
    assert run[..2] == two && two[..1] == [run[0]];
    assert GlueAll(flow, two) == Glue(flow, a, b);
  }

  function InRun(a: string, b: string, c: string): seq<TextInfo> {
    [TextInfo(0, a), TextInfo(0, b), TextInfo(0, c)]
  }

  /** A blank line is joined to the next line where the line in front of it is flowed. */
  lemma BlankIsJoined()
    ensures GlueAll(Flowed, InRun("a ", "", "b")) == "a b" && Reflow(["a ", "", "b"]) == "a \nb"
  {
    hide GlueAll, Joined;
    GluedThree(Flowed, "a ", "", "b");
    var lines := ["a ", "", "b"];
    assert Unstuffed(lines) == lines;
    JoinedThree("a ", "", "b", ByParagraph(lines));
  }

  lemma BlankIsJoinedChopped()
    ensures
      GlueAll(FlowedDelSp, Chopped(InRun("a  ", "", "b"))) == "a b" && ReflowDelSp(["a  ", "", "b"]) == "a \nb"
  {
    hide GlueAll, Joined;
    var lines := ["a  ", "", "b"];
    assert ChopSpace("a  ") == "a " && ChopSpace("") == "" && ChopSpace("b") == "b";
    assert Chopped(InRun("a  ", "", "b")) == InRun("a ", "", "b");
    GluedThree(FlowedDelSp, "a ", "", "b");
    assert Unstuffed(lines) == lines && DeleteSpaces(lines) == ["a ", "", "b"];
    JoinedThree("a ", "", "b", ByParagraph(lines));
  }

  /** The space of a stuffed line stays. */
  lemma StuffingIsKept()
    ensures
      var run := [TextInfo(0, "a "), TextInfo(0, " b")];
      GlueAll(Flowed, run) == "a  b" && Reflow(["a ", " b"]) == "a b"
  {
    var run := [TextInfo(0, "a "), TextInfo(0, " b")];
    assert run[..1] == [run[0]];
    var lines := ["a ", " b"];
    assert Unstuffed(lines) == ["a ", "b"];
    assert ["a ", "b"][..1] == ["a "];
  }
}
