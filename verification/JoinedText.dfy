/** Pieces of text joined with or without a line break, as the formatter joins lines. */
module JoinedText {
  import opened Text
  import opened QuoteLines
  import opened QuoteLinesFacts

  /** A flowed line: it ends in a space, before the CR if there is one. */
  predicate Soft(line: string) {
    EndsInSpace(line) || EndsInSpaceCr(line)
  }

  predicate Blank(line: string) {
    line == "" || line == "\r"
  }

  predicate EndsInCr(piece: string) { piece != "" && piece[|piece| - 1] == '\r' }

  /** A text that ends in `piece`, without the CR at its end. */
  function WithoutCr(text: string, piece: string): string {
    if EndsInCr(piece) && text != "" then text[..|text| - 1] else text
  }

  /** The pieces in a row, with a line break behind piece `i` unless it is joined to the next one. The CR in front
      of a line break goes with it. */
  function Joined(pieces: seq<string>, joins: nat -> bool): string
    requires pieces != []
  {
    var n := |pieces| - 1;
    if n == 0 then pieces[0]
    else Onward(Joined(pieces[..n], joins), pieces[n - 1], joins(n - 1), pieces[n])
  }

  function Ahead(text: string, piece: string, join: bool): string {
    if join then WithoutCr(text, piece) else text + "\n"
  }

  function Onward(text: string, piece: string, join: bool, next: string): string {
    Ahead(text, piece, join) + next
  }

  /** Joining goes by the end of the text so far: behind a soft piece, and behind blank pieces that follow one. */
  predicate SoftSoFar(pieces: seq<string>, i: nat)
    requires i < |pieces|
  {
    Soft(pieces[i]) || (Blank(pieces[i]) && i > 0 && SoftSoFar(pieces, i - 1))
  }

  ghost predicate JoinsBySoftness(pieces: seq<string>, joins: nat -> bool) {
    forall i :: 0 <= i < |pieces| ==> joins(i) == SoftSoFar(pieces, i)
  }

  predicate OneLinePieces(pieces: seq<string>) {
    forall i :: 0 <= i < |pieces| ==> '\n' !in pieces[i]
  }

  lemma {:induction false} SoftPrefix(pieces: seq<string>, n: nat, i: nat)
    requires i < n <= |pieces|
    ensures SoftSoFar(pieces[..n], i) == SoftSoFar(pieces, i)
  {
    hide Soft, Blank;
    assert pieces[..n][i] == pieces[i];
    if i > 0 { SoftPrefix(pieces, n, i - 1); }
  }

  lemma PrefixOfSoft(pieces: seq<string>, n: nat, joins: nat -> bool)
    requires n <= |pieces| && JoinsBySoftness(pieces, joins)
    ensures JoinsBySoftness(pieces[..n], joins)
  {
    hide SoftSoFar;
    forall i | 0 <= i < n ensures joins(i) == SoftSoFar(pieces[..n], i) {
      SoftPrefix(pieces, n, i);
    }
  }

  /** The formatter joins by softness: what it looks at is the end of the text that it has joined so far. */
  lemma {:induction false} GlueJoins(run: seq<TextInfo>, joins: nat -> bool)
    requires run != [] && JoinsBySoftness(Texts(run), joins)
    ensures GlueAll(Flowed, run) == Joined(Texts(run), joins)
    ensures Soft(GlueAll(Flowed, run)) == SoftSoFar(Texts(run), |run| - 1)
    ensures run[|run| - 1].text == "" ==> !EndsInSpaceCr(GlueAll(Flowed, run))
  {
    hide *;
    var n := |run| - 1;
    var pieces := Texts(run);
    TextsAre(run);
    if n == 0 {
      GlueOne(run, joins);
    } else {
      var front := run[..n];
      TextsAre(front);
      assert Texts(front) == pieces[..n];
      PrefixOfSoft(pieces, n, joins);
      GlueJoins(front, joins);
      LastJoins(pieces[..n], joins);
      GlueUnfolds(run);
      JoinedUnfolds(pieces, joins);
      EndsInPiece(pieces[..n], joins);
      GlueStep(GlueAll(Flowed, front), pieces[n - 1], pieces[n]);
      SoftPrefix(pieces, n, n - 1);
      SoftUnfolds(pieces, n);
    }
  }

  lemma TextsAre(run: seq<TextInfo>)
    ensures |Texts(run)| == |run| && forall i :: 0 <= i < |run| ==> Texts(run)[i] == run[i].text
  {
  }

  lemma GlueOne(run: seq<TextInfo>, joins: nat -> bool)
    requires |run| == 1
    ensures GlueAll(Flowed, run) == Joined(Texts(run), joins)
    ensures Soft(GlueAll(Flowed, run)) == SoftSoFar(Texts(run), 0)
    ensures run[0].text == "" ==> !EndsInSpaceCr(GlueAll(Flowed, run))
  {
    hide Soft;
  }

  lemma GlueUnfolds(run: seq<TextInfo>)
    requires |run| > 1
    ensures GlueAll(Flowed, run) == Glue(Flowed, GlueAll(Flowed, run[..|run| - 1]), run[|run| - 1].text)
  {
    hide Glue;
  }

  lemma JoinedUnfolds(pieces: seq<string>, joins: nat -> bool)
    requires |pieces| > 1
    ensures
      var n := |pieces| - 1;
      Joined(pieces, joins) == Onward(Joined(pieces[..n], joins), pieces[n - 1], joins(n - 1), pieces[n])
  {
    hide Onward;
  }

  lemma SoftUnfolds(pieces: seq<string>, i: nat)
    requires 0 < i < |pieces|
    ensures SoftSoFar(pieces, i) == (Soft(pieces[i]) || (Blank(pieces[i]) && SoftSoFar(pieces, i - 1)))
  {
    hide Soft, Blank;
  }

  /** A joined text ends in its last piece. Behind an empty piece it is soft or broken. */
  lemma EndsInPiece(pieces: seq<string>, joins: nat -> bool)
    requires pieces != []
    ensures EndsWith(Joined(pieces, joins), pieces[|pieces| - 1])
  {
    hide Onward;
    var n := |pieces| - 1;
    if n > 0 { OnwardEnds(Joined(pieces[..n], joins), pieces[n - 1], joins(n - 1), pieces[n]); }
  }

  lemma OnwardEnds(text: string, piece: string, join: bool, next: string)
    ensures EndsWith(Onward(text, piece, join, next), next)
  {
  }

  lemma GlueStep(text: string, piece: string, next: string)
    requires EndsWith(text, piece) && (piece == "" ==> !EndsInSpaceCr(text))
    ensures Glue(Flowed, text, next) == Onward(text, piece, Soft(text), next)
    ensures Soft(Glue(Flowed, text, next)) == (Soft(next) || (Blank(next) && Soft(text)))
    ensures next == "" ==> !EndsInSpaceCr(Glue(Flowed, text, next))
  {
    if piece != "" { SameEnd(text, piece); }
  }

  lemma SameEnd(text: string, piece: string)
    requires EndsWith(text, piece) && piece != ""
    ensures text != "" && text[|text| - 1] == piece[|piece| - 1]
  {
    assert text[|text| - |piece|..][|piece| - 1] == text[|text| - 1];
  }

  function Infos(pieces: seq<string>): seq<TextInfo> {
    seq(|pieces|, i requires 0 <= i < |pieces| => TextInfo(0, pieces[i]))
  }

  lemma SoftJoined(pieces: seq<string>, joins: nat -> bool)
    requires pieces != [] && JoinsBySoftness(pieces, joins)
    ensures Soft(Joined(pieces, joins)) == joins(|pieces| - 1)
    ensures EndsWith(Joined(pieces, joins), pieces[|pieces| - 1])
  {
    hide Soft, SoftSoFar, Joined, GlueAll, JoinsBySoftness, EndsWith;
    assert Texts(Infos(pieces)) == pieces;
    LastJoins(pieces, joins);
    GlueJoins(Infos(pieces), joins);
    EndsInPiece(pieces, joins);
  }

  lemma LastJoins(pieces: seq<string>, joins: nat -> bool)
    requires pieces != [] && JoinsBySoftness(pieces, joins)
    ensures joins(|pieces| - 1) == SoftSoFar(pieces, |pieces| - 1)
  {
    hide SoftSoFar;
  }

  lemma {:induction false} SameJoins(pieces: seq<string>, joins: nat -> bool, others: nat -> bool)
    requires pieces != [] && forall i :: 0 <= i < |pieces| - 1 ==> joins(i) == others(i)
    ensures Joined(pieces, joins) == Joined(pieces, others)
  {
    hide Onward;
    if |pieces| > 1 { SameJoins(pieces[..|pieces| - 1], joins, others); }
  }

  // ----- counting ink -----

  function InkCount(s: string): nat { |Ink(s, 0)| }

  predicate IsInk(c: char) { c != '\r' && c != '\n' }

  /** The character at `p` is the first that is no line end behind `h` such characters. */
  predicate InkAt(t: string, p: int, h: nat) {
    0 <= p < |t| && IsInk(t[p]) && InkCount(t[..p]) == h
  }

  lemma InkCountConcat(a: string, b: string)
    ensures InkCount(a + b) == InkCount(a) + InkCount(b)
  {
    InkConcat(a, b, 0);
  }

  lemma InkOfOne(c: char)
    ensures InkCount([c]) == if IsInk(c) then 1 else 0
  {
    assert [c][1..] == "" && Ink("", 0) == [];
  }

  lemma InkAtOnce(t: string, p: int, q: int, h: nat)
    requires InkAt(t, p, h) && InkAt(t, q, h)
    ensures p == q
  {
    hide InkCount;
    if p < q { InkBetween(t, p, q); }
    if q < p { InkBetween(t, q, p); }
  }

  lemma InkBetween(t: string, p: nat, q: nat)
    requires p < q <= |t| && IsInk(t[p])
    ensures InkCount(t[..p]) < InkCount(t[..q])
  {
    hide InkCount;
    assert t[..q] == t[..p] + [t[p]] + t[p + 1..q];
    InkCountConcat(t[..p] + [t[p]], t[p + 1..q]);
    InkCountConcat(t[..p], [t[p]]);
    InkOfOne(t[p]);
  }

  lemma OnwardInk(t: string, piece: string, join: bool, next: string)
    requires EndsWith(t, piece)
    ensures InkCount(Onward(t, piece, join, next)) == InkCount(t) + InkCount(next)
  {
    FrontInk(t, piece, join);
    hide InkCount;
    InkCountConcat(Ahead(t, piece, join), next);
  }

  lemma FrontInk(t: string, piece: string, join: bool)
    requires EndsWith(t, piece)
    ensures InkCount(Ahead(t, piece, join)) == InkCount(t)
  {
    hide InkCount;
    InkOfOne('\n');
    InkOfOne('\r');
    InkCountConcat(t, "\n");
    if EndsInCr(piece) {
      SameEnd(t, piece);
      assert t == t[..|t| - 1] + "\r";
      InkCountConcat(t[..|t| - 1], "\r");
    }
  }

  lemma {:induction false} FirstInk(s: string) returns (p: nat)
    requires InkCount(s) > 0
    ensures InkAt(s, p, 0)
  {
    if IsInk(s[0]) {
      p := 0;
      assert s[..0] == "";
    } else {
      InkOfOne(s[0]);
      InkCountConcat([s[0]], s[1..]);
      assert s == [s[0]] + s[1..];
      p := FirstInk(s[1..]);
      assert s[..p + 1] == [s[0]] + s[1..][..p];
      InkCountConcat([s[0]], s[1..][..p]);
      p := p + 1;
    }
  }

  lemma SoftHasInk(s: string)
    requires Soft(s)
    ensures InkCount(s) > 0
  {
    var k := if s[|s| - 1] == ' ' then |s| - 1 else |s| - 2;
    assert s[k] == ' ';
    hide InkCount;
    InkBetween(s, k, |s|);
    assert s[..|s|] == s;
  }
}
