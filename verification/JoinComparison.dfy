/** When two ways to join lists of pieces, one of them by softness, give the same text. The pieces of the second list
    may have CRs in front. */
module JoinComparison {
  import opened Text
  import opened QuoteLines
  import opened QuoteLinesFacts
  import opened JoinedText

  predicate NoCrFirst(piece: string) { piece == "" || piece[0] != '\r' }

  /** The piece `a` with CRs in front of it. */
  predicate CrsThen(b: string, a: string) {
    |a| <= |b| && b[|b| - |a|..] == a && forall i :: 0 <= i < |b| - |a| ==> b[i] == '\r'
  }

  ghost predicate UpToCrs(a: seq<string>, b: seq<string>) {
    && |a| == |b| && (forall i :: 0 <= i < |a| ==> CrsThen(b[i], a[i]))
    && (a == b || forall i :: 0 <= i < |a| ==> NoCrFirst(a[i]))
  }

  /** One piece may be a CR where the other is empty, if it is joined to the next one. */
  predicate SamePiece(a: seq<string>, b: seq<string>, others: nat -> bool, i: nat)
    requires i < |a| == |b|
  {
    b[i] == a[i] || (a[i] == "" && b[i] == "\r" && i + 1 < |a| && others(i))
  }

  /** The two ways have gone together up to piece `k`. */
  ghost predicate Agree(a: seq<string>, b: seq<string>, joins: nat -> bool, others: nat -> bool, k: nat)
    requires k < |a| == |b|
  {
    && (forall i :: 0 <= i <= k ==> SamePiece(a, b, others, i))
    && (forall i :: 0 <= i < k ==> joins(i) == others(i))
  }

  lemma PrefixUnfolds(a: seq<string>, joins: nat -> bool, k: nat)
    requires k + 1 < |a|
    ensures
      Joined(a[..k + 2], joins) == Onward(Joined(a[..k + 1], joins), a[k], joins(k), a[k + 1])
      && EndsWith(Joined(a[..k + 1], joins), a[k])
  {
    hide *;
    var front := a[..k + 2];
    assert front[..k + 1] == a[..k + 1] && front[k] == a[k] && front[k + 1] == a[k + 1];
    JoinedUnfolds(front, joins);
    EndsInPiece(a[..k + 1], joins);
  }

  lemma FirstPiece(a: seq<string>, joins: nat -> bool)
    requires a != []
    ensures Joined(a[..1], joins) == a[0]
  {
  }

  lemma {:induction false} AgreeText(a: seq<string>, b: seq<string>, joins: nat -> bool, others: nat -> bool, k: nat)
    requires k < |a| == |b| && Agree(a, b, joins, others, k)
    ensures
      Joined(b[..k + 1], others) == Joined(a[..k + 1], joins) + if b[k] == a[k] then "" else "\r"
  {
    if k == 0 {
      hide Joined;
      FirstPiece(a, joins);
      FirstPiece(b, others);
    } else {
      hide Joined, Onward, EndsWith;
      assert SamePiece(a, b, others, k - 1) && SamePiece(a, b, others, k);
      AgreeText(a, b, joins, others, k - 1);
      PrefixUnfolds(a, joins, k - 1);
      PrefixUnfolds(b, others, k - 1);
      AgreeStep(Joined(a[..k], joins), Joined(b[..k], others), a[k - 1], b[k - 1], joins(k - 1), a[k], b[k]);
    }
  }

  lemma AgreeStep(x: string, y: string, piece: string, piece': string, join: bool, next: string, next': string)
    requires y == x + if piece' == piece then "" else "\r"
    requires piece' == piece || (piece == "" && piece' == "\r" && join)
    requires next' == next || (next == "" && next' == "\r")
    ensures Ahead(x, piece, join) == Ahead(y, piece', join)
    ensures Onward(y, piece', join, next') == Onward(x, piece, join, next) + if next' == next then "" else "\r"
  {
    if piece' != piece {
      assert WithoutCr(y, piece') == x;
    }
  }

  // ----- a line break that joining by softness leaves out -----

  /** The text goes on without a line break. */
  predicate NoBreakFirst(rest: string) {
    (rest != "" ==> rest[0] != '\n') && (|rest| >= 2 ==> rest[0] != '\r' || rest[1] != '\n')
  }

  /** One text has a line break behind `x`, the other goes on without. */
  ghost predicate Unbroken(g: string, r: string, x: string, z: string, piece: string, join: bool) {
    && (x == z || x == z + "\r")
    && StartsWith(r, x + "\n") && StartsWith(g, z)
    && NoBreakFirst(g[|z|..]) && (Blank(g[|z|..]) ==> g[|z|..] == piece && join)
  }

  lemma UnbrokenDiffers(g: string, r: string, x: string, z: string, piece: string, join: bool)
    requires Unbroken(g, r, x, z, piece, join)
    ensures g != r
  {
    var rest := g[|z|..];
    assert (x + "\n")[|x|] == '\n' && r[|x|] == (x + "\n")[|x|];
    if x == z + "\r" { assert x[|z|] == '\r' && r[|z|] == (x + "\n")[|z|]; }
    assert forall i :: 0 <= i < |rest| ==> rest[i] == g[|z| + i];
  }

  lemma UnbrokenStep(g: string, r: string, x: string, z: string, piece: string, join: bool, next: string,
                     piece': string, other: bool, next': string)
    requires Unbroken(g, r, x, z, piece, join) && join == Soft(g) && EndsWith(g, piece) && EndsWith(r, piece')
    requires '\n' !in piece' && '\n' !in next
    ensures Unbroken(Onward(g, piece, join, next), Onward(r, piece', other, next'), x, z, next,
                     Soft(next) || (Blank(next) && join))
  {
    BreakStays(r, x, piece', other, next');
    var rest := g[|z|..];
    assert g == z + rest;
    if piece != "" { SameEnd(g, piece); }
    if Blank(rest) {
      assert WithoutCr(g, piece) == z;
      assert Onward(g, piece, join, next) == z + next && (z + next)[|z|..] == next;
      NothingBroken(next);
    } else {
      GoesOn(g, z, rest, piece, join, next);
    }
  }

  lemma NothingBroken(next: string)
    requires '\n' !in next
    ensures NoBreakFirst(next)
  {
    assert next != "" ==> next[0] in next;
    assert |next| >= 2 ==> next[1] in next;
  }

  lemma BreakStays(r: string, x: string, piece: string, other: bool, next: string)
    requires StartsWith(r, x + "\n") && EndsWith(r, piece) && '\n' !in piece
    ensures StartsWith(Onward(r, piece, other, next), x + "\n")
  {
    var start := x + "\n";
    assert r[..|start|] == start && start[|x|] == '\n';
    if other && EndsInCr(piece) {
      SameEnd(r, piece);
      assert r[|x|] == start[|x|];
      assert WithoutCr(r, piece)[..|start|] == start;
    }
    var front := if other then WithoutCr(r, piece) else r + "\n";
    assert front[..|start|] == start;
    assert (front + next)[..|start|] == start;
  }

  /** Behind a piece that is not blank the beginning is settled. */
  lemma GoesOn(g: string, z: string, rest: string, piece: string, join: bool, next: string)
    requires g == z + rest && NoBreakFirst(rest) && !Blank(rest) && join == Soft(g)
    requires piece != "" ==> g != "" && g[|g| - 1] == piece[|piece| - 1]
    requires '\n' !in next
    ensures
      var more := Onward(g, piece, join, next);
      StartsWith(more, z) && NoBreakFirst(more[|z|..]) && !Blank(more[|z|..])
  {
    hide *;
    var cut := CutOfSoft(g, z, rest, piece, join);
    StillUnbroken(rest, cut, next);
    OnwardIs(g, piece, join, next);
    assert z + cut + next == z + (cut + next);
    BehindFront(z, cut + next);
  }

  predicate CutFrom(cut: string, rest: string) {
    || cut == rest || cut == rest + "\n"
    || (|rest| >= 2 && rest[|rest| - 1] == '\r' && rest[|rest| - 2] == ' ' && cut == rest[..|rest| - 1])
  }

  lemma CutOfSoft(g: string, z: string, rest: string, piece: string, join: bool) returns (cut: string)
    requires g == z + rest && !Blank(rest) && join == Soft(g)
    requires piece != "" ==> g != "" && g[|g| - 1] == piece[|piece| - 1]
    ensures Ahead(g, piece, join) == z + cut && CutFrom(cut, rest)
  {
    assert |rest| >= 1 && g[|g| - 1] == rest[|rest| - 1];
    if !join {
      cut := rest + "\n";
      assert g + "\n" == z + cut;
    } else if EndsInCr(piece) {
      assert |rest| >= 2 && g[|g| - 2] == rest[|rest| - 2];
      cut := rest[..|rest| - 1];
      assert g[..|g| - 1] == z + cut;
    } else {
      cut := rest;
    }
  }

  lemma StillUnbroken(rest: string, cut: string, next: string)
    requires NoBreakFirst(rest) && !Blank(rest) && CutFrom(cut, rest) && '\n' !in next
    ensures NoBreakFirst(cut + next) && !Blank(cut + next)
  {
    assert cut != "" && cut[0] == rest[0] && (cut + next)[0] == cut[0];
    assert next != "" ==> next[0] in next;
    if |cut| >= 2 { assert (cut + next)[1] == cut[1]; }
  }

  lemma StepFacts(a: seq<string>, b: seq<string>, joins: nat -> bool, others: nat -> bool)
    requires |a| == |b| > 1 && JoinsBySoftness(a, joins) && UpToCrs(a, b) && OneLinePieces(a)
    ensures
      var n := |a| - 1;
      var g, r := Joined(a[..n], joins), Joined(b[..n], others);
      && a[..n][n - 1] == a[n - 1] && b[..n][n - 1] == b[n - 1]
      && JoinsBySoftness(a[..n], joins) && UpToCrs(a[..n], b[..n]) && OneLinePieces(a[..n])
      && joins(n - 1) == Soft(g) && EndsWith(g, a[n - 1]) && EndsWith(r, b[n - 1])
      && Joined(a, joins) == Onward(g, a[n - 1], joins(n - 1), a[n])
      && Joined(b, others) == Onward(r, b[n - 1], others(n - 1), b[n])
      && joins(n) == (Soft(a[n]) || (Blank(a[n]) && joins(n - 1)))
      && '\n' !in a[n] && '\n' !in b[n - 1] && CrsThen(b[n], a[n])
  {
    hide *;
    var n := |a| - 1;
    PrefixOfSoft(a, n, joins);
    SoftJoined(a[..n], joins);
    EndsInPiece(b[..n], others);
    JoinedUnfolds(a, joins);
    JoinedUnfolds(b, others);
    LastJoins(a, joins);
    LastJoins(a[..n], joins);
    SoftPrefix(a, n, n - 1);
    SoftUnfolds(a, n);
    PiecePrefixes(a, b, n);
  }

  lemma PiecePrefixes(a: seq<string>, b: seq<string>, n: nat)
    requires 0 < n < |a| && UpToCrs(a, b) && OneLinePieces(a)
    ensures UpToCrs(a[..n], b[..n]) && OneLinePieces(a[..n])
    ensures '\n' !in a[n] && '\n' !in b[n - 1] && CrsThen(b[n], a[n])
  {
    hide CrsThen, NoCrFirst;
    CrsHaveNoNewline(b[n - 1], a[n - 1]);
  }

  lemma CrsHaveNoNewline(b: string, a: string)
    requires CrsThen(b, a) && '\n' !in a
    ensures '\n' !in b
  {
    forall i | 0 <= i < |b| ensures b[i] != '\n' {
      if i >= |b| - |a| { assert b[i] == b[|b| - |a|..][i - (|b| - |a|)]; }
    }
  }

  /** Joining by softness leaves out the line break behind piece `i` and the other way does not. */
  lemma {:induction false} JoinsTooMuch(a: seq<string>, b: seq<string>, joins: nat -> bool, others: nat -> bool, i: nat)
    requires i + 1 < |a| == |b| && OneLinePieces(a) && JoinsBySoftness(a, joins) && UpToCrs(a, b)
    requires joins(i) && !others(i) && Joined(a[..i + 1], joins) == Joined(b[..i + 1], others)
    ensures
      var x, n := Joined(a[..i + 1], joins), |a| - 1;
      Unbroken(Joined(a, joins), Joined(b, others), x, WithoutCr(x, a[i]), a[n], joins(n))
    decreases |a|
  {
    hide *;
    var n := |a| - 1;
    var x := Joined(a[..i + 1], joins);
    StepFacts(a, b, joins, others);
    if n == i + 1 {
      FirstUnbroken(x, a[i], a[n], joins(n), b[i], b[n]);
    } else {
      assert a[..n][..i + 1] == a[..i + 1] && a[..n][i] == a[i] && b[..n][..i + 1] == b[..i + 1];
      JoinsTooMuch(a[..n], b[..n], joins, others, i);
      UnbrokenStep(Joined(a[..n], joins), Joined(b[..n], others), x, WithoutCr(x, a[i]),
                   a[n - 1], joins(n - 1), a[n], b[n - 1], others(n - 1), b[n]);
    }
  }

  lemma FirstUnbroken(x: string, piece: string, next: string, join: bool, piece': string, next': string)
    requires Soft(x) && EndsWith(x, piece) && '\n' !in next
    requires Blank(next) ==> join
    ensures Unbroken(Onward(x, piece, true, next), Onward(x, piece', false, next'), x, WithoutCr(x, piece), next, join)
  {
    var z := WithoutCr(x, piece);
    if piece != "" { SameEnd(x, piece); }
    NothingBroken(next);
    assert Onward(x, piece, true, next) == z + next && (z + next)[..|z|] == z && (z + next)[|z|..] == next;
    assert (x + "\n" + next')[..|x| + 1] == x + "\n";
    if EndsInCr(piece) { assert x == z + "\r"; }
  }

  // ----- a line break that only joining by softness puts -----

  function Breaks(s: string): nat { Count(s, '\n') }

  /** The first text has more line breaks and no new ink, or more line breaks in front of the ink behind the
      first `h`. */
  ghost predicate Lags(g: string, r: string, h: nat, join: bool) {
    || (InkCount(g) == InkCount(r) == h && Breaks(g) > Breaks(r) && !join)
    || (exists p, q :: InkAt(g, p, h) && InkAt(r, q, h) && Breaks(g[..p]) > Breaks(r[..q]))
  }

  lemma LagsDiffer(g: string, r: string, h: nat, join: bool)
    requires Lags(g, r, h, join)
    ensures g != r
  {
    hide InkCount, Breaks;
    if g == r {
      if p, q :| InkAt(g, p, h) && InkAt(r, q, h) && Breaks(g[..p]) > Breaks(r[..q]) {
        InkAtOnce(g, p, q, h);
      }
    }
  }

  lemma BreaksAhead(t: string, piece: string, join: bool)
    requires EndsWith(t, piece)
    ensures Breaks(Ahead(t, piece, join)) == Breaks(t) + if join then 0 else 1
  {
    CountConcat(t, "\n", '\n');
    assert "\n"[1..] == "" && Count("\n", '\n') == 1;
    if EndsInCr(piece) {
      SameEnd(t, piece);
      var front := t[..|t| - 1];
      assert t == front + "\r" && "\r"[1..] == "" && Count("\r", '\n') == 0;
      CountConcat(front, "\r", '\n');
    }
  }

  lemma InkStays(t: string, piece: string, join: bool, next: string, p: int, h: nat)
    requires InkAt(t, p, h) && EndsWith(t, piece)
    ensures InkAt(Onward(t, piece, join, next), p, h) && Onward(t, piece, join, next)[..p] == t[..p]
  {
    hide InkCount;
    var more := Onward(t, piece, join, next);
    if EndsInCr(piece) { SameEnd(t, piece); }
    assert more[p] == t[p] && more[..p] == t[..p];
  }

  lemma NewInk(t: string, piece: string, join: bool, next: string, p: nat)
    requires EndsWith(t, piece) && InkAt(next, p, 0) && '\n' !in next
    ensures
      var more := Onward(t, piece, join, next);
      var q := |more| - |next| + p;
      InkAt(more, q, InkCount(t)) && Breaks(more[..q]) == Breaks(t) + if join then 0 else 1
  {
    var front := Ahead(t, piece, join);
    FrontInk(t, piece, join);
    BreaksAhead(t, piece, join);
    hide InkCount;
    var more := front + next;
    assert more[|front| + p] == next[p] && more[..|front| + p] == front + next[..p];
    InkCountConcat(front, next[..p]);
    CountConcat(front, next[..p], '\n');
    NoBreaks(next[..p]);
  }

  lemma {:induction false} NoBreaks(s: string)
    requires forall i :: 0 <= i < |s| ==> s[i] != '\n'
    ensures Breaks(s) == 0
  {
    if s != "" { NoBreaks(s[1..]); }
  }

  lemma {:induction false} CrsHaveNoInk(b: string, a: string)
    requires CrsThen(b, a)
    ensures InkCount(b) == InkCount(a)
    ensures forall p :: InkAt(a, p, 0) ==> InkAt(b, |b| - |a| + p, 0)
    decreases |b|
  {
    hide InkCount;
    if |a| == |b| {
      assert b == a;
    } else {
      var rest := b[1..];
      assert rest[|rest| - |a|..] == a;
      CrsHaveNoInk(rest, a);
      assert b == ['\r'] + rest;
      InkOfOne('\r');
      InkCountConcat(['\r'], rest);
      forall p | InkAt(a, p, 0) ensures InkAt(b, |b| - |a| + p, 0) {
        var q := |rest| - |a| + p;
        assert InkAt(rest, q, 0) && b[..q + 1] == ['\r'] + rest[..q];
        InkCountConcat(['\r'], rest[..q]);
      }
    }
  }

  lemma LagStep(g: string, r: string, h: nat, piece: string, next: string, piece': string, other: bool, next': string)
    requires InkCount(g) == InkCount(r) == h && (Breaks(g) > Breaks(r) || (Breaks(g) == Breaks(r) && other))
    requires EndsWith(g, piece) && EndsWith(r, piece') && CrsThen(next', next) && '\n' !in next
    ensures Lags(Onward(g, piece, false, next), Onward(r, piece', other, next'), h, Soft(next))
  {
    hide InkAt, EndsWith, InkCount, Breaks, CrsThen, Soft, Ahead;
    CrsHaveNoInk(next', next);
    CrsHaveNoNewline(next', next);
    if InkCount(next) == 0 {
      OnwardInk(g, piece, false, next);
      OnwardInk(r, piece', other, next');
      OnwardBreaks(g, piece, false, next);
      OnwardBreaks(r, piece', other, next');
      if Soft(next) { SoftHasInk(next); }
    } else {
      var p := FirstInk(next);
      InkInside(next, p);
      CrsLonger(next', next);
      NewInk(g, piece, false, next, p);
      NewInk(r, piece', other, next', |next'| - |next| + p);
    }
  }

  lemma CrsLonger(b: string, a: string)
    requires CrsThen(b, a)
    ensures |b| >= |a|
  {
  }

  lemma InkInside(next: string, p: int)
    requires InkAt(next, p, 0)
    ensures 0 <= p < |next|
  {
  }

  lemma OnwardBreaks(t: string, piece: string, join: bool, next: string)
    requires EndsWith(t, piece) && '\n' !in next
    ensures Breaks(Onward(t, piece, join, next)) == Breaks(t) + if join then 0 else 1
  {
    BreaksAhead(t, piece, join);
    CountConcat(Ahead(t, piece, join), next, '\n');
    NoBreaks(next);
  }

  /** Joining by softness puts a line break behind piece `i` and the other way does not. */
  lemma {:induction false} JoinsTooLittle(a: seq<string>, b: seq<string>, joins: nat -> bool, others: nat -> bool,
                                          i: nat)
    requires i + 1 < |a| == |b| && OneLinePieces(a) && JoinsBySoftness(a, joins) && UpToCrs(a, b)
    requires !joins(i) && others(i)
    requires InkCount(Joined(a[..i + 1], joins)) == InkCount(Joined(b[..i + 1], others))
    requires Breaks(Joined(a[..i + 1], joins)) == Breaks(Joined(b[..i + 1], others))
    ensures Lags(Joined(a, joins), Joined(b, others), InkCount(Joined(a[..i + 1], joins)), joins(|a| - 1))
    decreases |a|
  {
    hide *;
    var n := |a| - 1;
    var h := InkCount(Joined(a[..i + 1], joins));
    var g, r := Joined(a[..n], joins), Joined(b[..n], others);
    StepFacts(a, b, joins, others);
    if n == i + 1 {
      LagStep(g, r, h, a[n - 1], a[n], b[n - 1], true, b[n]);
    } else {
      assert a[..n][..i + 1] == a[..i + 1] && b[..n][..i + 1] == b[..i + 1];
      JoinsTooLittle(a[..n], b[..n], joins, others, i);
      LagsOn(g, r, h, a[n - 1], joins(n - 1), a[n], b[n - 1], others(n - 1), b[n], joins(n));
    }
  }

  lemma LagsOn(g: string, r: string, h: nat, piece: string, join: bool, next: string, piece': string, other: bool,
               next': string, nextJoin: bool)
    requires Lags(g, r, h, join) && EndsWith(g, piece) && EndsWith(r, piece')
    requires CrsThen(next', next) && '\n' !in next
    requires nextJoin == (Soft(next) || (Blank(next) && join))
    ensures Lags(Onward(g, piece, join, next), Onward(r, piece', other, next'), h, nextJoin)
  {
    hide InkCount, Onward, Soft, Blank, EndsWith, Breaks, CrsThen;
    if p, q :| InkAt(g, p, h) && InkAt(r, q, h) && Breaks(g[..p]) > Breaks(r[..q]) {
      InkStays(g, piece, join, next, p, h);
      InkStays(r, piece', other, next', q, h);
    } else {
      LagStep(g, r, h, piece, next, piece', other, next');
    }
  }

  // ----- a CR in front of a piece -----

  /** Behind `x` the second text goes on with a CR, the first does not. */
  ghost predicate CrAhead(g: string, r: string, x: string, piece: string, piece': string, other: bool) {
    && StartsWith(g, x) && NoCrFirst(g[|x|..]) && (g == x ==> piece == "")
    && StartsWith(r, x + "\r") && (|r| == |x| + 1 ==> !(other && EndsInCr(piece')))
  }

  lemma CrDiffers(g: string, r: string, x: string, piece: string, piece': string, other: bool)
    requires CrAhead(g, r, x, piece, piece', other)
    ensures g != r
  {
    assert r[|x|] == (x + "\r")[|x|] == '\r';
    if |g| > |x| { assert g[|x|..][0] == g[|x|]; }
  }

  lemma CrStep(g: string, r: string, x: string, piece: string, join: bool, next: string, piece': string, other: bool,
               next': string, may: bool)
    requires CrAhead(g, r, x, piece, piece', may) && (other ==> may)
    requires EndsWith(g, piece) && EndsWith(r, piece') && NoCrFirst(next)
    ensures CrAhead(Onward(g, piece, join, next), Onward(r, piece', other, next'), x, next, next', true)
  {
    NoCrStep(g, x, piece, join, next);
    CrStays(r, x, piece', other, next');
  }

  lemma NoCrStep(g: string, x: string, piece: string, join: bool, next: string)
    requires StartsWith(g, x) && NoCrFirst(g[|x|..]) && (g == x ==> piece == "")
    requires EndsWith(g, piece) && NoCrFirst(next)
    ensures
      var more := Onward(g, piece, join, next);
      StartsWith(more, x) && NoCrFirst(more[|x|..]) && (more == x ==> next == "")
  {
    hide *;
    FrontAndRest(g, x);
    var rest := g[|x|..];
    var cut := CutRest(x, rest, piece, join);
    OnwardIs(g, piece, join, next);
    NoCrBehind(cut, next);
    assert x + cut + next == x + (cut + next);
    BehindFront(x, cut + next);
  }

  lemma FrontAndRest(g: string, x: string)
    requires StartsWith(g, x)
    ensures |x| <= |g| && g == x + g[|x|..] && (g == x <==> g[|x|..] == "")
  {
  }

  lemma BehindFront(x: string, rest: string)
    ensures StartsWith(x + rest, x) && (x + rest)[|x|..] == rest && (x + rest == x <==> rest == "")
  {
    assert |x + rest| == |x| + |rest|;
  }

  lemma OnwardIs(g: string, piece: string, join: bool, next: string)
    ensures Onward(g, piece, join, next) == Ahead(g, piece, join) + next
  {
    hide Ahead;
  }

  lemma NoCrBehind(cut: string, next: string)
    requires NoCrFirst(cut) && NoCrFirst(next)
    ensures NoCrFirst(cut + next) && (cut + next == "" ==> next == "")
  {
  }

  lemma CutRest(x: string, rest: string, piece: string, join: bool) returns (cut: string)
    requires EndsWith(x + rest, piece) && NoCrFirst(rest) && (rest == "" ==> piece == "")
    ensures Ahead(x + rest, piece, join) == x + cut && NoCrFirst(cut)
  {
    var g := x + rest;
    if !join {
      cut := rest + "\n";
      assert g + "\n" == x + cut;
    } else if EndsInCr(piece) {
      SameEnd(g, piece);
      cut := rest[..|rest| - 1];
      assert rest[|rest| - 1] == g[|g| - 1] == '\r';
      assert g[..|g| - 1] == x + cut;
    } else {
      cut := rest;
    }
  }

  lemma CrStays(r: string, x: string, piece: string, join: bool, next: string)
    requires StartsWith(r, x + "\r") && (|r| == |x| + 1 ==> !(join && EndsInCr(piece))) && EndsWith(r, piece)
    ensures
      var more := Onward(r, piece, join, next);
      StartsWith(more, x + "\r") && (|more| == |x| + 1 ==> next == "")
  {
    var front := Ahead(r, piece, join);
    assert |front| >= |x| + 1 && front[..|x| + 1] == r[..|x| + 1];
    assert (front + next)[..|x| + 1] == x + "\r";
  }

  lemma {:induction false} CrAtPiece(a: seq<string>, b: seq<string>, joins: nat -> bool, others: nat -> bool, i: nat,
                                     x: string)
    requires i < |a| == |b| && OneLinePieces(a) && JoinsBySoftness(a, joins) && UpToCrs(a, b)
    requires b[i] != a[i] && !(b[i] == "\r" && others(i))
    requires Joined(a[..i + 1], joins) == x + a[i] && Joined(b[..i + 1], others) == x + b[i]
    ensures
      var n := |a| - 1;
      CrAhead(Joined(a, joins), Joined(b, others), x, a[n], b[n], n > i || others(n))
    decreases |a|
  {
    hide *;
    var n := |a| - 1;
    CrPieces(a, b, i);
    if n == i {
      assert a[..i + 1] == a && b[..i + 1] == b;
      CrStarts(x, a[n], b[n], others(n));
    } else {
      StepFacts(a, b, joins, others);
      assert a[..n][..i + 1] == a[..i + 1] && b[..n][..i + 1] == b[..i + 1] && a[..n][i] == a[i] && b[..n][i] == b[i];
      CrAtPiece(a[..n], b[..n], joins, others, i, x);
      CrPieces(a, b, n);
      CrStep(Joined(a[..n], joins), Joined(b[..n], others), x, a[n - 1], joins(n - 1), a[n], b[n - 1], others(n - 1),
             b[n], n - 1 > i || others(n - 1));
    }
  }

  lemma CrPieces(a: seq<string>, b: seq<string>, i: nat)
    requires i < |a| && UpToCrs(a, b) && a != b
    ensures CrsThen(b[i], a[i]) && NoCrFirst(a[i])
  {
  }

  lemma CrStarts(x: string, piece: string, piece': string, other: bool)
    requires CrsThen(piece', piece) && piece' != piece && NoCrFirst(piece) && !(piece' == "\r" && other)
    ensures CrAhead(x + piece, x + piece', x, piece, piece', other)
  {
  }

  // ----- the comparison -----

  /** The two ways give the same text if and only if they put the same line breaks and join the same pieces, but for
      an empty piece that is a CR in the second list and joined to the next one. */
  lemma PiecesDecide(a: seq<string>, b: seq<string>, joins: nat -> bool, others: nat -> bool)
    requires a != [] && OneLinePieces(a) && JoinsBySoftness(a, joins) && UpToCrs(a, b)
    ensures Joined(a, joins) == Joined(b, others) <==> Agree(a, b, joins, others, |a| - 1)
  {
    hide *;
    var n := |a| - 1;
    SameLength(a, b);
    if Agree(a, b, joins, others, n) {
      AgreeText(a, b, joins, others, n);
      LastPiece(a, b, joins, others);
      assert a[..n + 1] == a && b[..n + 1] == b;
    } else {
      var k := FirstDisagreement(a, b, joins, others, n);
      if k > 0 && joins(k - 1) != others(k - 1) {
        JoinDiffers(a, b, joins, others, k - 1);
      } else {
        PieceDiffers(a, b, joins, others, k);
      }
    }
  }

  lemma SameLength(a: seq<string>, b: seq<string>)
    requires UpToCrs(a, b)
    ensures |a| == |b|
  {
  }

  lemma LastPiece(a: seq<string>, b: seq<string>, joins: nat -> bool, others: nat -> bool)
    requires |a| == |b| > 0 && Agree(a, b, joins, others, |a| - 1)
    ensures b[|a| - 1] == a[|a| - 1]
  {
    assert SamePiece(a, b, others, |a| - 1);
  }

  lemma {:induction false} FirstDisagreement(a: seq<string>, b: seq<string>, joins: nat -> bool, others: nat -> bool,
                                             n: nat) returns (k: nat)
    requires n < |a| == |b| && !Agree(a, b, joins, others, n)
    ensures k <= n && (k > 0 ==> Agree(a, b, joins, others, k - 1))
    ensures (k > 0 && joins(k - 1) != others(k - 1)) || !SamePiece(a, b, others, k)
  {
    hide SamePiece;
    if n > 0 && !Agree(a, b, joins, others, n - 1) {
      k := FirstDisagreement(a, b, joins, others, n - 1);
    } else {
      k := n;
    }
  }

  lemma JoinDiffers(a: seq<string>, b: seq<string>, joins: nat -> bool, others: nat -> bool, i: nat)
    requires i + 1 < |a| == |b| && OneLinePieces(a) && JoinsBySoftness(a, joins) && UpToCrs(a, b)
    requires Agree(a, b, joins, others, i) && joins(i) != others(i)
    ensures Joined(a, joins) != Joined(b, others)
  {
    hide *;
    var n := |a| - 1;
    var x, g, r := Joined(a[..i + 1], joins), Joined(a, joins), Joined(b, others);
    AgreeText(a, b, joins, others, i);
    AgreePiece(a, b, joins, others, i);
    if joins(i) {
      assert x + "" == x;
      JoinsTooMuch(a, b, joins, others, i);
      UnbrokenDiffers(g, r, x, WithoutCr(x, a[i]), a[n], joins(n));
    } else {
      CrIsNoInk(x, if b[i] == a[i] then "" else "\r");
      JoinsTooLittle(a, b, joins, others, i);
      LagsDiffer(g, r, InkCount(x), joins(n));
    }
  }

  lemma AgreePiece(a: seq<string>, b: seq<string>, joins: nat -> bool, others: nat -> bool, i: nat)
    requires i < |a| == |b| && Agree(a, b, joins, others, i)
    ensures b[i] == a[i] || others(i)
  {
    assert SamePiece(a, b, others, i);
  }

  lemma CrIsNoInk(x: string, cr: string)
    requires cr == "" || cr == "\r"
    ensures InkCount(x + cr) == InkCount(x) && Breaks(x + cr) == Breaks(x)
  {
    InkCountConcat(x, cr);
    CountConcat(x, cr, '\n');
    InkOfOne('\r');
    NoBreaks(cr);
    assert InkCount("") == 0;
    hide InkCount, Breaks;
  }

  lemma PieceDiffers(a: seq<string>, b: seq<string>, joins: nat -> bool, others: nat -> bool, k: nat)
    requires k < |a| == |b| && OneLinePieces(a) && JoinsBySoftness(a, joins) && UpToCrs(a, b)
    requires k > 0 ==> Agree(a, b, joins, others, k - 1) && joins(k - 1) == others(k - 1)
    requires !SamePiece(a, b, others, k)
    ensures Joined(a, joins) != Joined(b, others)
  {
    hide *;
    var n := |a| - 1;
    var x := SameFront(a, b, joins, others, k);
    NotSame(a, b, others, k);
    if k == n {
      assert a[..k + 1] == a && b[..k + 1] == b;
      assert (x + a[k])[|x|..] == a[k] && (x + b[k])[|x|..] == b[k];
    } else {
      CrAtPiece(a, b, joins, others, k, x);
      CrDiffers(Joined(a, joins), Joined(b, others), x, a[n], b[n], true);
    }
  }

  lemma NotSame(a: seq<string>, b: seq<string>, others: nat -> bool, k: nat)
    requires k < |a| && UpToCrs(a, b) && |a| == |b| && !SamePiece(a, b, others, k)
    ensures b[k] != a[k] && (k + 1 < |a| ==> !(b[k] == "\r" && others(k)))
  {
    CrPieces(a, b, k);
  }

  lemma SameFront(a: seq<string>, b: seq<string>, joins: nat -> bool, others: nat -> bool, k: nat) returns (x: string)
    requires k < |a| == |b| && (k > 0 ==> Agree(a, b, joins, others, k - 1) && joins(k - 1) == others(k - 1))
    ensures Joined(a[..k + 1], joins) == x + a[k] && Joined(b[..k + 1], others) == x + b[k]
  {
    hide *;
    if k == 0 {
      x := "";
      FirstPiece(a, joins);
      FirstPiece(b, others);
    } else {
      var g, r := Joined(a[..k], joins), Joined(b[..k], others);
      AgreeText(a, b, joins, others, k - 1);
      PrefixUnfolds(a, joins, k - 1);
      PrefixUnfolds(b, others, k - 1);
      x := Ahead(g, a[k - 1], joins(k - 1));
      FrontStep(a, b, joins, others, k, g, r);
    }
  }

  lemma FrontStep(a: seq<string>, b: seq<string>, joins: nat -> bool, others: nat -> bool, k: nat, g: string, r: string)
    requires 0 < k < |a| == |b| && Agree(a, b, joins, others, k - 1) && joins(k - 1) == others(k - 1)
    requires r == g + if b[k - 1] == a[k - 1] then "" else "\r"
    ensures Onward(g, a[k - 1], joins(k - 1), a[k]) == Ahead(g, a[k - 1], joins(k - 1)) + a[k]
    ensures Onward(r, b[k - 1], others(k - 1), b[k]) == Ahead(g, a[k - 1], joins(k - 1)) + b[k]
  {
    assert SamePiece(a, b, others, k - 1);
    hide Ahead;
    AgreeStep(g, r, a[k - 1], b[k - 1], joins(k - 1), "", "");
  }

  /** Two ways of joining the same pieces, one of them by softness, give the same text only if they put the same
      line breaks. */
  lemma JoinsDecide(pieces: seq<string>, joins: nat -> bool, others: nat -> bool)
    requires pieces != [] && OneLinePieces(pieces) && JoinsBySoftness(pieces, joins)
    ensures Joined(pieces, joins) == Joined(pieces, others)
       <==> forall i :: 0 <= i < |pieces| - 1 ==> joins(i) == others(i)
  {
    hide Joined, SoftSoFar;
    assert forall i :: 0 <= i < |pieces| ==> CrsThen(pieces[i], pieces[i]) && SamePiece(pieces, pieces, others, i);
    PiecesDecide(pieces, pieces, joins, others);
  }
}
