/** The signature separator as a regular expression, and where mails and quotes end by it. */
module SignatureFacts {
  import opened Text
  import opened QuoteLines
  import QuoteText
  import QuoteTextFacts

  // ----- regular expressions -----

  datatype Pattern =
    | Letters(text: string)
    | Either(first: Pattern, second: Pattern)
    | Then(first: Pattern, second: Pattern)
    | AtLeast(count: nat, inner: Pattern)
    | Maybe(inner: Pattern)

  /** The pattern matches the whole string. */
  ghost predicate Matches(p: Pattern, s: string)
    decreases |s|, p
  {
    match p
    case Letters(text) => s == text
    case Either(first, second) => Matches(first, s) || Matches(second, s)
    case Then(first, second) => exists k :: 0 <= k <= |s| && Matches(first, s[..k]) && Matches(second, s[k..])
    case AtLeast(count, inner) =>
      || (s == "" && (count == 0 || Matches(inner, "")))
      || (exists k :: 0 < k <= |s| && Matches(inner, s[..k])
                      && Matches(AtLeast(if count > 0 then count - 1 else 0, inner), s[k..]))
    case Maybe(inner) => s == "" || Matches(inner, s)
  }

  /** `(-- |_{45,})(\r)?` */
  const SEPARATOR := Then(Either(Letters("-- "), AtLeast(45, Letters("_"))), Maybe(Letters("\r")))

  lemma {:induction false} UnderscoresMatch(count: nat, s: string)
    ensures Matches(AtLeast(count, Letters("_")), s) <==> |s| >= count && forall i :: 0 <= i < |s| ==> s[i] == '_'
    decreases |s|
  {
    var one, less := Letters("_"), if count > 0 then count - 1 else 0;
    if s == "" {
      assert !Matches(one, "");
    } else {
      UnderscoresMatch(less, s[1..]);
      assert s[..1] == [s[0]];
      if Matches(AtLeast(count, one), s) {
        var k :| 0 < k <= |s| && Matches(one, s[..k]) && Matches(AtLeast(less, one), s[k..]);
        assert s[..k] == "_" && k == 1 && s[0] == s[..k][0];
        assert forall i :: 1 <= i < |s| ==> s[i] == s[1..][i - 1];
      }
      if |s| >= count && forall i :: 0 <= i < |s| ==> s[i] == '_' {
        assert Matches(one, s[..1]);
      }
    }
  }

  /** A line is a signature separator exactly if the expression matches it. */
  lemma SeparatorMatches(line: string)
    ensures IsSignatureSeparator(line) <==> Matches(SEPARATOR, line)
  {
    hide Matches, IsSignatureSeparator, BareSeparator;
    SeparatorUnfolds(line);
    ThenUnfolds(line);
    NoCrAtEnd(line);
    if EndsWith(line, "\r") {
      assert line[|line| - 1..] == "\r";
      BareMatches(line[..|line| - 1]);
    }
    assert line[..|line|] == line && line[|line|..] == "";
    BareMatches(line);
  }

  lemma BareMatches(bare: string)
    ensures Matches(Either(Letters("-- "), AtLeast(45, Letters("_"))), bare) <==> BareSeparator(bare)
  {
    UnderscoresMatch(45, bare);
  }

  lemma SeparatorUnfolds(line: string)
    ensures IsSignatureSeparator(line)
       <==> BareSeparator(if EndsWith(line, "\r") then line[..|line| - 1] else line)
  {
    hide EndsWith, BareSeparator;
  }

  /** The end that may match is nothing or a CR. */
  lemma ThenUnfolds(line: string)
    ensures
      var first := Either(Letters("-- "), AtLeast(45, Letters("_")));
      Matches(SEPARATOR, line)
      <==> Matches(first, line[..|line|]) || (EndsWith(line, "\r") && Matches(first, line[..|line| - 1]))
  {
    hide Matches, EndsWith;
    var first, last := Either(Letters("-- "), AtLeast(45, Letters("_"))), Maybe(Letters("\r"));
    ThenIs(first, last, line);
    forall k | 0 <= k <= |line|
      ensures Matches(last, line[k..]) <==> k == |line| || (k == |line| - 1 && EndsWith(line, "\r"))
    {
      LineEndIs(line, k);
    }
    EndIs(line);
    if Matches(Then(first, last), line) {
      var k :| 0 <= k <= |line| && Matches(first, line[..k]) && Matches(last, line[k..]);
      assert k == |line| || (k == |line| - 1 && EndsWith(line, "\r"));
    }
    if Matches(first, line[..|line|]) { assert Matches(last, line[|line|..]); }
    if EndsWith(line, "\r") && Matches(first, line[..|line| - 1]) { assert Matches(last, line[|line| - 1..]); }
  }

  lemma ThenIs(first: Pattern, second: Pattern, s: string)
    ensures
      Matches(Then(first, second), s)
      <==> exists k :: 0 <= k <= |s| && Matches(first, s[..k]) && Matches(second, s[k..])
  {
  }

  lemma LineEndIs(line: string, k: nat)
    requires k <= |line|
    ensures Matches(Maybe(Letters("\r")), line[k..]) <==> k == |line| || (k == |line| - 1 && EndsWith(line, "\r"))
  {
    assert |line[k..]| == |line| - k;
    assert k == |line| - 1 ==> line[k..] == line[|line| - 1..];
    assert Matches(Maybe(Letters("\r")), line[k..]) <==> line[k..] == "" || line[k..] == "\r";
  }

  lemma EndIs(line: string)
    ensures EndsWith(line, "\r") ==> |line| >= 1
  {
  }

  lemma NoCrAtEnd(line: string)
    ensures EndsWith(line, "\r") ==> !BareSeparator(line)
  {
    if EndsWith(line, "\r") {
      assert line[|line| - 1..][0] == line[|line| - 1];
    }
  }

  // ----- where a mail and a quote end -----

  /** The first line that the expression matches, or the end. */
  ghost predicate EndsAt(lines: seq<string>, n: nat) {
    && n <= |lines| && (forall i :: 0 <= i < n ==> !Matches(SEPARATOR, lines[i]))
    && (n < |lines| ==> Matches(SEPARATOR, lines[n]))
  }

  /** The body of a mail is what stands in front of the first such line, whatever the depth of the lines. */
  lemma BodyEndsAt(plaintext: string, n: nat)
    requires EndsAt(Split(plaintext), n)
    ensures BodyLength(Lines(plaintext)) == n
  {
    hide Matches, Measure;
    MeasuredTo(Split(plaintext), n);
  }

  lemma {:induction false} MeasuredTo(lines: seq<string>, n: nat)
    requires EndsAt(lines, n)
    ensures BodyLength(Measure(lines, false)) == n
  {
    hide *;
    EndsIs(lines, n);
    BodyStep(lines);
    if lines != [] {
      SeparatorMatches(lines[0]);
      if n > 0 { MeasuredTo(lines[1..], n - 1); }
    }
  }

  lemma EndsIs(lines: seq<string>, n: nat)
    requires EndsAt(lines, n)
    ensures n <= |lines| && (n < |lines| ==> Matches(SEPARATOR, lines[n]))
    ensures n > 0 ==> !Matches(SEPARATOR, lines[0]) && EndsAt(lines[1..], n - 1)
  {
    hide Matches, SEPARATOR;
    if n > 0 { assert forall i :: 1 <= i < |lines| ==> lines[i] == lines[1..][i - 1]; }
  }

  lemma BodyStep(lines: seq<string>)
    ensures
      BodyLength(Measure(lines, false))
      == if lines == [] || IsSignatureSeparator(lines[0]) then 0 else 1 + BodyLength(Measure(lines[1..], false))
  {
    hide IsSignatureSeparator, DepthOf;
    if lines != [] {
      var infos, rest := Measure(lines, false), Measure(lines[1..], IsSignatureSeparator(lines[0]));
      assert infos == [Info(lines[0], false)] + rest && infos[1..] == rest;
      hide Measure;
    }
  }

  /** A quote takes up what stands in front of it, every character one level deeper. */
  lemma QuoteEndsAt(lines: seq<string>, n: nat)
    requires EndsAt(lines, n)
    ensures QuoteTextFacts.SeparatorAt(lines) == n
    ensures QuoteTextFacts.Contents(QuoteText.QuoteAll(lines), 0) == QuoteTextFacts.Contents(lines[..n], 1)
  {
    hide *;
    SeparatorStands(lines, n);
    QuoteTextFacts.QuoteReadsBack(lines);
  }

  lemma {:induction false} SeparatorStands(lines: seq<string>, n: nat)
    requires EndsAt(lines, n)
    ensures QuoteTextFacts.SeparatorAt(lines) == n
  {
    hide Matches, IsSignatureSeparator;
    if lines != [] {
      SeparatorMatches(lines[0]);
      if n > 0 {
        assert forall i :: 1 <= i < |lines| ==> lines[i] == lines[1..][i - 1];
        SeparatorStands(lines[1..], n - 1);
      }
    }
  }
}
