/** The characters other than CR and LF of escaped text. */
module EscapedInk {
  import opened Text
  import opened LineMarkup
  import opened QuoteLines
  import opened QuoteLinesFacts

  /** Escaping each character in its place. */
  function EscapeInk(ink: seq<(char, int)>): seq<(char, int)> {
    if ink == [] then [] else Ink(EscapeChar(ink[0].0), ink[0].1) + EscapeInk(ink[1..])
  }

  lemma {:induction false} EscapeInkConcat(a: seq<(char, int)>, b: seq<(char, int)>)
    ensures EscapeInk(a + b) == EscapeInk(a) + EscapeInk(b)
  {
    if a == [] {
      assert a + b == b;
    } else {
      assert (a + b)[1..] == a[1..] + b;
      EscapeInkConcat(a[1..], b);
    }
  }

  lemma {:induction false} InkOfEscaped(text: string, depth: int)
    ensures Ink(Escape(text), depth) == EscapeInk(Ink(text, depth))
  {
    if text != "" {
      InkOfEscaped(text[1..], depth);
      InkConcat(EscapeChar(text[0]), Escape(text[1..]), depth);
      var first := if text[0] == '\r' || text[0] == '\n' then [] else [(text[0], depth)];
      EscapeInkConcat(first, Ink(text[1..], depth));
      InkOfChar(text[0], depth);
      hide EscapeChar, Ink, Escape;
      assert Escape(text) == EscapeChar(text[0]) + Escape(text[1..]);
    }
  }

  lemma InkOfChar(c: char, depth: int)
    ensures Ink(EscapeChar(c), depth)
         == EscapeInk(if c == '\r' || c == '\n' then [] else [(c, depth)])
  {
    if c == '\r' || c == '\n' {
      assert EscapeChar(c) == [c] && [c][1..] == "";
    } else {
      var one := [(c, depth)];
      assert one[1..] == [];
      assert EscapeInk(one) == Ink(EscapeChar(c), depth) + EscapeInk([]);
    }
  }

  /** How often the letter `a` is shown: each second escaping adds one, and no quote mark or white space does. */
  function Letters(ink: seq<(char, int)>): nat {
    if ink == [] then 0 else (if ink[0].0 == 'a' then 1 else 0) + Letters(ink[1..])
  }

  lemma {:induction false} LettersConcat(a: seq<(char, int)>, b: seq<(char, int)>)
    ensures Letters(a + b) == Letters(a) + Letters(b)
  {
    if a == [] {
      assert a + b == b;
    } else {
      assert (a + b)[1..] == a[1..] + b;
      LettersConcat(a[1..], b);
    }
  }

  lemma {:induction false} LettersOfInk(text: string, depth: int)
    ensures Letters(Ink(text, depth)) == Count(text, 'a')
  {
    if text != "" {
      LettersOfInk(text[1..], depth);
      var c := text[0];
      var first := if c == '\r' || c == '\n' then [] else [(c, depth)];
      LettersConcat(first, Ink(text[1..], depth));
      assert first != [] ==> first[1..] == [];
      assert Ink(text, depth) == first + Ink(text[1..], depth);
    }
  }

  lemma {:induction false} InkIsEscapedToInk(text: string, depth: int)
    ensures EscapeInk(Ink(text, depth)) == [] <==> Ink(text, depth) == []
  {
    hide EscapeChar;
    if text != "" {
      InkIsEscapedToInk(text[1..], depth);
      InkUnfolds(text, depth);
      if text[0] != '\r' && text[0] != '\n' { EscapedCharIsInk(text[0], depth); }
    }
  }

  lemma InkUnfolds(text: string, depth: int)
    requires text != ""
    ensures
      var c, rest := text[0], Ink(text[1..], depth);
      Ink(text, depth) == if c == '\r' || c == '\n' then rest else [(c, depth)] + rest
  {
  }

  lemma EscapedCharIsInk(c: char, depth: int)
    requires c != '\r' && c != '\n'
    ensures Ink(EscapeChar(c), depth) != []
  {
  }

  /** Neither white space nor a quote mark is shown with an `a`. */
  lemma {:induction false} NoLetters(text: string, depth: int)
    requires forall i :: 0 <= i < |text| ==> text[i] == '>' || IsSpace(text[i])
    ensures Letters(EscapeInk(Ink(text, depth))) == 0
  {
    hide IsSpace, EscapeChar;
    if text != "" {
      var c, rest := text[0], Ink(text[1..], depth);
      NoLetters(text[1..], depth);
      InkUnfolds(text, depth);
      if c != '\r' && c != '\n' {
        assert ([(c, depth)] + rest)[1..] == rest;
        NoLetter(c, depth);
        LettersConcat(Ink(EscapeChar(c), depth), EscapeInk(rest));
      }
    }
  }

  lemma NoLetter(c: char, depth: int)
    requires c == '>' || IsSpace(c)
    ensures Letters(Ink(EscapeChar(c), depth)) == 0
  {
    LettersOfInk(EscapeChar(c), depth);
    if c == '>' {
      assert "&gt;"[1..] == "gt;" && "gt;"[1..] == "t;" && "t;"[1..] == ";" && ";"[1..] == "";
    } else {
      assert c != 'a' && [c][1..] == "";
      SpaceIsOrdinary(c);
    }
  }

  lemma SpaceIsOrdinary(c: char)
    requires IsSpace(c)
    ensures EscapeChar(c) == [c]
  {
  }
}
