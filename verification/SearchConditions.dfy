/** The conditions of the quick search, as the words of an IMAP SEARCH (RFC 3501, section 6.4.4; RFC 6203). */
module SearchConditions {
  import opened Text

  datatype SearchBox = SearchBox(enabled: bool, text: string, raw: bool, inSubject: bool, inBody: bool,
                                 inRecipients: bool, inSenders: bool, supportsFuzzySearch: bool)

  // ----- the words -----

  function Keys(box: SearchBox): seq<string> {
    (if box.inSubject then ["SUBJECT"] else []) + (if box.inBody then ["BODY"] else [])
    + (if box.inRecipients then ["TO", "CC", "BCC"] else []) + (if box.inSenders then ["FROM"] else [])
  }

  function Words(key: string, text: string, fuzzy: bool): seq<string> {
    (if fuzzy then ["FUZZY"] else []) + [key, text]
  }

  function AllWords(keys: seq<string>, text: string, fuzzy: bool): seq<string> {
    if keys == [] then [] else AllWords(keys[..|keys| - 1], text, fuzzy) + Words(keys[|keys| - 1], text, fuzzy)
  }

  function Ors(n: nat): seq<string> { if n == 0 then [] else ["OR"] + Ors(n - 1) }

  /** One key for each field, joined by as many ORs in front as it takes. */
  function Conditions(keys: seq<string>, text: string, fuzzy: bool): seq<string> {
    if keys == [] then [] else Ors(|keys| - 1) + AllWords(keys, text, fuzzy)
  }

  /** The text goes to the server as it is behind a leading `:=`. */
  predicate IsRaw(box: SearchBox) { box.raw && |box.text| >= 2 && box.text[0] == ':' && box.text[1] == '=' }

  method QuickSearch(box: SearchBox) returns (res: seq<string>)
    ensures !box.enabled || box.text == "" ==> res == []
    ensures box.enabled && IsRaw(box) ==> res == [box.text[2..]]
    ensures box.enabled && box.text != "" && !IsRaw(box) ==>
      res == Conditions(Keys(box), box.text, box.supportsFuzzySearch)
  {
    if !box.enabled || box.text == "" {
      return [];
    }
    if box.raw && StartsWith(box.text, ":=") {
      return [box.text[2..]];
    }
    var keys := ChosenKeys(box);
    if keys == [] {
      return keys;
    }
    res := JoinKeys(keys, box.text, box.supportsFuzzySearch);
  }

  method ChosenKeys(box: SearchBox) returns (keys: seq<string>)
    ensures keys == Keys(box)
  {
    keys := [];
    if box.inSubject {
      keys := keys + ["SUBJECT"];
    }
    if box.inBody {
      keys := keys + ["BODY"];
    }
    if box.inRecipients {
      keys := keys + ["TO", "CC", "BCC"];
    }
    if box.inSenders {
      keys := keys + ["FROM"];
    }
  }

  method JoinKeys(keys: seq<string>, text: string, fuzzy: bool) returns (res: seq<string>)
    requires keys != []
    ensures res == Conditions(keys, text, fuzzy)
  {
    res := [];
    for i := 0 to |keys|
      invariant res == AllWords(keys[..i], text, fuzzy)
    {
      assert keys[..i + 1][..i] == keys[..i];
      ghost var was := res;
      if fuzzy {
        res := res + ["FUZZY"];
      }
      res := res + [keys[i], text];
      assert res == was + Words(keys[i], text, fuzzy);
    }
    assert keys[..|keys|] == keys;
    if |keys| > 1 {
      var num := |keys| - 1;
      for i := 0 to num
        invariant res == Ors(i) + AllWords(keys, text, fuzzy)
      {
        res := ["OR"] + res;
      }
    }
  }

  // ----- the grammar -----

  datatype Criterion =
    | Test(key: string, argument: string)
    | Fuzzy(inner: Criterion)
    | Or(left: Criterion, right: Criterion)

  /** One search key in front of other words: OR takes two keys, FUZZY one, the others take a string. */
  function Parse(words: seq<string>): (r: Option<(Criterion, seq<string>)>)
    ensures r.Some? ==> |r.value.1| < |words|
    decreases |words|
  {
    if words == [] then None
    else if words[0] == "OR" then
      var left := Parse(words[1..]);
      if left.None? then None
      else
        var right := Parse(left.value.1);
        if right.None? then None else Some((Or(left.value.0, right.value.0), right.value.1))
    else if words[0] == "FUZZY" then
      var inner := Parse(words[1..]);
      if inner.None? then None else Some((Fuzzy(inner.value.0), inner.value.1))
    else if |words| < 2 || words[0] !in ["SUBJECT", "BODY", "TO", "CC", "BCC", "FROM"] then None
    else Some((Test(words[0], words[1]), words[2..]))
  }

  /** What a criterion asks of a message, of which `test` says whether a field contains a text. */
  predicate Means(c: Criterion, test: (string, string, bool) -> bool, fuzzy: bool) {
    match c
    case Test(key, argument) => test(key, argument, fuzzy)
    case Fuzzy(inner) => Means(inner, test, true)
    case Or(left, right) => Means(left, test, fuzzy) || Means(right, test, fuzzy)
  }

  predicate IsKey(key: string) { key in ["SUBJECT", "BODY", "TO", "CC", "BCC", "FROM"] }

  function OneKey(key: string, text: string, fuzzy: bool): Criterion {
    if fuzzy then Fuzzy(Test(key, text)) else Test(key, text)
  }

  function AnyOf(keys: seq<string>, text: string, fuzzy: bool): Criterion
    requires keys != []
  {
    var last := OneKey(keys[|keys| - 1], text, fuzzy);
    if |keys| == 1 then last else Or(AnyOf(keys[..|keys| - 1], text, fuzzy), last)
  }

  /** The ORs take exactly the keys behind them, and what follows is left. */
  lemma {:induction false} ParseConditions(keys: seq<string>, text: string, fuzzy: bool, rest: seq<string>)
    requires keys != [] && forall i :: 0 <= i < |keys| ==> IsKey(keys[i])
    ensures Parse(Conditions(keys, text, fuzzy) + rest) == Some((AnyOf(keys, text, fuzzy), rest))
    decreases |keys|
  {
    hide *;
    var n := |keys| - 1;
    var last := Words(keys[n], text, fuzzy);
    if n == 0 {
      AnyOfUnfolds(keys, text, fuzzy);
      ParseWords(keys[0], text, fuzzy, rest);
      SingleKey(keys, text, fuzzy);
    } else {
      ParseConditions(keys[..n], text, fuzzy, last + rest);
      ParseWords(keys[n], text, fuzzy, rest);
      AnyOfUnfolds(keys, text, fuzzy);
      OneOrMore(keys, text, fuzzy, rest);
      ParseOr(Conditions(keys[..n], text, fuzzy) + (last + rest));
    }
  }

  lemma AnyOfUnfolds(keys: seq<string>, text: string, fuzzy: bool)
    requires keys != []
    ensures
      var n := |keys| - 1;
      var last := OneKey(keys[n], text, fuzzy);
      AnyOf(keys, text, fuzzy) == if n == 0 then last else Or(AnyOf(keys[..n], text, fuzzy), last)
  {
    hide OneKey;
  }

  /** The words of one key are read as that key. */
  lemma ParseWords(key: string, text: string, fuzzy: bool, rest: seq<string>)
    requires IsKey(key)
    ensures Parse(Words(key, text, fuzzy) + rest) == Some((OneKey(key, text, fuzzy), rest))
  {
    var test := [key, text] + rest;
    assert test[2..] == rest;
    assert Parse(test) == Some((Test(key, text), rest));
    if fuzzy {
      assert Words(key, text, fuzzy) + rest == ["FUZZY"] + test;
      assert (["FUZZY"] + test)[1..] == test;
    } else {
      assert Words(key, text, fuzzy) + rest == test;
    }
  }

  lemma SingleKey(keys: seq<string>, text: string, fuzzy: bool)
    requires |keys| == 1
    ensures Conditions(keys, text, fuzzy) == Words(keys[0], text, fuzzy)
  {
    assert keys[..0] == [];
    assert AllWords([], text, fuzzy) == [] && Ors(0) == [];
    hide *;
    assert [] + ([] + Words(keys[0], text, fuzzy)) == Words(keys[0], text, fuzzy);
  }

  lemma OneOrMore(keys: seq<string>, text: string, fuzzy: bool, rest: seq<string>)
    requires |keys| > 1
    ensures
      var n := |keys| - 1;
      Conditions(keys, text, fuzzy) + rest
      == ["OR"] + (Conditions(keys[..n], text, fuzzy) + (Words(keys[n], text, fuzzy) + rest))
  {
    var n := |keys| - 1;
    assert Ors(n) == ["OR"] + Ors(n - 1);
    hide *;
    Regroup(["OR"], Ors(n - 1), AllWords(keys[..n], text, fuzzy), Words(keys[n], text, fuzzy), rest);
  }

  lemma Regroup(a: seq<string>, b: seq<string>, c: seq<string>, d: seq<string>, e: seq<string>)
    ensures a + b + (c + d) + e == a + (b + c + (d + e))
  {
  }

  lemma ParseOr(words: seq<string>)
    requires Parse(words).Some? && Parse(Parse(words).value.1).Some?
    ensures
      var left := Parse(words).value;
      var right := Parse(left.1).value;
      Parse(["OR"] + words) == Some((Or(left.0, right.0), right.1))
  {
    assert (["OR"] + words)[1..] == words;
  }

  lemma {:induction false} AnyOfMeans(keys: seq<string>, text: string, fuzzy: bool,
                                      test: (string, string, bool) -> bool)
    requires keys != []
    ensures Means(AnyOf(keys, text, fuzzy), test, false) <==> exists i :: 0 <= i < |keys| && test(keys[i], text, fuzzy)
    decreases |keys|
  {
    var n := |keys| - 1;
    assert Means(OneKey(keys[n], text, fuzzy), test, false) == test(keys[n], text, fuzzy);
    if n > 0 {
      AnyOfMeans(keys[..n], text, fuzzy, test);
      assert forall i :: 0 <= i < n ==> keys[..n][i] == keys[i];
    }
  }

  /** Any of the chosen fields has the text. */
  predicate AnyField(box: SearchBox, test: (string, string, bool) -> bool) {
    || (box.inSubject && test("SUBJECT", box.text, box.supportsFuzzySearch))
    || (box.inBody && test("BODY", box.text, box.supportsFuzzySearch))
    || (box.inSenders && test("FROM", box.text, box.supportsFuzzySearch))
    || (box.inRecipients && exists field :: field in ["TO", "CC", "BCC"]
                                            && test(field, box.text, box.supportsFuzzySearch))
  }

  /** With any field chosen, the conditions are one search key, and it asks whether any of the chosen fields has the
      text. */
  lemma ConditionsMean(box: SearchBox, test: (string, string, bool) -> bool)
    ensures Keys(box) == [] <==> !box.inSubject && !box.inBody && !box.inSenders && !box.inRecipients
    ensures
      Keys(box) != [] ==>
        var parsed := Parse(Conditions(Keys(box), box.text, box.supportsFuzzySearch));
        parsed.Some? && parsed.value.1 == [] && (Means(parsed.value.0, test, false) <==> AnyField(box, test))
  {
    var keys, words := Keys(box), Conditions(Keys(box), box.text, box.supportsFuzzySearch);
    KeysAre(box);
    hide *;
    if keys != [] {
      assert words + [] == words;
      KeysAreKeys(keys);
      ParseConditions(keys, box.text, box.supportsFuzzySearch, []);
      AnyOfMeans(keys, box.text, box.supportsFuzzySearch, test);
      FieldsAre(box, test);
    }
  }

  lemma KeysAreKeys(keys: seq<string>)
    requires forall key :: key in keys ==> key in ["SUBJECT", "BODY", "TO", "CC", "BCC", "FROM"]
    ensures forall i :: 0 <= i < |keys| ==> IsKey(keys[i])
  {
  }

  lemma KeysAre(box: SearchBox)
    ensures
      forall key :: key in Keys(box)
           <==> || (box.inSubject && key == "SUBJECT") || (box.inBody && key == "BODY")
                || (box.inSenders && key == "FROM") || (box.inRecipients && key in ["TO", "CC", "BCC"])
    ensures Keys(box) == [] <==> !box.inSubject && !box.inBody && !box.inSenders && !box.inRecipients
  {
  }

  lemma FieldsAre(box: SearchBox, test: (string, string, bool) -> bool)
    ensures
      AnyField(box, test)
      <==> exists i :: 0 <= i < |Keys(box)| && test(Keys(box)[i], box.text, box.supportsFuzzySearch)
  {
    KeysAre(box);
    hide Keys;
    if key :| key in Keys(box) && test(key, box.text, box.supportsFuzzySearch) {
      assert AnyField(box, test);
    }
    if AnyField(box, test) {
      assert exists key :: key in Keys(box) && test(key, box.text, box.supportsFuzzySearch);
    }
  }
}
