/** Escaped text as a browser reads it: the four entities stand for one character each. */
module Entities {
  import opened Text
  import opened LineMarkup

  /** The character a browser shows first, and how much of the text spells it. */
  function FirstShown(s: string): (r: (char, nat))
    requires s != ""
    ensures 1 <= r.1 <= |s|
  {
    if StartsWith(s, "&amp;") then ('&', 5)
    else if StartsWith(s, "&lt;") then ('<', 4)
    else if StartsWith(s, "&gt;") then ('>', 4)
    else if StartsWith(s, "&quot;") then ('"', 6)
    else (s[0], 1)
  }

  function Unescape(s: string): string
    decreases |s|
  {
    if s == "" then "" else
    var (c, n) := FirstShown(s);
    [c] + Unescape(s[n..])
  }

  lemma {:induction false} UnescapeEscape(line: string)
    ensures Unescape(Escape(line)) == line
  {
    if line != "" {
      UnescapeEscape(line[1..]);
      UnescapeFirst(line[0], Escape(line[1..]));
    }
  }

  lemma UnescapeFirst(c: char, rest: string)
    ensures Unescape(EscapeChar(c) + rest) == [c] + Unescape(rest)
  {
    var s := EscapeChar(c) + rest;
    EscapeCharGrows(c);
    FirstOfEscaped(c, rest);
    hide FirstShown, EscapeChar;
    assert s[|EscapeChar(c)|..] == rest;
  }

  lemma FirstOfEscaped(c: char, rest: string)
    ensures EscapeChar(c) + rest != ""
    ensures FirstShown(EscapeChar(c) + rest) == (c, |EscapeChar(c)|)
  {
    var s := EscapeChar(c) + rest;
    assert s[..|EscapeChar(c)|] == EscapeChar(c);
    if c == '<' {
      assert s[1] == 'l';
    } else if c == '>' {
      assert s[1] == 'g';
    } else if c == '"' {
      assert s[1] == 'q';
    } else if c != '&' {
      assert s[0] == c;
    }
  }

  // ----- which texts are escaped texts -----

  predicate IsEntity(s: string) { s == "&amp;" || s == "&lt;" || s == "&gt;" || s == "&quot;" }

  /** The beginning of an entity, but not yet all of it. */
  predicate Begun(s: string) {
    s != "" && !IsEntity(s) && (s <= "&amp;" || s <= "&lt;" || s <= "&gt;" || s <= "&quot;")
  }

  predicate NeedsEscape(c: char) { c == '&' || c == '<' || c == '>' || c == '"' }

  /** Reading on behind the beginning `pending` of an entity: what is pending in the end; `None` if the text
      cannot be a piece of escaped text. */
  function Reads(pending: string, s: string): Option<string>
    decreases |s|
  {
    if s == "" then Some(pending)
    else if pending == "" && !NeedsEscape(s[0]) then Reads("", s[1..])
    else
      var more := pending + [s[0]];
      if IsEntity(more) then Reads("", s[1..])
      else if Begun(more) then Reads(more, s[1..])
      else None
  }

  lemma {:induction false} ReadsConcat(pending: string, a: string, b: string)
    ensures Reads(pending, a + b)
         == if Reads(pending, a).None? then None else Reads(Reads(pending, a).value, b)
    decreases |a|
  {
    hide IsEntity, Begun;
    if a == "" {
      assert a + b == b;
    } else {
      assert (a + b)[1..] == a[1..] + b;
      var more := pending + [a[0]];
      ReadsConcat("", a[1..], b);
      ReadsConcat(more, a[1..], b);
    }
  }

  /** No entity has a mark character in it. */
  lemma MarkIsAlone(pending: string, c: char)
    requires IsMark(c) && Reads(pending, [c]).Some?
    ensures pending == "" && Reads(pending, [c]) == Some("")
  {
    var more := pending + [c];
    assert more[|more| - 1] == c;
    assert [c][1..] == "";
    if Begun(more) {
      NoMarkInside(more);
    }
  }

  lemma NoMarkInside(s: string)
    requires Begun(s)
    ensures !IsMark(s[|s| - 1])
  {
    var k := |s| - 1;
    assert s <= "&amp;" ==> s[k] == "&amp;"[k];
    assert s <= "&lt;" ==> s[k] == "&lt;"[k];
    assert s <= "&gt;" ==> s[k] == "&gt;"[k];
    assert s <= "&quot;" ==> s[k] == "&quot;"[k];
  }

  lemma EntityReads(c: char)
    ensures Reads("", EscapeChar(c)) == Some("")
  {
    if NeedsEscape(c) {
      var e := EscapeChar(c);
      assert e == "&amp;" || e == "&lt;" || e == "&gt;" || e == "&quot;";
      WholeEntity("&amp;");
      WholeEntity("&lt;");
      WholeEntity("&gt;");
      WholeEntity("&quot;");
    } else {
      assert [c][1..] == "";
    }
  }

  lemma WholeEntity(e: string)
    requires IsEntity(e)
    ensures Reads("", e) == Some("")
  {
    PartOfEntity(e, 1);
    assert e == [e[0]] + e[1..];
    assert "" + [e[0]] == e[..1];
  }

  lemma {:induction false} PartOfEntity(e: string, k: nat)
    requires IsEntity(e) && 1 <= k < |e|
    ensures Begun(e[..k]) && Reads(e[..k], e[k..]) == Some("")
    decreases |e| - k
  {
    hide IsEntity, Begun;
    assert e[..k] + [e[k..][0]] == e[..k + 1] && e[k..][1..] == e[k + 1..];
    NotYetEntity(e, k);
    if k + 1 < |e| {
      NotYetEntity(e, k + 1);
      PartOfEntity(e, k + 1);
    } else {
      assert e[..k + 1] == e && e[k + 1..] == "";
    }
  }

  lemma NotYetEntity(e: string, k: nat)
    requires IsEntity(e) && 1 <= k < |e|
    ensures Begun(e[..k]) && !IsEntity(e[..k])
  {
    var s := e[..k];
    assert e[k - 1] != ';';
    assert s[k - 1] == e[k - 1];
    if IsEntity(s) {
      EntityEnd(s);
      assert false;
    }
  }

  lemma EntityEnd(s: string)
    requires IsEntity(s)
    ensures s != "" && s[|s| - 1] == ';'
  {
  }

  lemma {:induction false} EscapeReads(line: string)
    ensures Reads("", Escape(line)) == Some("")
  {
    if line != "" {
      EntityReads(line[0]);
      EscapeReads(line[1..]);
      ReadsConcat("", EscapeChar(line[0]), Escape(line[1..]));
    }
  }

  /** A begun entity is completed before anything else. */
  lemma {:induction false} Completes(pending: string, s: string) returns (n: nat)
    requires pending != "" && Reads(pending, s) == Some("")
    ensures n <= |s| && IsEntity(pending + s[..n]) && Reads("", s[n..]) == Some("")
    decreases |s|
  {
    hide Begun, IsEntity;
    var more := pending + [s[0]];
    if IsEntity(more) {
      n := 1;
      assert pending + s[..1] == more;
    } else {
      n := Completes(more, s[1..]);
      assert pending + s[..n + 1] == more + s[1..][..n] && s[n + 1..] == s[1..][n..];
      n := n + 1;
    }
  }

  /** Such a text is what escaping makes of what the browser shows. */
  lemma {:induction false} EscapeUnescape(s: string)
    requires Reads("", s) == Some("")
    ensures Escape(Unescape(s)) == s
    decreases |s|
  {
    if s != "" {
      var c, n := SplitFirst(s);
      EscapeUnescape(s[n..]);
      UnescapeFirst(c, s[n..]);
      hide *;
      EscapeCons(c, Unescape(s[n..]));
      assert s == s[..n] + s[n..];
    }
  }

  lemma EscapeCons(c: char, rest: string)
    ensures Escape([c] + rest) == EscapeChar(c) + Escape(rest)
  {
    assert ([c] + rest)[1..] == rest;
  }

  lemma SplitFirst(s: string) returns (c: char, n: nat)
    requires s != "" && Reads("", s) == Some("")
    ensures 1 <= n <= |s| && s[..n] == EscapeChar(c) && Reads("", s[n..]) == Some("")
    ensures s == EscapeChar(c) + s[n..]
  {
    if !NeedsEscape(s[0]) {
      c, n := s[0], 1;
    } else {
      assert "" + [s[0]] == [s[0]];
      var k := Completes([s[0]], s[1..]);
      n := k + 1;
      assert [s[0]] + s[1..][..k] == s[..n] && s[n..] == s[1..][k..];
      c := EntityChar(s[..n]);
    }
    assert s == s[..n] + s[n..];
  }

  function EntityChar(e: string): (c: char)
    requires IsEntity(e)
    ensures EscapeChar(c) == e
  {
    if e == "&amp;" then '&' else if e == "&lt;" then '<' else if e == "&gt;" then '>' else '"'
  }
}
