/** The quote marks in the text of a page. The style sheet makes them invisible, but they are there when the text is
    copied. */
module CopiedText {
  import opened Text
  import opened Markup
  import opened Entities
  import opened LineMarkup
  import opened QuoteLines
  import opened QuoteTree

  /** A text with marks behind each newline. */
  function Marked(text: string, marks: string): string {
    if text == "" then ""
    else [text[0]] + (if text[0] == '\n' then marks else "") + Marked(text[1..], marks)
  }

  lemma {:induction false} MarkedConcat(a: string, b: string, marks: string)
    ensures Marked(a + b, marks) == Marked(a, marks) + Marked(b, marks)
  {
    if a == "" {
      assert a + b == b;
    } else {
      assert (a + b)[1..] == a[1..] + b;
      MarkedConcat(a[1..], b, marks);
    }
  }

  lemma {:induction false} TextOfMarkLines(text: string, marks: seq<Token>)
    ensures TextOf(MarkLines(text, marks)) == Marked(text, TextOf(marks))
  {
    if text != "" {
      var first := [Chars([text[0]])];
      var more := if text[0] == '\n' then marks else [];
      var rest := MarkLines(text[1..], marks);
      TextOfMarkLines(text[1..], marks);
      ReadOne(first[0], BLANK);
      TextOfConcat(first + more, rest);
      TextOfConcat(first, more);
    }
  }

  lemma {:induction false} TextOfWithMarks(ts: seq<Token>, marks: seq<Token>)
    ensures TextOf(WithMarks(ts, marks)) == Marked(TextOf(ts), TextOf(marks))
  {
    if ts != [] {
      var first := if ts[0].Chars? then MarkLines(ts[0].text, marks) else [ts[0]];
      TextOfWithMarks(ts[1..], marks);
      TextOfConcat(first, WithMarks(ts[1..], marks));
      MarkedConcat(OwnText(ts[0]), TextOf(ts[1..]), TextOf(marks));
      if ts[0].Chars? {
        TextOfMarkLines(ts[0].text, marks);
      } else {
        ReadOne(ts[0], BLANK);
      }
    }
  }

  /** A text whose first line is put behind something. */
  lemma {:induction false} SplitBehind(front: string, text: string)
    requires '\n' !in front
    ensures Split(front + text) == [front + Split(text)[0]] + Split(text)[1..]
  {
    if front == "" {
      var lines := Split(text);
      assert front + text == text && "" + lines[0] == lines[0];
      assert [lines[0]] + lines[1..] == lines;
    } else {
      assert front[0] in front && forall c :: c in front[1..] ==> c in front;
      SplitBehind(front[1..], text);
      assert (front + text)[1..] == front[1..] + text && (front + text)[0] == front[0];
      assert [front[0]] + (front[1..] + Split(text)[0]) == front + Split(text)[0];
    }
  }

  lemma {:induction false} SplitMarked(text: string, marks: string)
    requires '\n' !in marks
    ensures |Split(Marked(text, marks))| == |Split(text)|
    ensures
      forall k :: 0 <= k < |Split(text)| ==>
        Split(Marked(text, marks))[k] == (if k == 0 then "" else marks) + Split(text)[k]
  {
    hide *;
    MarkedUnfolds(text, marks);
    assert forall line: string :: "" + line == line;
    if text == "" {
      SplitUnfolds("");
    } else {
      var rest := Marked(text[1..], marks);
      SplitMarked(text[1..], marks);
      SplitUnfolds(text);
      SplitUnfolds(Marked(text, marks));
      if text[0] == '\n' {
        SplitBehind(marks, rest);
        assert ("\n" + (marks + rest))[1..] == marks + rest;
      } else {
        assert ([text[0]] + rest)[1..] == rest;
      }
    }
  }

  lemma MarkedUnfolds(text: string, marks: string)
    ensures
      Marked(text, marks)
      == if text == "" then ""
         else if text[0] == '\n' then "\n" + (marks + Marked(text[1..], marks))
         else [text[0]] + Marked(text[1..], marks)
  {
    if text != "" && text[0] == '\n' {
      var rest := Marked(text[1..], marks);
      assert "\n" + marks + rest == "\n" + (marks + rest);
    }
  }

  // ----- the marks as a browser spells them -----

  lemma {:induction false} GreaterSigns(n: nat, rest: string)
    ensures Unescape(Repeat("&gt;", n) + rest) == Repeat(">", n) + Unescape(rest)
  {
    hide *;
    RepeatUnfolds(">", n);
    RepeatUnfolds("&gt;", n);
    if n == 0 {
      assert "" + rest == rest && "" + Unescape(rest) == Unescape(rest);
    } else {
      GreaterSigns(n - 1, "&gt;" + rest);
      UnescapeSign(rest);
      assert Repeat("&gt;", n) + rest == Repeat("&gt;", n - 1) + ("&gt;" + rest);
      assert Repeat(">", n - 1) + (">" + Unescape(rest)) == Repeat(">", n) + Unescape(rest);
    }
  }

  lemma RepeatUnfolds(s: string, n: nat)
    ensures Repeat(s, n) == if n == 0 then "" else Repeat(s, n - 1) + s
  {
  }

  lemma UnescapeSign(rest: string)
    ensures Unescape("&gt;" + rest) == ">" + Unescape(rest)
  {
    UnescapeFirst('>', rest);
    hide Unescape;
  }

  lemma UnescapeBlank(rest: string)
    ensures Unescape(" " + rest) == " " + Unescape(rest)
  {
    var s := " " + rest;
    assert s[0] == ' ' && s[1..] == rest;
    assert FirstShown(s) == (' ', 1);
  }

  lemma {:induction false} SignsHaveNoNewline(n: nat)
    ensures '\n' !in Repeat("&gt;", n)
  {
    if n > 0 { SignsHaveNoNewline(n - 1); }
  }

  lemma TextOfMarkSpan(depth: nat)
    ensures TextOf(MarkSpan(depth)) == Repeat("&gt;", depth) + " "
  {
    var text := Repeat("&gt;", depth) + " ";
    ReadThree(OpenSpan(QuoteMarks), Chars(text), Close(Span), BLANK);
    assert "" + (text + "") == text;
  }

  /** Every line of a quoted block stands behind as many quote marks as the block is deep, and one blank; an unquoted
      block has none. */
  lemma LinesAreMarked(f: Matcher, text: string, depth: nat)
    ensures
      var lines, copied := Split(TextOf(Htmlify(f, text))), Split(TextOf(Quoted(f, text, depth)));
      && |copied| == |lines|
      && forall k :: 0 <= k < |lines| ==>
           Unescape(copied[k])
           == (if depth == 0 then "" else Repeat(">", depth) + " ") + Unescape(lines[k])
  {
    hide *;
    var shown := TextOf(Htmlify(f, text));
    var lines, copied := Split(shown), Split(TextOf(Quoted(f, text, depth)));
    var marks := TextOf(Marks(depth));
    MarksAre(depth);
    QuotedIs(f, text, depth);
    TextOfConcat(Marks(depth), WithMarks(Htmlify(f, text), Marks(depth)));
    TextOfWithMarks(Htmlify(f, text), Marks(depth));
    SplitMarked(shown, marks);
    SplitBehind(marks, Marked(shown, marks));
    forall k | 0 <= k < |lines|
      ensures Unescape(copied[k]) == (if depth == 0 then "" else Repeat(">", depth) + " ") + Unescape(lines[k])
    {
      assert copied[k] == marks + lines[k] by { assert marks + ("" + lines[0]) == marks + lines[0]; }
      MarkIsRead(depth, lines[k]);
    }
  }

  lemma MarksAre(depth: nat)
    ensures '\n' !in TextOf(Marks(depth))
    ensures TextOf(Marks(depth)) == if depth == 0 then "" else Repeat("&gt;", depth) + " "
  {
    hide Repeat, MarkSpan;
    TextOfMarkSpan(depth);
    SignsHaveNoNewline(depth);
  }

  lemma QuotedIs(f: Matcher, text: string, depth: nat)
    ensures Quoted(f, text, depth) == Marks(depth) + WithMarks(Htmlify(f, text), Marks(depth))
  {
    hide Marks, WithMarks, Htmlify;
  }

  lemma MarkIsRead(depth: nat, line: string)
    ensures Unescape(TextOf(Marks(depth)) + line)
         == (if depth == 0 then "" else Repeat(">", depth) + " ") + Unescape(line)
  {
    hide *;
    MarksAre(depth);
    if depth > 0 {
      assert Repeat("&gt;", depth) + " " + line == Repeat("&gt;", depth) + (" " + line);
      GreaterSigns(depth, " " + line);
      UnescapeBlank(line);
      assert Repeat(">", depth) + (" " + Unescape(line)) == Repeat(">", depth) + " " + Unescape(line);
    } else {
      assert "" + line == line;
    }
  }

  /** So does the mark for skipped quotations: as many quote marks as the shallowest of them is deep. */
  lemma OmittedIsMarked(b: seq<TextInfo>, i: nat, j: nat, level: nat, id: nat, closest: nat)
    requires i < j <= |b| && forall k :: i <= k < j ==> b[k].depth > level
    requires (forall k :: i <= k < j ==> b[k].depth >= closest) && exists k :: i <= k < j && b[k].depth == closest
    ensures Unescape(TextOf(Omitted(b, i, j, level, id))) == Repeat(">", closest) + " ..."
  {
    hide *;
    var n := closest - level;
    OmittedParts(b, i, j, level, id, closest);
    TextOfConcat(Quotes(n) + MarkSpan(closest) + Ellipsis(id), Unquotes(n));
    TextOfConcat(Quotes(n) + MarkSpan(closest), Ellipsis(id));
    TextOfConcat(Quotes(n), MarkSpan(closest));
    NoText(n);
    TextOfMarkSpan(closest);
    TextOfEllipsis(id);
    assert "" + (Repeat("&gt;", closest) + " ") + "..." + "" == Repeat("&gt;", closest) + " ...";
    GreaterSigns(closest, " ...");
    UnescapeDots();
  }

  lemma OmittedParts(b: seq<TextInfo>, i: nat, j: nat, level: nat, id: nat, closest: nat)
    requires i < j <= |b| && forall k :: i <= k < j ==> b[k].depth > level
    requires (forall k :: i <= k < j ==> b[k].depth >= closest) && exists k :: i <= k < j && b[k].depth == closest
    ensures
      && closest > level
      && Omitted(b, i, j, level, id)
         == Quotes(closest - level) + MarkSpan(closest) + Ellipsis(id) + Unquotes(closest - level)
  {
    hide Quotes, MarkSpan, Ellipsis, Unquotes;
    assert MinDepth(b, i, j) == closest;
  }

  lemma {:induction false} NoText(n: nat)
    ensures TextOf(Quotes(n)) == "" && TextOf(Unquotes(n)) == ""
  {
    if n > 0 {
      NoText(n - 1);
      assert Quotes(n)[1..] == Quotes(n - 1) && Unquotes(n)[1..] == Unquotes(n - 1);
    }
  }

  lemma TextOfEllipsis(id: nat)
    ensures TextOf(Ellipsis(id)) == "..."
  {
    ReadThree(OpenLabel(id), Chars("..."), Close(Label), BLANK);
    assert "" + ("..." + "") == "...";
  }

  lemma UnescapeDots()
    ensures Unescape(" ...") == " ..."
  {
    assert Unescape("") == "";
    assert " ..."[1..] == "..." && "..."[1..] == ".." && ".."[1..] == "." && "."[1..] == "";
    assert Unescape(".") == "." && Unescape("..") == "..";
  }
}
