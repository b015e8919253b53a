/** A reader of multipart messages (RFC 2046, section 5.1.1): what is written is read back. */
module MimeReader {
  import opened Text
  import opened Base64
  import opened MessageComposer
  import opened MessageComposerFacts

  // ----- cutting a message at its delimiters -----

  /** What stands between the occurrences of `d`. */
  function CutAt(s: string, d: string): (parts: seq<string>)
    requires d != ""
    ensures parts != []
    decreases |s|
  {
    if StartsWith(s, d) then [""] + CutAt(s[|d|..], d)
    else if s == "" then [""]
    else
      var rest := CutAt(s[1..], d);
      [[s[0]] + rest[0]] + rest[1..]
  }

  /** Two occurrences cannot overlap. */
  predicate Separate(d: string) { d != "" && forall i :: 1 <= i < |d| ==> d[i] != d[0] }

  lemma {:induction false} CutConcat(a: string, b: string, d: string)
    requires Separate(d)
    ensures CutAt(a + d + b, d) == CutAt(a, d) + CutAt(b, d)
    decreases |a|
  {
    hide *;
    CutUnfolds(a + d + b, d);
    CutUnfolds(a, d);
    SeparateIs(d);
    if a == "" {
      DelimiterInFront(d, b);
      assert "" + d + b == d + b;
    } else if StartsWith(a, d) {
      StillInFront(a, d, b);
      CutConcat(a[|d|..], b, d);
      assert [""] + (CutAt(a[|d|..], d) + CutAt(b, d)) == [""] + CutAt(a[|d|..], d) + CutAt(b, d);
    } else {
      NotInFront(a, d, b);
      CutConcat(a[1..], b, d);
      ConsBehind(CutAt(a[1..], d), CutAt(b, d));
    }
  }

  lemma CutUnfolds(s: string, d: string)
    requires Separate(d)
    ensures d != ""
    ensures StartsWith(s, d) ==> |d| <= |s|
    ensures
      CutAt(s, d)
      == if StartsWith(s, d) then [""] + CutAt(s[|d|..], d)
         else if s == "" then [""]
         else [[s[0]] + CutAt(s[1..], d)[0]] + CutAt(s[1..], d)[1..]
  {
  }

  lemma SeparateIs(d: string)
    requires Separate(d)
    ensures d != "" && !StartsWith("", d)
  {
  }

  lemma DelimiterInFront(d: string, b: string)
    ensures StartsWith(d + b, d) && (d + b)[|d|..] == b
  {
  }

  lemma StillInFront(a: string, d: string, b: string)
    requires StartsWith(a, d)
    ensures |d| <= |a| && StartsWith(a + d + b, d) && (a + d + b)[|d|..] == a[|d|..] + d + b
  {
    assert (a + d + b)[..|d|] == a[..|d|];
  }

  /** The delimiter does not occur across the end of what stands in front of it. */
  lemma NotInFront(a: string, d: string, b: string)
    requires Separate(d) && a != "" && !StartsWith(a, d)
    ensures !StartsWith(a + d + b, d) && a + d + b != ""
    ensures (a + d + b)[0] == a[0] && (a + d + b)[1..] == a[1..] + d + b
  {
    var s := a + d + b;
    StartsWithIs(s, d);
    StartsWithIs(a, d);
    assert |a| < |d| ==> s[|a|] == d[0];
    assert forall k :: 0 <= k < |a| ==> s[k] == a[k];
    hide StartsWith;
  }

  lemma StartsWithIs(s: string, prefix: string)
    ensures StartsWith(s, prefix) <==> |prefix| <= |s| && forall k :: 0 <= k < |prefix| ==> s[k] == prefix[k]
  {
    if |prefix| <= |s| { assert forall k :: 0 <= k < |prefix| ==> s[..|prefix|][k] == s[k]; }
  }

  /** The delimiter does not occur. */
  predicate Uncut(s: string, d: string) { forall k :: 0 <= k <= |s| ==> !StartsWith(s[k..], d) }

  lemma {:induction false} CutNowhere(s: string, d: string)
    requires d != "" && Uncut(s, d)
    ensures CutAt(s, d) == [s]
  {
    assert s[0..] == s;
    if s != "" {
      forall k | 0 <= k <= |s[1..]| ensures !StartsWith(s[1..][k..], d) {
        assert s[1..][k..] == s[k + 1..];
      }
      CutNowhere(s[1..], d);
      assert [s[0]] + s[1..] == s;
    }
  }

  // ----- the parts of a message -----

  function Delimiter(boundary: string): (d: string)
    ensures d != ""
  {
    "\r\n--" + boundary
  }

  /** What follows a line break. */
  function BehindBreak(s: string): string { if StartsWith(s, "\r\n") then s[2..] else "" }

  /** The parts up to the closing delimiter; each begins behind the line of its delimiter. */
  function PartTexts(pieces: seq<string>): Option<seq<string>> {
    if pieces == [] then None
    else if StartsWith(pieces[0], "--") then Some([])
    else if StartsWith(pieces[0], "\r\n") then
      var rest := PartTexts(pieces[1..]);
      if rest.None? then None else Some([BehindBreak(pieces[0])] + rest.value)
    else None
  }

  function ReadMultipart(raw: string, boundary: string): Option<seq<string>> {
    PartTexts(CutAt(raw, Delimiter(boundary))[1..])
  }

  /** The header and the body of a part. */
  function PartText(a: Attachment): string {
    "Content-Type: " + a.mimeType + "\r\n" + a.disposition
    + "Content-Transfer-Encoding: " + EncodingName(a.cte) + "\r\n" + "\r\n" + EncodedBody(a)
  }

  /** What follows a delimiter: the rest of its line and the part. */
  function PartBehind(a: Attachment): string { "\r\n" + PartText(a) }

  function PartsBehind(attachments: seq<Attachment>): seq<string> {
    if attachments == [] then [] else [PartBehind(attachments[0])] + PartsBehind(attachments[1..])
  }

  /** A boundary is one line, and does not occur in a part. */
  ghost predicate Bounds(boundary: string, attachments: seq<Attachment>) {
    && '\r' !in boundary
    && forall a :: a in attachments ==> Uncut(PartBehind(a), Delimiter(boundary))
  }

  lemma DelimiterIsSeparate(boundary: string)
    requires '\r' !in boundary
    ensures Separate(Delimiter(boundary))
  {
    var d := Delimiter(boundary);
    forall i | 1 <= i < |d| ensures d[i] != d[0] {
      if i >= 4 { assert d[i] == boundary[i - 4] && boundary[i - 4] in boundary; }
    }
  }

  lemma PartIs(a: Attachment, boundary: string)
    ensures PartHeader(a, boundary) + EncodedBody(a) == Delimiter(boundary) + PartBehind(a)
  {
    hide EncodingName, EncodedBody;
    var name, body := EncodingName(a.cte), EncodedBody(a);
    Regroup(Delimiter(boundary), "Content-Type: " + a.mimeType + "\r\n" + a.disposition,
            "Content-Transfer-Encoding: " + name + "\r\n" + "\r\n", body);
    LeftTo("Content-Transfer-Encoding: ", name, body, boundary, a);
  }

  lemma Regroup(d: string, x: string, y: string, body: string)
    ensures d + "\r\n" + x + y + body == d + ("\r\n" + (x + y + body))
  {
  }

  lemma LeftTo(field: string, name: string, body: string, boundary: string, a: Attachment)
    ensures
      var x := "Content-Type: " + a.mimeType + "\r\n" + a.disposition;
      && "\r\n--" + boundary + "\r\n" + "Content-Type: " + a.mimeType + "\r\n" + a.disposition
         + field + name + "\r\n" + "\r\n"
         == ("\r\n--" + boundary) + "\r\n" + x + (field + name + "\r\n" + "\r\n")
      && x + field + name + "\r\n" + "\r\n" + body == x + (field + name + "\r\n" + "\r\n") + body
  {
  }

  lemma {:induction false} CutParts(attachments: seq<Attachment>, boundary: string, before: string)
    requires Bounds(boundary, attachments)
    ensures Separate(Delimiter(boundary))
    ensures
      CutAt(before + (Parts(attachments, boundary) + Closing(boundary)), Delimiter(boundary))
      == CutAt(before, Delimiter(boundary)) + PartsBehind(attachments) + ["--\r\n"]
    decreases |attachments|
  {
    hide *;
    BoundsIs(boundary, attachments);
    DelimiterIsSeparate(boundary);
    PartsUnfold(attachments, boundary);
    var d := Delimiter(boundary);
    if attachments == [] {
      CutConcat(before, "--\r\n", d);
      CutClosing(boundary);
      assert before + d + "--\r\n" == before + ("" + (d + "--\r\n"));
      assert CutAt(before, d) + [] + ["--\r\n"] == CutAt(before, d) + ["--\r\n"];
    } else {
      var a, rest := attachments[0], attachments[1..];
      var behind := PartBehind(a) + (Parts(rest, boundary) + Closing(boundary));
      PartIs(a, boundary);
      CutParts(rest, boundary, PartBehind(a));
      CutNowhere(PartBehind(a), d);
      CutConcat(before, behind, d);
      Written(before, d, PartBehind(a), Parts(rest, boundary), Closing(boundary));
      assert CutAt(before, d) + ([PartBehind(a)] + PartsBehind(rest) + ["--\r\n"])
          == CutAt(before, d) + ([PartBehind(a)] + PartsBehind(rest)) + ["--\r\n"];
    }
  }

  lemma Written(before: string, d: string, part: string, rest: string, closing: string)
    ensures before + (d + part + rest + closing) == before + d + (part + (rest + closing))
  {
  }

  lemma BoundsIs(boundary: string, attachments: seq<Attachment>)
    requires Bounds(boundary, attachments)
    ensures '\r' !in boundary
    ensures attachments != [] ==> Uncut(PartBehind(attachments[0]), Delimiter(boundary))
    ensures attachments != [] ==> Bounds(boundary, attachments[1..])
  {
    hide Uncut, PartBehind, Delimiter;
  }

  lemma PartsUnfold(attachments: seq<Attachment>, boundary: string)
    ensures
      Parts(attachments, boundary)
      == if attachments == [] then ""
         else (PartHeader(attachments[0], boundary) + EncodedBody(attachments[0])) + Parts(attachments[1..], boundary)
    ensures
      PartsBehind(attachments)
      == if attachments == [] then [] else [PartBehind(attachments[0])] + PartsBehind(attachments[1..])
    ensures Closing(boundary) == Delimiter(boundary) + "--\r\n"
  {
    hide PartHeader, EncodedBody, PartBehind;
    assert "\r\n--" + boundary + "--\r\n" == ("\r\n--" + boundary) + "--\r\n";
  }

  /** Behind the closing delimiter nothing is cut any more. */
  lemma CutClosing(boundary: string)
    ensures CutAt("--\r\n", Delimiter(boundary)) == ["--\r\n"]
  {
    var s := "--\r\n";
    forall k | 0 <= k <= |s| ensures !StartsWith(s[k..], Delimiter(boundary)) {
      if k == 2 {
        assert |s[2..]| == 2 && |Delimiter(boundary)| >= 4;
      } else if k < 4 {
        assert s[k..][0] == s[k] && Delimiter(boundary)[0] == '\r';
      }
    }
    CutNowhere(s, Delimiter(boundary));
  }

  // ----- one part -----

  /** The text up to the next line break, and the text behind it. */
  function UntilBreak(s: string): Option<(string, string)> {
    if StartsWith(s, "\r\n") then Some(("", s[2..]))
    else if s == "" then None
    else
      var rest := UntilBreak(s[1..]);
      if rest.None? then None else Some(([s[0]] + rest.value.0, rest.value.1))
  }

  lemma {:induction false} UntilBreakShrinks(s: string)
    ensures UntilBreak(s).Some? ==> |UntilBreak(s).value.1| < |s|
  {
    if !StartsWith(s, "\r\n") && s != "" { UntilBreakShrinks(s[1..]); }
  }

  /** The lines of the header, up to the empty one, and the body. */
  function ReadHeader(s: string): Option<(seq<string>, string)>
    decreases |s|
  {
    UntilBreakShrinks(s);
    var line := UntilBreak(s);
    if line.None? then None
    else if line.value.0 == "" then Some(([], line.value.1))
    else
      var rest := ReadHeader(line.value.1);
      if rest.None? then None else Some(([line.value.0] + rest.value.0, rest.value.1))
  }

  /** What the first line with a field of that name says. */
  function Field(lines: seq<string>, name: string): Option<string> {
    if lines == [] then None
    else if StartsWith(lines[0], name + ": ") then Some(lines[0][|name| + 2..])
    else Field(lines[1..], name)
  }

  function Bytes(s: string): Option<seq<Byte>> {
    if s == "" then Some([])
    else
      var rest := Bytes(s[1..]);
      if rest.None? || s[0] as int >= 256 then None else Some([s[0] as int] + rest.value)
  }

  /** Section 6 of RFC 2045. */
  function DecodeBody(encoding: string, body: string): Option<seq<Byte>> {
    if encoding == "base64" then Decode(WithoutBreaks(body))
    else if encoding in ["7bit", "8bit", "binary"] then Bytes(body)
    else None
  }

  /** The type of a part, how it says it is encoded, and its data. */
  function ReadPart(part: string): Option<(string, string, seq<Byte>)> {
    var read := ReadHeader(part);
    if read.None? then None
    else
      var kind, encoding := Field(read.value.0, "Content-Type"), Field(read.value.0, "Content-Transfer-Encoding");
      if kind.None? || encoding.None? then None
      else
        var data := DecodeBody(encoding.value, read.value.1);
        if data.None? then None else Some((kind.value, encoding.value, data.value))
  }

  predicate IsLine(s: string) { s != "" && '\r' !in s }

  lemma {:induction false} UntilBreakIs(line: string, rest: string)
    requires '\r' !in line
    ensures UntilBreak(line + "\r\n" + rest) == Some((line, rest))
  {
    var s := line + "\r\n" + rest;
    if line == "" {
      assert s[..2] == "\r\n" && s[2..] == rest;
    } else {
      assert line[0] in line && s[0] == line[0];
      StartsWithIs(s, "\r\n");
      assert forall c :: c in line[1..] ==> c in line;
      UntilBreakIs(line[1..], rest);
      assert s[1..] == line[1..] + "\r\n" + rest;
      assert [line[0]] + line[1..] == line;
    }
  }

  lemma {:induction false} HeaderIsRead(lines: seq<string>, body: string)
    requires forall k :: 0 <= k < |lines| ==> IsLine(lines[k])
    ensures ReadHeader(Broken(lines) + "\r\n" + body) == Some((lines, body))
  {
    hide *;
    BrokenUnfolds(lines);
    if lines == [] {
      assert Broken(lines) + "\r\n" + body == "" + "\r\n" + body;
      UntilBreakIs("", body);
      ReadEmptyLine("" + "\r\n" + body, body);
    } else {
      var rest := Broken(lines[1..]) + "\r\n" + body;
      HeaderIsRead(lines[1..], body);
      LineIs(lines[0]);
      UntilBreakIs(lines[0], rest);
      ReadOneLine(lines[0] + "\r\n" + rest, lines[0], rest);
      assert lines[0] + "\r\n" + Broken(lines[1..]) + "\r\n" + body == lines[0] + "\r\n" + rest;
      assert [lines[0]] + lines[1..] == lines;
    }
  }

  lemma LineIs(line: string)
    requires IsLine(line)
    ensures line != "" && '\r' !in line
  {
  }

  lemma BrokenUnfolds(lines: seq<string>)
    ensures Broken(lines) == if lines == [] then "" else lines[0] + "\r\n" + Broken(lines[1..])
  {
  }

  lemma ReadEmptyLine(s: string, body: string)
    requires UntilBreak(s) == Some(("", body))
    ensures ReadHeader(s) == Some(([], body))
  {
    hide UntilBreak;
  }

  lemma ReadOneLine(s: string, line: string, rest: string)
    requires line != "" && UntilBreak(s) == Some((line, rest)) && ReadHeader(rest).Some?
    ensures ReadHeader(s) == Some(([line] + ReadHeader(rest).value.0, ReadHeader(rest).value.1))
  {
    hide UntilBreak;
  }

  /** The header fields of an attachment are whole lines, and the disposition is no other field. */
  ghost predicate WellFormed(a: Attachment, disposition: seq<string>) {
    && '\r' !in a.mimeType && a.disposition == Broken(disposition)
    && forall line :: line in disposition ==> IsLine(line) && !StartsWith(line, "Content-Transfer-Encoding: ")
  }

  function HeaderLines(a: Attachment, disposition: seq<string>): seq<string> {
    ["Content-Type: " + a.mimeType] + (disposition + ["Content-Transfer-Encoding: " + EncodingName(a.cte)])
  }

  lemma {:induction false} BrokenConcat(x: seq<string>, y: seq<string>)
    ensures Broken(x + y) == Broken(x) + Broken(y)
  {
    hide *;
    BrokenUnfolds(x);
    BrokenUnfolds(x + y);
    if x == [] {
      assert x + y == y && "" + Broken(y) == Broken(y);
    } else {
      assert (x + y)[1..] == x[1..] + y;
      BrokenConcat(x[1..], y);
      assert x[0] + "\r\n" + (Broken(x[1..]) + Broken(y)) == x[0] + "\r\n" + Broken(x[1..]) + Broken(y);
    }
  }

  lemma OneBroken(line: string)
    ensures Broken([line]) == line + "\r\n"
  {
    assert [line][1..] == [] && Broken([]) == "";
  }

  /** Behind the line of the delimiter a part is its header lines, an empty line and the body. */
  lemma PartLines(a: Attachment, disposition: seq<string>)
    requires a.disposition == Broken(disposition)
    ensures PartText(a) == Broken(HeaderLines(a, disposition)) + "\r\n" + EncodedBody(a)
  {
    hide EncodingName, EncodedBody, Broken;
    var first, last := "Content-Type: " + a.mimeType, "Content-Transfer-Encoding: " + EncodingName(a.cte);
    OneBroken(first);
    OneBroken(last);
    BrokenConcat([first], disposition + [last]);
    BrokenConcat(disposition, [last]);
    var body := EncodedBody(a);
    TextIs(first + "\r\n", a.disposition, "Content-Transfer-Encoding: ", EncodingName(a.cte), body);
  }

  lemma TextIs(x: string, y: string, field: string, name: string, body: string)
    ensures x + y + field + name + "\r\n" + "\r\n" + body == x + (y + (field + name + "\r\n")) + "\r\n" + body
  {
  }

  lemma {:induction false} FieldBehind(lines: seq<string>, name: string, line: string)
    requires forall k :: 0 <= k < |lines| ==> !StartsWith(lines[k], name + ": ")
    ensures Field(lines + [line], name) == Field([line], name)
  {
    if lines == [] {
      assert [] + [line] == [line];
    } else {
      FieldBehind(lines[1..], name, line);
      assert (lines + [line])[1..] == lines[1..] + [line];
    }
  }

  lemma FieldHere(lines: seq<string>, name: string, value: string)
    requires lines != [] && lines[0] == name + ": " + value
    ensures Field(lines, name) == Some(value)
  {
    assert lines[0][..|name| + 2] == name + ": ";
    assert lines[0][|name| + 2..] == value;
  }

  lemma FieldsAre(a: Attachment, disposition: seq<string>)
    requires WellFormed(a, disposition)
    ensures Field(HeaderLines(a, disposition), "Content-Type") == Some(a.mimeType)
    ensures Field(HeaderLines(a, disposition), "Content-Transfer-Encoding") == Some(EncodingName(a.cte))
  {
    hide Field, EncodingName, Broken, IsLine;
    var lines := HeaderLines(a, disposition);
    var first, last := "Content-Type: " + a.mimeType, "Content-Transfer-Encoding: " + EncodingName(a.cte);
    assert "Content-Type" + ": " + a.mimeType == first;
    FieldHere(lines, "Content-Type", a.mimeType);
    assert "Content-Transfer-Encoding" + ": " == "Content-Transfer-Encoding: ";
    assert first[9] == 'y' && "Content-Transfer-Encoding: "[9] == 'r';
    StartsWithIs(first, "Content-Transfer-Encoding: ");
    assert lines == ([first] + disposition) + [last];
    forall k | 0 <= k < |[first] + disposition|
      ensures !StartsWith(([first] + disposition)[k], "Content-Transfer-Encoding" + ": ")
    {
      if k > 0 { assert ([first] + disposition)[k] == disposition[k - 1] && disposition[k - 1] in disposition; }
    }
    FieldBehind([first] + disposition, "Content-Transfer-Encoding", last);
    FieldHere([last], "Content-Transfer-Encoding", EncodingName(a.cte));
  }

  lemma {:induction false} BytesAre(data: seq<Byte>)
    ensures Bytes(Plain(data)) == Some(data)
  {
    if data != [] {
      BytesAre(data[1..]);
      assert Plain(data)[1..] == Plain(data[1..]);
      assert [data[0]] + data[1..] == data;
    }
  }

  lemma BodyIsDecoded(a: Attachment)
    requires a.data.Some?
    ensures DecodeBody(EncodingName(a.cte), EncodedBody(a)) == Some(a.data.value)
  {
    hide Decode, Bytes, WithoutBreaks, Broken;
    BodyDecodes(a.data.value);
    BytesAre(a.data.value);
  }

  /** The type and the data of an attachment are read back from its part. */
  lemma PartIsRead(a: Attachment, disposition: seq<string>)
    requires WellFormed(a, disposition) && a.data.Some?
    ensures ReadPart(PartText(a)) == Some((a.mimeType, EncodingName(a.cte), a.data.value))
  {
    hide *;
    WellFormedIs(a, disposition);
    PartLines(a, disposition);
    LinesAreLines(a, disposition);
    HeaderIsRead(HeaderLines(a, disposition), EncodedBody(a));
    FieldsAre(a, disposition);
    BodyIsDecoded(a);
    ReadPartIs(PartText(a), HeaderLines(a, disposition), EncodedBody(a),
               a.mimeType, EncodingName(a.cte), a.data.value);
  }

  lemma WellFormedIs(a: Attachment, disposition: seq<string>)
    requires WellFormed(a, disposition)
    ensures a.disposition == Broken(disposition)
  {
    hide Broken, IsLine;
  }

  lemma LinesAreLines(a: Attachment, disposition: seq<string>)
    requires WellFormed(a, disposition)
    ensures forall k :: 0 <= k < |HeaderLines(a, disposition)| ==> IsLine(HeaderLines(a, disposition)[k])
  {
    hide Broken;
    var lines := HeaderLines(a, disposition);
    forall k | 0 <= k < |lines| ensures IsLine(lines[k]) {
      if 0 < k < |lines| - 1 { assert lines[k] == disposition[k - 1] && disposition[k - 1] in disposition; }
    }
  }

  lemma ReadPartIs(part: string, lines: seq<string>, body: string, kind: string, encoding: string, data: seq<Byte>)
    requires ReadHeader(part) == Some((lines, body))
    requires Field(lines, "Content-Type") == Some(kind) && Field(lines, "Content-Transfer-Encoding") == Some(encoding)
    requires DecodeBody(encoding, body) == Some(data)
    ensures ReadPart(part) == Some((kind, encoding, data))
  {
    hide ReadHeader, Field, DecodeBody;
  }

  // ----- the whole message -----

  lemma {:induction false} PartTextsAre(before: seq<string>, attachments: seq<Attachment>)
    requires forall k :: 0 <= k < |before| ==> StartsWith(before[k], "\r\n")
    ensures
      var texts := PartTexts(before + PartsBehind(attachments) + ["--\r\n"]);
      && texts.Some? && |texts.value| == |before| + |attachments|
      && (forall k :: 0 <= k < |before| ==> texts.value[k] == BehindBreak(before[k]))
      && forall k :: 0 <= k < |attachments| ==> texts.value[|before| + k] == PartText(attachments[k])
    decreases |before| + |attachments|
  {
    hide *;
    var pieces := before + PartsBehind(attachments) + ["--\r\n"];
    TextsUnfold(pieces);
    PartsUnfold(attachments, "");
    if before != [] {
      PartTextsAre(before[1..], attachments);
      assert pieces[0] == before[0] && pieces[1..] == before[1..] + PartsBehind(attachments) + ["--\r\n"];
      NotClosing(before[0]);
      var rest := PartTexts(pieces[1..]).value;
      assert PartTexts(pieces) == Some([BehindBreak(before[0])] + rest);
    } else if attachments != [] {
      PartTextsAre([], attachments[1..]);
      PartStarts(attachments[0]);
      assert pieces[0] == PartBehind(attachments[0]);
      assert pieces[1..] == [] + PartsBehind(attachments[1..]) + ["--\r\n"];
      NotClosing(pieces[0]);
      var rest := PartTexts(pieces[1..]).value;
      assert PartTexts(pieces) == Some([BehindBreak(pieces[0])] + rest);
    } else {
      assert pieces == ["--\r\n"];
      ClosingStarts();
    }
  }

  lemma TextsUnfold(pieces: seq<string>)
    ensures
      PartTexts(pieces)
      == if pieces == [] then None
         else if StartsWith(pieces[0], "--") then Some([])
         else if StartsWith(pieces[0], "\r\n") && PartTexts(pieces[1..]).Some? then
           Some([BehindBreak(pieces[0])] + PartTexts(pieces[1..]).value)
         else None
  {
  }

  lemma NotClosing(piece: string)
    requires StartsWith(piece, "\r\n")
    ensures !StartsWith(piece, "--")
  {
    assert piece[..2][0] == piece[0];
  }

  lemma PartStarts(a: Attachment)
    ensures StartsWith(PartBehind(a), "\r\n") && BehindBreak(PartBehind(a)) == PartText(a)
  {
    hide PartText;
  }

  lemma ClosingStarts()
    ensures StartsWith("--\r\n", "--")
  {
  }

  /** A reader who cuts the raw message at its delimiters finds behind the parts of its beginning one part for each
      attachment, in order, with the type of the attachment, the name of its encoding and its data. */
  lemma MessageReadsBack(beginning: string, boundary: string, attachments: seq<Attachment>,
                         dispositions: seq<seq<string>>)
    requires attachments != [] && |dispositions| == |attachments| && Bounds(boundary, attachments)
    requires forall k :: 0 <= k < |attachments| ==>
                           WellFormed(attachments[k], dispositions[k]) && attachments[k].data.Some?
    requires
      var before := CutAt(beginning, Delimiter(boundary));
      forall k :: 1 <= k < |before| ==> StartsWith(before[k], "\r\n")
    ensures
      var before := CutAt(beginning, Delimiter(boundary));
      var texts := ReadMultipart(RawMessage(beginning, boundary, attachments), boundary);
      && texts.Some? && |texts.value| == |before| - 1 + |attachments|
      && (forall k :: 1 <= k < |before| ==> texts.value[k - 1] == BehindBreak(before[k]))
      && forall k :: 0 <= k < |attachments| ==>
           var a := attachments[k];
           ReadPart(texts.value[|before| - 1 + k])
           == Some((a.mimeType,
                    match a.cte case CteBase64 => "base64" case Cte7Bit => "7bit" case Cte8Bit => "8bit"
                                case CteBinary => "binary",
                    a.data.value))
  {
    hide *;
    var before := CutAt(beginning, Delimiter(boundary));
    RawIs(beginning, boundary, attachments);
    CutParts(attachments, boundary, beginning);
    PartTextsAre(before[1..], attachments);
    var pieces := before + PartsBehind(attachments) + ["--\r\n"];
    assert pieces[1..] == before[1..] + PartsBehind(attachments) + ["--\r\n"];
    MultipartIs(RawMessage(beginning, boundary, attachments), boundary);
    forall k | 0 <= k < |attachments|
      ensures ReadPart(PartText(attachments[k]))
           == Some((attachments[k].mimeType, EncodingName(attachments[k].cte), attachments[k].data.value))
    {
      PartIsRead(attachments[k], dispositions[k]);
    }
    NamesAre();
  }

  lemma MultipartIs(raw: string, boundary: string)
    ensures ReadMultipart(raw, boundary) == PartTexts(CutAt(raw, Delimiter(boundary))[1..])
  {
    hide PartTexts, CutAt;
  }

  lemma RawIs(beginning: string, boundary: string, attachments: seq<Attachment>)
    requires attachments != []
    ensures RawMessage(beginning, boundary, attachments)
         == beginning + (Parts(attachments, boundary) + Closing(boundary))
  {
    hide Parts, Closing;
    var parts, closing := Parts(attachments, boundary), Closing(boundary);
    assert beginning + parts + closing == beginning + (parts + closing);
  }

  lemma NamesAre()
    ensures forall cte :: EncodingName(cte)
                       == match cte case CteBase64 => "base64" case Cte7Bit => "7bit" case Cte8Bit => "8bit"
                                    case CteBinary => "binary"
  {
  }
}
