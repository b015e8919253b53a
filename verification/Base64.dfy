/** The base64 transfer encoding (RFC 2045, section 6.8) as attachments use it: chunk by chunk, a line each. */
module Base64 {
  import opened Text

  type Byte = n: int | 0 <= n < 256

  // ----- the encoding -----

  function Digit(n: nat): (c: char)
    requires n < 64
    ensures Value(c) == Some(n) && c != '='
  {
    if n < 26 then ('A' as int + n) as char
    else if n < 52 then ('a' as int + (n - 26)) as char
    else if n < 62 then ('0' as int + (n - 52)) as char
    else if n == 62 then '+' else '/'
  }

  function Value(c: char): (v: Option<nat>)
    ensures v.Some? ==> v.value < 64
  {
    if 'A' <= c <= 'Z' then Some(c as int - 'A' as int)
    else if 'a' <= c <= 'z' then Some(c as int - 'a' as int + 26)
    else if '0' <= c <= '9' then Some(c as int - '0' as int + 52)
    else if c == '+' then Some(62)
    else if c == '/' then Some(63)
    else None
  }

  /** Table 1 of section 6.8: three runs of neighbours, and two characters more. */
  lemma Alphabet()
    ensures Digit(0) == 'A' && Digit(25) == 'Z' && Digit(26) == 'a' && Digit(51) == 'z'
    ensures Digit(52) == '0' && Digit(61) == '9' && Digit(62) == '+' && Digit(63) == '/'
    ensures forall n :: 0 < n < 62 && n != 26 && n != 52 ==> Digit(n) as int == Digit(n - 1) as int + 1
  {
  }

  /** Three bytes become four digits; one or two left over are padded. */
  function Encode(d: seq<Byte>): string {
    if d == [] then ""
    else if |d| == 1 then [Digit(d[0] / 4), Digit(d[0] % 4 * 16), '=', '=']
    else if |d| == 2 then [Digit(d[0] / 4), Digit(d[0] % 4 * 16 + d[1] / 16), Digit(d[1] % 16 * 4), '=']
    else
      [Digit(d[0] / 4), Digit(d[0] % 4 * 16 + d[1] / 16), Digit(d[1] % 16 * 4 + d[2] / 64), Digit(d[2] % 64)]
      + Encode(d[3..])
  }

  /** One group of four digits; only the last may be padded. */
  function DecodeGroup(w: char, x: char, y: char, z: char): Option<seq<Byte>> {
    var a, b, c, d := Value(w), Value(x), Value(y), Value(z);
    if a.None? || b.None? then None
    else if y == '=' && z == '=' then
      if b.value % 16 == 0 then Some([a.value * 4 + b.value / 16]) else None
    else if c.None? then None
    else if z == '=' then
      if c.value % 4 == 0 then Some([a.value * 4 + b.value / 16, b.value % 16 * 16 + c.value / 4]) else None
    else if d.None? then None
    else Some([a.value * 4 + b.value / 16, b.value % 16 * 16 + c.value / 4, c.value % 4 * 64 + d.value])
  }

  function Decode(s: string): Option<seq<Byte>> {
    if s == "" then Some([])
    else if |s| < 4 then None
    else
      var group, rest := DecodeGroup(s[0], s[1], s[2], s[3]), Decode(s[4..]);
      if group.None? || rest.None? then None else Some(group.value + rest.value)
  }

  lemma {:induction false} DecodeEncode(d: seq<Byte>)
    ensures Decode(Encode(d)) == Some(d)
  {
    hide *;
    if d == [] {
      NothingEncoded();
    } else if |d| == 1 {
      assert d == [d[0]];
      OneLeft(d[0]);
      EncodeOne(d[0]);
      DecodeLast(Digit(d[0] / 4), Digit(d[0] % 4 * 16), '=', '=');
    } else if |d| == 2 {
      assert d == [d[0], d[1]];
      TwoLeft(d[0], d[1]);
      EncodeTwo(d[0], d[1]);
      DecodeLast(Digit(d[0] / 4), Digit(d[0] % 4 * 16 + d[1] / 16), Digit(d[1] % 16 * 4), '=');
    } else {
      DecodeEncode(d[3..]);
      EncodeFirst(d);
      DecodeFirst(d[0], d[1], d[2], Encode(d[3..]));
      assert d == [d[0], d[1], d[2]] + d[3..];
    }
  }

  lemma NothingEncoded()
    ensures Encode([]) == "" && Decode("") == Some([])
  {
  }

  lemma DecodeFirst(a: Byte, b: Byte, c: Byte, rest: string)
    requires Decode(rest).Some?
    ensures Decode(Quad(a, b, c) + rest) == Some([a, b, c] + Decode(rest).value)
  {
    hide DecodeGroup, Digit, Decode;
    FullGroup(a, b, c);
    DecodeFour(Digit(a / 4), Digit(a % 4 * 16 + b / 16), Digit(b % 16 * 4 + c / 64), Digit(c % 64), rest);
  }

  lemma DecodeFour(w: char, x: char, y: char, z: char, rest: string)
    requires DecodeGroup(w, x, y, z).Some? && Decode(rest).Some?
    ensures Decode([w, x, y, z] + rest) == Some(DecodeGroup(w, x, y, z).value + Decode(rest).value)
  {
    hide DecodeGroup;
    var s := [w, x, y, z] + rest;
    assert s[4..] == rest;
  }

  lemma FullGroup(a: Byte, b: Byte, c: Byte)
    ensures DecodeGroup(Digit(a / 4), Digit(a % 4 * 16 + b / 16), Digit(b % 16 * 4 + c / 64), Digit(c % 64))
         == Some([a, b, c])
  {
    Sextets(a, b, c);
    hide *;
    DecodeFull(Digit(a / 4), Digit(a % 4 * 16 + b / 16), Digit(b % 16 * 4 + c / 64), Digit(c % 64));
  }

  lemma Sextets(a: Byte, b: Byte, c: Byte)
    ensures a / 4 < 64 && a % 4 * 16 + b / 16 < 64 && b % 16 * 4 + c / 64 < 64 && c % 64 < 64
    ensures a / 4 * 4 + (a % 4 * 16 + b / 16) / 16 == a
    ensures (a % 4 * 16 + b / 16) % 16 * 16 + (b % 16 * 4 + c / 64) / 4 == b
    ensures (b % 16 * 4 + c / 64) % 4 * 64 + c % 64 == c
  {
  }

  lemma DecodeFull(w: char, x: char, y: char, z: char)
    requires Value(w).Some? && Value(x).Some? && Value(y).Some? && Value(z).Some? && y != '=' && z != '='
    ensures
      var a, b, c, d := Value(w).value, Value(x).value, Value(y).value, Value(z).value;
      DecodeGroup(w, x, y, z) == Some([a * 4 + b / 16, b % 16 * 16 + c / 4, c % 4 * 64 + d])
  {
    hide Value;
  }

  lemma DecodeLast(w: char, x: char, y: char, z: char)
    requires DecodeGroup(w, x, y, z).Some?
    ensures Decode([w, x, y, z]) == DecodeGroup(w, x, y, z)
  {
    hide DecodeGroup;
    assert Decode("") == Some([]);
    DecodeFour(w, x, y, z, "");
    assert [w, x, y, z] + "" == [w, x, y, z];
    assert DecodeGroup(w, x, y, z).value + [] == DecodeGroup(w, x, y, z).value;
  }

  lemma EncodeOne(a: Byte)
    ensures Encode([a]) == [Digit(a / 4), Digit(a % 4 * 16), '=', '=']
  {
    hide Digit;
  }

  lemma EncodeTwo(a: Byte, b: Byte)
    ensures Encode([a, b]) == [Digit(a / 4), Digit(a % 4 * 16 + b / 16), Digit(b % 16 * 4), '=']
  {
    hide Digit;
  }

  lemma OneLeft(a: Byte)
    ensures DecodeGroup(Digit(a / 4), Digit(a % 4 * 16), '=', '=') == Some([a])
  {
    hide Digit;
  }

  lemma TwoLeft(a: Byte, b: Byte)
    ensures DecodeGroup(Digit(a / 4), Digit(a % 4 * 16 + b / 16), Digit(b % 16 * 4), '=') == Some([a, b])
  {
    hide Digit, Value;
  }

  /** Whole groups of three can be encoded on their own. */
  lemma {:induction false} EncodeConcat(a: seq<Byte>, b: seq<Byte>)
    requires |a| % 3 == 0
    ensures Encode(a + b) == Encode(a) + Encode(b)
  {
    if a == [] {
      assert a + b == b;
    } else {
      assert (a + b)[3..] == a[3..] + b;
      EncodeConcat(a[3..], b);
      GroupStep(a, b);
    }
  }

  lemma GroupStep(a: seq<Byte>, b: seq<Byte>)
    requires |a| >= 3 && Encode((a + b)[3..]) == Encode(a[3..]) + Encode(b)
    ensures Encode(a + b) == Encode(a) + Encode(b)
  {
    hide *;
    EncodeFirst(a);
    EncodeFirst(a + b);
    assert forall k :: 0 <= k < 3 ==> (a + b)[k] == a[k];
    assert Quad(a[0], a[1], a[2]) + (Encode(a[3..]) + Encode(b)) == Quad(a[0], a[1], a[2]) + Encode(a[3..]) + Encode(b);
  }

  function Quad(a: Byte, b: Byte, c: Byte): string {
    [Digit(a / 4), Digit(a % 4 * 16 + b / 16), Digit(b % 16 * 4 + c / 64), Digit(c % 64)]
  }

  lemma EncodeFirst(d: seq<Byte>)
    requires |d| >= 3
    ensures Encode(d) == Quad(d[0], d[1], d[2]) + Encode(d[3..])
  {
    hide Digit;
  }

  lemma {:induction false} EncodedLength(d: seq<Byte>)
    ensures |Encode(d)| == (|d| + 2) / 3 * 4
  {
    hide Digit;
    if |d| >= 3 {
      EncodedLength(d[3..]);
      EncodeFirst(d);
      assert (|d| + 2) / 3 == (|d[3..]| + 2) / 3 + 1;
    }
  }

  lemma {:induction false} NoBreaksInside(d: seq<Byte>, i: nat)
    requires i < |Encode(d)|
    ensures Encode(d)[i] !in "\r\n"
  {
    if |d| >= 3 && i >= 4 { NoBreaksInside(d[3..], i - 4); }
  }

  // ----- one line per chunk -----

  /** 76 characters of output at most: 57 bytes of input. */
  const CHUNK := 76 * 6 / 8

  function Chunk(d: seq<Byte>): nat { if |d| < CHUNK then |d| else CHUNK }

  function Base64Lines(d: seq<Byte>): seq<string> {
    if d == [] then [] else [Encode(d[..Chunk(d)])] + Base64Lines(d[Chunk(d)..])
  }

  /** Every line with its line break. */
  function Broken(lines: seq<string>): string {
    if lines == [] then "" else lines[0] + "\r\n" + Broken(lines[1..])
  }

  lemma BrokenCons(line: string, rest: seq<string>)
    ensures Broken([line] + rest) == line + "\r\n" + Broken(rest)
  {
    assert ([line] + rest)[1..] == rest;
  }

  function WithoutBreaks(s: string): string {
    if s == "" then "" else (if s[0] in "\r\n" then "" else [s[0]]) + WithoutBreaks(s[1..])
  }

  /** Lines hold at most 76 characters, and exactly 76 when another follows. */
  lemma {:induction false} LineLength(d: seq<Byte>, k: nat)
    requires k < |Base64Lines(d)|
    ensures 0 < |Base64Lines(d)[k]| <= 76
    ensures k + 1 < |Base64Lines(d)| ==> |Base64Lines(d)[k]| == 76
  {
    hide Encode;
    EncodedLength(d[..Chunk(d)]);
    if k > 0 { LineLength(d[Chunk(d)..], k - 1); }
  }

  lemma {:induction false} LinesTogether(d: seq<Byte>)
    ensures Concat(Base64Lines(d)) == Encode(d)
  {
    if d != [] {
      var n := Chunk(d);
      EncodeChunk(d);
      hide Encode;
      LinesTogether(d[n..]);
      assert Base64Lines(d)[1..] == Base64Lines(d[n..]);
    }
  }

  lemma EncodeChunk(d: seq<Byte>)
    ensures Encode(d) == Encode(d[..Chunk(d)]) + Encode(d[Chunk(d)..])
  {
    var n := Chunk(d);
    if n == CHUNK {
      hide Encode;
      assert d == d[..n] + d[n..];
      EncodeConcat(d[..n], d[n..]);
    } else {
      assert d[..n] == d && d[n..] == [];
      assert Encode([]) == "";
    }
  }

  lemma {:induction false} WithoutBreaksConcat(a: string, b: string)
    ensures WithoutBreaks(a + b) == WithoutBreaks(a) + WithoutBreaks(b)
  {
    if a == "" {
      assert a + b == b;
    } else {
      assert (a + b)[1..] == a[1..] + b;
      WithoutBreaksConcat(a[1..], b);
    }
  }

  lemma {:induction false} NothingToRemove(s: string)
    requires forall i :: 0 <= i < |s| ==> s[i] !in "\r\n"
    ensures WithoutBreaks(s) == s
  {
    if s != "" {
      NothingToRemove(s[1..]);
      assert s == [s[0]] + s[1..];
    }
  }

  lemma {:induction false} BreaksOnly(d: seq<Byte>)
    ensures WithoutBreaks(Broken(Base64Lines(d))) == Concat(Base64Lines(d))
  {
    if d != [] {
      var line, rest := Encode(d[..Chunk(d)]), Base64Lines(d[Chunk(d)..]);
      BreaksOnly(d[Chunk(d)..]);
      forall i | 0 <= i < |line| ensures line[i] !in "\r\n" { NoBreaksInside(d[..Chunk(d)], i); }
      NothingToRemove(line);
      assert Base64Lines(d)[1..] == rest;
      hide *;
      LineBreak(line, Broken(rest));
    }
  }

  lemma LineBreak(line: string, rest: string)
    ensures WithoutBreaks(line + "\r\n" + rest) == WithoutBreaks(line) + WithoutBreaks(rest)
  {
    hide *;
    WithoutBreaksConcat(line, "\r\n");
    WithoutBreaksConcat(line + "\r\n", rest);
    BreakAlone();
  }

  lemma BreakAlone()
    ensures WithoutBreaks("\r\n") == ""
  {
    assert "\r\n"[1..] == "\n" && "\n"[1..] == "";
    assert WithoutBreaks("\n") == "";
  }

  /** A reader who drops the line breaks and decodes gets the attachment back. */
  lemma BodyDecodes(d: seq<Byte>)
    ensures WithoutBreaks(Broken(Base64Lines(d))) == Encode(d)
    ensures Decode(WithoutBreaks(Broken(Base64Lines(d)))) == Some(d)
  {
    BreaksOnly(d);
    LinesTogether(d);
    DecodeEncode(d);
  }
}
