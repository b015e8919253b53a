/** Strings and lists of lines, as the mail code uses them. */
module Text {

  datatype Option<+T> = None | Some(value: T)

  /** Every part on its own line: the text cut at each newline. */
  function Split(s: string): (lines: seq<string>)
    ensures |lines| >= 1
  {
    if s == "" then [""]
    else if s[0] == '\n' then [""] + Split(s[1..])
    else
      var rest := Split(s[1..]);
      [[s[0]] + rest[0]] + rest[1..]
  }

  /** The lines glued together with one newline between neighbours. */
  function Join(lines: seq<string>): string
    requires lines != []
  {
    if |lines| == 1 then lines[0] else lines[0] + "\n" + Join(lines[1..])
  }

  function Concat(parts: seq<string>): string {
    if parts == [] then "" else parts[0] + Concat(parts[1..])
  }

  function Repeat(s: string, n: nat): string {
    if n == 0 then "" else Repeat(s, n - 1) + s
  }

  function Count(s: string, c: char): nat {
    if s == "" then 0 else (if s[0] == c then 1 else 0) + Count(s[1..], c)
  }

  function Decimal(n: nat): string {
    if n < 10 then ["0123456789"[n]] else Decimal(n / 10) + ["0123456789"[n % 10]]
  }

  predicate EndsWith(s: string, suffix: string) {
    |suffix| <= |s| && s[|s| - |suffix|..] == suffix
  }

  predicate StartsWith(s: string, prefix: string) {
    |prefix| <= |s| && s[..|prefix|] == prefix
  }

  /** The characters QChar::isSpace accepts, which is what \s means in the patterns of the program. */
  predicate IsSpace(c: char) {
    var u := c as int;
    || u == 0x20 || 0x09 <= u <= 0x0d || u == 0x85 || u == 0xa0
    || u == 0x1680 || u == 0x180e || 0x2000 <= u <= 0x200a
    || u == 0x2028 || u == 0x2029 || u == 0x202f || u == 0x205f || u == 0x3000
  }

  lemma {:induction false} SplitHasNoNewline(s: string, k: nat)
    requires k < |Split(s)|
    ensures '\n' !in Split(s)[k]
  {
    if s != "" {
      if s[0] == '\n' {
        if k > 0 { SplitHasNoNewline(s[1..], k - 1); }
      } else {
        SplitHasNoNewline(s[1..], k);
      }
    }
  }

  lemma {:induction false} JoinSplit(s: string)
    ensures Join(Split(s)) == s
  {
    if s != "" {
      JoinSplit(s[1..]);
      var rest := Split(s[1..]);
      if s[0] == '\n' {
        assert Split(s)[1..] == rest;
      } else {
        assert Split(s)[1..] == rest[1..];
      }
    }
  }

  lemma {:induction false} SplitLine(line: string)
    requires '\n' !in line
    ensures Split(line) == [line]
  {
    if line != "" {
      assert line[0] in line && forall c :: c in line[1..] ==> c in line;
      SplitLine(line[1..]);
      assert [line[0]] + line[1..] == line;
    }
  }

  lemma {:induction false} SplitAtNewline(a: string, b: string)
    ensures Split(a + "\n" + b) == Split(a) + Split(b)
  {
    hide *;
    var s := a + "\n" + b;
    SplitUnfolds(s);
    SplitUnfolds(a);
    if a == "" {
      assert s == "\n" + b && s[1..] == b;
    } else {
      var rest := a[1..] + "\n" + b;
      SplitAtNewline(a[1..], b);
      assert s[0] == a[0] && s[1..] == rest;
      ConsBehind(Split(a[1..]), Split(b));
      assert [""] + (Split(a[1..]) + Split(b)) == [""] + Split(a[1..]) + Split(b);
    }
  }

  lemma SplitUnfolds(s: string)
    ensures
      Split(s)
      == if s == "" then [""]
         else if s[0] == '\n' then [""] + Split(s[1..])
         else [[s[0]] + Split(s[1..])[0]] + Split(s[1..])[1..]
  {
  }

  lemma ConsBehind(x: seq<string>, y: seq<string>)
    requires x != []
    ensures (x + y)[0] == x[0] && forall first: string :: [first] + (x + y)[1..] == [first] + x[1..] + y
  {
    assert (x + y)[1..] == x[1..] + y;
    forall first: string ensures [first] + (x + y)[1..] == [first] + x[1..] + y {
      assert [first] + (x[1..] + y) == [first] + x[1..] + y;
    }
  }

  lemma {:induction false} CountConcat(a: string, b: string, c: char)
    ensures Count(a + b, c) == Count(a, c) + Count(b, c)
  {
    if a == "" {
      assert a + b == b;
    } else {
      assert (a + b)[1..] == a[1..] + b;
      CountConcat(a[1..], b, c);
    }
  }

  lemma {:induction false} ConcatAppend(parts: seq<string>, s: string)
    ensures Concat(parts + [s]) == Concat(parts) + s
  {
    if parts == [] {
      assert [s][1..] == [];
    } else {
      assert (parts + [s])[1..] == parts[1..] + [s];
      ConcatAppend(parts[1..], s);
    }
  }
}
