/** The depth of a line is counted by one rule and its quote marks are stripped by another. */
module QuoteMarksFacts {
  import opened Text
  import opened QuoteLines

  /** In the quote prefix that is stripped, nothing but quote marks and blanks stands in front of a mark. */
  predicate OnlyBlanksBetweenMarks(line: string) {
    forall i, j :: 0 <= i < j < SpaceEnd(line, 0) && line[j] == '>' ==> line[i] == '>' || line[i] == ' '
  }

  /** The stripping takes any white space between quote marks, the depth stops at a tab: more marks may go
      than are counted. None is lost exactly when there are only blanks between them. */
  lemma StrippedMarks(line: string)
    requires StartsWith(line, ">")
    ensures MarksEnd(line, 0) <= SpaceEnd(line, 0)
    ensures DepthOf(line) <= Count(line[..SpaceEnd(line, 0)], '>')
    ensures DepthOf(line) == Count(line[..SpaceEnd(line, 0)], '>') <==> OnlyBlanksBetweenMarks(line)
  {
    var counted, stripped := MarksEnd(line, 0), SpaceEnd(line, 0);
    assert IsSpace(' ');
    var between := line[counted..stripped];
    CountConcat(line[..counted], between, '>');
    assert line[..counted] + between == line[..stripped];
    CountPositive(between, '>');
    MarksBetween(line, counted, stripped);
    hide Count, IsSpace;
  }

  lemma MarksBetween(line: string, counted: nat, stripped: nat)
    requires counted == MarksEnd(line, 0) <= stripped == SpaceEnd(line, 0)
    ensures
      (exists j :: 0 <= j < stripped - counted && line[counted..stripped][j] == '>') <==> !OnlyBlanksBetweenMarks(line)
  {
    hide IsSpace, MarksEnd, SpaceEnd;
    var between := line[counted..stripped];
    if j :| 0 <= j < |between| && between[j] == '>' {
      assert line[counted + j] == '>' && counted < counted + j;
    }
    forall i, j | 0 <= i < j < stripped && line[j] == '>' && line[i] != '>' && line[i] != ' '
      ensures between[j - counted] == '>'
    {
    }
  }

  lemma {:induction false} CountPositive(s: string, c: char)
    ensures Count(s, c) > 0 <==> exists j :: 0 <= j < |s| && s[j] == c
  {
    if s != "" {
      CountPositive(s[1..], c);
      if j :| 0 <= j < |s| && s[j] == c {
        assert j > 0 ==> s[1..][j - 1] == c;
      }
      if j :| 0 <= j < |s[1..]| && s[1..][j] == c {
        assert s[j + 1] == c;
      }
    }
  }

  /** The quote marks at the very start, which are the depth by section 4.5 of RFC 3676. */
  function LeadingMarks(line: string): (n: nat)
    ensures n <= |line| && forall i :: 0 <= i < n ==> line[i] == '>'
    ensures n < |line| ==> line[n] != '>'
  {
    if line != "" && line[0] == '>' then 1 + LeadingMarks(line[1..]) else 0
  }

  /** The depth is the one of the RFC exactly if no mark stands behind blanks that follow a mark. */
  lemma DepthMeetsRfc(line: string)
    ensures LeadingMarks(line) <= DepthOf(line)
    ensures DepthOf(line) == LeadingMarks(line)
       <==> (StartsWith(line, ">") ==> forall i :: LeadingMarks(line) <= i < MarksEnd(line, 0) ==> line[i] != '>')
  {
    hide *;
    DepthIs(line);
    if StartsWith(line, ">") {
      var n, end := LeadingMarks(line), MarksEnd(line, 0);
      LeadingFirst(line);
      var behind := line[n..end];
      assert line[..end] == line[..n] + behind;
      CountConcat(line[..n], behind, '>');
      AllMarks(line[..n]);
      CountPositive(behind, '>');
      assert forall i :: n <= i < end ==> line[i] == behind[i - n];
    }
  }

  lemma DepthIs(line: string)
    ensures if StartsWith(line, ">") then DepthOf(line) == Count(line[..MarksEnd(line, 0)], '>')
            else DepthOf(line) == LeadingMarks(line) == 0
  {
    hide Count, MarksEnd;
    assert line != "" ==> line[..1] == [line[0]];
  }

  lemma LeadingFirst(line: string)
    requires StartsWith(line, ">")
    ensures LeadingMarks(line) <= MarksEnd(line, 0)
  {
    hide LeadingMarks, MarksEnd;
  }

  lemma {:induction false} AllMarks(s: string)
    requires forall i :: 0 <= i < |s| ==> s[i] == '>'
    ensures Count(s, '>') == |s|
  {
    if s != "" { AllMarks(s[1..]); }
  }

  lemma TabbedMarks(line: string)
    requires line == ">\t>"
    ensures DepthOf(line) == 1 && StripMarks(line) == ""
  {
    assert MarksEnd(line, 1) == 1 && MarksEnd(line, 0) == 1;
    assert line[..1] == ">" && ">"[1..] == "";
    assert SpaceEnd(line, 3) == 3;
    assert SpaceEnd(line, 2) == 3;
    assert SpaceEnd(line, 1) == 3;
  }
}
