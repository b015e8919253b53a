/** Headers that list message identifiers, folded to a reasonable width (RFC 5322, sections 2.1.1 and 2.2.3). */
module MessageIdHeader {
  import opened Text
  import opened Base64

  const WIDTH := 78

  function Item(id: string): string { " <" + id + ">" }

  function Items(ids: seq<string>): string { if ids == [] then "" else Item(ids[0]) + Items(ids[1..]) }

  /** The lines of the header, given the one that is being filled and the ids still to come. */
  function Folded(line: string, ids: seq<string>): (lines: seq<string>)
    ensures lines != []
    decreases |ids|
  {
    if ids == [] then [line]
    else if |line| + |Item(ids[0])| > WIDTH then [line] + Folded(Item(ids[0]), ids[1..])
    else Folded(line + Item(ids[0]), ids[1..])
  }

  /** The first id stays on the line of the name, however long it is. */
  function HeaderLines(name: string, ids: seq<string>): seq<string>
    requires ids != []
  {
    Folded(name + ":" + Item(ids[0]), ids[1..])
  }

  function Header(name: string, ids: seq<string>): string {
    if ids == [] then "" else Broken(HeaderLines(name, ids))
  }

  // ----- the loop -----

  /** What is written, the line that is being filled included, and what will follow make up the whole. */
  ghost predicate Owed(whole: string, target: string, line: string, ids: seq<string>, i: nat) {
    && i <= |ids|
    && exists done :: target == done + line
                   && whole == done + Broken(if i == 0 && ids != [] then Folded(line + Item(ids[0]), ids[1..])
                                             else Folded(line, ids[i..]))
  }

  method WriteHeaderWithMsgIds(target0: string, headerName: string, messageIds: seq<string>) returns (target: string)
    ensures target == target0 + Header(headerName, messageIds)
  {
    hide *;
    target := target0;
    if messageIds == [] {
      NoHeader(target0, headerName);
      return;
    }
    target := target + (headerName + ":");
    var charCount := |headerName| + 1;
    ghost var whole := target0 + Header(headerName, messageIds);
    ghost var line := headerName + ":";
    OnlyName(target0, headerName, messageIds);
    for i := 0 to |messageIds|
      invariant charCount == |line| > 0
      invariant Owed(whole, target, line, messageIds, i)
    {
      ghost var was := line;
      if i != 0 && charCount != 0 && charCount + |messageIds[i]| > 78 - 3 {
        Fold(whole, target, line, messageIds, i);
        charCount := 0;
        line := "";
        target := target + "\r\n";
      } else {
        Fill(whole, target, line, messageIds, i);
      }
      target := target + (" <" + messageIds[i] + ">");
      line := line + (" <" + messageIds[i] + ">");
      charCount := charCount + |messageIds[i]| + 3;
    }
    AllWritten(whole, target, line, messageIds);
    target := target + "\r\n";
  }

  lemma NoHeader(target: string, name: string)
    ensures target == target + Header(name, [])
  {
  }

  lemma OnlyName(target: string, name: string, ids: seq<string>)
    requires ids != []
    ensures Owed(target + Header(name, ids), target + (name + ":"), name + ":", ids, 0)
  {
  }

  lemma Fold(whole: string, target: string, line: string, ids: seq<string>, i: nat)
    requires Owed(whole, target, line, ids, i) && 0 < i < |ids| && |line| + |ids[i]| > 75
    ensures Owed(whole, target + "\r\n" + (" <" + ids[i] + ">"), "" + (" <" + ids[i] + ">"), ids, i + 1)
  {
    hide Broken, Folded;
    var done :| target == done + line && whole == done + Broken(Folded(line, ids[i..]));
    var item := " <" + ids[i] + ">";
    FoldedStep(line, ids, i);
    BrokenCons(line, Folded(item, ids[i + 1..]));
    assert "" + item == item;
    assert target + "\r\n" + item == (target + "\r\n") + item;
    assert whole == (target + "\r\n") + Broken(Folded(item, ids[i + 1..]));
  }

  lemma Fill(whole: string, target: string, line: string, ids: seq<string>, i: nat)
    requires Owed(whole, target, line, ids, i) && i < |ids| && (i == 0 || |line| + |ids[i]| <= 75)
    ensures Owed(whole, target + (" <" + ids[i] + ">"), line + (" <" + ids[i] + ">"), ids, i + 1)
  {
    hide Broken, Folded;
    var item := " <" + ids[i] + ">";
    if i > 0 { FoldedStep(line, ids, i); }
    var done :| target == done + line && whole == done + Broken(Folded(line + item, ids[i + 1..]));
    assert target + item == done + (line + item);
  }

  lemma FoldedStep(line: string, ids: seq<string>, i: nat)
    requires i < |ids|
    ensures Folded(line, ids[i..])
         == if |line| + |ids[i]| > 75 then [line] + Folded(Item(ids[i]), ids[i + 1..])
            else Folded(line + Item(ids[i]), ids[i + 1..])
  {
    assert ids[i..][0] == ids[i] && ids[i..][1..] == ids[i + 1..];
  }

  lemma AllWritten(whole: string, target: string, line: string, ids: seq<string>)
    requires Owed(whole, target, line, ids, |ids|) && ids != []
    ensures target + "\r\n" == whole
  {
    BrokenCons(line, []);
    assert [line] + [] == [line];
    assert Folded(line, ids[|ids|..]) == [line];
    assert Broken([]) == "";
  }

  // ----- what the header says -----

  lemma {:induction false} FoldedTogether(line: string, ids: seq<string>)
    ensures Concat(Folded(line, ids)) == line + Items(ids)
    decreases |ids|
  {
    if ids == [] {
      assert [line][1..] == [];
    } else {
      hide Item;
      var item := Item(ids[0]);
      FoldedTogether(item, ids[1..]);
      FoldedTogether(line + item, ids[1..]);
      assert ([line] + Folded(item, ids[1..]))[1..] == Folded(item, ids[1..]);
      assert line + item + Items(ids[1..]) == line + (item + Items(ids[1..]));
    }
  }

  /** A line is at most 78 columns wide, or it holds a single id. */
  lemma {:induction false} FoldedWidth(line: string, ids: seq<string>, k: nat)
    requires k < |Folded(line, ids)|
    ensures |Folded(line, ids)[k]| <= WIDTH || (k == 0 && Folded(line, ids)[k] == line)
            || exists i :: 0 <= i < |ids| && Folded(line, ids)[k] == Item(ids[i])
    decreases |ids|
  {
    hide Item;
    if ids != [] {
      var item := Item(ids[0]);
      if |line| + |item| > WIDTH {
        if k > 0 { FoldedWidth(item, ids[1..], k - 1); }
      } else {
        FoldedWidth(line + item, ids[1..], k);
      }
    }
  }

  lemma LineWidth(name: string, ids: seq<string>, k: nat)
    requires ids != [] && k < |HeaderLines(name, ids)|
    ensures
      var line := HeaderLines(name, ids)[k];
      || |line| <= 78
      || (k == 0 && line == name + ":" + Item(ids[0]))
      || exists i :: 0 < i < |ids| && line == Item(ids[i])
  {
    hide Item, Folded;
    FoldedWidth(name + ":" + Item(ids[0]), ids[1..], k);
    if i :| 0 <= i < |ids[1..]| && HeaderLines(name, ids)[k] == Item(ids[1..][i]) {
      assert HeaderLines(name, ids)[k] == Item(ids[i + 1]);
    }
  }

  /** A line is left only when the next id does not fit on it. */
  lemma {:induction false} FoldsOnlyWhenNeeded(line: string, ids: seq<string>, k: nat) returns (i: nat)
    requires k + 1 < |Folded(line, ids)|
    ensures i < |ids| && StartsWith(Folded(line, ids)[k + 1], Item(ids[i]))
    ensures |Folded(line, ids)[k]| + |Item(ids[i])| > 78
    decreases |ids|
  {
    hide Item, StartsWith;
    var item := Item(ids[0]);
    if |line| + |item| <= WIDTH {
      i := FoldsOnlyWhenNeeded(line + item, ids[1..], k);
      i := i + 1;
    } else if k == 0 {
      FirstLineStarts(item, ids[1..]);
      i := 0;
    } else {
      i := FoldsOnlyWhenNeeded(item, ids[1..], k - 1);
      i := i + 1;
    }
  }

  lemma {:induction false} FirstLineStarts(line: string, ids: seq<string>)
    ensures StartsWith(Folded(line, ids)[0], line)
    decreases |ids|
  {
    if ids != [] {
      hide Item;
      FirstLineStarts(line + Item(ids[0]), ids[1..]);
    }
  }

  // ----- reading it -----

  /** Unfolding removes the line breaks that are followed by white space. */
  function Unfold(s: string): string {
    if s == "" then ""
    else if |s| >= 3 && s[0] == '\r' && s[1] == '\n' && (s[2] == ' ' || s[2] == '\t') then Unfold(s[2..])
    else [s[0]] + Unfold(s[1..])
  }

  predicate OneLine(s: string) { forall i :: 0 <= i < |s| ==> s[i] != '\r' && s[i] != '\n' }

  lemma {:induction false} UnfoldLine(line: string, rest: string)
    requires OneLine(line)
    ensures Unfold(line + rest) == line + Unfold(rest)
  {
    if line == "" {
      assert line + rest == rest;
    } else {
      var s := line + rest;
      assert s[1..] == line[1..] + rest;
      UnfoldLine(line[1..], rest);
      assert s[0] == line[0];
      assert [s[0]] + (line[1..] + Unfold(rest)) == line + Unfold(rest);
    }
  }

  predicate Foldable(lines: seq<string>) {
    && lines != []
    && (forall i :: 0 <= i < |lines| ==> OneLine(lines[i]))
    && (forall i :: 0 < i < |lines| ==> lines[i] != "" && lines[i][0] == ' ')
  }

  lemma {:induction false} UnfoldBroken(lines: seq<string>)
    requires Foldable(lines)
    ensures Unfold(Broken(lines)) == Concat(lines) + "\r\n"
    decreases |lines|
  {
    var rest := lines[1..];
    LineThenRest(lines[0], Broken(rest));
    if rest == [] {
      UnfoldEnd();
      assert Concat(rest) == "" && Broken(rest) == "";
      assert lines[0] + "" == lines[0];
    } else {
      FoldableRest(lines);
      hide Foldable;
      UnfoldBroken(rest);
      BreakIsFolded(rest);
      hide *;
      assert lines[0] + (Concat(rest) + "\r\n") == (lines[0] + Concat(rest)) + "\r\n";
    }
  }

  lemma FoldableRest(lines: seq<string>)
    requires Foldable(lines) && |lines| > 1
    ensures Foldable(lines[1..]) && lines[1] != "" && lines[1][0] == ' '
  {
  }

  lemma LineThenRest(line: string, rest: string)
    requires OneLine(line)
    ensures Unfold(line + "\r\n" + rest) == line + Unfold("\r\n" + rest)
  {
    UnfoldLine(line, "\r\n" + rest);
    hide *;
    assert line + "\r\n" + rest == line + ("\r\n" + rest);
  }

  lemma UnfoldEnd()
    ensures Unfold("\r\n" + "") == "\r\n"
  {
    assert "\r\n" + "" == "\r\n";
    assert "\r\n"[1..] == "\n" && "\n"[1..] == "";
    assert Unfold("\n") == "\n";
  }

  lemma BreakIsFolded(lines: seq<string>)
    requires lines != [] && lines[0] != "" && lines[0][0] == ' '
    ensures Unfold("\r\n" + Broken(lines)) == Unfold(Broken(lines))
  {
    var s := "\r\n" + Broken(lines);
    assert s[2..] == Broken(lines);
    assert s[2] == ' ';
  }

  lemma {:induction false} FoldedIsFoldable(line: string, ids: seq<string>)
    requires OneLine(line) && forall i :: 0 <= i < |ids| ==> OneLine(ids[i])
    ensures Foldable(Folded(line, ids))
    decreases |ids|
  {
    if ids != [] {
      var item := Item(ids[0]);
      assert OneLine(item);
      if |line| + |item| > WIDTH {
        FoldedIsFoldable(item, ids[1..]);
        FirstLineStarts(item, ids[1..]);
        StartsWithSpace(Folded(item, ids[1..])[0], item);
      } else {
        FoldedIsFoldable(line + item, ids[1..]);
      }
    }
  }

  lemma StartsWithSpace(line: string, item: string)
    requires StartsWith(line, item) && item != "" && item[0] == ' '
    ensures line != "" && line[0] == ' '
  {
    assert line[..|item|][0] == line[0];
  }

  /** Unfolded, the header is its name and all ids in order. */
  lemma HeaderUnfolds(name: string, ids: seq<string>)
    requires ids != [] && OneLine(name) && forall i :: 0 <= i < |ids| ==> OneLine(ids[i])
    ensures Unfold(Header(name, ids)) == name + ":" + Items(ids) + "\r\n"
  {
    hide *;
    var first := name + ":" + Item(ids[0]);
    FirstIsOneLine(name, ids[0]);
    FoldedIsFoldable(first, ids[1..]);
    UnfoldBroken(Folded(first, ids[1..]));
    FoldedTogether(first, ids[1..]);
    HeaderIs(name, ids);
    Regroup(name + ":", Item(ids[0]), Items(ids[1..]));
  }

  lemma Regroup(a: string, b: string, c: string)
    ensures (a + b) + c == a + (b + c)
  {
  }

  lemma FirstIsOneLine(name: string, id: string)
    requires OneLine(name) && OneLine(id)
    ensures OneLine(name + ":" + Item(id))
  {
  }

  lemma HeaderIs(name: string, ids: seq<string>)
    requires ids != []
    ensures Header(name, ids) == Broken(Folded(name + ":" + Item(ids[0]), ids[1..]))
    ensures Items(ids) == Item(ids[0]) + Items(ids[1..])
  {
  }

  /** The text up to the first `c`, and the text behind it. */
  function Until(s: string, c: char): Option<(string, string)> {
    if s == "" then None
    else if s[0] == c then Some(("", s[1..]))
    else
      var rest := Until(s[1..], c);
      if rest.None? then None else Some(([s[0]] + rest.value.0, rest.value.1))
  }

  lemma {:induction false} UntilFinds(a: string, c: char, b: string)
    requires forall i :: 0 <= i < |a| ==> a[i] != c
    ensures Until(a + [c] + b, c) == Some((a, b))
  {
    var s := a + [c] + b;
    if a == "" {
      assert s[1..] == b;
    } else {
      assert s[1..] == a[1..] + [c] + b;
      UntilFinds(a[1..], c, b);
      assert s[0] == a[0] && a == [a[0]] + a[1..];
    }
  }

  lemma {:induction false} UntilShrinks(s: string, c: char)
    ensures Until(s, c).Some? ==> |Until(s, c).value.1| < |s|
  {
    if s != "" && s[0] != c { UntilShrinks(s[1..], c); }
  }

  /** The list of message ids (RFC 5322, section 3.6.4) up to the end of the header. */
  function ParseIds(s: string): Option<seq<string>>
    decreases |s|
  {
    if s == "\r\n" then Some([])
    else if |s| < 2 || s[0] != ' ' || s[1] != '<' then None
    else
      var id := Until(s[2..], '>');
      UntilShrinks(s[2..], '>');
      if id.None? then None
      else
        var rest := ParseIds(id.value.1);
        if rest.None? then None else Some([id.value.0] + rest.value)
  }

  predicate IsId(id: string) { OneLine(id) && forall i :: 0 <= i < |id| ==> id[i] != '>' }

  lemma {:induction false} ParseItems(ids: seq<string>)
    requires forall i :: 0 <= i < |ids| ==> IsId(ids[i])
    ensures ParseIds(Items(ids) + "\r\n") == Some(ids)
  {
    var s := Items(ids) + "\r\n";
    if ids == [] {
      assert s == "\r\n";
    } else {
      ParseItems(ids[1..]);
      assert s == " <" + ids[0] + ">" + (Items(ids[1..]) + "\r\n");
      ItemThenRest(ids[0], Items(ids[1..]) + "\r\n");
      assert ids == [ids[0]] + ids[1..];
    }
  }

  lemma ItemThenRest(id: string, rest: string)
    requires IsId(id) && ParseIds(rest).Some?
    ensures ParseIds(" <" + id + ">" + rest) == Some([id] + ParseIds(rest).value)
  {
    var s := " <" + id + ">" + rest;
    assert s[2..] == id + ">" + rest;
    UntilFinds(id, '>', rest);
  }

  /** The header restores the list it was made from. */
  lemma HeaderReadsBack(name: string, ids: seq<string>)
    requires ids != [] && OneLine(name) && forall i :: 0 <= i < |name| ==> name[i] != ':'
    requires forall i :: 0 <= i < |ids| ==> IsId(ids[i])
    ensures
      var field := Until(Unfold(Header(name, ids)), ':');
      field.Some? && field.value.0 == name && ParseIds(field.value.1) == Some(ids)
  {
    HeaderUnfolds(name, ids);
    hide Unfold, Header, ParseIds, Items;
    assert name + ":" + Items(ids) + "\r\n" == name + ":" + (Items(ids) + "\r\n");
    UntilFinds(name, ':', Items(ids) + "\r\n");
    ParseItems(ids);
  }
}
