/** What the first two passes keep: every character at its depth, and in plain mode every line. */
module QuoteLinesFacts {
  import opened Text
  import opened QuoteLines

  // ----- maximal runs -----

  predicate Alternating(blocks: seq<TextInfo>) {
    forall i :: 0 <= i < |blocks| - 1 ==> blocks[i].depth != blocks[i + 1].depth
  }

  lemma {:induction false} BlocksAlternate(flow: Flow, lines: seq<TextInfo>)
    ensures Alternating(Blocks(flow, lines))
    ensures lines == [] <==> Blocks(flow, lines) == []
    ensures lines != [] ==> Blocks(flow, lines)[0].depth == lines[0].depth
    decreases |lines|
  {
    if lines != [] {
      BlocksAlternate(flow, lines[RunLength(lines)..]);
    }
  }

  lemma {:induction false} BlockDepths(flow: Flow, lines: seq<TextInfo>)
    requires forall line :: line in lines ==> line.depth >= 0
    ensures forall b :: b in Blocks(flow, lines) ==> b.depth >= 0
    decreases |lines|
  {
    if lines != [] {
      var n := RunLength(lines);
      assert lines[0] in lines;
      BlockDepths(flow, lines[n..]);
    }
  }

  lemma {:induction false} MeasuredDepths(lines: seq<string>, seen: bool)
    ensures forall info :: info in Measure(lines, seen) ==> info.depth >= 0 || info.depth == SIGNATURE
  {
    if lines != [] {
      MeasuredDepths(lines[1..], seen || IsSignatureSeparator(lines[0]));
    }
  }

  /** What the third pass is given: blocks of alternating depth up to the first signature separator. */
  lemma MergedShape(flow: Flow, lines: seq<TextInfo>)
    requires forall line :: line in lines ==> line.depth >= 0 || line.depth == SIGNATURE
    ensures
      var n := |Merged(flow, lines)| - (|lines| - BodyLength(lines));
      && 0 <= n == BodyLength(Merged(flow, lines))
      && Alternating(Merged(flow, lines)[..n])
      && Merged(flow, lines)[n..] == lines[BodyLength(lines)..]
  {
    var k := BodyLength(lines);
    var body := PrepareAll(flow, lines[..k]);
    forall line | line in body ensures line.depth >= 0 {
      var i :| 0 <= i < k && line == Prepare(flow, lines[i]);
      assert lines[i] in lines;
    }
    BlocksAlternate(flow, body);
    BlockDepths(flow, body);
    var blocks := Blocks(flow, body);
    assert Merged(flow, lines) == blocks + lines[k..];
    hide Blocks, Merged, PrepareAll, Prepare, Alternating;
    BodyThenRest(blocks, lines[k..]);
  }

  lemma BodyThenRest(blocks: seq<TextInfo>, rest: seq<TextInfo>)
    requires forall b :: b in blocks ==> b.depth >= 0
    requires rest != [] ==> rest[0].depth == SIGNATURE
    ensures BodyLength(blocks + rest) == |blocks|
    ensures (blocks + rest)[..|blocks|] == blocks && (blocks + rest)[|blocks|..] == rest
  {
    var all := blocks + rest;
    forall i | 0 <= i < |blocks| ensures all[i].depth != SIGNATURE {
      assert blocks[i] in blocks && all[i] == blocks[i];
    }
    BodyLengthIs(all, |blocks|);
  }

  lemma {:induction false} BodyLengthIs(lines: seq<TextInfo>, n: nat)
    requires n <= |lines| && forall i :: 0 <= i < n ==> lines[i].depth != SIGNATURE
    requires n < |lines| ==> lines[n].depth == SIGNATURE
    ensures BodyLength(lines) == n
  {
  }

  // ----- plain mode: the merge loses nothing -----

  predicate OneLineEach(lines: seq<TextInfo>) {
    forall i :: 0 <= i < |lines| ==> '\n' !in lines[i].text
  }

  function LinesOf(block: TextInfo): seq<TextInfo> {
    var lines := Split(block.text);
    seq(|lines|, i requires 0 <= i < |lines| => TextInfo(block.depth, lines[i]))
  }

  /** The blocks cut at their newlines again. */
  function Unmerge(blocks: seq<TextInfo>): seq<TextInfo> {
    if blocks == [] then [] else LinesOf(blocks[0]) + Unmerge(blocks[1..])
  }

  lemma {:induction false} RunLines(run: seq<TextInfo>)
    requires run != [] && OneLineEach(run)
    requires forall i :: 0 <= i < |run| ==> run[i].depth == run[0].depth
    ensures LinesOf(TextInfo(run[0].depth, GlueAll(Plain, run))) == run
  {
    var n := |run| - 1;
    var last := run[n];
    SplitLine(last.text);
    if n > 0 {
      var front := run[..n];
      RunLines(front);
      SplitAtNewline(GlueAll(Plain, front), last.text);
      assert run == front + [last];
    }
  }

  /** Cutting the merged blocks at their newlines gives back exactly the lines, each at its depth. */
  lemma {:induction false} PlainRoundTrip(lines: seq<TextInfo>)
    requires OneLineEach(lines)
    ensures Unmerge(Blocks(Plain, lines)) == lines
    decreases |lines|
  {
    hide *;
    BlocksUnfold(Plain, lines);
    if lines == [] {
      NothingToUnmerge();
    } else {
      var n := RunLength(lines);
      OneLineParts(lines, n);
      RunLines(lines[..n]);
      PlainRoundTrip(lines[n..]);
      UnmergeCons(TextInfo(lines[0].depth, GlueAll(Plain, lines[..n])), Blocks(Plain, lines[n..]));
      assert lines == lines[..n] + lines[n..];
    }
  }

  lemma BlocksUnfold(flow: Flow, lines: seq<TextInfo>)
    ensures
      if lines == [] then Blocks(flow, lines) == []
      else
        var n := RunLength(lines);
        Blocks(flow, lines) == [TextInfo(lines[0].depth, GlueAll(flow, lines[..n]))] + Blocks(flow, lines[n..])
  {
    hide GlueAll;
  }

  lemma NothingToUnmerge()
    ensures Unmerge([]) == []
  {
  }

  lemma OneLineParts(lines: seq<TextInfo>, n: nat)
    requires OneLineEach(lines) && n <= |lines|
    ensures OneLineEach(lines[..n]) && OneLineEach(lines[n..])
  {
  }

  lemma UnmergeCons(first: TextInfo, rest: seq<TextInfo>)
    ensures Unmerge([first] + rest) == LinesOf(first) + Unmerge(rest)
  {
    assert ([first] + rest)[1..] == rest;
  }

  /** The other way round: blocks of alternating depth are what the merge makes of their lines. */
  lemma {:induction false} MergeUnmerge(blocks: seq<TextInfo>)
    requires Alternating(blocks)
    ensures Blocks(Plain, Unmerge(blocks)) == blocks
  {
    if blocks != [] {
      var first, rest := LinesOf(blocks[0]), Unmerge(blocks[1..]);
      var lines := first + rest;
      if |blocks| > 1 {
        assert rest[0] == LinesOf(blocks[1])[0];
      }
      RunLengthUnique(lines, |first|);
      assert lines[..|first|] == first && lines[|first|..] == rest;
      GlueIsJoin(first);
      JoinSplit(blocks[0].text);
      assert Texts(first) == Split(blocks[0].text);
      MergeUnmerge(blocks[1..]);
    }
  }

  function Texts(lines: seq<TextInfo>): seq<string> {
    seq(|lines|, i requires 0 <= i < |lines| => lines[i].text)
  }

  lemma {:induction false} GlueIsJoin(run: seq<TextInfo>)
    requires run != []
    ensures GlueAll(Plain, run) == Join(Texts(run))
  {
    var n := |run| - 1;
    if n > 0 {
      GlueIsJoin(run[..n]);
      assert Texts(run) == Texts(run[..n]) + [run[n].text];
      JoinSnoc(Texts(run[..n]), run[n].text);
    }
  }

  lemma {:induction false} JoinSnoc(lines: seq<string>, line: string)
    requires lines != []
    ensures Join(lines + [line]) == Join(lines) + "\n" + line
  {
    if |lines| > 1 {
      assert (lines + [line])[1..] == lines[1..] + [line];
      JoinSnoc(lines[1..], line);
      assert lines[0] + "\n" + (Join(lines[1..]) + "\n" + line) == lines[0] + "\n" + Join(lines[1..]) + "\n" + line;
    } else {
      assert (lines + [line])[1..] == [line];
    }
  }

  // ----- every mode: only line ends may change -----

  /** The characters other than CR and LF, each with the depth of the line it stands in. */
  function Ink(text: string, depth: int): seq<(char, int)> {
    if text == "" then []
    else (if text[0] == '\r' || text[0] == '\n' then [] else [(text[0], depth)]) + Ink(text[1..], depth)
  }

  function AllInk(infos: seq<TextInfo>): seq<(char, int)> {
    if infos == [] then [] else Ink(infos[0].text, infos[0].depth) + AllInk(infos[1..])
  }

  lemma {:induction false} InkConcat(a: string, b: string, depth: int)
    ensures Ink(a + b, depth) == Ink(a, depth) + Ink(b, depth)
  {
    if a == "" {
      assert a + b == b;
    } else {
      assert (a + b)[1..] == a[1..] + b;
      InkConcat(a[1..], b, depth);
    }
  }

  lemma AllInkCons(first: TextInfo, rest: seq<TextInfo>)
    ensures AllInk([first] + rest) == Ink(first.text, first.depth) + AllInk(rest)
  {
    assert ([first] + rest)[1..] == rest;
  }

  lemma {:induction false} AllInkConcat(a: seq<TextInfo>, b: seq<TextInfo>)
    ensures AllInk(a + b) == AllInk(a) + AllInk(b)
  {
    if a == [] {
      assert a + b == b;
    } else {
      assert (a + b)[1..] == a[1..] + b;
      AllInkConcat(a[1..], b);
    }
  }

  lemma GlueKeepsInk(flow: Flow, a: string, b: string, depth: int)
    ensures Ink(Glue(flow, a, b), depth) == Ink(a, depth) + Ink(b, depth)
  {
    InkConcat(a, b, depth);
    InkOfBreak(a, b, depth);
    if EndsInSpaceCr(a) { InkWithoutCr(a, b, depth); }
    hide Ink;
  }

  lemma InkOfBreak(a: string, b: string, depth: int)
    ensures Ink(a + "\n" + b, depth) == Ink(a, depth) + Ink(b, depth)
  {
    InkConcat(a + "\n", b, depth);
    InkConcat(a, "\n", depth);
    assert Ink("\n", depth) == Ink("", depth) == [];
    hide Ink;
    assert Ink(a, depth) + [] == Ink(a, depth);
  }

  lemma InkWithoutCr(a: string, b: string, depth: int)
    requires EndsInSpaceCr(a)
    ensures Ink(a[..|a| - 1] + b, depth) == Ink(a, depth) + Ink(b, depth)
  {
    var bare := a[..|a| - 1];
    assert a == bare + "\r";
    InkConcat(bare, "\r", depth);
    InkConcat(bare, b, depth);
    assert Ink("\r", depth) == Ink("", depth) == [];
    hide Ink;
    assert Ink(bare, depth) + [] == Ink(bare, depth);
  }

  lemma {:induction false} GlueAllKeepsInk(flow: Flow, run: seq<TextInfo>)
    requires run != [] && forall i :: 0 <= i < |run| ==> run[i].depth == run[0].depth
    ensures Ink(GlueAll(flow, run), run[0].depth) == AllInk(run)
  {
    var n := |run| - 1;
    if n == 0 {
      assert run == [run[0]] && run[1..] == [];
    } else {
      GlueAllKeepsInk(flow, run[..n]);
      GlueKeepsInk(flow, GlueAll(flow, run[..n]), run[n].text, run[0].depth);
      AllInkConcat(run[..n], [run[n]]);
      assert run == run[..n] + [run[n]] && [run[n]][1..] == [];
    }
  }

  /** In every mode the merge changes nothing but line ends, and no character changes its depth: lines
      of different depth are never joined. */
  lemma {:induction false} MergeKeepsInk(flow: Flow, lines: seq<TextInfo>)
    ensures AllInk(Blocks(flow, lines)) == AllInk(lines)
    decreases |lines|
  {
    hide AllInk, Ink, GlueAll, RunLength;
    if lines == [] {
      assert Blocks(flow, lines) == lines;
    } else {
      var n := RunLength(lines);
      GlueAllKeepsInk(flow, lines[..n]);
      MergeKeepsInk(flow, lines[n..]);
      AllInkConcat(lines[..n], lines[n..]);
      AllInkCons(TextInfo(lines[0].depth, GlueAll(flow, lines[..n])), Blocks(flow, lines[n..]));
      assert lines == lines[..n] + lines[n..];
    }
  }
}
