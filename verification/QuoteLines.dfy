/** From plain text to blocks of equally quoted lines: the first two passes of the formatter. */
module QuoteLines {
  import opened Text

  const SIGNATURE := -2

  datatype Flow = Plain | Flowed | FlowedDelSp

  datatype TextInfo = TextInfo(depth: int, text: string)

  predicate IsSignatureSeparator(line: string) {
    BareSeparator(if EndsWith(line, "\r") then line[..|line| - 1] else line)
  }

  predicate BareSeparator(bare: string) {
    bare == "-- " || (|bare| >= 45 && forall i :: 0 <= i < |bare| ==> bare[i] == '_')
  }

  // ----- first pass: the quote depth of each line -----

  /** Where the run of quote marks and blanks that starts at `j` ends. */
  function MarksEnd(line: string, j: nat): (end: nat)
    requires j <= |line|
    ensures j <= end <= |line|
    ensures forall i :: j <= i < end ==> line[i] == '>' || line[i] == ' '
    ensures end == |line| || (line[end] != '>' && line[end] != ' ')
    decreases |line| - j
  {
    if j < |line| && (line[j] == '>' || line[j] == ' ') then MarksEnd(line, j + 1) else j
  }

  /** The quote marks a line starts with, blanks between them ignored. */
  function DepthOf(line: string): nat {
    if StartsWith(line, ">") then Count(line[..MarksEnd(line, 0)], '>') else 0
  }

  function Measure(lines: seq<string>, signatureSeen: bool): (infos: seq<TextInfo>)
    ensures |infos| == |lines|
  {
    if lines == [] then [] else
    [Info(lines[0], signatureSeen)] + Measure(lines[1..], signatureSeen || IsSignatureSeparator(lines[0]))
  }

  function Info(line: string, signatureSeen: bool): TextInfo {
    TextInfo(if IsSignatureSeparator(line) then SIGNATURE else if signatureSeen then 0 else DepthOf(line), line)
  }

  function Lines(plaintext: string): seq<TextInfo> { Measure(Split(plaintext), false) }

  method QuoteLevel(line: string) returns (quoteLevel: nat)
    requires line != ""
    ensures quoteLevel == DepthOf(line)
  {
    quoteLevel := 0;
    if line[0] == '>' {
      var j := 1;
      quoteLevel := 1;
      assert line[..1] == [line[0]] && Count([line[0]][1..], '>') == 0;
      while j < |line| && (line[j] == '>' || line[j] == ' ')
        invariant 1 <= j <= |line| && MarksEnd(line, j) == MarksEnd(line, 0)
        invariant quoteLevel == Count(line[..j], '>')
      {
        CountSnoc(line, j);
        quoteLevel := quoteLevel + if line[j] == '>' then 1 else 0;
        j := j + 1;
      }
    }
  }

  lemma CountSnoc(line: string, j: nat)
    requires j < |line|
    ensures Count(line[..j + 1], '>') == Count(line[..j], '>') + if line[j] == '>' then 1 else 0
  {
    CountConcat(line[..j], [line[j]], '>');
    assert line[..j + 1] == line[..j] + [line[j]];
    assert [line[j]][1..] == "";
  }

  method FirstPass(plaintext: string) returns (lineBuffer: seq<TextInfo>)
    ensures lineBuffer == Measure(Split(plaintext), false)
  {
    hide *;
    lineBuffer := [];
    var signatureSeparatorSeen := false;
    var lines := Split(plaintext);
    assert lines[0..] == lines;
    for k := 0 to |lines|
      invariant lineBuffer + Measure(lines[k..], signatureSeparatorSeen) == Measure(lines, false)
    {
      var line := lines[k];
      MeasureStep(lines, k, signatureSeparatorSeen);
      var info := LineInfo(line, signatureSeparatorSeen);
      lineBuffer := lineBuffer + [info];
      signatureSeparatorSeen := signatureSeparatorSeen || IsSignatureSeparator(line);
    }
    assert lines[|lines|..] == [];
  }

  method LineInfo(line: string, signatureSeparatorSeen: bool) returns (info: TextInfo)
    ensures info == Info(line, signatureSeparatorSeen)
  {
    if line == "" {
      return TextInfo(0, line);
    }
    if IsSignatureSeparator(line) {
      return TextInfo(SIGNATURE, line);
    }
    var quoteLevel := 0;
    if !signatureSeparatorSeen {
      quoteLevel := QuoteLevel(line);
    }
    info := TextInfo(quoteLevel, line);
  }

  lemma MeasureStep(lines: seq<string>, k: nat, seen: bool)
    requires k < |lines|
    ensures Measure(lines[k..], seen)
         == [Info(lines[k], seen)] + Measure(lines[k + 1..], seen || IsSignatureSeparator(lines[k]))
  {
    assert lines[k..][1..] == lines[k + 1..];
  }

  // ----- second pass: strip the quote marks and join lines of one depth -----

  function SpaceEnd(text: string, j: nat): (end: nat)
    requires j <= |text|
    ensures j <= end <= |text|
    ensures forall i :: j <= i < end ==> text[i] == '>' || IsSpace(text[i])
    ensures end == |text| || (text[end] != '>' && !IsSpace(text[end]))
    decreases |text| - j
  {
    if j < |text| && (text[j] == '>' || IsSpace(text[j])) then SpaceEnd(text, j + 1) else j
  }

  /** Without the leading quote mark and all quote marks and white space behind it. */
  function StripMarks(text: string): string {
    if StartsWith(text, ">") then text[SpaceEnd(text, 0)..] else text
  }

  predicate EndsInSpace(text: string) {
    |text| >= 1 && text[|text| - 1] == ' '
  }

  predicate EndsInSpaceCr(text: string) {
    |text| >= 2 && text[|text| - 1] == '\r' && text[|text| - 2] == ' '
  }

  function ChopSpace(text: string): string {
    if EndsInSpaceCr(text) then text[..|text| - 2] + "\r"
    else if EndsInSpace(text) then text[..|text| - 1]
    else text
  }

  function Prepare(flow: Flow, line: TextInfo): TextInfo {
    var text := StripMarks(line.text);
    line.(text := if flow.FlowedDelSp? then ChopSpace(text) else text)
  }

  function PrepareAll(flow: Flow, lines: seq<TextInfo>): seq<TextInfo> {
    seq(|lines|, i requires 0 <= i < |lines| => Prepare(flow, lines[i]))
  }

  /** One block text and the next line of the same depth, made one text. */
  function Glue(flow: Flow, prev: string, next: string): string {
    if flow.Plain? then prev + "\n" + next
    else if EndsInSpace(prev) then prev + next
    else if EndsInSpaceCr(prev) then prev[..|prev| - 1] + next
    else prev + "\n" + next
  }

  function GlueAll(flow: Flow, run: seq<TextInfo>): string
    requires run != []
  {
    if |run| == 1 then run[0].text
    else Glue(flow, GlueAll(flow, run[..|run| - 1]), run[|run| - 1].text)
  }

  /** The length of the maximal run of lines as deep as the first one. */
  function RunLength(lines: seq<TextInfo>): (n: nat)
    requires lines != []
    ensures 1 <= n <= |lines|
    ensures forall i :: 0 <= i < n ==> lines[i].depth == lines[0].depth
    ensures n < |lines| ==> lines[n].depth != lines[0].depth
  {
    if |lines| == 1 || lines[1].depth != lines[0].depth then 1 else 1 + RunLength(lines[1..])
  }

  /** Each maximal run of lines of one depth, glued together. */
  function Blocks(flow: Flow, lines: seq<TextInfo>): seq<TextInfo> {
    if lines == [] then [] else
    var n := RunLength(lines);
    [TextInfo(lines[0].depth, GlueAll(flow, lines[..n]))] + Blocks(flow, lines[n..])
  }

  /** What the pass does with one more line. */
  function Absorb(flow: Flow, blocks: seq<TextInfo>, line: TextInfo): seq<TextInfo> {
    if blocks != [] && blocks[|blocks| - 1].depth == line.depth
    then
      var last := blocks[|blocks| - 1];
      blocks[..|blocks| - 1] + [last.(text := Glue(flow, last.text, line.text))]
    else blocks + [line]
  }

  lemma RunLengthUnique(lines: seq<TextInfo>, n: nat)
    requires 1 <= n <= |lines|
    requires forall i :: 0 <= i < n ==> lines[i].depth == lines[0].depth
    requires n < |lines| ==> lines[n].depth != lines[0].depth
    ensures RunLength(lines) == n
  {
  }

  /** Line by line absorption builds exactly the maximal runs. */
  lemma {:induction false} BlocksSnoc(flow: Flow, lines: seq<TextInfo>, line: TextInfo)
    ensures Blocks(flow, lines + [line]) == Absorb(flow, Blocks(flow, lines), line)
    decreases |lines|
  {
    if lines == [] {
      BlocksOfRun(flow, [line]);
      assert [] + [line] == [line];
    } else {
      var n := RunLength(lines);
      if n < |lines| {
        var more := lines + [line];
        RunLengthUnique(more, n);
        assert more[n..] == lines[n..] + [line] && more[..n] == lines[..n];
        BlocksSnoc(flow, lines[n..], line);
        hide RunLength, GlueAll, Absorb;
        AbsorbBehind(flow, TextInfo(lines[0].depth, GlueAll(flow, lines[..n])), Blocks(flow, lines[n..]), line);
      } else {
        BlocksOfRun(flow, lines);
        ExtendRun(flow, lines, line);
      }
    }
  }

  /** One block for a list of equally deep lines. */
  lemma BlocksOfRun(flow: Flow, run: seq<TextInfo>)
    requires run != [] && forall i :: 0 <= i < |run| ==> run[i].depth == run[0].depth
    ensures Blocks(flow, run) == [TextInfo(run[0].depth, GlueAll(flow, run))]
  {
    RunLengthUnique(run, |run|);
    assert run[..|run|] == run && run[|run|..] == [];
  }

  lemma ExtendRun(flow: Flow, run: seq<TextInfo>, line: TextInfo)
    requires run != [] && forall i :: 0 <= i < |run| ==> run[i].depth == run[0].depth
    ensures Blocks(flow, run + [line]) == Absorb(flow, [TextInfo(run[0].depth, GlueAll(flow, run))], line)
  {
    var more := run + [line];
    if line.depth == run[0].depth {
      BlocksOfRun(flow, more);
      assert more[..|more| - 1] == run;
    } else {
      RunLengthUnique(more, |run|);
      assert more[..|run|] == run && more[|run|..] == [line];
      BlocksOfRun(flow, [line]);
    }
  }

  lemma AbsorbBehind(flow: Flow, first: TextInfo, rest: seq<TextInfo>, line: TextInfo)
    requires rest != []
    ensures Absorb(flow, [first] + rest, line) == [first] + Absorb(flow, rest, line)
  {
    assert ([first] + rest)[..|rest|] == [first] + rest[..|rest| - 1];
  }

  /** The lines before the first signature separator. */
  function BodyLength(lines: seq<TextInfo>): (n: nat)
    ensures n <= |lines|
    ensures forall i :: 0 <= i < n ==> lines[i].depth != SIGNATURE
    ensures n < |lines| ==> lines[n].depth == SIGNATURE
  {
    if lines == [] || lines[0].depth == SIGNATURE then 0 else 1 + BodyLength(lines[1..])
  }

  function Merged(flow: Flow, lines: seq<TextInfo>): seq<TextInfo> {
    var n := BodyLength(lines);
    Blocks(flow, PrepareAll(flow, lines[..n])) + lines[n..]
  }

  /** The buffer is edited in place, line by line up to the first signature separator. */
  method SecondPass(flow: Flow, lines: seq<TextInfo>) returns (lineBuffer: seq<TextInfo>)
    ensures lineBuffer == Merged(flow, lines)
  {
    lineBuffer := lines;
    var it := 0;
    ghost var blocks, rest, k := [], lines, 0;
    assert lines[..0] == [] && PrepareAll(flow, []) == [];
    while it < |lineBuffer| && lineBuffer[it].depth != SIGNATURE
      invariant lineBuffer == blocks + rest && it == |blocks|
      invariant 0 <= k <= BodyLength(lines) && rest == lines[k..]
      invariant blocks == Blocks(flow, PrepareAll(flow, lines[..k]))
      decreases |rest|
    {
      assert lineBuffer[it] == rest[0] == lines[k];
      OneMoreLine(flow, lines, k);
      lineBuffer, it := MergeLine(flow, lineBuffer, it, blocks, rest);
      blocks, rest, k := Absorb(flow, blocks, Prepare(flow, rest[0])), rest[1..], k + 1;
    }
    hide Blocks, PrepareAll;
    assert rest != [] ==> lineBuffer[it] == rest[0];
    BodyEnds(lines, k);
  }

  lemma BodyEnds(lines: seq<TextInfo>, k: nat)
    requires k <= BodyLength(lines) && (k < |lines| ==> lines[k..][0].depth == SIGNATURE)
    ensures k == BodyLength(lines)
  {
    assert k < |lines| ==> lines[k..][0] == lines[k];
  }

  /** One line is stripped, then either swallowed by the block before it or left standing as the start
      of a new block. */
  method MergeLine(flow: Flow, buffer: seq<TextInfo>, at: nat, ghost blocks: seq<TextInfo>, ghost rest: seq<TextInfo>)
    returns (lineBuffer: seq<TextInfo>, it: nat)
    requires buffer == blocks + rest && at == |blocks| && rest != []
    ensures lineBuffer == Absorb(flow, blocks, Prepare(flow, rest[0])) + rest[1..]
    ensures it == |Absorb(flow, blocks, Prepare(flow, rest[0]))|
  {
    hide *;
    lineBuffer, it := buffer, at;
    ghost var line := Prepare(flow, rest[0]);
    var stripped := StripLine(flow, buffer[it]);
    lineBuffer := lineBuffer[it := stripped];
    AbsorbIs(flow, blocks, line);
    if it != 0 && lineBuffer[it - 1].depth == lineBuffer[it].depth {
      var prev := JoinTexts(flow, lineBuffer[it - 1].text, stripped.text);
      lineBuffer := lineBuffer[..it - 1] + [lineBuffer[it - 1].(text := prev)] + lineBuffer[it + 1..];
    } else {
      it := it + 1;
    }
  }

  lemma AbsorbIs(flow: Flow, blocks: seq<TextInfo>, line: TextInfo)
    ensures
      var n := |blocks| - 1;
      Absorb(flow, blocks, line)
      == if n >= 0 && blocks[n].depth == line.depth
         then blocks[..n] + [blocks[n].(text := Glue(flow, blocks[n].text, line.text))]
         else blocks + [line]
  {
    hide Glue;
  }

  method StripLine(flow: Flow, line: TextInfo) returns (stripped: TextInfo)
    ensures stripped == Prepare(flow, line)
  {
    var text := StripMarks(line.text);
    hide StripMarks;
    if flow == FlowedDelSp {
      if EndsInSpaceCr(text) {
        text := text[..|text| - 2];
        text := text + "\r";
      } else if EndsInSpace(text) {
        text := text[..|text| - 1];
      }
    }
    stripped := line.(text := text);
  }

  method JoinTexts(flow: Flow, prev0: string, text: string) returns (prev: string)
    ensures prev == Glue(flow, prev0, text)
  {
    prev := prev0;
    var separator := "\n";
    if flow != Plain {
      if EndsInSpace(prev) {
        separator := "";
      } else if EndsInSpaceCr(prev) {
        separator := "";
        prev := prev[..|prev| - 1];
      }
    }
    prev := prev + separator + text;
  }

  lemma OneMoreLine(flow: Flow, lines: seq<TextInfo>, k: nat)
    requires k < |lines|
    ensures Blocks(flow, PrepareAll(flow, lines[..k + 1]))
         == Absorb(flow, Blocks(flow, PrepareAll(flow, lines[..k])), Prepare(flow, lines[k]))
  {
    assert PrepareAll(flow, lines[..k + 1]) == PrepareAll(flow, lines[..k]) + [Prepare(flow, lines[k])];
    BlocksSnoc(flow, PrepareAll(flow, lines[..k]), Prepare(flow, lines[k]));
  }

}
