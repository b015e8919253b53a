/** The interactive controls of a written page: which quotations have one, and how it starts. */
module QuoteControls {
  import opened Text
  import opened Markup
  import opened QuoteLines
  import opened QuoteLinesFacts
  import opened QuoteTree
  import opened QuoteTreeFacts
  import opened LineMarkupFacts
  import opened MarkupLexing
  import opened HtmlReader

  // ----- quotations -----

  /** Where a quotation starts and how deep it is. */
  datatype Place = Place(start: nat, level: nat)

  /** A quotation of depth `level` begins at block `i`. */
  predicate Begins(b: seq<TextInfo>, i: nat, level: nat) {
    i < |b| && 0 < level <= b[i].depth && (i > 0 ==> b[i - 1].depth < level)
  }

  /** The blocks from `i` to `j` are all that is at least `level` deep there. */
  predicate RunOf(b: seq<TextInfo>, i: nat, j: nat, level: nat) {
    && i < j <= |b| && (forall k :: i <= k < j ==> b[k].depth >= level) && (j < |b| ==> b[j].depth < level)
  }

  /** A block of the quotation is exactly `level` deep. */
  ghost predicate SpeaksItself(b: seq<TextInfo>, i: nat, level: nat) {
    exists j :: i <= j < |b| && b[j].depth == level && forall k :: i <= k <= j ==> b[k].depth >= level
  }

  /** Behind block `i`, in front of the signature, there is an unquoted block with text. */
  ghost predicate AnsweredBehind(b: seq<TextInfo>, i: nat) {
    exists k :: i < k < |b| && b[k].depth == 0 && b[k].text != "" && forall l :: 0 <= l < k ==> b[l].depth != SIGNATURE
  }

  /** How the control of the quotation from `i` to `j` starts. A quotation of at most five lines and 800 characters
      that begins at its own depth needs no control to be checked. Any other starts expanded only at the first level,
      with an answer behind it, and below ten lines and 1600 characters. */
  ghost predicate StartsAs(b: seq<TextInfo>, i: nat, j: nat, level: nat, preset: Preset)
    requires i < j <= |b|
  {
    var texts := Texts(b[i..j]);
    var lines, chars := |Split(Join(texts))|, |Concat(texts)|;
    && (preset == Bare <==> b[i].depth == level && lines <= 5 && chars <= 800)
    && (preset != Bare ==> (preset == Unchecked <==> level == 1 && AnsweredBehind(b, i) && lines < 10 && chars < 1600))
  }

  // ----- the size of a quotation -----

  lemma {:induction false} SplitLength(s: string)
    ensures |Split(s)| == Count(s, '\n') + 1
  {
    if s != "" { SplitLength(s[1..]); }
  }

  lemma {:induction false} SizeIs(b: seq<TextInfo>, i: nat, j: nat)
    requires i < j <= |b|
    ensures CharCount(b, i, j) == |Concat(Texts(b[i..j]))|
    ensures LineCount(b, i, j) == Count(Join(Texts(b[i..j])), '\n') + 1
    decreases j - i
  {
    hide *;
    SizeUnfolds(b, i, j);
    TextsSnoc(b, i, j);
    if i + 1 < j {
      var front, last := Texts(b[i..j - 1]), b[j - 1].text;
      SizeIs(b, i, j - 1);
      ConcatAppend(front, last);
      JoinSnoc(front, last);
      CountConcat(Join(front) + "\n", last, '\n');
      CountConcat(Join(front), "\n", '\n');
      OneNewline();
    } else {
      NoSize(b, i);
      JustOneText(b[i].text);
    }
  }

  lemma SizeUnfolds(b: seq<TextInfo>, i: nat, j: nat)
    requires i < j <= |b|
    ensures CharCount(b, i, j) == CharCount(b, i, j - 1) + |b[j - 1].text|
    ensures LineCount(b, i, j) == LineCount(b, i, j - 1) + Count(b[j - 1].text, '\n') + 1
  {
  }

  lemma NoSize(b: seq<TextInfo>, i: nat)
    requires i <= |b|
    ensures CharCount(b, i, i) == LineCount(b, i, i) == 0
  {
  }

  lemma TextsSnoc(b: seq<TextInfo>, i: nat, j: nat)
    requires i < j <= |b|
    ensures Texts(b[i..j]) == Texts(b[i..j - 1]) + [b[j - 1].text]
    ensures i + 1 < j ==> Texts(b[i..j - 1]) != []
    ensures i + 1 == j ==> Texts(b[i..j]) == [b[i].text]
  {
  }

  lemma OneNewline()
    ensures Count("\n", '\n') == 1
  {
    assert "\n"[1..] == "";
  }

  lemma JustOneText(text: string)
    ensures Concat([text]) == text && Join([text]) == text
  {
    assert [text][1..] == [] && text + "" == text;
  }

  // ----- how a control starts -----

  lemma PresetIs(b: seq<TextInfo>, i: nat, j: nat, level: nat)
    requires i < BodyLength(b) && 0 < level <= b[i].depth && RunOf(b, i, j, level)
    ensures StartsAs(b, i, j, level, PresetOf(b, i, level))
  {
    hide *;
    RunIs(b, i, j, level);
    TextsSnoc(b, i, j);
    SizeIs(b, i, j);
    SplitLength(Join(Texts(b[i..j])));
    AnswerIs(b, i);
    PresetUnfolds(b, i, j, level);
    StartsUnfold(b, i, j, level, PresetOf(b, i, level));
  }

  lemma PresetUnfolds(b: seq<TextInfo>, i: nat, j: nat, level: nat)
    requires i < |b| && i <= j <= |b| && RunEnd(b, i, level) == j
    ensures
      var chars, lines := CharCount(b, i, j), LineCount(b, i, j);
      PresetOf(b, i, level)
      == if level == b[i].depth && chars <= 800 && lines <= 5 then Bare
         else if NothingButQuotesBehind(b, i) || level > 1 || chars >= 1600 || lines >= 10 then Checked else Unchecked
  {
    hide CharCount, LineCount, NothingButQuotesBehind, RunEnd;
  }

  lemma StartsUnfold(b: seq<TextInfo>, i: nat, j: nat, level: nat, preset: Preset)
    requires i < j <= |b| && Texts(b[i..j]) != []
    ensures
      var texts := Texts(b[i..j]);
      var lines, chars := |Split(Join(texts))|, |Concat(texts)|;
      StartsAs(b, i, j, level, preset)
      <==> && (preset == Bare <==> b[i].depth == level && lines <= 5 && chars <= 800)
           && (preset != Bare ==>
                 (preset == Unchecked <==> level == 1 && AnsweredBehind(b, i) && lines < 10 && chars < 1600))
  {
    hide Split, Join, Concat, Texts, AnsweredBehind;
  }

  lemma RunIs(b: seq<TextInfo>, i: nat, j: nat, level: nat)
    requires RunOf(b, i, j, level)
    ensures i < j <= |b| && RunEnd(b, i, level) == j
  {
    RunEndIs(b, i, j, level);
    hide RunEnd;
  }

  lemma {:induction false} RunEndIs(b: seq<TextInfo>, i: nat, j: nat, level: nat)
    requires i <= j <= |b| && (forall k :: i <= k < j ==> b[k].depth >= level) && (j < |b| ==> b[j].depth < level)
    ensures RunEnd(b, i, level) == j
    decreases j - i
  {
    if i < j { RunEndIs(b, i + 1, j, level); }
  }

  lemma AnswerIs(b: seq<TextInfo>, i: nat)
    requires i < BodyLength(b)
    ensures NothingButQuotesBehind(b, i) <==> !AnsweredBehind(b, i)
  {
    hide BodyLength;
    var n := BodyLength(b);
    if k :| i < k < n && !(b[k].depth != 0 || b[k].text == "") {
      assert AnsweredBehind(b, i);
    }
    if k :| i < k < |b| && b[k].depth == 0 && b[k].text != "" && forall l :: 0 <= l < k ==> b[l].depth != SIGNATURE {
      assert k < n;
    }
  }

  // ----- the order of the controls -----

  /** The quotations deeper than `level` that begin at block `i` and have text of their own, the outermost first. */
  function PlacesAt(b: seq<TextInfo>, i: nat, level: nat): seq<Place>
    requires i < |b|
    decreases b[i].depth - level
  {
    if b[i].depth <= level then []
    else (if HasOwnText(b, i, level + 1) then [Place(i, level + 1)] else []) + PlacesAt(b, i, level + 1)
  }

  /** The quotations that begin at the blocks from `i` to `j`, when the block in front of them is `before` deep. */
  function Places(b: seq<TextInfo>, i: nat, j: nat, before: nat): seq<Place>
    requires i <= j <= |b| && forall k :: i <= k < j ==> b[k].depth >= 0
    decreases j - i
  {
    if i == j then [] else PlacesAt(b, i, before) + Places(b, i + 1, j, b[i].depth)
  }

  lemma {:induction false} PlacesSplit(b: seq<TextInfo>, i: nat, e: nat, j: nat, before: nat)
    requires i < e <= j <= |b| && forall k :: i <= k < j ==> b[k].depth >= 0
    ensures b[e - 1].depth >= 0
    ensures Places(b, i, j, before) == Places(b, i, e, before) + Places(b, e, j, b[e - 1].depth)
    decreases e - i
  {
    hide PlacesAt;
    if i + 1 < e {
      PlacesSplit(b, i + 1, e, j, b[i].depth);
    } else {
      assert Places(b, e, e, b[i].depth) == [];
    }
  }

  /** In front of a block that is no deeper, it does not matter how deep the block in front was. */
  lemma PlacesBehind(b: seq<TextInfo>, e: nat, j: nat, before: nat, level: nat)
    requires e <= j <= |b| && (forall k :: e <= k < j ==> b[k].depth >= 0)
    requires e < j ==> b[e].depth <= level <= before
    ensures Places(b, e, j, before) == Places(b, e, j, level)
  {
  }

  lemma PlacesUnfold(b: seq<TextInfo>, i: nat, e: nat, j: nat, level: nat)
    requires i < e <= j <= |b| && forall k :: i <= k < j ==> b[k].depth >= 0
    requires b[i].depth > level && (forall k :: i <= k < e ==> b[k].depth > level) && (e < j ==> b[e].depth <= level)
    ensures
      var own := if HasOwnText(b, i, level + 1) then [Place(i, level + 1)] else [];
      Places(b, i, j, level) == (own + Places(b, i, e, level + 1)) + Places(b, e, j, level)
  {
    hide HasOwnText;
    PlacesSplit(b, i, e, j, level);
    PlacesBehind(b, e, j, b[e - 1].depth, level);
    PlacesFirst(b, i, e, level);
    hide Places;
  }

  lemma PlacesFirst(b: seq<TextInfo>, i: nat, e: nat, level: nat)
    requires i < e <= |b| && (forall k :: i <= k < e ==> b[k].depth >= 0) && b[i].depth > level
    ensures
      var own := if HasOwnText(b, i, level + 1) then [Place(i, level + 1)] else [];
      Places(b, i, e, level) == own + Places(b, i, e, level + 1)
  {
    hide HasOwnText;
    var rest := Places(b, i + 1, e, b[i].depth);
    var own := if HasOwnText(b, i, level + 1) then [Place(i, level + 1)] else [];
    assert PlacesAt(b, i, level) == own + PlacesAt(b, i, level + 1);
    hide Places, PlacesAt;
    assert own + PlacesAt(b, i, level + 1) + rest == own + (PlacesAt(b, i, level + 1) + rest);
  }

  /** The checkboxes of quotations, numbered on from `n`. */
  function BoxesAt(m: Mail, places: seq<Place>, n: nat): seq<Box>
    requires forall k :: 0 <= k < |places| ==> InBody(m, places[k].start)
  {
    seq(|places|, k requires 0 <= k < |places| => BoxFor(m, places[k], n + 1 + k))
  }

  /** The checkbox of a quotation. */
  function BoxFor(m: Mail, place: Place, id: nat): Box
    requires InBody(m, place.start)
  {
    Box(id, PresetOf(m.blocks, place.start, place.level), place.level, |Visible(m, 0, place.start)|)
  }

  predicate InBody(m: Mail, i: nat) {
    i < |m.blocks| && forall k :: 0 <= k <= i ==> m.blocks[k].depth >= 0
  }

  lemma {:induction false} PlacesStart(b: seq<TextInfo>, i: nat, j: nat, before: nat)
    requires i <= j <= |b| && forall k :: i <= k < j ==> b[k].depth >= 0
    ensures forall k :: 0 <= k < |Places(b, i, j, before)| ==> i <= Places(b, i, j, before)[k].start < j
    decreases j - i
  {
    if i < j {
      PlacesStart(b, i + 1, j, b[i].depth);
      PlacesAtStart(b, i, before);
      hide PlacesAt;
    }
  }

  lemma {:induction false} PlacesAtStart(b: seq<TextInfo>, i: nat, level: nat)
    requires i < |b|
    ensures forall k :: 0 <= k < |PlacesAt(b, i, level)| ==> PlacesAt(b, i, level)[k].start == i
    decreases b[i].depth - level
  {
    hide HasOwnText;
    if b[i].depth > level { PlacesAtStart(b, i, level + 1); }
  }

  predicate NumberedAs(m: Mail, boxes: seq<Box>, places: seq<Place>, n: nat) {
    (forall k :: 0 <= k < |places| ==> InBody(m, places[k].start)) && boxes == BoxesAt(m, places, n)
  }

  lemma NumberedConcat(m: Mail, x: seq<Box>, a: seq<Place>, y: seq<Box>, c: seq<Place>, n: nat)
    requires NumberedAs(m, x, a, n) && NumberedAs(m, y, c, n + |a|)
    ensures NumberedAs(m, x + y, a + c, n) && |x| == |a|
  {
    hide InBody, BoxFor;
    assert forall k :: 0 <= k < |a| ==> (a + c)[k] == a[k];
    assert forall k :: 0 <= k < |c| ==> (a + c)[|a| + k] == c[k];
  }

  lemma NumberedOne(m: Mail, i: nat, level: nat, n: nat)
    requires InBody(m, i)
    ensures NumberedAs(m, [BoxFor(m, Place(i, level), n + 1)], [Place(i, level)], n) && NumberedAs(m, [], [], n)
  {
    hide InBody, BoxFor;
  }

  /** All blocks in front of `j` are in front of the signature. */
  predicate Before(m: Mail, j: nat) {
    j <= |m.blocks| && forall k :: 0 <= k < j ==> m.blocks[k].depth >= 0
  }

  /** The nested recursion numbers the controls in the order of their quotations. */
  ghost predicate BoxesMatch(m: Mail, i: nat, level: nat, n: nat)
    requires i <= |m.blocks| && Before(m, RunEnd(m.blocks, i, level))
  {
    NumberedAs(m, BoxesIn(m, i, level, n, |Visible(m, 0, i)|),
               Places(m.blocks, i, RunEnd(m.blocks, i, level), level), n)
  }

  lemma {:induction false} BoxesAre(m: Mail, i: nat, level: nat, n: nat)
    requires i <= |m.blocks| && Before(m, RunEnd(m.blocks, i, level))
    ensures BoxesMatch(m, i, level, n)
    decreases |m.blocks| - i, if i < |m.blocks| then m.blocks[i].depth - level else 0
  {
    hide *;
    var b := m.blocks;
    if i == |b| || b[i].depth < level {
      NoBoxes(m, i, level, n);
    } else if b[i].depth == level {
      EndSkips(b, i, level);
      BoxesAre(m, i + 1, level, n);
      BoxesBehindBlock(m, i, level, n);
    } else {
      var own := if HasOwnText(b, i, level + 1) then 1 else 0;
      var e := RunEnd(b, i, level + 1);
      EndIsBehind(b, i, level + 1);
      EndOfInner(m, i, level);
      BoxesAre(m, i, level + 1, n + own);
      BoxesAre(m, e, level, n + Used(b, i, level + 1));
      BoxesOfQuotation(m, i, level, n);
    }
  }

  lemma NoBoxes(m: Mail, i: nat, level: nat, n: nat)
    requires i <= |m.blocks| && Before(m, RunEnd(m.blocks, i, level))
    requires i == |m.blocks| || m.blocks[i].depth < level
    ensures BoxesMatch(m, i, level, n)
  {
  }

  lemma EndSkips(b: seq<TextInfo>, i: nat, level: nat)
    requires i < |b| && b[i].depth == level
    ensures RunEnd(b, i, level) == RunEnd(b, i + 1, level)
  {
  }

  lemma BoxesBehindBlock(m: Mail, i: nat, level: nat, n: nat)
    requires i < |m.blocks| && m.blocks[i].depth == level && Before(m, RunEnd(m.blocks, i, level))
    requires RunEnd(m.blocks, i, level) == RunEnd(m.blocks, i + 1, level)
    requires BoxesMatch(m, i + 1, level, n)
    ensures BoxesMatch(m, i, level, n)
  {
    hide *;
    var end, at := RunEnd(m.blocks, i, level), VisibleLength(m, i, level);
    BeforeIs(m, end);
    EndIsBehind(m.blocks, i, level);
    MatchIs(m, i, level, n);
    MatchIs(m, i + 1, level, n);
    BlockUnfolds(m, i, level, n, at);
    VisibleSplit(m, 0, i, i + 1);
    Lengths(m, i, level);
    Lengths(m, i + 1, level);
    OneVisible(m, i);
    NoPlacesAt(m.blocks, i, end, level);
  }

  lemma OneVisible(m: Mail, i: nat)
    requires i < |m.blocks| && m.blocks[i].depth >= 0
    ensures Visible(m, i, i + 1) == At(BlockText(m, i), m.blocks[i].depth)
  {
    hide At, BlockText;
    assert Visible(m, i + 1, i + 1) == [];
  }

  lemma NoPlacesAt(b: seq<TextInfo>, i: nat, end: nat, level: nat)
    requires i < end <= |b| && b[i].depth == level && forall k :: i <= k < end ==> b[k].depth >= 0
    ensures Places(b, i, end, level) == Places(b, i + 1, end, level)
  {
    assert PlacesAt(b, i, level) == [];
  }

  lemma EndOfInner(m: Mail, i: nat, level: nat)
    requires i < |m.blocks| && m.blocks[i].depth > level && Before(m, RunEnd(m.blocks, i, level))
    ensures
      var e, end := RunEnd(m.blocks, i, level + 1), RunEnd(m.blocks, i, level);
      && i < e <= end == RunEnd(m.blocks, e, level) && Before(m, e)
      && (forall k :: i <= k < e ==> m.blocks[k].depth > level)
      && (e < |m.blocks| ==> m.blocks[e].depth <= level)
  {
    EndIsBehind(m.blocks, i, level + 1);
    RunEndSkip(m.blocks, i, RunEnd(m.blocks, i, level + 1), level);
    hide RunEnd;
  }

  lemma BoxesOfQuotation(m: Mail, i: nat, level: nat, n: nat)
    requires i < |m.blocks| && m.blocks[i].depth > level && Before(m, RunEnd(m.blocks, i, level))
    requires Before(m, RunEnd(m.blocks, i, level + 1))
    requires RunEnd(m.blocks, i, level) == RunEnd(m.blocks, RunEnd(m.blocks, i, level + 1), level)
    requires BoxesMatch(m, i, level + 1, n + if HasOwnText(m.blocks, i, level + 1) then 1 else 0)
    requires BoxesMatch(m, RunEnd(m.blocks, i, level + 1), level, n + Used(m.blocks, i, level + 1))
    ensures BoxesMatch(m, i, level, n)
  {
    hide *;
    var b := m.blocks;
    var e, end, at := RunEnd(b, i, level + 1), RunEnd(b, i, level), VisibleLength(m, i, level);
    EndOfInner(m, i, level);
    BeforeIs(m, end);
    var own := if HasOwnText(b, i, level + 1) then 1 else 0;
    var ownPlace := if HasOwnText(b, i, level + 1) then [Place(i, level + 1)] else [];
    var ownBox := if HasOwnText(b, i, level + 1) then [BoxFor(m, Place(i, level + 1), n + 1)] else [];
    NumberedOne(m, i, level + 1, n);
    MatchIs(m, i, level + 1, n + own);
    MatchIs(m, e, level, n + Used(b, i, level + 1));
    MatchIs(m, i, level, n);
    var inner := BoxesIn(m, i, level + 1, n + own, at);
    var innerPlaces := Places(b, i, e, level + 1);
    BoxesParts(m, i, level, n);
    NumberedConcat(m, ownBox, ownPlace, inner, innerPlaces, n);
    QuotationNumbered(m, i, level + 1, n, at);
    NumberedLength(m, ownBox + inner, ownPlace + innerPlaces, n);
    NumberedConcat(m, ownBox + inner, ownPlace + innerPlaces,
                   BoxesIn(m, e, level, n + Used(b, i, level + 1), VisibleLength(m, e, level)),
                   Places(b, e, end, level), n);
    PlacesUnfold(b, i, e, end, level);
  }

  /** The characters on view in front of a block. */
  function VisibleLength(m: Mail, i: nat, level: nat): nat
    requires i <= |m.blocks| && Before(m, RunEnd(m.blocks, i, level))
  {
    |Visible(m, 0, i)|
  }

  lemma BeforeIs(m: Mail, j: nat)
    requires Before(m, j)
    ensures j <= |m.blocks| && forall k :: 0 <= k < j ==> m.blocks[k].depth >= 0 && InBody(m, k)
  {
  }

  lemma NumberedLength(m: Mail, boxes: seq<Box>, places: seq<Place>, n: nat)
    requires NumberedAs(m, boxes, places, n)
    ensures |boxes| == |places|
  {
  }

  lemma MatchIs(m: Mail, i: nat, level: nat, n: nat)
    requires i <= |m.blocks| && Before(m, RunEnd(m.blocks, i, level))
    ensures i <= RunEnd(m.blocks, i, level) <= |m.blocks|
    ensures forall k :: 0 <= k < RunEnd(m.blocks, i, level) ==> m.blocks[k].depth >= 0
    ensures
      BoxesMatch(m, i, level, n)
      <==> NumberedAs(m, BoxesIn(m, i, level, n, VisibleLength(m, i, level)),
                      Places(m.blocks, i, RunEnd(m.blocks, i, level), level), n)
  {
    hide NumberedAs, BoxesIn, Places, RunEnd, Visible;
  }

  lemma BoxesParts(m: Mail, i: nat, level: nat, n: nat)
    requires i < |m.blocks| && m.blocks[i].depth > level && Before(m, RunEnd(m.blocks, i, level))
    requires Before(m, RunEnd(m.blocks, i, level + 1)) && InBody(m, i)
    requires RunEnd(m.blocks, i, level) == RunEnd(m.blocks, RunEnd(m.blocks, i, level + 1), level)
    ensures
      var b := m.blocks;
      var e, used, at := RunEnd(b, i, level + 1), Used(b, i, level + 1), VisibleLength(m, i, level);
      var own := if HasOwnText(b, i, level + 1) then [BoxFor(m, Place(i, level + 1), n + 1)] else [];
      && VisibleLength(m, i, level + 1) == at
      && BoxesOf(m, i, level + 1, n, at) == own + BoxesIn(m, i, level + 1, n + |own|, at)
      && BoxesIn(m, i, level, n, at)
         == own + BoxesIn(m, i, level + 1, n + |own|, at) + BoxesIn(m, e, level, n + used, VisibleLength(m, e, level))
  {
    hide *;
    var e, at := RunEnd(m.blocks, i, level + 1), VisibleLength(m, i, level);
    EndOfInner(m, i, level);
    BeforeIs(m, e);
    BoxesUnfold(m, i, level, n, at);
    QuotationUnfolds(m, i, level + 1, n, at);
    OwnBox(m, i, level, n);
    VisibleSplit(m, 0, i, e);
    Lengths(m, i, level);
    Lengths(m, e, level);
    Lengths(m, i, level + 1);
  }

  lemma Lengths(m: Mail, i: nat, level: nat)
    requires i <= |m.blocks| && Before(m, RunEnd(m.blocks, i, level))
    ensures forall k :: 0 <= k < i ==> m.blocks[k].depth >= 0
    ensures VisibleLength(m, i, level) == |Visible(m, 0, i)|
  {
    hide Visible, RunEnd;
  }

  lemma OwnBox(m: Mail, i: nat, level: nat, n: nat)
    requires i < |m.blocks| && Before(m, RunEnd(m.blocks, i, level)) && InBody(m, i)
    ensures BoxFor(m, Place(i, level + 1), n + 1)
         == Box(n + 1, PresetOf(m.blocks, i, level + 1), level + 1, VisibleLength(m, i, level))
  {
    hide Visible, PresetOf, RunEnd;
  }

  // ----- which quotations have a control -----

  lemma OwnTextIs(b: seq<TextInfo>, i: nat, level: nat)
    requires i < |b| && level <= b[i].depth
    ensures HasOwnText(b, i, level) <==> SpeaksItself(b, i, level)
  {
    var first := FirstAt(b, i, level);
    if HasOwnText(b, i, level) {
      assert b[first].depth == level && forall k :: i <= k <= first ==> b[k].depth >= level;
    }
    if j :| i <= j < |b| && b[j].depth == level && forall k :: i <= k <= j ==> b[k].depth >= level {
      assert first <= j;
    }
  }

  lemma {:induction false} PlacesAtHold(b: seq<TextInfo>, i: nat, level: nat, p: Place)
    requires i < |b|
    ensures p in PlacesAt(b, i, level) <==> p.start == i && level < p.level <= b[i].depth && SpeaksItself(b, i, p.level)
    decreases b[i].depth - level
  {
    hide HasOwnText, SpeaksItself;
    if b[i].depth > level {
      PlacesAtHold(b, i, level + 1, p);
      OwnTextIs(b, i, level + 1);
    }
  }

  /** Which quotations are listed: those that begin there and have text of their own. */
  lemma {:induction false} PlacesHold(b: seq<TextInfo>, i: nat, j: nat, before: nat, p: Place)
    requires i <= j <= |b| && forall k :: i <= k < j ==> b[k].depth >= 0
    ensures p in Places(b, i, j, before)
       <==> && i <= p.start < j && p.level <= b[p.start].depth && SpeaksItself(b, p.start, p.level)
            && p.level > if p.start == i then before else b[p.start - 1].depth
    decreases j - i
  {
    hide PlacesAt, SpeaksItself;
    if i < j {
      PlacesAtHold(b, i, before, p);
      PlacesHold(b, i + 1, j, b[i].depth, p);
    }
  }

  /** In the order of their blocks, an outer quotation in front of the inner ones. */
  predicate InOrder(places: seq<Place>) {
    forall k, l :: 0 <= k < l < |places| ==>
      places[k].start < places[l].start || (places[k].start == places[l].start && places[k].level < places[l].level)
  }

  lemma {:induction false} PlacesAtOrdered(b: seq<TextInfo>, i: nat, level: nat)
    requires i < |b|
    ensures InOrder(PlacesAt(b, i, level))
    ensures forall k :: 0 <= k < |PlacesAt(b, i, level)| ==> PlacesAt(b, i, level)[k].level > level
    decreases b[i].depth - level
  {
    hide HasOwnText;
    if b[i].depth > level {
      PlacesAtOrdered(b, i, level + 1);
      PlacesAtStart(b, i, level + 1);
    }
  }

  lemma {:induction false} PlacesOrdered(b: seq<TextInfo>, i: nat, j: nat, before: nat)
    requires i <= j <= |b| && forall k :: i <= k < j ==> b[k].depth >= 0
    ensures InOrder(Places(b, i, j, before))
    decreases j - i
  {
    if i < j {
      PlacesAtOrdered(b, i, before);
      PlacesAtStart(b, i, before);
      PlacesOrdered(b, i + 1, j, b[i].depth);
      PlacesStart(b, i + 1, j, b[i].depth);
      hide PlacesAt, Places;
    }
  }

  // ----- the controls of the written page -----

  /** The quotations of a mail that have text of their own. */
  function Quotations(m: Mail): seq<Place>
    requires Quotable(m.blocks)
  {
    Places(m.blocks, 0, BodyLength(m.blocks), 0)
  }

  /** Exactly the quotations with text of their own are listed, each once and in order. */
  lemma QuotationsAre(m: Mail)
    requires Quotable(m.blocks)
    ensures InOrder(Quotations(m))
    ensures
      forall i: nat, level: nat ::
        Place(i, level) in Quotations(m)
        <==> i < BodyLength(m.blocks) && Begins(m.blocks, i, level) && SpeaksItself(m.blocks, i, level)
  {
    hide Places, SpeaksItself, InOrder, BodyLength;
    var b := m.blocks;
    PlacesOrdered(b, 0, BodyLength(b), 0);
    forall i: nat, level: nat
      ensures Place(i, level) in Quotations(m)
         <==> i < BodyLength(b) && Begins(b, i, level) && SpeaksItself(b, i, level)
    {
      PlacesHold(b, 0, BodyLength(b), 0, Place(i, level));
    }
  }

  /** A reader of the written page finds one control for each of these quotations, in this order and numbered from one,
      as deep as its quotation, at the place where the text of the quotation begins, and checked as its size, its depth
      and the text behind it ask for. */
  lemma ControlsAre(m: Mail)
    requires Quotable(m.blocks)
    ensures
      var html, places := ReadHtml(Render(Document(m))), Quotations(m);
      && html.Some?
      && var page := Feed(html.value, BLANK);
      && page.Page? && page.shown == VisibleMail(m) && page.signatures == SignatureEnds(m)
      && |page.boxes| == |places|
      && forall k :: 0 <= k < |places| ==> ControlFits(m, places[k], page.boxes[k], k + 1)
  {
    hide *;
    DocumentIsRead(m, BLANK);
    DocumentReads(m);
    BoxesOfMail(m);
    var boxes := BoxesIn(m, 0, 0, 0, 0);
    NumberedLength(m, boxes, Quotations(m), 0);
    forall k | 0 <= k < |Quotations(m)| ensures ControlFits(m, Quotations(m)[k], boxes[k], k + 1) {
      BoxFits(m, boxes, k);
    }
  }

  lemma DocumentIsRead(m: Mail, p: Page)
    ensures
      var html := ReadHtml(Render(Document(m)));
      html.Some? && Feed(html.value, p) == Feed(Document(m), p)
  {
    hide *;
    DocumentIsContained(m);
    RenderReads(Document(m));
    FeedOneByOne(Document(m), p);
  }

  lemma BoxesOfMail(m: Mail)
    requires Quotable(m.blocks)
    ensures NumberedAs(m, BoxesIn(m, 0, 0, 0, 0), Quotations(m), 0)
  {
    hide *;
    BodyIsBefore(m);
    BoxesAre(m, 0, 0, 0);
    MatchIs(m, 0, 0, 0);
  }

  lemma BodyIsBefore(m: Mail)
    requires Quotable(m.blocks)
    ensures RunEnd(m.blocks, 0, 0) == BodyLength(m.blocks) && Before(m, BodyLength(m.blocks))
    ensures forall k :: 0 <= k < BodyLength(m.blocks) ==> m.blocks[k].depth >= 0
    ensures Quotations(m) == Places(m.blocks, 0, BodyLength(m.blocks), 0) && VisibleLength(m, 0, 0) == 0
  {
    hide Places, BodyLength, RunEnd;
    BodyIsOneRun(m.blocks);
    assert Visible(m, 0, 0) == [];
  }

  lemma BoxFits(m: Mail, boxes: seq<Box>, k: nat)
    requires Quotable(m.blocks) && NumberedAs(m, boxes, Quotations(m), 0) && k < |boxes| == |Quotations(m)|
    ensures ControlFits(m, Quotations(m)[k], boxes[k], k + 1)
  {
    hide Quotations, Visible, StartsAs, PresetOf, Begins, SpeaksItself, InOrder;
    var place := Quotations(m)[k];
    QuotationsAre(m);
    assert Place(place.start, place.level) in Quotations(m);
    BeginsIs(m.blocks, place.start, place.level);
    forall j | RunOf(m.blocks, place.start, j, place.level)
      ensures StartsAs(m.blocks, place.start, j, place.level, boxes[k].preset)
    {
      PresetIs(m.blocks, place.start, j, place.level);
    }
  }

  lemma BeginsIs(b: seq<TextInfo>, i: nat, level: nat)
    requires Begins(b, i, level)
    ensures i < |b| && 0 < level <= b[i].depth
  {
  }

  /** What the control of a quotation is like. */
  ghost predicate ControlFits(m: Mail, place: Place, box: Box, id: nat) {
    && box.id == id && box.level == place.level && InBody(m, place.start)
    && box.at == |Visible(m, 0, place.start)|
    && forall j: nat :: RunOf(m.blocks, place.start, j, place.level) ==>
                          StartsAs(m.blocks, place.start, j, place.level, box.preset)
  }
}
