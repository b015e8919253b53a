/** What a reader sees of a written page, whichever of its checkboxes are checked. */
module CollapsedQuotes {
  import opened Text
  import opened Markup
  import opened LineMarkup
  import opened QuoteLines
  import opened QuoteLinesFacts
  import opened QuoteTree
  import opened QuoteTreeFacts
  import opened QuoteControls
  import opened HtmlReader

  // ----- the nested recursion -----

  /** What is on view of a run of blocks, whose quotations are numbered on from `n`. */
  function Seen(m: Mail, i: nat, level: nat, n: nat, closed: set<nat>): seq<(char, nat)>
    requires i <= |m.blocks|
    decreases |m.blocks| - i, if i < |m.blocks| then m.blocks[i].depth - level else 0, 0
  {
    var b := m.blocks;
    if i == |b| || b[i].depth < level then []
    else if b[i].depth == level then At(BlockText(m, i), level) + Seen(m, i + 1, level, n, closed)
    else
      SeenOf(m, i, level + 1, n, closed)
      + Seen(m, RunEnd(b, i, level + 1), level, n + Used(b, i, level + 1), closed)
  }

  function SeenOf(m: Mail, i: nat, level: nat, n: nat, closed: set<nat>): seq<(char, nat)>
    requires i < |m.blocks| && 0 < level <= m.blocks[i].depth
    decreases |m.blocks| - i, m.blocks[i].depth - level, 1
  {
    if HasOwnText(m.blocks, i, level) then
      if !IsShort(m.blocks, i, level) && n + 1 in closed then ShortText(m, i, level)
      else Seen(m, i, level, n + 1, closed)
    else Seen(m, i, level, n, closed)
  }

  /** Behind the tokens the same elements are open, and `more` has been seen. */
  predicate Reads(ts: seq<Token>, p: Page, more: seq<(char, nat)>) {
    && p.Page? && Feed(ts, p).Page? && Sees(p, more).Page?
    && Feed(ts, p) == Sees(p, more).(boxes := Feed(ts, p).boxes)
  }

  lemma ReadsThen(a: seq<Token>, c: seq<Token>, p: Page, x: seq<(char, nat)>, y: seq<(char, nat)>)
    requires Reads(a, p, x) && Reads(c, Feed(a, p), y)
    ensures Reads(a + c, p, x + y)
  {
    FeedConcat(a, c, p);
    SeesBoth(p, x, y);
    hide Hidden, Feed;
  }

  lemma ReadsPage(ts: seq<Token>, p: Page, more: seq<(char, nat)>)
    requires Reads(ts, p, more)
    ensures Feed(ts, p).Page? && Feed(ts, p).stack == p.stack && Feed(ts, p).closed == p.closed
  {
    hide Hidden, Feed;
  }

  lemma ReadsIs(ts: seq<Token>, p: Page, more: seq<(char, nat)>)
    requires p.Page? && Feed(ts, p) == Sees(p, more)
    ensures Reads(ts, p, more)
  {
    hide Hidden, Feed;
  }

  lemma {:induction false} SegmentSeen(m: Mail, i: nat, level: nat, n: nat, p: Page)
    requires i <= |m.blocks| && p.Page? && QuoteDepth(p.stack) == level
    ensures Reads(Segment(m, i, level, n), p, Seen(m, i, level, n, p.closed))
    decreases |m.blocks| - i, if i < |m.blocks| then m.blocks[i].depth - level else 0, 0
  {
    hide *;
    var b := m.blocks;
    if i == |b| || b[i].depth < level {
      NothingToSee(m, i, level, n, p);
    } else {
      SegmentStep(m, i, level, n);
      SeenUnfolds(m, i, level, n, p.closed);
      if b[i].depth == level {
        var block := Quoted(m.f, b[i].text, level) + Break(b, i);
        FeedBlock(m, i, level, p);
        ReadsIs(block, p, At(BlockText(m, i), level));
        ReadsPage(block, p, At(BlockText(m, i), level));
        SegmentSeen(m, i + 1, level, n, Feed(block, p));
        ReadsThen(block, Segment(m, i + 1, level, n), p,
                  At(BlockText(m, i), level), Seen(m, i + 1, level, n, p.closed));
      } else {
        var e, used := RunEnd(b, i, level + 1), Used(b, i, level + 1);
        EndIsBehind(b, i, level + 1);
        QuotationSeen(m, i, level + 1, n, p);
        var first := Quotation(m, i, level + 1, n);
        ReadsPage(first, p, SeenOf(m, i, level + 1, n, p.closed));
        SegmentSeen(m, e, level, n + used, Feed(first, p));
        ReadsThen(first, Segment(m, e, level, n + used), p,
                  SeenOf(m, i, level + 1, n, p.closed), Seen(m, e, level, n + used, p.closed));
      }
    }
  }

  lemma NothingToSee(m: Mail, i: nat, level: nat, n: nat, p: Page)
    requires i <= |m.blocks| && (i < |m.blocks| ==> m.blocks[i].depth < level) && p.Page?
    ensures Reads(Segment(m, i, level, n), p, Seen(m, i, level, n, p.closed))
  {
    SeesBoth(p, [], []);
  }

  lemma SeenUnfolds(m: Mail, i: nat, level: nat, n: nat, closed: set<nat>)
    requires i < |m.blocks| && m.blocks[i].depth >= level
    ensures
      Seen(m, i, level, n, closed)
      == if m.blocks[i].depth == level then At(BlockText(m, i), level) + Seen(m, i + 1, level, n, closed)
         else SeenOf(m, i, level + 1, n, closed)
              + Seen(m, RunEnd(m.blocks, i, level + 1), level, n + Used(m.blocks, i, level + 1), closed)
  {
    hide At, BlockText, Used, RunEnd, SeenOf;
  }

  lemma {:induction false} QuotationSeen(m: Mail, i: nat, level: nat, n: nat, p: Page)
    requires i < |m.blocks| && 0 < level <= m.blocks[i].depth && p.Page? && QuoteDepth(p.stack) == level - 1
    ensures Reads(Quotation(m, i, level, n), p, SeenOf(m, i, level, n, p.closed))
    decreases |m.blocks| - i, m.blocks[i].depth - level, 1
  {
    hide *;
    QuotationUnfolds(m, i, level, n, 0);
    SeenOfUnfolds(m, i, level, n, p.closed);
    if HasOwnText(m.blocks, i, level) {
      var opening, inside, cls := Opening(m, i, level, n + 1), Segment(m, i, level, n + 1), FormOf(m, i, level);
      var q := Feed(opening, p);
      FeedOpening(m, i, level, n + 1, p);
      OpenedPage(m, i, level, n + 1, p);
      FullIsNoLevel(m, i, level);
      InLevelFacts(p.stack, n + 1, cls, p.closed);
      SegmentSeen(m, i, level, n + 1, q);
      ReadsPage(inside, q, Seen(m, i, level, n + 1, p.closed));
      var r := Feed(inside, q);
      FeedClosing(n + 1, cls, p.stack, r);
      Then(opening, inside, p, q, r);
      Then(opening + inside, Closing(n + 1), p, r, r.(stack := p.stack));
      LevelReads(m, i, level, n, p, q, inside);
    } else {
      var q, inside := Push(p, Element(Quote)), Segment(m, i, level, n);
      InQuote(p);
      FeedOne(OpenQuote, p);
      SegmentSeen(m, i, level, n, q);
      ReadsPage(inside, q, Seen(m, i, level, n, p.closed));
      var r := Feed(inside, q);
      QuoteReads(inside, p, Seen(m, i, level, n, p.closed));
      FeedOne(Close(Quote), r);
      Then([OpenQuote], inside, p, q, r);
      Then([OpenQuote] + inside, [Close(Quote)], p, r, r.(stack := p.stack));
    }
    ReadsUnfolds(Quotation(m, i, level, n), p, SeenOf(m, i, level, n, p.closed));
  }

  lemma ReadsUnfolds(ts: seq<Token>, p: Page, more: seq<(char, nat)>)
    requires p.Page?
    ensures Sees(p, more).Page?
    ensures Reads(ts, p, more) <==> Feed(ts, p).Page? && Feed(ts, p) == Sees(p, more).(boxes := Feed(ts, p).boxes)
  {
    hide Hidden, Feed;
  }

  lemma SeenOfUnfolds(m: Mail, i: nat, level: nat, n: nat, closed: set<nat>)
    requires i < |m.blocks| && 0 < level <= m.blocks[i].depth
    ensures
      SeenOf(m, i, level, n, closed)
      == if HasOwnText(m.blocks, i, level) then
           if !IsShort(m.blocks, i, level) && n + 1 in closed then ShortText(m, i, level)
           else Seen(m, i, level, n + 1, closed)
         else Seen(m, i, level, n, closed)
  {
    hide HasOwnText, IsShort, ShortText, Seen;
  }

  lemma OpenedPage(m: Mail, i: nat, level: nat, id: nat, p: Page)
    requires i < |m.blocks| && HasOwnText(m.blocks, i, level) && p.Page?
    ensures Opened(m, i, level, id, p).Page? && Opened(m, i, level, id, p).closed == p.closed
  {
    hide ShortText, IsShort, Hidden, HasOwnText;
  }

  /** Inside of the full form nothing is seen if the checkbox is checked. */
  lemma LevelReads(m: Mail, i: nat, level: nat, n: nat, p: Page, q: Page, inside: seq<Token>)
    requires i < |m.blocks| && 0 < level <= m.blocks[i].depth && HasOwnText(m.blocks, i, level)
    requires p.Page? && q.Page? && Opened(m, i, level, n + 1, p).Page?
    requires
      q == Opened(m, i, level, n + 1, p).(stack := InLevel(p.stack, n + 1, FormOf(m, i, level)), boxes := q.boxes)
    requires Reads(inside, q, Seen(m, i, level, n + 1, p.closed))
    ensures Sees(p, SeenOf(m, i, level, n, p.closed)).Page?
    ensures
      var r := Feed(inside, q);
      r.Page? && r.(stack := p.stack) == Sees(p, SeenOf(m, i, level, n, p.closed)).(boxes := r.boxes)
  {
    SeenOfUnfolds(m, i, level, n, p.closed);
    InLevelFacts(p.stack, n + 1, FormOf(m, i, level), p.closed);
    hide Hidden, Feed, InLevel, ShortText, IsShort, HasOwnText, Seen, SeenOf;
  }

  lemma InQuote(p: Page)
    requires p.Page?
    ensures
      var q := Push(p, Element(Quote));
      && Step(OpenQuote, p) == q && q.Page? && q.closed == p.closed
      && QuoteDepth(q.stack) == 1 + QuoteDepth(p.stack)
      && Hidden(q.stack, q.closed) == Hidden(p.stack, p.closed)
      && forall r: Page :: r.Page? && r.stack == q.stack ==> Step(Close(Quote), r) == r.(stack := p.stack)
  {
  }

  lemma QuoteReads(inside: seq<Token>, p: Page, more: seq<(char, nat)>)
    requires p.Page? && Push(p, Element(Quote)).Page? && Reads(inside, Push(p, Element(Quote)), more)
    requires
      var q := Push(p, Element(Quote));
      q.closed == p.closed && Hidden(q.stack, q.closed) == Hidden(p.stack, p.closed)
    ensures Sees(p, more).Page?
    ensures
      var r := Feed(inside, Push(p, Element(Quote)));
      r.Page? && r.(stack := p.stack) == Sees(p, more).(boxes := r.boxes)
  {
    hide Hidden, Feed;
  }

  // ----- the blocks one by one -----

  /** A quotation of at most five lines and 800 characters that begins with text of its own is never collapsed. */
  ghost predicate Brief(b: seq<TextInfo>, i: nat, level: nat) {
    exists j :: RunOf(b, i, j, level) && FewLines(b, i, j, level)
  }

  ghost predicate FewLines(b: seq<TextInfo>, i: nat, j: nat, level: nat) {
    i < j <= |b| && b[i].depth == level && |Split(Join(Texts(b[i..j])))| <= 5
    && |Concat(Texts(b[i..j]))| <= 800
  }

  /** The checkbox of a quotation that begins at block `i` is checked, and the quotation is not too short for it. */
  ghost predicate Shut(m: Mail, closed: set<nat>, i: nat, level: nat)
    requires Quotable(m.blocks)
  {
    && !Brief(m.blocks, i, level)
    && exists k :: 0 <= k < |Quotations(m)| && Quotations(m)[k] == Place(i, level) && k + 1 in closed
  }

  /** The outermost quotation that begins at block `i`, is at least `level` deep and is shut. */
  ghost function FirstShut(m: Mail, closed: set<nat>, i: nat, level: nat): (r: Option<nat>)
    requires Quotable(m.blocks) && i < |m.blocks|
    ensures r.Some? ==> level <= r.value <= m.blocks[i].depth && Shut(m, closed, i, r.value)
    ensures forall l :: level <= l <= m.blocks[i].depth && (r.Some? ==> l < r.value) ==> !Shut(m, closed, i, l)
    decreases m.blocks[i].depth + 1 - level
  {
    if level > m.blocks[i].depth then None
    else if Shut(m, closed, i, level) then Some(level)
    else FirstShut(m, closed, i, level + 1)
  }

  /** The blocks from `i` to `j` one by one, but in the place of each quotation that is shut its short form. Of the
      quotations that begin at `i` itself, only those deeper than `level` are looked at. */
  ghost function View(m: Mail, closed: set<nat>, i: nat, j: nat, level: nat): seq<(char, nat)>
    requires Quotable(m.blocks) && i <= j <= BodyLength(m.blocks)
    decreases j - i
  {
    if i == j then [] else
    match FirstShut(m, closed, i, level + 1)
    case None => At(BlockText(m, i), BodyDepth(m, i)) + View(m, closed, i + 1, j, 0)
    case Some(l) =>
      var end := RunEnd(m.blocks, i, l);
      ShutSpeaks(m, closed, i, l);
      ShortText(m, i, l) + if end < j then View(m, closed, end, j, 0) else []
  }

  function BodyDepth(m: Mail, i: nat): nat
    requires Quotable(m.blocks) && i < BodyLength(m.blocks)
  {
    InFront(m.blocks, i);
    m.blocks[i].depth
  }

  lemma InFront(b: seq<TextInfo>, i: nat)
    requires Quotable(b) && i < BodyLength(b)
    ensures i < |b| && b[i].depth >= 0
  {
  }

  lemma ShutSpeaks(m: Mail, closed: set<nat>, i: nat, level: nat)
    requires Quotable(m.blocks) && Shut(m, closed, i, level)
    ensures i < BodyLength(m.blocks) && Begins(m.blocks, i, level) && 0 < level <= m.blocks[i].depth
    ensures HasOwnText(m.blocks, i, level) && i < RunEnd(m.blocks, i, level)
  {
    hide Brief, Quotations, SpeaksItself, BodyLength, HasOwnText, RunEnd;
    QuotationsAre(m);
    assert Place(i, level) in Quotations(m);
    OwnTextIs(m.blocks, i, level);
    EndIsBehind(m.blocks, i, level);
  }

  lemma FirstShutIs(m: Mail, closed: set<nat>, i: nat, level: nat, more: nat)
    requires Quotable(m.blocks) && i < |m.blocks| && level <= more
    requires forall l :: level <= l < more ==> !Shut(m, closed, i, l)
    ensures FirstShut(m, closed, i, level) == FirstShut(m, closed, i, more)
  {
    hide Shut;
  }

  lemma ViewUnfolds(m: Mail, closed: set<nat>, i: nat, j: nat, level: nat)
    requires Quotable(m.blocks) && i < j <= BodyLength(m.blocks)
    ensures
      var l := FirstShut(m, closed, i, level + 1);
      if l.None? then
        View(m, closed, i, j, level) == At(BlockText(m, i), BodyDepth(m, i)) + View(m, closed, i + 1, j, 0)
      else
        && 0 < l.value <= m.blocks[i].depth && Begins(m.blocks, i, l.value) && HasOwnText(m.blocks, i, l.value)
        && var end := RunEnd(m.blocks, i, l.value);
        && i < end
        && View(m, closed, i, j, level)
           == ShortText(m, i, l.value) + if end < j then View(m, closed, end, j, 0) else []
  {
    hide At, BlockText, BodyDepth, ShortText, Shut, BodyLength, HasOwnText, RunEnd, Begins, FirstShut;
    var l := FirstShut(m, closed, i, level + 1);
    if l.Some? { ShutSpeaks(m, closed, i, l.value); }
  }

  /** A block that is no deeper than that begins no quotation. */
  lemma ViewBlock(m: Mail, closed: set<nat>, i: nat, j: nat, level: nat)
    requires Quotable(m.blocks) && i < j <= BodyLength(m.blocks) && m.blocks[i].depth == level
    ensures View(m, closed, i, j, level) == At(BlockText(m, i), level) + View(m, closed, i + 1, j, 0)
  {
    hide *;
    ViewUnfolds(m, closed, i, j, level);
    DepthIs(m, i);
  }

  lemma DepthIs(m: Mail, i: nat)
    requires Quotable(m.blocks) && i < BodyLength(m.blocks)
    ensures BodyDepth(m, i) == m.blocks[i].depth
  {
  }

  /** No quotation begins at or above the depth of the block in front. */
  lemma ViewBehind(m: Mail, closed: set<nat>, i: nat, j: nat, level: nat)
    requires Quotable(m.blocks) && i <= j <= BodyLength(m.blocks)
    requires i < j ==> i > 0 && m.blocks[i - 1].depth >= level
    ensures View(m, closed, i, j, 0) == View(m, closed, i, j, level)
  {
    hide *;
    if i < j {
      ViewUnfolds(m, closed, i, j, 0);
      ViewUnfolds(m, closed, i, j, level);
      forall l: nat | 1 <= l < level + 1 ensures !Shut(m, closed, i, l) {
        if Shut(m, closed, i, l) {
          ShutSpeaks(m, closed, i, l);
          BehindNotBegins(m.blocks, i, l);
        }
      }
      FirstShutIs(m, closed, i, 1, level + 1);
    } else {
      NoView(m, closed, i, 0);
      NoView(m, closed, i, level);
    }
  }

  lemma BehindNotBegins(b: seq<TextInfo>, i: nat, level: nat)
    requires Begins(b, i, level) && i > 0
    ensures b[i - 1].depth < level
  {
  }

  lemma NoView(m: Mail, closed: set<nat>, i: nat, level: nat)
    requires Quotable(m.blocks) && i <= BodyLength(m.blocks)
    ensures View(m, closed, i, i, level) == []
  {
  }

  /** The view falls into parts where a quotation ends, since those that begin inside end inside. */
  lemma {:induction false} ViewSplit(m: Mail, closed: set<nat>, i: nat, e: nat, j: nat, level: nat, run: nat)
    requires Quotable(m.blocks) && i <= e <= j <= BodyLength(m.blocks)
    requires (forall k :: i <= k < e ==> m.blocks[k].depth >= run) && (e < j ==> m.blocks[e].depth < run)
    requires if i < e then level >= run || (i > 0 && m.blocks[i - 1].depth >= run) else level == 0
    ensures View(m, closed, i, j, level) == View(m, closed, i, e, level) + View(m, closed, e, j, 0)
    decreases e - i
  {
    hide *;
    NoView(m, closed, e, 0);
    NoView(m, closed, e, level);
    if i < e < j {
      ViewUnfolds(m, closed, i, j, level);
      ViewUnfolds(m, closed, i, e, level);
      var l := FirstShut(m, closed, i, level + 1);
      if l.None? {
        ViewSplit(m, closed, i + 1, e, j, 0, run);
      } else {
        if i > 0 { BehindNotBegins(m.blocks, i, l.value); }
        var end := RunEnd(m.blocks, i, l.value);
        RunStops(m.blocks, i, l.value, e);
        if end < e { ViewSplit(m, closed, end, e, j, 0, run); }
      }
    }
  }

  lemma RunStops(b: seq<TextInfo>, i: nat, level: nat, e: nat)
    requires i < e < |b| && b[i].depth >= level && b[e].depth < level
    ensures i < RunEnd(b, i, level) <= e && b[RunEnd(b, i, level) - 1].depth >= level
  {
    EndIsBehind(b, i, level);
    hide RunEnd;
  }

  // ----- the two are the same -----

  lemma BriefIs(b: seq<TextInfo>, i: nat, level: nat)
    requires i < BodyLength(b) && 0 < level <= b[i].depth
    ensures Brief(b, i, level) <==> IsShort(b, i, level)
  {
    hide *;
    var end := RunEnd(b, i, level);
    EndIsBehind(b, i, level);
    RunOfEnd(b, i, level);
    PresetIs(b, i, end, level);
    StartsShort(b, i, end, level);
    BriefUnfolds(b, i, level);
    if Brief(b, i, level) {
      var j :| RunOf(b, i, j, level) && FewLines(b, i, j, level);
      RunIs(b, i, j, level);
    }
  }

  lemma RunOfEnd(b: seq<TextInfo>, i: nat, level: nat)
    requires i < |b| && b[i].depth >= level
    ensures RunOf(b, i, RunEnd(b, i, level), level)
  {
    EndIsBehind(b, i, level);
    hide RunEnd;
  }

  lemma StartsShort(b: seq<TextInfo>, i: nat, j: nat, level: nat)
    requires i < j <= |b| && StartsAs(b, i, j, level, PresetOf(b, i, level))
    ensures FewLines(b, i, j, level) <==> IsShort(b, i, level)
  {
    hide Split, Join, Concat, Texts, AnsweredBehind, IsShort, IsCollapsed;
  }

  lemma BriefUnfolds(b: seq<TextInfo>, i: nat, level: nat)
    ensures Brief(b, i, level) <==> exists j :: RunOf(b, i, j, level) && FewLines(b, i, j, level)
  {
    hide FewLines, RunOf;
  }

  /** The quotations from number `n` on. */
  ghost predicate Listed(m: Mail, n: nat, places: seq<Place>)
    requires Quotable(m.blocks)
  {
    n + |places| <= |Quotations(m)| && forall k :: 0 <= k < |places| ==> Quotations(m)[n + k] == places[k]
  }

  lemma ListedParts(m: Mail, n: nat, a: seq<Place>, c: seq<Place>)
    requires Quotable(m.blocks) && Listed(m, n, a + c)
    ensures Listed(m, n, a) && Listed(m, n + |a|, c)
  {
    hide Quotations;
    assert forall k :: 0 <= k < |a| ==> (a + c)[k] == a[k];
    assert forall k :: 0 <= k < |c| ==> (a + c)[|a| + k] == c[k];
  }

  lemma ShutIs(m: Mail, closed: set<nat>, i: nat, level: nat, n: nat)
    requires Quotable(m.blocks) && i < BodyLength(m.blocks) <= |m.blocks| && 0 < level <= m.blocks[i].depth
    requires HasOwnText(m.blocks, i, level) ==> Listed(m, n, [Place(i, level)])
    ensures Shut(m, closed, i, level)
       <==> HasOwnText(m.blocks, i, level) && !IsShort(m.blocks, i, level) && n + 1 in closed
  {
    hide Brief, HasOwnText, IsShort, Quotations, BodyLength;
    BriefIs(m.blocks, i, level);
    QuotationsAre(m);
    if Shut(m, closed, i, level) { ShutSpeaks(m, closed, i, level); }
    if HasOwnText(m.blocks, i, level) {
      assert Quotations(m)[n + 0] == [Place(i, level)][0];
    }
  }

  lemma PlacesCount(m: Mail, i: nat, level: nat)
    requires i <= |m.blocks| && Before(m, RunEnd(m.blocks, i, level))
    ensures i <= RunEnd(m.blocks, i, level) <= |m.blocks|
    ensures forall k :: 0 <= k < RunEnd(m.blocks, i, level) ==> m.blocks[k].depth >= 0
    ensures |Places(m.blocks, i, RunEnd(m.blocks, i, level), level)| == Controls(m.blocks, i, level)
  {
    hide *;
    BoxesAre(m, i, level, 0);
    MatchIs(m, i, level, 0);
    var at := VisibleLength(m, i, level);
    NumberedLength(m, BoxesIn(m, i, level, 0, at), Places(m.blocks, i, RunEnd(m.blocks, i, level), level), 0);
    BoxesNumbered(m, i, level, 0, at);
  }

  /** The run of blocks lies in front of the signature, and its quotations have the numbers behind `n`. */
  ghost predicate Placed(m: Mail, i: nat, level: nat, n: nat) {
    && Quotable(m.blocks) && i <= |m.blocks| && Before(m, RunEnd(m.blocks, i, level))
    && RunEnd(m.blocks, i, level) <= BodyLength(m.blocks)
    && Listed(m, n, Places(m.blocks, i, RunEnd(m.blocks, i, level), level))
  }

  lemma PlacedIs(m: Mail, i: nat, level: nat, n: nat)
    requires Placed(m, i, level, n)
    ensures
      var end := RunEnd(m.blocks, i, level);
      && Quotable(m.blocks) && i <= end <= BodyLength(m.blocks) <= |m.blocks| && Before(m, end)
      && (forall k :: 0 <= k < end ==> m.blocks[k].depth >= 0)
      && Listed(m, n, Places(m.blocks, i, end, level))
  {
    hide RunEnd, Places, Listed, BodyLength;
  }

  lemma PlacedBehindBlock(m: Mail, i: nat, level: nat, n: nat)
    requires Placed(m, i, level, n) && i < |m.blocks| && m.blocks[i].depth == level
    ensures Placed(m, i + 1, level, n) && RunEnd(m.blocks, i + 1, level) == RunEnd(m.blocks, i, level)
    ensures i < RunEnd(m.blocks, i, level)
  {
    PlacedIs(m, i, level, n);
    EndSkips(m.blocks, i, level);
    EndIsBehind(m.blocks, i, level);
    hide RunEnd, Places, Listed, BodyLength;
    NoPlacesAt(m.blocks, i, RunEnd(m.blocks, i, level), level);
  }

  lemma PlacedInQuotation(m: Mail, i: nat, level: nat, n: nat)
    requires Placed(m, i, level, n) && i < |m.blocks| && m.blocks[i].depth > level
    ensures
      var own := if HasOwnText(m.blocks, i, level + 1) then [Place(i, level + 1)] else [];
      && Listed(m, n, own) && Placed(m, i, level + 1, n + |own|)
      && Placed(m, RunEnd(m.blocks, i, level + 1), level, n + Used(m.blocks, i, level + 1))
  {
    hide *;
    var b := m.blocks;
    var e, end := RunEnd(b, i, level + 1), RunEnd(b, i, level);
    var own := if HasOwnText(b, i, level + 1) then [Place(i, level + 1)] else [];
    PlacedIs(m, i, level, n);
    EndOfInner(m, i, level);
    PlacesUnfold(b, i, e, end, level);
    ListedParts(m, n, own + Places(b, i, e, level + 1), Places(b, e, end, level));
    ListedParts(m, n, own, Places(b, i, e, level + 1));
    PlacesCount(m, i, level + 1);
    UsedIs(b, i, level + 1);
    PlacedHere(m, i, level + 1, n + |own|);
    PlacedHere(m, e, level, n + Used(b, i, level + 1));
  }

  lemma UsedIs(b: seq<TextInfo>, i: nat, level: nat)
    requires i <= |b|
    ensures Used(b, i, level) == (if HasOwnText(b, i, level) then 1 else 0) + Controls(b, i, level)
  {
    hide HasOwnText, Controls;
  }

  lemma PlacedHere(m: Mail, i: nat, level: nat, n: nat)
    requires Quotable(m.blocks) && i <= |m.blocks| && Before(m, RunEnd(m.blocks, i, level))
    requires RunEnd(m.blocks, i, level) <= BodyLength(m.blocks)
    requires forall k :: 0 <= k < RunEnd(m.blocks, i, level) ==> m.blocks[k].depth >= 0
    requires Listed(m, n, Places(m.blocks, i, RunEnd(m.blocks, i, level), level))
    ensures Placed(m, i, level, n)
  {
    hide RunEnd, Places, Listed, BodyLength;
  }

  lemma {:induction false} ViewIs(m: Mail, closed: set<nat>, i: nat, level: nat, n: nat)
    requires Placed(m, i, level, n)
    ensures Quotable(m.blocks) && i <= RunEnd(m.blocks, i, level) <= BodyLength(m.blocks) && i <= |m.blocks|
    ensures Seen(m, i, level, n, closed) == View(m, closed, i, RunEnd(m.blocks, i, level), level)
    decreases |m.blocks| - i, if i < |m.blocks| then m.blocks[i].depth - level else 0
  {
    hide *;
    var b := m.blocks;
    PlacedIs(m, i, level, n);
    if i == |b| || b[i].depth < level {
      NothingSeenThere(m, closed, i, level, n);
    } else {
      SeenUnfolds(m, i, level, n, closed);
      var end := RunEnd(b, i, level);
      if b[i].depth == level {
        PlacedBehindBlock(m, i, level, n);
        ViewIs(m, closed, i + 1, level, n);
        ViewBlock(m, closed, i, end, level);
        ViewBehind(m, closed, i + 1, end, level);
      } else {
        var e, used := RunEnd(b, i, level + 1), Used(b, i, level + 1);
        var own := if HasOwnText(b, i, level + 1) then [Place(i, level + 1)] else [];
        EndIsBehind(b, i, level + 1);
        PlacedInQuotation(m, i, level, n);
        EndOfInner(m, i, level);
        ViewIs(m, closed, i, level + 1, n + |own|);
        ViewIs(m, closed, e, level, n + used);
        ShutIs(m, closed, i, level + 1, n);
        SeenOfUnfolds(m, i, level + 1, n, closed);
        ViewBehind(m, closed, e, end, level);
        ViewQuotation(m, closed, i, e, end, level);
      }
    }
  }

  lemma NothingSeenThere(m: Mail, closed: set<nat>, i: nat, level: nat, n: nat)
    requires Placed(m, i, level, n) && (i < |m.blocks| ==> m.blocks[i].depth < level)
    ensures RunEnd(m.blocks, i, level) == i <= BodyLength(m.blocks) && Quotable(m.blocks)
    ensures Seen(m, i, level, n, closed) == View(m, closed, i, i, level) == []
  {
    NoView(m, closed, i, level);
    hide View, Listed, Places;
  }

  lemma ViewQuotation(m: Mail, closed: set<nat>, i: nat, e: nat, end: nat, level: nat)
    requires Quotable(m.blocks) && i < e <= end <= BodyLength(m.blocks) <= |m.blocks| && m.blocks[i].depth > level
    requires e == RunEnd(m.blocks, i, level + 1)
    requires (forall k :: i <= k < e ==> m.blocks[k].depth > level) && (e < |m.blocks| ==> m.blocks[e].depth <= level)
    ensures Shut(m, closed, i, level + 1) ==> HasOwnText(m.blocks, i, level + 1)
    ensures
      View(m, closed, i, end, level)
      == (if Shut(m, closed, i, level + 1) then ShortText(m, i, level + 1) else View(m, closed, i, e, level + 1))
         + View(m, closed, e, end, 0)
  {
    hide *;
    NoView(m, closed, e, 0);
    ViewUnfolds(m, closed, i, end, level);
    ViewUnfolds(m, closed, i, end, level + 1);
    if Shut(m, closed, i, level + 1) {
      ShutSpeaks(m, closed, i, level + 1);
      ShutFirst(m, closed, i, level + 1);
    } else {
      FirstShutIs(m, closed, i, level + 1, level + 2);
      ViewSplit(m, closed, i, e, end, level + 1, level + 1);
    }
  }

  lemma ShutFirst(m: Mail, closed: set<nat>, i: nat, level: nat)
    requires Quotable(m.blocks) && i < |m.blocks| && level <= m.blocks[i].depth && Shut(m, closed, i, level)
    ensures FirstShut(m, closed, i, level) == Some(level)
  {
    hide Shut;
  }

  // ----- the written page -----

  /** A reader of the written page sees, whichever checkboxes are checked, every block once and in order, each character
      inside as many blockquotes as its block is deep, but in the place of each outermost quotation whose checkbox is
      checked its short form; the signature is always on view. */
  lemma CollapsedReads(m: Mail, closed: set<nat>)
    requires Quotable(m.blocks)
    ensures
      var html, sig := ReadHtml(Render(Document(m))), BodyLength(m.blocks);
      html.Some?
      && var page := Feed(html.value, Blank(closed));
      && page.Page? && page.stack == Base
      && page.shown
         == View(m, closed, 0, sig, 0) + if sig < |m.blocks| then At(SignatureText(m, sig), 0) else []
  {
    hide *;
    DocumentIsRead(m, Blank(closed));
    DocumentIs(m);
    BodySeen(m, closed);
    var p := Feed(Segment(m, 0, 0, 0), Blank(closed));
    var sig := BodyLength(m.blocks);
    if sig < |m.blocks| {
      FeedSignature(m, sig, p);
      Then(Segment(m, 0, 0, 0), SignaturePart(m, sig), Blank(closed), p, Signed(p, SignatureText(m, sig)));
    }
  }

  lemma BodySeen(m: Mail, closed: set<nat>)
    requires Quotable(m.blocks)
    ensures BodyLength(m.blocks) <= |m.blocks|
    ensures
      var page := Feed(Segment(m, 0, 0, 0), Blank(closed));
      page.Page? && page.stack == Base && page.shown == View(m, closed, 0, BodyLength(m.blocks), 0)
  {
    hide *;
    BlankIs(closed);
    BodyIsBefore(m);
    AllListed(m);
    PlacedHere(m, 0, 0, 0);
    ViewIs(m, closed, 0, 0, 0);
    SegmentSeen(m, 0, 0, 0, Blank(closed));
    ReadsPage(Segment(m, 0, 0, 0), Blank(closed), Seen(m, 0, 0, 0, closed));
    ReadsUnfolds(Segment(m, 0, 0, 0), Blank(closed), Seen(m, 0, 0, 0, closed));
  }

  lemma BlankIs(closed: set<nat>)
    ensures
      var p := Blank(closed);
      && p.stack == Base && p.closed == closed && QuoteDepth(p.stack) == 0
      && forall more :: Sees(p, more).Page? && Sees(p, more).shown == more
  {
  }

  lemma AllListed(m: Mail)
    requires Quotable(m.blocks)
    ensures Listed(m, 0, Quotations(m))
  {
    hide Quotations;
  }
}
