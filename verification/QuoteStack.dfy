/** The stack of open controls, and what a formatter that holds one still has to write. */
module QuoteStack {
  import opened Text
  import opened Markup
  import opened LineMarkup
  import opened QuoteLines
  import opened QuoteLinesFacts
  import opened QuoteTree
  import opened QuoteTreeFacts

  // ----- the stack of open controls -----

  datatype Control = Control(level: int, id: nat)

  /** Levels rise strictly from the bottom of the stack and lie between 1 and the quote level. */
  predicate Stacked(controls: seq<Control>, quoteLevel: int) {
    && (forall k :: 0 <= k < |controls| ==> 1 <= controls[k].level <= quoteLevel)
    && (forall j, k :: 0 <= j < k < |controls| ==> controls[j].level < controls[k].level)
  }

  predicate OnTop(controls: seq<Control>, quoteLevel: int) {
    controls != [] && controls[|controls| - 1].level == quoteLevel
  }

  function Pop(controls: seq<Control>, quoteLevel: int): seq<Control> {
    if OnTop(controls, quoteLevel) then controls[..|controls| - 1] else controls
  }

  function CloseOne(controls: seq<Control>, quoteLevel: int): seq<Token> {
    if OnTop(controls, quoteLevel) then Closing(controls[|controls| - 1].id) else [Close(Quote)]
  }

  function CloseAll(controls: seq<Control>, quoteLevel: nat, final: nat): seq<Token> {
    if quoteLevel <= final then []
    else CloseOne(controls, quoteLevel) + CloseAll(Pop(controls, quoteLevel), quoteLevel - 1, final)
  }

  function PopAll(controls: seq<Control>, quoteLevel: nat, final: nat): seq<Control> {
    if quoteLevel <= final then controls else PopAll(Pop(controls, quoteLevel), quoteLevel - 1, final)
  }

  lemma PopStacked(controls: seq<Control>, quoteLevel: int)
    requires Stacked(controls, quoteLevel)
    ensures Stacked(Pop(controls, quoteLevel), quoteLevel - 1)
  {
  }

  lemma PushStacked(controls: seq<Control>, quoteLevel: int, id: nat)
    requires Stacked(controls, quoteLevel) && quoteLevel >= 0
    ensures Stacked(controls + [Control(quoteLevel + 1, id)], quoteLevel + 1)
    ensures Stacked(controls, quoteLevel + 1) && !OnTop(controls, quoteLevel + 1)
  {
  }

  lemma {:induction false} PopAllStacked(controls: seq<Control>, quoteLevel: nat, final: nat)
    requires Stacked(controls, quoteLevel) && final <= quoteLevel
    ensures Stacked(PopAll(controls, quoteLevel, final), final)
  {
    if final < quoteLevel {
      PopStacked(controls, quoteLevel);
      PopAllStacked(Pop(controls, quoteLevel), quoteLevel - 1, final);
    }
  }

  method CloseQuotesUpTo(markup0: seq<string>, controlStack0: seq<Control>, quoteLevel0: nat, finalQuoteLevel: nat)
    returns (markup: seq<string>, controlStack: seq<Control>, quoteLevel: nat)
    requires quoteLevel0 >= finalQuoteLevel
    ensures Concat(markup) == Concat(markup0) + Render(CloseAll(controlStack0, quoteLevel0, finalQuoteLevel))
    ensures controlStack == PopAll(controlStack0, quoteLevel0, finalQuoteLevel)
    ensures quoteLevel == finalQuoteLevel
  {
    hide *;
    markup, controlStack, quoteLevel := markup0, controlStack0, quoteLevel0;
    while quoteLevel > finalQuoteLevel
      invariant quoteLevel >= finalQuoteLevel
      invariant Concat(markup) + Render(CloseAll(controlStack, quoteLevel, finalQuoteLevel))
             == Concat(markup0) + Render(CloseAll(controlStack0, quoteLevel0, finalQuoteLevel))
      invariant PopAll(controlStack, quoteLevel, finalQuoteLevel)
             == PopAll(controlStack0, quoteLevel0, finalQuoteLevel)
    {
      var controlBlock := controlStack != [] && quoteLevel == controlStack[|controlStack| - 1].level;
      ghost var rest := CloseAll(Pop(controlStack, quoteLevel), quoteLevel - 1, finalQuoteLevel);
      CloseUnfolds(controlStack, quoteLevel, finalQuoteLevel);
      CloseOneIs(controlStack, quoteLevel);
      if controlBlock {
        var id := controlStack[|controlStack| - 1].id;
        EmitClosing(markup, id, rest);
        markup := markup + [Render([OpenLabel(id), Close(Label)])];
        markup := markup + [Render([Close(Quote)])];
        markup := markup + [Render([Close(Span), Close(Span)])];
        controlStack := controlStack[..|controlStack| - 1];
      } else {
        Emit(markup, [Close(Quote)], rest);
        markup := markup + [Render([Close(Quote)])];
      }
      quoteLevel := quoteLevel - 1;
    }
    CloseUnfolds(controlStack, quoteLevel, finalQuoteLevel);
    NothingToRender();
  }

  lemma CloseOneIs(controls: seq<Control>, quoteLevel: nat)
    ensures
      if controls != [] && quoteLevel == controls[|controls| - 1].level
      then CloseOne(controls, quoteLevel) == Closing(controls[|controls| - 1].id)
        && Pop(controls, quoteLevel) == controls[..|controls| - 1]
      else CloseOne(controls, quoteLevel) == [Close(Quote)] && Pop(controls, quoteLevel) == controls
  {
    hide Closing;
  }

  lemma NothingToRender()
    ensures Render([]) == ""
  {
  }

  lemma EmitClosing(markup: seq<string>, id: nat, rest: seq<Token>)
    ensures Concat(markup + [Render([OpenLabel(id), Close(Label)])] + [Render([Close(Quote)])]
                   + [Render([Close(Span), Close(Span)])]) + Render(rest)
         == Concat(markup) + Render(Closing(id) + rest)
  {
    hide *;
    var first, second, third := [OpenLabel(id), Close(Label)], [Close(Quote)], [Close(Span), Close(Span)];
    ClosingParts(id, rest);
    Emit(markup, first, second + (third + rest));
    Emit(markup + [Render(first)], second, third + rest);
    Emit(markup + [Render(first)] + [Render(second)], third, rest);
  }

  /** Writing the next piece of what is still to come. */
  lemma Emit(markup: seq<string>, ts: seq<Token>, rest: seq<Token>)
    ensures Concat(markup + [Render(ts)]) + Render(rest) == Concat(markup) + Render(ts + rest)
  {
    ConcatAppend(markup, Render(ts));
    RenderConcat(ts, rest);
    hide Render, Concat;
    assert Concat(markup) + Render(ts) + Render(rest) == Concat(markup) + (Render(ts) + Render(rest));
  }

  lemma ClosingParts(id: nat, rest: seq<Token>)
    ensures Closing(id) + rest
         == [OpenLabel(id), Close(Label)] + ([Close(Quote)] + ([Close(Span), Close(Span)] + rest))
  {
  }

  // ----- what is still to be written -----

  /** The reference markup from block `i` on, when `quoteLevel` blockquotes are open: the rest of each
      open quotation and its end, the innermost first. */
  function Pending(m: Mail, i: nat, quoteLevel: nat, controls: seq<Control>, n: nat): seq<Token>
    requires i <= |m.blocks|
    decreases quoteLevel
  {
    if quoteLevel == 0 then Segment(m, i, 0, n)
    else
      Segment(m, i, quoteLevel, n) + CloseOne(controls, quoteLevel)
      + Pending(m, RunEnd(m.blocks, i, quoteLevel), quoteLevel - 1, Pop(controls, quoteLevel),
                n + QuoteTree.Controls(m.blocks, i, quoteLevel))
  }

  lemma PendingUnfold(m: Mail, i: nat, quoteLevel: nat, controls: seq<Control>, n: nat)
    requires i <= |m.blocks| && 0 < quoteLevel
    ensures Pending(m, i, quoteLevel, controls, n)
         == Segment(m, i, quoteLevel, n) + CloseOne(controls, quoteLevel)
            + Pending(m, RunEnd(m.blocks, i, quoteLevel), quoteLevel - 1, Pop(controls, quoteLevel),
                      n + QuoteTree.Controls(m.blocks, i, quoteLevel))
  {
    hide Segment, CloseOne, RunEnd, Pop, QuoteTree.Controls;
  }

  lemma Regroup(a: seq<Token>, b: seq<Token>, c: seq<Token>, d: seq<Token>, e: seq<Token>)
    ensures a + b + c == a + (b + c)
    ensures a + b + c + d == a + (b + c + d)
    ensures a + b + c + d + e == a + (b + (c + d + e))
  {
  }

  lemma {:induction false} PendingCloses(m: Mail, i: nat, quoteLevel: nat, final: nat, controls: seq<Control>, n: nat)
    requires i <= |m.blocks| && final <= quoteLevel && (i < |m.blocks| ==> m.blocks[i].depth <= final)
    ensures Pending(m, i, quoteLevel, controls, n)
         == CloseAll(controls, quoteLevel, final) + Pending(m, i, final, PopAll(controls, quoteLevel, final), n)
    decreases quoteLevel
  {
    hide *;
    CloseUnfolds(controls, quoteLevel, final);
    if final < quoteLevel {
      var popped := Pop(controls, quoteLevel);
      NothingPending(m, i, quoteLevel, controls, n);
      PendingCloses(m, i, quoteLevel - 1, final, popped, n);
      Regroup(CloseOne(controls, quoteLevel), CloseAll(popped, quoteLevel - 1, final),
              Pending(m, i, final, PopAll(popped, quoteLevel - 1, final), n), [], []);
    } else {
      assert [] + Pending(m, i, final, controls, n) == Pending(m, i, final, controls, n);
    }
  }

  lemma CloseUnfolds(controls: seq<Control>, quoteLevel: nat, final: nat)
    ensures
      var popped := Pop(controls, quoteLevel);
      if quoteLevel <= final
      then CloseAll(controls, quoteLevel, final) == [] && PopAll(controls, quoteLevel, final) == controls
      else
        && CloseAll(controls, quoteLevel, final)
           == CloseOne(controls, quoteLevel) + CloseAll(popped, quoteLevel - 1, final)
        && PopAll(controls, quoteLevel, final) == PopAll(popped, quoteLevel - 1, final)
  {
    hide Pop, CloseOne;
  }

  /** In front of a shallower block the innermost quotation ends. */
  lemma NothingDeeper(m: Mail, i: nat, level: nat, n: nat)
    requires i <= |m.blocks| && (i < |m.blocks| ==> m.blocks[i].depth < level)
    ensures Segment(m, i, level, n) == [] && QuoteTree.Controls(m.blocks, i, level) == 0
    ensures RunEnd(m.blocks, i, level) == i
  {
  }

  lemma NothingPending(m: Mail, i: nat, quoteLevel: nat, controls: seq<Control>, n: nat)
    requires i <= |m.blocks| && 0 < quoteLevel && (i < |m.blocks| ==> m.blocks[i].depth < quoteLevel)
    ensures Pending(m, i, quoteLevel, controls, n)
         == CloseOne(controls, quoteLevel) + Pending(m, i, quoteLevel - 1, Pop(controls, quoteLevel), n)
  {
    hide *;
    PendingUnfold(m, i, quoteLevel, controls, n);
    NothingDeeper(m, i, quoteLevel, n);
    assert [] + CloseOne(controls, quoteLevel) == CloseOne(controls, quoteLevel);
  }

  lemma PendingBlock(m: Mail, i: nat, controls: seq<Control>, n: nat)
    requires i < |m.blocks| && m.blocks[i].depth >= 0
    ensures
      var level := m.blocks[i].depth;
      Pending(m, i, level, controls, n)
        == Quoted(m.f, m.blocks[i].text, level) + (Break(m.blocks, i) + Pending(m, i + 1, level, controls, n))
  {
    hide *;
    var level := m.blocks[i].depth;
    SegmentStep(m, i, level, n);
    var block, newline := Quoted(m.f, m.blocks[i].text, level), Break(m.blocks, i);
    if level == 0 {
      PendingAtZero(m, i, controls, n);
      PendingAtZero(m, i + 1, controls, n);
      Regroup(block, newline, Segment(m, i + 1, 0, n), [], []);
    } else {
      PendingUnfold(m, i, level, controls, n);
      PendingUnfold(m, i + 1, level, controls, n);
      Regroup(block, newline, Segment(m, i + 1, level, n), CloseOne(controls, level),
              Pending(m, RunEnd(m.blocks, i + 1, level), level - 1, Pop(controls, level),
                      n + QuoteTree.Controls(m.blocks, i + 1, level)));
    }
  }

  lemma PendingAtZero(m: Mail, i: nat, controls: seq<Control>, n: nat)
    requires i <= |m.blocks|
    ensures Pending(m, i, 0, controls, n) == Segment(m, i, 0, n)
  {
  }

  /** In front of a deeper block the next thing to come is the quotation it starts. */
  lemma PendingQuotation(m: Mail, i: nat, quoteLevel: nat, controls: seq<Control>, n: nat)
    requires i < |m.blocks| && quoteLevel < m.blocks[i].depth
    ensures
      var e, used := RunEnd(m.blocks, i, quoteLevel + 1), Used(m.blocks, i, quoteLevel + 1);
      Pending(m, i, quoteLevel, controls, n)
        == Quotation(m, i, quoteLevel + 1, n) + Pending(m, e, quoteLevel, controls, n + used)
  {
    hide *;
    var e, used := RunEnd(m.blocks, i, quoteLevel + 1), Used(m.blocks, i, quoteLevel + 1);
    SegmentStep(m, i, quoteLevel, n);
    if quoteLevel == 0 {
      PendingAtZero(m, i, controls, n);
      PendingAtZero(m, e, controls, n + used);
    } else {
      PendingUnfold(m, i, quoteLevel, controls, n);
      PendingUnfold(m, e, quoteLevel, controls, n + used);
      Regroup(Quotation(m, i, quoteLevel + 1, n), Segment(m, e, quoteLevel, n + used),
              CloseOne(controls, quoteLevel),
              Pending(m, RunEnd(m.blocks, e, quoteLevel), quoteLevel - 1, Pop(controls, quoteLevel),
                      n + used + QuoteTree.Controls(m.blocks, e, quoteLevel)), []);
    }
  }

  lemma QuotationUnfold(m: Mail, i: nat, level: nat, n: nat)
    requires i < |m.blocks| && 0 < level <= m.blocks[i].depth
    ensures
      var own := HasOwnText(m.blocks, i, level);
      && Quotation(m, i, level, n)
         == (if own then Opening(m, i, level, n + 1) + Segment(m, i, level, n + 1) + Closing(n + 1)
             else [OpenQuote] + Segment(m, i, level, n) + [Close(Quote)])
      && Used(m.blocks, i, level) == (if own then 1 else 0) + QuoteTree.Controls(m.blocks, i, level)
  {
    hide HasOwnText, Opening, Segment, Closing, QuoteTree.Controls;
  }

  lemma PushedControl(controls: seq<Control>, level: int, id: nat)
    requires Stacked(controls, level - 1) && level >= 1
    ensures CloseOne(controls + [Control(level, id)], level) == Closing(id)
    ensures Pop(controls + [Control(level, id)], level) == controls
    ensures CloseOne(controls, level) == [Close(Quote)] && Pop(controls, level) == controls
  {
    PushStacked(controls, level - 1, id);
    hide Closing;
    assert (controls + [Control(level, id)])[..|controls|] == controls;
  }

  lemma PendingOpens(m: Mail, i: nat, quoteLevel: nat, controls: seq<Control>, n: nat)
    requires i < |m.blocks| && quoteLevel < m.blocks[i].depth
    requires Stacked(controls, quoteLevel)
    ensures
      var level := quoteLevel + 1;
      Pending(m, i, quoteLevel, controls, n)
        == if HasOwnText(m.blocks, i, level)
           then Opening(m, i, level, n + 1) + Pending(m, i, level, controls + [Control(level, n + 1)], n + 1)
           else [OpenQuote] + Pending(m, i, level, controls, n)
  {
    hide *;
    var level := quoteLevel + 1;
    var e, used := RunEnd(m.blocks, i, level), Used(m.blocks, i, level);
    PendingQuotation(m, i, quoteLevel, controls, n);
    QuotationUnfold(m, i, level, n);
    PushedControl(controls, level, n + 1);
    var behind := Pending(m, e, quoteLevel, controls, n + used);
    if HasOwnText(m.blocks, i, level) {
      PendingUnfold(m, i, level, controls + [Control(level, n + 1)], n + 1);
      Regroup(Opening(m, i, level, n + 1), Segment(m, i, level, n + 1), Closing(n + 1), behind, []);
    } else {
      PendingUnfold(m, i, level, controls, n);
      Regroup([OpenQuote], Segment(m, i, level, n), [Close(Quote)], behind, []);
    }
  }
}
