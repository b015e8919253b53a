/** What both walks find, without their order of visits: the nearest unread message on the way round the tree. */
module NearestUnread {
  import opened Text
  import opened UnreadWalk

  /** How many places of the preorder lie between `from` and `x` on the way round. */
  function Turns(order: seq<Index>, from: int, forward: bool, x: Index): (n: nat)
    requires x in order
    ensures n < |order|
  {
    (if forward then Position(order, x) - from else from - Position(order, x)) % |order|
  }

  /** The places of a list are in the order in which they are reached. */
  ghost predicate GoesRound(order: seq<Index>, from: int, forward: bool, list: seq<Index>) {
    && |list| <= |order|
    && forall k :: 0 <= k < |list| ==> list[k] in order && Turns(order, from, forward, list[k]) == k
  }

  /** No index stands in the preorder twice. */
  predicate Distinct(order: seq<Index>) { forall j, k :: 0 <= j < k < |order| ==> order[j] != order[k] }

  lemma PositionIs(order: seq<Index>, k: nat)
    requires Distinct(order) && k < |order|
    ensures order[k] in order && Position(order, order[k]) == k
  {
  }

  lemma ForwardTurn(order: seq<Index>, from: nat, k: nat)
    requires Distinct(order) && from <= |order| && k < |order|
    ensures
      var at := if from + k < |order| then from + k else from + k - |order|;
      0 <= at < |order| && order[at] in order && Turns(order, from, true, order[at]) == k
  {
    var at := if from + k < |order| then from + k else from + k - |order|;
    PositionIs(order, at);
    Modulo(k, if from + k < |order| then 0 else -1, |order|);
  }

  lemma BackwardTurn(order: seq<Index>, start: nat, k: nat)
    requires Distinct(order) && start <= |order| && k < |order|
    ensures
      var at := if k < start then start - 1 - k else |order| + start - 1 - k;
      0 <= at < |order| && order[at] in order && Turns(order, start - 1, false, order[at]) == k
  {
    var at := if k < start then start - 1 - k else |order| + start - 1 - k;
    PositionIs(order, at);
    Modulo(k, if k < start then 0 else -1, |order|);
  }

  lemma Modulo(k: nat, q: int, n: nat)
    requires k < n && (q == 0 || q == -1)
    ensures (k + q * n) % n == k
  {
    if q == -1 { assert (k - n) / n == -1; }
  }

  lemma BehindGoesRound(order: seq<Index>, first: nat, last: nat)
    requires Distinct(order) && last <= first <= |order|
    ensures GoesRound(order, first, true, Behind(order, first, last))
  {
    hide Turns, Distinct;
    var list := Behind(order, first, last);
    forall k | 0 <= k < |list| ensures list[k] in order && Turns(order, first, true, list[k]) == k {
      ForwardTurn(order, first, k);
    }
  }

  lemma BeforeGoesRound(order: seq<Index>, first: nat, last: nat)
    requires Distinct(order) && first <= last <= |order|
    ensures GoesRound(order, first - 1, false, Before(order, first, last))
  {
    hide Turns, Distinct;
    var list := Before(order, first, last);
    forall k | 0 <= k < |list| ensures list[k] in order && Turns(order, first - 1, false, list[k]) == k {
      BackwardTurn(order, first, k);
    }
  }

  /** The first unread one of such a list is the unread one that is reached first. */
  lemma FirstIsNearest(tree: Forest, order: seq<Index>, from: int, forward: bool, list: seq<Index>)
    requires Indices(tree, list) && GoesRound(order, from, forward, list)
    ensures
      var found := FirstUnread(tree, list);
      && (found.Invalid? <==> forall x :: x in list ==> IsRead(tree, x))
      && (found.At? ==>
            && found in list && found in order && !IsRead(tree, found)
            && forall x :: x in list && !IsRead(tree, x) ==>
                 x in order && Turns(order, from, forward, found) <= Turns(order, from, forward, x))
  {
    hide Turns, IsRead, Has;
    FirstUnreadIsFirst(tree, list);
    var found := FirstUnread(tree, list);
    if found.At? {
      forall x | x in list && !IsRead(tree, x)
        ensures x in order && Turns(order, from, forward, found) <= Turns(order, from, forward, x)
      {
        var k :| 0 <= k < |list| && list[k] == x;
        assert Turns(order, from, forward, list[k]) == k;
        var j := Position(list, found);
        assert Turns(order, from, forward, list[j]) == j;
      }
    }
  }

  lemma AllAreDistinct(tree: Forest)
    ensures Distinct(All(tree)) && Ordered(tree, All(tree))
  {
    hide Ordered, All;
    AllOrdered(tree);
    var order := All(tree);
    forall j, k | 0 <= j < k < |order| ensures order[j] != order[k] { ListedOnce(tree, order, j, k); }
  }

  /** The messages that a walk may stop at: in column 0 all others, in another column the current one as well. */
  predicate MayStop(tree: Forest, i: Index, column: nat, x: Index) {
    Has(tree, x) && x.At? && (column == 0 ==> x != i)
  }

  lemma ListedIff(tree: Forest, x: Index)
    ensures x in All(tree) <==> Has(tree, x) && x.At?
  {
    hide Has, All, Ordered;
    if Has(tree, x) && x.At? { Listed(tree, x); }
    AllOrdered(tree);
    OrderLists(tree, All(tree));
  }

  lemma Stops(tree: Forest, i: Index, column: nat, x: Index, list: seq<Index>)
    requires Has(tree, i) && i.At? && (list == WalkNext(tree, i, column) || list == WalkPrevious(tree, i, column))
    ensures x in list <==> MayStop(tree, i, column, x)
  {
    hide *;
    WalkUnfolds(tree, i, column);
    var order := All(tree);
    var start := Position(order, i);
    var end := start + 1 + |Replies(tree, i)|;
    AllAreDistinct(tree);
    ListedIff(tree, x);
    StopsIs(tree, i, column, x);
    InParts(order, start, end, start + 1, x);
    InParts(order, start, end, start, x);
    if column == 0 {
      Others(order, start, x);
    }
  }

  lemma StopsIs(tree: Forest, i: Index, column: nat, x: Index)
    ensures MayStop(tree, i, column, x) <==> Has(tree, x) && x.At? && (column == 0 ==> x != i)
  {
  }

  lemma InParts(order: seq<Index>, start: nat, end: nat, last: nat, x: Index)
    requires start < end <= |order| && start <= last <= start + 1 && start < |order|
    ensures x in Behind(order, end, end) <==> x in order
    ensures x in Behind(order, last, start) <==> x in order[last..] || x in order[..start]
    ensures x in Before(order, start, last) <==> x in order[last..] || x in order[..start]
    ensures last == start ==> (x in order <==> x in order[last..] || x in order[..start])
  {
    assert order == order[..end] + order[end..];
    assert order == order[..start] + order[start..];
    ReversedHas(order[..start], x);
    ReversedHas(order[last..], x);
    hide Reversed;
  }

  lemma ReversedHas(s: seq<Index>, x: Index)
    ensures x in Reversed(s) <==> x in s
  {
    if x in s {
      var k :| 0 <= k < |s| && s[k] == x;
      assert Reversed(s)[|s| - 1 - k] == x;
    }
  }

  lemma Others(order: seq<Index>, start: nat, x: Index)
    requires Distinct(order) && start < |order|
    ensures x in order[start + 1..] || x in order[..start] <==> x in order && x != order[start]
  {
    if x in order {
      var k :| 0 <= k < |order| && order[k] == x;
      if k > start {
        assert x == order[start + 1..][k - start - 1];
      } else if k < start {
        assert x == order[..start][k];
      }
    }
  }

  /** Forwards, the walk finds the first unread message on the way from the current one on and round the tree; from
      another column than 0 the way starts behind the replies, and leads past the message and its replies at the end. It
      finds none only if all others are read, and from another column the message itself. */
  lemma NextIsNearest(tree: Forest, i: Index, column: nat)
    requires Has(tree, i) && i.At?
    ensures i in All(tree) && forall x :: MayStop(tree, i, column, x) ==> x in All(tree)
    ensures
      var found, order := FirstUnread(tree, WalkNext(tree, i, column)), All(tree);
      var from := Position(order, i) + 1 + if column == 0 then 0 else |Replies(tree, i)|;
      && (found.Invalid? <==> forall x :: MayStop(tree, i, column, x) ==> IsRead(tree, x))
      && (found.At? ==>
            && MayStop(tree, i, column, found) && !IsRead(tree, found)
            && forall x :: MayStop(tree, i, column, x) && !IsRead(tree, x) ==>
                 Turns(order, from, true, found) <= Turns(order, from, true, x))
  {
    hide *;
    var order, list := All(tree), WalkNext(tree, i, column);
    WalkUnfolds(tree, i, column);
    var start := Position(order, i);
    var first := start + 1 + if column == 0 then 0 else |Replies(tree, i)|;
    AllAreDistinct(tree);
    BehindGoesRound(order, first, if column == 0 then start else first);
    FirstIsNearest(tree, order, first, true, list);
    forall x ensures x in list <==> MayStop(tree, i, column, x) { Stops(tree, i, column, x, list); }
    forall x ensures MayStop(tree, i, column, x) ==> x in All(tree) && Has(tree, x) && x.At? {
      StopsIs(tree, i, column, x);
      ListedIff(tree, x);
    }
  }

  /** Backwards, the same on the way back from the current message. */
  lemma PreviousIsNearest(tree: Forest, i: Index, column: nat)
    requires Has(tree, i) && i.At?
    ensures i in All(tree) && forall x :: MayStop(tree, i, column, x) ==> x in All(tree)
    ensures
      var found, order := FirstUnread(tree, WalkPrevious(tree, i, column)), All(tree);
      var from := Position(order, i) - 1;
      && (found.Invalid? <==> forall x :: MayStop(tree, i, column, x) ==> IsRead(tree, x))
      && (found.At? ==>
            && MayStop(tree, i, column, found) && !IsRead(tree, found)
            && forall x :: MayStop(tree, i, column, x) && !IsRead(tree, x) ==>
                 Turns(order, from, false, found) <= Turns(order, from, false, x))
  {
    hide *;
    var order, list := All(tree), WalkPrevious(tree, i, column);
    WalkUnfolds(tree, i, column);
    var start: int := Position(order, i);
    AllAreDistinct(tree);
    BeforeGoesRound(order, start, if column == 0 then start + 1 else start);
    FirstIsNearest(tree, order, start - 1, false, list);
    forall x ensures x in list <==> MayStop(tree, i, column, x) { Stops(tree, i, column, x, list); }
    forall x ensures MayStop(tree, i, column, x) ==> x in All(tree) && Has(tree, x) && x.At? {
      StopsIs(tree, i, column, x);
      ListedIff(tree, x);
    }
  }
}
