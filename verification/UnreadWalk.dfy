/** The walks to the next and to the previous unread message in a tree of threads. */
module UnreadWalk {
  import opened Text

  datatype Node = Node(read: bool, children: seq<Node>)

  /** A model index. The invalid one stands for the root of the tree, as in Qt. */
  datatype Index = Invalid | At(parent: Index, row: nat)

  type Forest = seq<Node>

  /** The rows under an index, if the tree has it. */
  function Rows(tree: Forest, i: Index): Option<seq<Node>> {
    match i
    case Invalid => Some(tree)
    case At(parent, row) =>
      match Rows(tree, parent)
      case None => None
      case Some(rows) => if row < |rows| then Some(rows[row].children) else None
  }

  predicate Has(tree: Forest, i: Index) { Rows(tree, i).Some? }

  function RowCount(tree: Forest, i: Index): nat
    requires Has(tree, i)
  {
    |Rows(tree, i).value|
  }

  /** QAbstractItemModel::index: invalid unless the row exists. */
  function Child(tree: Forest, i: Index, row: int): (child: Index)
    requires Has(tree, i)
    ensures Has(tree, child)
  {
    if 0 <= row < RowCount(tree, i) then At(i, row) else Invalid
  }

  function Sibling(tree: Forest, i: Index, row: int): (sibling: Index)
    requires Has(tree, i)
    ensures Has(tree, sibling)
  {
    if i.Invalid? then Invalid else Child(tree, i.parent, row)
  }

  predicate IsRead(tree: Forest, i: Index)
    requires Has(tree, i) && i.At?
  {
    Rows(tree, i.parent).value[i.row].read
  }

  // ----- preorder -----

  /** All indices from row `row` under `i` on, each before the ones under it. */
  function Preorder(i: Index, rows: seq<Node>, row: nat): seq<Index>
    requires row <= |rows|
    decreases rows, |rows| - row
  {
    if row == |rows| then []
    else [At(i, row)] + Preorder(At(i, row), rows[row].children, 0) + Preorder(i, rows, row + 1)
  }

  function All(tree: Forest): seq<Index> { Preorder(Invalid, tree, 0) }

  /** Up to the first ancestor with a next sibling, and to that sibling. */
  function Climb(tree: Forest, i: Index): Index
    requires Has(tree, i)
  {
    if i.Invalid? then Invalid
    else if i.row + 1 < RowCount(tree, i.parent) then At(i.parent, i.row + 1)
    else Climb(tree, i.parent)
  }

  function Next(tree: Forest, i: Index): Index
    requires Has(tree, i)
  {
    if RowCount(tree, i) > 0 then At(i, 0) else Climb(tree, i)
  }

  /** The last index under `i`, however deep. */
  function Deepest(i: Index, rows: seq<Node>): Index
    decreases rows
  {
    if rows == [] then i else Deepest(At(i, |rows| - 1), rows[|rows| - 1].children)
  }

  function Previous(tree: Forest, i: Index): Index
    requires Has(tree, i) && i.At?
  {
    if i.row > 0 then Deepest(At(i.parent, i.row - 1), Rows(tree, i.parent).value[i.row - 1].children)
    else i.parent
  }

  predicate Indices(tree: Forest, list: seq<Index>) {
    forall k :: 0 <= k < |list| ==> Has(tree, list[k]) && list[k].At?
  }

  /** What the two steps make of a piece of the preorder. */
  predicate Linked(tree: Forest, order: seq<Index>) {
    && Indices(tree, order)
    && (forall k :: 0 <= k < |order| - 1 ==> Next(tree, order[k]) == order[k + 1])
    && (forall k :: 0 < k < |order| ==> Previous(tree, order[k]) == order[k - 1])
  }

  lemma LinkedConcat(tree: Forest, a: seq<Index>, b: seq<Index>)
    requires Linked(tree, a) && Linked(tree, b) && a != []
    requires b != [] ==> Next(tree, a[|a| - 1]) == b[0] && Previous(tree, b[0]) == a[|a| - 1]
    ensures Linked(tree, a + b)
  {
  }

  /** The steps at one index, towards its first child and its next sibling. */
  lemma StepsAround(tree: Forest, i: Index, rows: seq<Node>, row: nat)
    requires Rows(tree, i) == Some(rows) && row < |rows|
    ensures
      var here, under := At(i, row), rows[row].children;
      && Rows(tree, here) == Some(under) && Linked(tree, [here])
      && (if under == [] then Next(tree, here) == Climb(tree, here) && Deepest(here, under) == here
          else Next(tree, here) == At(here, 0) && Previous(tree, At(here, 0)) == here)
      && (if row + 1 < |rows|
          then Climb(tree, here) == At(i, row + 1) && Has(tree, At(i, row + 1))
            && Previous(tree, At(i, row + 1)) == Deepest(here, under)
          else Climb(tree, here) == Climb(tree, i) && Deepest(i, rows) == Deepest(here, under))
  {
  }

  lemma {:induction false} PreorderLinked(tree: Forest, i: Index, rows: seq<Node>, row: nat)
    requires Rows(tree, i) == Some(rows) && row < |rows|
    ensures
      var order := Preorder(i, rows, row);
      && order != [] && order[0] == At(i, row) && Linked(tree, order)
      && order[|order| - 1] == Deepest(i, rows)
      && Next(tree, order[|order| - 1]) == Climb(tree, i)
    decreases rows, |rows| - row
  {
    hide *;
    var here, under := At(i, row), rows[row].children;
    var first := [here] + Preorder(here, under, 0);
    StepsAround(tree, i, rows, row);
    PreorderUnfolds(i, rows, row);
    if under != [] {
      PreorderLinked(tree, here, under, 0);
      LinkedConcat(tree, [here], Preorder(here, under, 0));
    } else {
      assert first == [here];
    }
    var rest := Preorder(i, rows, row + 1);
    if row + 1 < |rows| {
      PreorderLinked(tree, i, rows, row + 1);
      LinkedConcat(tree, first, rest);
    } else {
      assert first + rest == first;
    }
  }

  lemma PreorderUnfolds(i: Index, rows: seq<Node>, row: nat)
    requires row < |rows|
    ensures
      var here, under := At(i, row), rows[row].children;
      && Preorder(i, rows, row) == ([here] + Preorder(here, under, 0)) + Preorder(i, rows, row + 1)
      && (under == [] ==> Preorder(here, under, 0) == [])
      && (row + 1 == |rows| ==> Preorder(i, rows, row + 1) == [])
  {
  }

  lemma {:induction false} ChildrenListed(i: Index, rows: seq<Node>, row: nat, tree: Forest, x: Index, childRow: nat)
    requires row <= |rows| && Rows(tree, i) == Some(rows)
    requires x in Preorder(i, rows, row) && Has(tree, x) && childRow < RowCount(tree, x)
    ensures At(x, childRow) in Preorder(i, rows, row)
    decreases rows, |rows| - row
  {
    var here, under := At(i, row), rows[row].children;
    if x == here {
      RowsListed(here, under, 0, childRow);
    } else if x in Preorder(here, under, 0) {
      ChildrenListed(here, under, 0, tree, x, childRow);
    } else {
      ChildrenListed(i, rows, row + 1, tree, x, childRow);
    }
  }

  lemma {:induction false} RowsListed(i: Index, rows: seq<Node>, row: nat, k: nat)
    requires row <= k < |rows|
    ensures At(i, k) in Preorder(i, rows, row)
    decreases |rows| - row
  {
    var inner := Preorder(At(i, row), rows[row].children, 0);
    if row < k {
      RowsListed(i, rows, row + 1, k);
      assert Preorder(i, rows, row) == [At(i, row)] + inner + Preorder(i, rows, row + 1);
      hide Preorder;
    }
  }

  /** The preorder lists every index of the tree. */
  lemma {:induction false} Listed(tree: Forest, i: Index)
    requires Has(tree, i) && i.At?
    ensures i in All(tree)
  {
    assert Has(tree, i.parent) && i.row < RowCount(tree, i.parent);
    if i.parent.Invalid? {
      RowsListed(Invalid, tree, 0, i.row);
    } else {
      Listed(tree, i.parent);
      ChildrenListed(Invalid, tree, 0, tree, i.parent, i.row);
    }
  }

  /** The whole preorder: linked, from the first row of the tree to its last leaf. */
  predicate Ordered(tree: Forest, order: seq<Index>) {
    && Linked(tree, order)
    && (order == [] <==> tree == [])
    && (order != [] ==>
          && order[0] == At(Invalid, 0) && Previous(tree, order[0]) == Invalid
          && order[|order| - 1] == Deepest(Invalid, tree) && Next(tree, order[|order| - 1]) == Invalid)
  }

  lemma AllOrdered(tree: Forest)
    ensures Ordered(tree, All(tree))
  {
    if tree != [] { PreorderLinked(tree, Invalid, tree, 0); }
  }

  /** It lists none twice: stepping back from both places would have to reach the front together. */
  lemma {:induction false} ListedOnce(tree: Forest, order: seq<Index>, j: nat, k: nat)
    requires Ordered(tree, order) && j < k < |order|
    ensures order[j] != order[k]
  {
    if j > 0 {
      ListedOnce(tree, order, j - 1, k - 1);
      assert Previous(tree, order[j]) == order[j - 1] && Previous(tree, order[k]) == order[k - 1];
    } else {
      assert Previous(tree, order[k]) == order[k - 1];
    }
  }

  function Position(order: seq<Index>, i: Index): (k: nat)
    requires i in order
    ensures k < |order| && order[k] == i
  {
    if order[0] == i then 0 else 1 + Position(order[1..], i)
  }

  /** One step forward and one step back undo each other, and every index but the last and the first
      has such a step. */
  lemma StepsUndo(tree: Forest, i: Index)
    requires Has(tree, i) && i.At?
    ensures var next := Next(tree, i); Has(tree, next) && (next.At? ==> Previous(tree, next) == i)
    ensures var previous := Previous(tree, i); Has(tree, previous) && (previous.At? ==> Next(tree, previous) == i)
    ensures All(tree) != []
    ensures Next(tree, i).Invalid? <==> i == All(tree)[|All(tree)| - 1]
    ensures Previous(tree, i).Invalid? <==> i == All(tree)[0]
  {
    Listed(tree, i);
    AllOrdered(tree);
    var order := All(tree);
    hide All, Next, Previous, Has, Deepest;
    var k := Position(order, i);
    if k > 0 { assert Previous(tree, order[k]) == order[k - 1]; }
    if k < |order| - 1 { assert Next(tree, order[k]) == order[k + 1]; }
  }

  // ----- the first unread message -----

  function FirstUnread(tree: Forest, order: seq<Index>): Index
    requires Indices(tree, order)
  {
    if order == [] then Invalid
    else if !IsRead(tree, order[0]) then order[0]
    else FirstUnread(tree, order[1..])
  }

  /** The first unread one has only read ones in front of it; there is none only if all are read. */
  lemma {:induction false} FirstUnreadIsFirst(tree: Forest, order: seq<Index>)
    requires Indices(tree, order)
    ensures
      var found := FirstUnread(tree, order);
      && (found.Invalid? ==> forall k :: 0 <= k < |order| ==> IsRead(tree, order[k]))
      && (found.At? ==>
            && found in order && !IsRead(tree, found)
            && forall k :: 0 <= k < Position(order, found) ==> IsRead(tree, order[k]))
  {
    if order != [] && IsRead(tree, order[0]) {
      FirstUnreadIsFirst(tree, order[1..]);
    }
  }

  /** Two parts of the preorder, first what comes from `first` on and then what comes in front of `last`. */
  function Behind(order: seq<Index>, first: nat, last: nat): seq<Index>
    requires last <= first <= |order|
  {
    order[first..] + order[..last]
  }

  /** Two parts of the reversed preorder, first what comes in front of `first` and then what comes from `last` on. */
  function Before(order: seq<Index>, first: nat, last: nat): seq<Index>
    requires first <= last <= |order|
  {
    Reversed(order[..first]) + Reversed(order[last..])
  }

  function Reversed(s: seq<Index>): seq<Index> { seq(|s|, k requires 0 <= k < |s| => s[|s| - 1 - k]) }

  /** The first unread one, when the first `n` are read. */
  lemma {:induction false} SkipRead(tree: Forest, order: seq<Index>, n: nat)
    requires n <= |order| && Indices(tree, order)
    requires forall k :: 0 <= k < n ==> IsRead(tree, order[k])
    ensures FirstUnread(tree, order) == FirstUnread(tree, order[n..])
  {
    if n > 0 {
      SkipRead(tree, order[1..], n - 1);
      assert order[1..][n - 1..] == order[n..];
    } else {
      assert order[0..] == order;
    }
  }

  // ----- threads -----

  /** The replies under a message, however deep. */
  function Replies(tree: Forest, i: Index): seq<Index>
    requires Has(tree, i)
  {
    Preorder(i, Rows(tree, i).value, 0)
  }

  /** A chain of steps that starts at a place of the preorder follows it. */
  lemma {:induction false} ChainFollows(tree: Forest, order: seq<Index>, start: nat, chain: seq<Index>)
    requires Ordered(tree, order) && start < |order| && Linked(tree, chain)
    requires chain != [] ==> Next(tree, order[start]) == chain[0]
    ensures start + |chain| < |order| && order[start + 1..start + 1 + |chain|] == chain
    decreases |chain|
  {
    hide Next, Previous, Deepest;
    if chain != [] {
      var rest := chain[1..];
      assert forall k :: 0 <= k < |rest| ==> rest[k] == chain[k + 1];
      assert start + 1 < |order| && order[start + 1] == chain[0];
      assert rest != [] ==> Next(tree, chain[0]) == rest[0];
      ChainFollows(tree, order, start + 1, rest);
      assert order[start + 1..start + 1 + |chain|] == [order[start + 1]] + order[start + 2..start + 2 + |rest|];
    }
  }

  /** The replies of a message stand together behind it, and climbing leads to what comes behind them. */
  lemma ThreadTogether(tree: Forest, i: Index)
    requires Has(tree, i) && i.At?
    ensures i in All(tree) && Ordered(tree, All(tree))
    ensures
      var order := All(tree);
      var start, replies := Position(order, i), Replies(tree, i);
      var end := start + 1 + |replies|;
      && end <= |order| && order[start + 1..end] == replies
      && Climb(tree, i) == (if end < |order| then order[end] else Invalid)
  {
    hide *;
    Listed(tree, i);
    AllOrdered(tree);
    RepliesLinked(tree, i);
    var order, replies := All(tree), Replies(tree, i);
    var start := Position(order, i);
    ChainFollows(tree, order, start, replies);
    assert replies != [] ==> order[start + |replies|] == order[start + 1..start + 1 + |replies|][|replies| - 1];
    StepsAt(tree, order, start + |replies|);
  }

  lemma RepliesLinked(tree: Forest, i: Index)
    requires Has(tree, i)
    ensures
      var replies := Replies(tree, i);
      && Linked(tree, replies)
      && (if replies == [] then Next(tree, i) == Climb(tree, i)
          else Next(tree, i) == replies[0] && Next(tree, replies[|replies| - 1]) == Climb(tree, i))
  {
    hide Linked, Climb, Preorder, Deepest;
    if Rows(tree, i).value != [] {
      PreorderLinked(tree, i, Rows(tree, i).value, 0);
    } else {
      NoReplies(tree, i);
    }
  }

  lemma NoReplies(tree: Forest, i: Index)
    ensures Preorder(i, [], 0) == [] && Linked(tree, [])
  {
  }

  /** The steps at a place of the preorder. */
  lemma StepsAt(tree: Forest, order: seq<Index>, k: nat)
    requires Ordered(tree, order) && k < |order|
    ensures Has(tree, order[k]) && order[k].At?
    ensures Next(tree, order[k]) == if k + 1 < |order| then order[k + 1] else Invalid
    ensures Previous(tree, order[k]) == if k > 0 then order[k - 1] else Invalid
  {
    hide Next, Previous, Deepest, Has;
  }

  // ----- the walks -----

  /** The messages to try, forwards. A current index outside column 0 has no children and is not equal to the one in
      column 0: its replies come last, behind the message itself. */
  function WalkNext(tree: Forest, i: Index, column: nat): (others: seq<Index>)
    requires Has(tree, i) && i.At?
    ensures Indices(tree, others)
  {
    Places(tree, i);
    var order := All(tree);
    var start := Position(order, i);
    var end := start + 1 + |Replies(tree, i)|;
    if column == 0 then Behind(order, start + 1, start) else Behind(order, end, end)
  }

  /** The messages to try, backwards. From another column the message itself comes last. */
  function WalkPrevious(tree: Forest, i: Index, column: nat): (others: seq<Index>)
    requires Has(tree, i) && i.At?
    ensures Indices(tree, others)
  {
    Places(tree, i);
    var order := All(tree);
    var start := Position(order, i);
    Before(order, start, if column == 0 then start + 1 else start)
  }

  lemma Places(tree: Forest, i: Index)
    requires Has(tree, i) && i.At?
    ensures i in All(tree)
    ensures
      var order := All(tree);
      var start := Position(order, i);
      var end := start + 1 + |Replies(tree, i)|;
      && end <= |order|
      && Indices(tree, Behind(order, start + 1, start)) && Indices(tree, Behind(order, end, end))
      && Indices(tree, Before(order, start, start + 1)) && Indices(tree, Before(order, start, start))
      && Indices(tree, Behind(order, end, start)) && Indices(tree, Replies(tree, i))
  {
    hide *;
    ThreadTogether(tree, i);
    var order := All(tree);
    var start := Position(order, i);
    var end := start + 1 + |Replies(tree, i)|;
    OrderLists(tree, order);
    Parts(tree, order, start + 1, start);
    Parts(tree, order, end, end);
    Parts(tree, order, start, start);
    Parts(tree, order, end, start);
    Slice(tree, order, start + 1, end);
  }

  lemma Slice(tree: Forest, order: seq<Index>, from: nat, to: nat)
    requires Indices(tree, order) && from <= to <= |order|
    ensures Indices(tree, order[from..to])
  {
    hide Has;
  }

  lemma OrderLists(tree: Forest, order: seq<Index>)
    requires Ordered(tree, order)
    ensures Indices(tree, order)
  {
    hide Has, Next, Previous, Deepest;
  }

  lemma Parts(tree: Forest, order: seq<Index>, high: nat, low: nat)
    requires Indices(tree, order) && low <= high <= |order|
    ensures Indices(tree, Behind(order, high, low)) && Indices(tree, Before(order, low, high))
  {
    hide Has;
  }

  /** How far the forward walk has come, at position `pos`: what comes from `last` on and in front of `first` is
      passed over. */
  ghost predicate WalkedOn(tree: Forest, order: seq<Index>, first: nat, last: nat, pos: nat, wrapped: bool) {
    && last <= first <= |order| && pos <= |order|
    && Indices(tree, order)
    && (!wrapped ==> last <= pos < |order| && forall k :: first <= k < pos ==> IsRead(tree, order[k]))
    && (wrapped ==>
          && (forall k :: first <= k < |order| ==> IsRead(tree, order[k]))
          && (forall k :: 0 <= k < pos && k < last ==> IsRead(tree, order[k])))
  }

  lemma FoundNext(tree: Forest, order: seq<Index>, first: nat, last: nat, pos: nat, wrapped: bool)
    requires WalkedOn(tree, order, first, last, pos, wrapped)
    requires pos < |order| && (pos < last || first <= pos) && !IsRead(tree, order[pos])
    ensures FirstUnread(tree, Behind(order, first, last)) == order[pos]
  {
    var others := Behind(order, first, last);
    var n := if first <= pos then pos - first else |order| - first + pos;
    assert others[n] == order[pos];
    SkipRead(tree, others, n);
    assert others[n..][0] == order[pos];
  }

  lemma OneOn(tree: Forest, order: seq<Index>, first: nat, last: nat, pos: nat, wrapped: bool)
    requires WalkedOn(tree, order, first, last, pos, wrapped) && pos < |order|
    requires last <= pos < first || IsRead(tree, order[pos])
    ensures
      if pos + 1 == |order| && !wrapped then WalkedOn(tree, order, first, last, 0, true)
      else WalkedOn(tree, order, first, last, pos + 1, wrapped)
  {
  }

  lemma NoneNext(tree: Forest, order: seq<Index>, first: nat, last: nat)
    requires WalkedOn(tree, order, first, last, |order|, true)
    ensures FirstUnread(tree, Behind(order, first, last)) == Invalid
  {
    var others := Behind(order, first, last);
    SkipRead(tree, others, |others|);
  }

  ghost predicate StandsOn(tree: Forest, order: seq<Index>, first: nat, last: nat, pos: nat, wrapped: bool, i: Index) {
    WalkedOn(tree, order, first, last, pos, wrapped) && i == if pos < |order| then order[pos] else Invalid
  }

  lemma StartOn(tree: Forest, order: seq<Index>, start: nat)
    requires Ordered(tree, order) && start < |order|
    ensures StandsOn(tree, order, start + 1, start, start, false, order[start])
  {
    hide Next, Previous, Deepest, Has;
  }

  lemma MoveOn(tree: Forest, order: seq<Index>, first: nat, last: nat, pos: nat, wrapped: bool, i: Index)
    requires Ordered(tree, order) && StandsOn(tree, order, first, last, pos, wrapped, i) && i.At? && Has(tree, i)
    requires last <= pos < first || IsRead(tree, i)
    ensures
      var next := Next(tree, i);
      && pos < |order|
      && if next.Invalid? && !wrapped then StandsOn(tree, order, first, last, 0, true, At(Invalid, 0))
         else StandsOn(tree, order, first, last, pos + 1, wrapped, next)
  {
    hide Next, Previous, Deepest, Has, Linked;
    StepsAt(tree, order, pos);
    OneOn(tree, order, first, last, pos, wrapped);
  }

  /** From another column the first move leads behind the thread. */
  lemma MoveOnAside(tree: Forest, order: seq<Index>, end: nat, next: Index)
    requires Ordered(tree, order) && order != [] && end <= |order|
    requires next == if end < |order| then order[end] else Invalid
    ensures
      if next.Invalid? then StandsOn(tree, order, end, end, 0, true, At(Invalid, 0))
      else StandsOn(tree, order, end, end, end, false, next)
  {
    hide Next, Previous, Deepest, Has;
  }

  lemma MoveEither(tree: Forest, order: seq<Index>, first: nat, last: nat, pos: nat, wrapped: bool, i: Index,
                   column: nat)
    returns (more: nat)
    requires Ordered(tree, order) && order != [] && last <= first <= |order| && i.At? && Has(tree, i)
    requires if column == 0
             then StandsOn(tree, order, first, last, pos, wrapped, i) && (last <= pos < first || IsRead(tree, i))
             else first == last && !wrapped && Climb(tree, i) == if first < |order| then order[first] else Invalid
    ensures column == 0 ==> pos < |order| && more == pos + 1
    ensures
      var next := if column == 0 then Next(tree, i) else Climb(tree, i);
      if next.Invalid? && !wrapped then StandsOn(tree, order, first, last, 0, true, At(Invalid, 0))
      else StandsOn(tree, order, first, last, more, wrapped, next)
  {
    hide *;
    if column == 0 {
      MoveOn(tree, order, first, last, pos, wrapped, i);
      more := pos + 1;
    } else {
      MoveOnAside(tree, order, first, Climb(tree, i));
      more := first;
    }
  }

  lemma FirstRow(tree: Forest)
    requires tree != []
    ensures Has(tree, Invalid) && Child(tree, Invalid, 0) == At(Invalid, 0)
  {
  }

  lemma NotEmpty(tree: Forest, order: seq<Index>)
    requires Ordered(tree, order) && order != []
    ensures tree != []
  {
  }

  lemma FoundOn(tree: Forest, order: seq<Index>, first: nat, last: nat, pos: nat, wrapped: bool, i: Index)
    requires StandsOn(tree, order, first, last, pos, wrapped, i) && i.At? && Has(tree, i)
    requires !(last <= pos < first) && !IsRead(tree, i)
    ensures last <= first <= |order| && Indices(tree, order)
    ensures FirstUnread(tree, Behind(order, first, last)) == i
  {
    hide Has, IsRead;
    FoundNext(tree, order, first, last, pos, wrapped);
  }

  lemma NoneOn(tree: Forest, order: seq<Index>, first: nat, last: nat, pos: nat, wrapped: bool)
    requires StandsOn(tree, order, first, last, pos, wrapped, Invalid)
    ensures last <= first <= |order| && Indices(tree, order)
    ensures FirstUnread(tree, Behind(order, first, last)) == Invalid
  {
    hide Has, IsRead;
    assert pos == |order| && wrapped;
    NoneNext(tree, order, first, last);
  }

  method SlotNextUnread(tree: Forest, currentIndex: Index, currentColumn: nat) returns (found: Index)
    requires Has(tree, currentIndex)
    ensures found
         == if currentIndex.At? then FirstUnread(tree, WalkNext(tree, currentIndex, currentColumn)) else Invalid
  {
    found := Invalid;
    var current, column := currentIndex, currentColumn;
    var wrapped := false;
    if current.Invalid? { return; }
    hide *;
    ghost var order, start, first, last := ForwardPlaces(tree, currentIndex, currentColumn);
    ghost var pos: nat := start;
    NotEmpty(tree, order);
    FirstRow(tree);
    if column == 0 { StartOn(tree, order, start); }
    while current.At?
      invariant Has(tree, current)
      invariant column != 0 ==> current == currentIndex && column == currentColumn && !wrapped
      invariant column == 0 ==> StandsOn(tree, order, first, last, pos, wrapped, current)
      decreases !wrapped, column, |order| - pos
    {
      if currentColumn == 0 { OtherPlace(tree, order, start, pos, wrapped, current); }
      if !IsRead(tree, current) && !(currentIndex == current && currentColumn == column) {
        FoundOn(tree, order, first, last, pos, wrapped, current);
        return current;
      }
      ghost var more := MoveEither(tree, order, first, last, pos, wrapped, current, column);
      current := StepOn(tree, current, column);
      pos := more;
      column := 0;
      if current.Invalid? && !wrapped {
        wrapped := true;
        current := Child(tree, Invalid, 0);
        pos := 0;
      }
    }
    NoneOn(tree, order, first, last, pos, wrapped);
  }

  lemma ForwardPlaces(tree: Forest, i: Index, column: nat)
    returns (order: seq<Index>, start: nat, first: nat, last: nat)
    requires Has(tree, i) && i.At?
    ensures Ordered(tree, order) && start < |order| && order[start] == i && last <= first <= |order|
    ensures WalkNext(tree, i, column) == Behind(order, first, last)
    ensures if column == 0 then first == start + 1 && last == start
            else first == last && Climb(tree, i) == if first < |order| then order[first] else Invalid
  {
    hide All, Position, Replies, Behind, Climb, Ordered, Indices;
    Places(tree, i);
    ThreadTogether(tree, i);
    order, start := All(tree), Position(All(tree), i);
    var end := start + 1 + |Replies(tree, i)|;
    first, last := if column == 0 then start + 1 else end, if column == 0 then start else end;
  }

  lemma OtherPlace(tree: Forest, order: seq<Index>, start: nat, pos: nat, wrapped: bool, i: Index)
    requires Ordered(tree, order) && start < |order| && i.At?
    requires StandsOn(tree, order, start + 1, start, pos, wrapped, i)
    ensures i == order[start] <==> start <= pos < start + 1
  {
    hide Linked, Ordered, Has;
    if pos < start { ListedOnce(tree, order, pos, start); }
    if start < pos { ListedOnce(tree, order, start, pos); }
  }

  /** One turn of the forward loop: to the first child, or to the next sibling of the message or of the
      nearest ancestor that has one. */
  method StepOn(tree: Forest, from: Index, column: nat) returns (current: Index)
    requires Has(tree, from) && from.At?
    ensures current == (if column == 0 then Next(tree, from) else Climb(tree, from)) && Has(tree, current)
  {
    current := from;
    var child := if column == 0 then Child(tree, current, 0) else Invalid;
    if child.At? {
      return child;
    }
    var sibling := Sibling(tree, current, current.row + 1);
    if sibling.At? {
      return sibling;
    }
    while current.At? && RowCount(tree, current.parent) - 1 == current.row
      invariant Has(tree, current) && Climb(tree, current) == Climb(tree, from)
      decreases current
    {
      current := current.parent;
    }
    current := if current.At? then Sibling(tree, current, current.row + 1) else Invalid;
  }

  /** How far the backward walk has come, at position `pos`; before the first position it is -1. */
  ghost predicate WalkedBack(tree: Forest, order: seq<Index>, first: nat, last: nat, pos: int, wrapped: bool) {
    && first <= last <= |order| && -1 <= pos < |order|
    && Indices(tree, order)
    && (!wrapped ==> 0 <= pos < last && forall k :: pos < k < first ==> IsRead(tree, order[k]))
    && (wrapped ==>
          && (forall k :: 0 <= k < first ==> IsRead(tree, order[k]))
          && (forall k :: pos < k < |order| && last <= k ==> IsRead(tree, order[k])))
  }

  lemma FoundPrevious(tree: Forest, order: seq<Index>, first: nat, last: nat, pos: nat, wrapped: bool)
    requires WalkedBack(tree, order, first, last, pos, wrapped)
    requires (pos < first || last <= pos) && !IsRead(tree, order[pos])
    ensures FirstUnread(tree, Before(order, first, last)) == order[pos]
  {
    var others := Before(order, first, last);
    var n := if pos < first then first - 1 - pos else first + |order| - 1 - pos;
    assert others[n] == order[pos];
    SkipRead(tree, others, n);
    assert others[n..][0] == order[pos];
  }

  lemma OneBack(tree: Forest, order: seq<Index>, first: nat, last: nat, pos: nat, wrapped: bool)
    requires WalkedBack(tree, order, first, last, pos, wrapped)
    requires first <= pos < last || IsRead(tree, order[pos])
    ensures
      if pos == 0 && !wrapped then WalkedBack(tree, order, first, last, |order| - 1, true)
      else WalkedBack(tree, order, first, last, pos - 1, wrapped)
  {
  }

  lemma NonePrevious(tree: Forest, order: seq<Index>, first: nat, last: nat)
    requires WalkedBack(tree, order, first, last, -1, true)
    ensures FirstUnread(tree, Before(order, first, last)) == Invalid
  {
    var others := Before(order, first, last);
    SkipRead(tree, others, |others|);
  }

  ghost predicate StandsBack(tree: Forest, order: seq<Index>, first: nat, last: nat, pos: int, wrapped: bool, i: Index)
  {
    WalkedBack(tree, order, first, last, pos, wrapped) && i == if pos >= 0 then order[pos] else Invalid
  }

  lemma StartBack(tree: Forest, order: seq<Index>, start: nat)
    requires Ordered(tree, order) && start < |order|
    ensures StandsBack(tree, order, start, start + 1, start, false, order[start])
  {
    hide Next, Previous, Deepest, Has;
  }

  lemma MoveBack(tree: Forest, order: seq<Index>, first: nat, last: nat, pos: int, wrapped: bool, i: Index)
    requires Ordered(tree, order) && StandsBack(tree, order, first, last, pos, wrapped, i) && i.At? && Has(tree, i)
    requires first <= pos < last || IsRead(tree, i)
    ensures
      var previous := Previous(tree, i);
      && pos >= 0
      && if previous.Invalid? && !wrapped
         then StandsBack(tree, order, first, last, |order| - 1, true, Deepest(Invalid, tree))
         else StandsBack(tree, order, first, last, pos - 1, wrapped, previous)
  {
    hide Next, Previous, Deepest, Has, Linked;
    StepsAt(tree, order, pos);
    OneBack(tree, order, first, last, pos, wrapped);
  }

  /** From another column the message itself is still to come. */
  lemma MoveBackAside(tree: Forest, order: seq<Index>, start: nat)
    requires Ordered(tree, order) && start < |order|
    ensures
      var previous := Previous(tree, order[start]);
      if previous.Invalid? then StandsBack(tree, order, start, start, |order| - 1, true, Deepest(Invalid, tree))
      else StandsBack(tree, order, start, start, start - 1, false, previous)
  {
    hide Next, Previous, Deepest, Has;
    StepsAt(tree, order, start);
  }

  lemma SamePlace(tree: Forest, order: seq<Index>, start: nat, pos: int, wrapped: bool, i: Index)
    requires Ordered(tree, order) && start < |order| && i.At?
    requires StandsBack(tree, order, start, start + 1, pos, wrapped, i)
    ensures i == order[start] <==> start <= pos < start + 1
  {
    hide Linked, Ordered, Has;
    if pos < start { ListedOnce(tree, order, pos, start); }
    if start < pos { ListedOnce(tree, order, start, pos); }
  }

  lemma FoundBack(tree: Forest, order: seq<Index>, first: nat, last: nat, pos: int, wrapped: bool, i: Index)
    requires StandsBack(tree, order, first, last, pos, wrapped, i) && i.At? && Has(tree, i)
    requires !(first <= pos < last) && !IsRead(tree, i)
    ensures first <= last <= |order| && Indices(tree, order)
    ensures FirstUnread(tree, Before(order, first, last)) == i
  {
    hide Has, IsRead;
    FoundPrevious(tree, order, first, last, pos, wrapped);
  }

  lemma NoneBack(tree: Forest, order: seq<Index>, first: nat, last: nat, pos: int, wrapped: bool)
    requires StandsBack(tree, order, first, last, pos, wrapped, Invalid)
    ensures first <= last <= |order| && Indices(tree, order)
    ensures FirstUnread(tree, Before(order, first, last)) == Invalid
  {
    hide Has, IsRead;
    assert pos == -1 && wrapped;
    NonePrevious(tree, order, first, last);
  }

  method SlotPreviousUnread(tree: Forest, currentIndex: Index, currentColumn: nat) returns (found: Index)
    requires Has(tree, currentIndex)
    ensures found
         == if currentIndex.At? then FirstUnread(tree, WalkPrevious(tree, currentIndex, currentColumn)) else Invalid
  {
    found := Invalid;
    var current, column := currentIndex, currentColumn;
    var wrapped := false;
    if current.Invalid? { return; }
    hide *;
    ghost var order, start, last := BackwardPlaces(tree, currentIndex, currentColumn);
    ghost var pos: int := start;
    NoRoot(tree);
    if column == 0 { StartBack(tree, order, start); }
    while current.At?
      invariant Has(tree, current)
      invariant column != 0 ==> current == currentIndex && column == currentColumn && !wrapped && pos == start
      invariant column == 0 ==> StandsBack(tree, order, start, last, pos, wrapped, current)
      decreases !wrapped, column, pos
    {
      if currentColumn == 0 { SamePlace(tree, order, start, pos, wrapped, current); }
      if !IsRead(tree, current) && !(currentIndex == current && currentColumn == column) {
        FoundBack(tree, order, start, last, pos, wrapped, current);
        return current;
      }
      if column == 0 {
        MoveBack(tree, order, start, last, pos, wrapped, current);
      } else {
        MoveBackAside(tree, order, start);
      }
      current := StepBack(tree, current);
      column := 0;
      pos := pos - 1;
      if current.Invalid? && !wrapped {
        wrapped := true;
        current := LastLeaf(tree, current);
        pos := |order| - 1;
      }
    }
    NoneBack(tree, order, start, last, pos, wrapped);
  }

  lemma BackwardPlaces(tree: Forest, i: Index, column: nat) returns (order: seq<Index>, start: nat, last: nat)
    requires Has(tree, i) && i.At?
    ensures Ordered(tree, order) && start < |order| && order[start] == i
    ensures last == if column == 0 then start + 1 else start
    ensures WalkPrevious(tree, i, column) == Before(order, start, last)
  {
    hide All, Position, Before, Climb, Ordered, Indices;
    Places(tree, i);
    AllOrdered(tree);
    order, start := All(tree), Position(All(tree), i);
    last := if column == 0 then start + 1 else start;
  }

  lemma NoRoot(tree: Forest)
    ensures Rows(tree, Invalid) == Some(tree)
  {
  }

  /** One turn of the backward loop: to the last leaf under the previous sibling, or to the parent. */
  method StepBack(tree: Forest, current: Index) returns (previous: Index)
    requires Has(tree, current) && current.At?
    ensures previous == Previous(tree, current) && Has(tree, previous)
  {
    var candidate := Sibling(tree, current, current.row - 1);
    if candidate.At? {
      candidate := LastLeaf(tree, candidate);
      previous := candidate;
    } else {
      previous := current.parent;
    }
  }

  /** Down to the last leaf under an index. */
  method LastLeaf(tree: Forest, from: Index) returns (leaf: Index)
    requires Has(tree, from)
    ensures Has(tree, leaf) && leaf == Deepest(from, Rows(tree, from).value)
  {
    leaf := from;
    while RowCount(tree, leaf) > 0
      invariant Has(tree, leaf)
      invariant Deepest(leaf, Rows(tree, leaf).value) == Deepest(from, Rows(tree, from).value)
      decreases Rows(tree, leaf).value
    {
      leaf := Child(tree, leaf, RowCount(tree, leaf) - 1);
    }
  }

  // ----- what the column changes -----

  lemma {:induction false} FirstUnreadConcat(tree: Forest, a: seq<Index>, b: seq<Index>)
    requires Indices(tree, a) && Indices(tree, b)
    ensures Indices(tree, a + b)
    ensures
      FirstUnread(tree, a + b) == if FirstUnread(tree, a).At? then FirstUnread(tree, a) else FirstUnread(tree, b)
  {
    if a == [] {
      assert a + b == b;
    } else {
      assert (a + b)[1..] == a[1..] + b;
      FirstUnreadConcat(tree, a[1..], b);
    }
  }

  /** The messages that do not belong to the thread of `i`, from behind it on. */
  function Elsewhere(tree: Forest, i: Index): (others: seq<Index>)
    requires Has(tree, i) && i.At?
    ensures Indices(tree, others)
  {
    Places(tree, i);
    var start := Position(All(tree), i);
    Behind(All(tree), start + 1 + |Replies(tree, i)|, start)
  }

  /** In column 0 the replies come first, in another column they come last. */
  lemma WalkOrder(tree: Forest, i: Index, column: nat)
    requires Has(tree, i) && i.At?
    ensures
      WalkNext(tree, i, column)
      == if column == 0 then Replies(tree, i) + Elsewhere(tree, i) else Elsewhere(tree, i) + [i] + Replies(tree, i)
  {
    hide *;
    ThreadTogether(tree, i);
    var order, replies := All(tree), Replies(tree, i);
    var start := Position(order, i);
    var end := start + 1 + |replies|;
    WalkUnfolds(tree, i, column);
    OrderInParts(order, start, end);
  }

  lemma WalkUnfolds(tree: Forest, i: Index, column: nat)
    requires Has(tree, i) && i.At?
    ensures
      var order := All(tree);
      && i in order
      && var start := Position(order, i);
      var end := start + 1 + |Replies(tree, i)|;
      && end <= |order|
      && WalkNext(tree, i, column) == (if column == 0 then Behind(order, start + 1, start) else Behind(order, end, end))
      && WalkPrevious(tree, i, column) == Before(order, start, if column == 0 then start + 1 else start)
      && Elsewhere(tree, i) == Behind(order, end, start)
  {
    hide Indices, All, Position, Replies, Behind, Before;
    Places(tree, i);
  }

  /** What comes behind a place and what comes in front of it. */
  lemma OrderInParts(order: seq<Index>, start: nat, end: nat)
    requires start < end <= |order|
    ensures Behind(order, start + 1, start) == order[start + 1..end] + Behind(order, end, start)
    ensures Behind(order, end, end) == Behind(order, end, start) + [order[start]] + order[start + 1..end]
  {
    assert order[start + 1..] == order[start + 1..end] + order[end..];
    assert order[..end] == order[..start] + [order[start]] + order[start + 1..end];
  }

  /** Backwards another column only adds the message itself, at the end. */
  lemma WalkBackOrder(tree: Forest, i: Index, column: nat)
    requires Has(tree, i) && i.At? && column > 0
    ensures WalkPrevious(tree, i, column) == WalkPrevious(tree, i, 0) + [i]
  {
    hide *;
    WalkUnfolds(tree, i, column);
    WalkUnfolds(tree, i, 0);
    ReversedParts(All(tree), Position(All(tree), i));
  }

  lemma ReversedParts(order: seq<Index>, start: nat)
    requires start < |order|
    ensures Before(order, start, start) == Before(order, start, start + 1) + [order[start]]
  {
    assert Reversed(order[start..]) == Reversed(order[start + 1..]) + [order[start]];
  }

  lemma Apart(tree: Forest, i: Index)
    requires Has(tree, i) && i.At?
    ensures i !in Elsewhere(tree, i) && i !in Replies(tree, i)
    ensures forall x :: x in Replies(tree, i) ==> x !in Elsewhere(tree, i)
  {
    hide Indices, Climb, Ordered, All, Preorder, Position, Replies;
    ThreadTogether(tree, i);
    var order, replies := All(tree), Replies(tree, i);
    var start := Position(order, i);
    var end := start + 1 + |replies|;
    forall j, k | 0 <= j < k < |order| ensures order[j] != order[k] {
      ListedOnce(tree, order, j, k);
    }
    assert forall k :: 0 <= k < |replies| ==> replies[k] == order[start + 1 + k];
  }

  /** The column makes no difference exactly if unread replies are all there is to find, or, where there are none, if
      something outside the thread is unread or the message itself is read. */
  lemma ColumnMatters(tree: Forest, i: Index, column: nat)
    requires Has(tree, i) && i.At? && column > 0
    ensures Indices(tree, Replies(tree, i))
    ensures
      FirstUnread(tree, WalkNext(tree, i, column)) == FirstUnread(tree, WalkNext(tree, i, 0))
      <==> if FirstUnread(tree, Replies(tree, i)).At?
           then FirstUnread(tree, Elsewhere(tree, i)).Invalid? && IsRead(tree, i)
           else FirstUnread(tree, Elsewhere(tree, i)).At? || IsRead(tree, i)
  {
    hide *;
    Places(tree, i);
    var others, replies := Elsewhere(tree, i), Replies(tree, i);
    WalkOrder(tree, i, 0);
    WalkOrder(tree, i, column);
    Apart(tree, i);
    JustOne(tree, i);
    FirstUnreadConcat(tree, replies, others);
    FirstUnreadConcat(tree, others, [i]);
    FirstUnreadConcat(tree, others + [i], replies);
    FirstUnreadIsFirst(tree, replies);
    FirstUnreadIsFirst(tree, others);
  }

  /** Backwards the column makes no difference exactly if another message is unread or the message itself is read. */
  lemma ColumnMattersBack(tree: Forest, i: Index, column: nat)
    requires Has(tree, i) && i.At? && column > 0
    ensures
      FirstUnread(tree, WalkPrevious(tree, i, column)) == FirstUnread(tree, WalkPrevious(tree, i, 0))
      <==> FirstUnread(tree, WalkPrevious(tree, i, 0)).At? || IsRead(tree, i)
  {
    hide *;
    WalkBackOrder(tree, i, column);
    JustOne(tree, i);
    FirstUnreadConcat(tree, WalkPrevious(tree, i, 0), [i]);
  }

  lemma JustOne(tree: Forest, i: Index)
    requires Has(tree, i) && i.At?
    ensures Indices(tree, [i]) && FirstUnread(tree, [i]) == if IsRead(tree, i) then Invalid else i
  {
  }

  /** An unread message with an unread reply: from column 1 the walk ends where it started. */
  lemma ReplyPassedOver()
    ensures
      var tree := [Node(false, [Node(false, [])])];
      var message := At(Invalid, 0);
      && FirstUnread(tree, WalkNext(tree, message, 0)) == At(message, 0)
      && FirstUnread(tree, WalkNext(tree, message, 1)) == message
  {
    hide WalkNext, Replies, Elsewhere;
    var tree := [Node(false, [Node(false, [])])];
    var message := At(Invalid, 0);
    OneThread(tree);
    WalkOrder(tree, message, 0);
    WalkOrder(tree, message, 1);
  }

  lemma OneThread(tree: Forest)
    requires tree == [Node(false, [Node(false, [])])]
    ensures
      var message := At(Invalid, 0);
      && Has(tree, message) && Has(tree, At(message, 0))
      && Replies(tree, message) == [At(message, 0)] && Elsewhere(tree, message) == []
  {
    var message := At(Invalid, 0);
    assert Rows(tree, message) == Some([Node(false, [])]);
    assert Replies(tree, message) == [At(message, 0)];
    PreorderUnfolds(Invalid, tree, 0);
    assert All(tree) == [message, At(message, 0)];
    hide Preorder;
    Places(tree, message);
  }
}
