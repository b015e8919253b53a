/** Whom a reply to all goes to, and as what, by the headers of the original message. */
module ReplyFacts {
  import opened Recipients
  import opened RecipientsFacts

  /** The authors come first, then everybody who was named openly, then those in Bcc; the sender is not asked. */
  function Part(kind: Kind): nat {
    match kind
    case From => 0
    case ReplyTo => 1
    case To => 1
    case Cc => 1
    case Bcc => 2
    case Sender => 3
  }

  /** In front of `j` in the order in which a reply looks at the recipients. */
  predicate Sooner(original: seq<Recipient>, i: nat, j: nat)
    requires i < |original| && j < |original|
  {
    Part(original[i].kind) < Part(original[j].kind) || (Part(original[i].kind) == Part(original[j].kind) && i < j)
  }

  // ----- where the recipients come from -----

  /** The places of one part among the first `n` recipients. */
  function PlacesOf(part: nat, list: seq<Recipient>, n: nat): (places: seq<nat>)
    requires n <= |list|
    ensures forall k :: 0 <= k < |places| ==> places[k] < n && Part(list[places[k]].kind) == part
  {
    if n == 0 then []
    else PlacesOf(part, list, n - 1) + if Part(list[n - 1].kind) == part then [n - 1] else []
  }

  predicate Rising(places: seq<nat>) {
    forall k, l :: 0 <= k < l < |places| ==> places[k] < places[l]
  }

  lemma {:induction false} PlacesRise(part: nat, list: seq<Recipient>, n: nat)
    requires n <= |list|
    ensures Rising(PlacesOf(part, list, n))
  {
    if n > 0 {
      PlacesRise(part, list, n - 1);
      var rest := PlacesOf(part, list, n - 1);
      var last := if Part(list[n - 1].kind) == part then [n - 1] else [];
      assert forall k :: 0 <= k < |rest| ==> rest[k] < n - 1;
      OneMorePlace(rest, last, n - 1);
      hide PlacesOf;
    }
  }

  lemma OneMorePlace(rest: seq<nat>, last: seq<nat>, n: nat)
    requires Rising(rest) && (forall k :: 0 <= k < |rest| ==> rest[k] < n) && (last == [] || last == [n])
    ensures Rising(rest + last)
  {
  }

  lemma {:induction false} EveryPlace(part: nat, list: seq<Recipient>, n: nat, i: nat)
    requires i < n <= |list| && Part(list[i].kind) == part
    ensures i in PlacesOf(part, list, n)
  {
    if i < n - 1 { EveryPlace(part, list, n - 1, i); }
  }

  function AddressesAt(list: seq<Recipient>, places: seq<nat>): seq<Address>
    requires forall k :: 0 <= k < |places| ==> places[k] < |list|
  {
    seq(|places|, k requires 0 <= k < |places| => list[places[k]].address)
  }

  /** What a part becomes in a reply. */
  function KindOfPart(part: nat): Kind
    requires part < 3
  {
    if part == 0 then To else if part == 1 then Cc else Bcc
  }

  lemma {:induction false} MappedSnoc(list: seq<Recipient>, r: Recipient, mapping: map<Kind, Kind>)
    ensures Mapped(list + [r], mapping)
         == Mapped(list, mapping) + if r.kind in mapping then [r.(kind := mapping[r.kind])] else []
  {
    hide *;
    MappedUnfolds(list, mapping);
    MappedUnfolds(list + [r], mapping);
    if list == [] {
      assert list + [r] == [r] && [r][1..] == [];
      MappedUnfolds([], mapping);
    } else {
      assert (list + [r])[1..] == list[1..] + [r];
      MappedSnoc(list[1..], r, mapping);
    }
  }

  lemma MappedUnfolds(list: seq<Recipient>, mapping: map<Kind, Kind>)
    ensures
      Mapped(list, mapping)
      == if list == [] then []
         else (if list[0].kind in mapping then [list[0].(kind := mapping[list[0].kind])] else [])
              + Mapped(list[1..], mapping)
  {
  }

  lemma PartIsMapped(part: nat, kind: Kind)
    requires part < 3
    ensures kind in REPLY_ALL <==> Part(kind) < 3
    ensures kind in REPLY_ALL ==> (REPLY_ALL[kind] == KindOfPart(part) <==> Part(kind) == part)
  {
  }

  /** Mapping puts each part under its kind. */
  lemma {:induction false} MappedPart(part: nat, list: seq<Recipient>, n: nat)
    requires part < 3 && n <= |list|
    ensures AddressesOf(KindOfPart(part), Mapped(list[..n], REPLY_ALL)) == AddressesAt(list, PlacesOf(part, list, n))
  {
    hide *;
    if n == 0 {
      NothingMapped(part, list);
    } else {
      var r := list[n - 1];
      MappedPart(part, list, n - 1);
      assert list[..n] == list[..n - 1] + [r];
      MappedSnoc(list[..n - 1], r, REPLY_ALL);
      PartIsMapped(part, r.kind);
      if r.kind in REPLY_ALL {
        OneMore(KindOfPart(part), Mapped(list[..n - 1], REPLY_ALL), r.(kind := REPLY_ALL[r.kind]));
      } else {
        assert Mapped(list[..n - 1], REPLY_ALL) + [] == Mapped(list[..n - 1], REPLY_ALL);
      }
      PlacesSnoc(part, list, n);
    }
  }

  lemma NothingMapped(part: nat, list: seq<Recipient>)
    requires part < 3
    ensures AddressesOf(KindOfPart(part), Mapped(list[..0], REPLY_ALL)) == AddressesAt(list, PlacesOf(part, list, 0))
  {
  }

  lemma PlacesSnoc(part: nat, list: seq<Recipient>, n: nat)
    requires part < 3 && 0 < n <= |list|
    ensures AddressesAt(list, PlacesOf(part, list, n))
         == AddressesAt(list, PlacesOf(part, list, n - 1))
            + if Part(list[n - 1].kind) == part then [list[n - 1].address] else []
  {
    hide Part;
    assert PlacesOf(part, list, n)
        == PlacesOf(part, list, n - 1) + if Part(list[n - 1].kind) == part then [n - 1] else [];
    hide PlacesOf;
  }

  // ----- in the order of the parts -----

  /** The places of all recipients that a reply looks at, in its order. */
  function Looked(original: seq<Recipient>): (places: seq<nat>)
    ensures forall k :: 0 <= k < |places| ==> places[k] < |original| && Part(original[places[k]].kind) < 3
  {
    PlacesOf(0, original, |original|) + PlacesOf(1, original, |original|) + PlacesOf(2, original, |original|)
  }

  lemma LookedSooner(original: seq<Recipient>, k: nat, l: nat)
    requires k < l < |Looked(original)|
    ensures Sooner(original, Looked(original)[k], Looked(original)[l])
  {
    var n := |original|;
    var a, b, c := PlacesOf(0, original, n), PlacesOf(1, original, n), PlacesOf(2, original, n);
    PlacesRise(0, original, n);
    PlacesRise(1, original, n);
    PlacesRise(2, original, n);
    hide PlacesOf;
    PartAt(original, a, b, c, k);
    PartAt(original, a, b, c, l);
    hide Part;
    assert Looked(original) == a + b + c;
    if k < |a| && l < |a| {
      assert a[k] < a[l];
    } else if |a| <= k < |a| + |b| && l < |a| + |b| {
      assert b[k - |a|] < b[l - |a|];
    } else if k >= |a| + |b| {
      assert c[k - |a| - |b|] < c[l - |a| - |b|];
    }
  }

  /** Which part a place belongs to. */
  lemma PartAt(original: seq<Recipient>, a: seq<nat>, b: seq<nat>, c: seq<nat>, k: nat)
    requires forall i :: 0 <= i < |a| ==> a[i] < |original| && Part(original[a[i]].kind) == 0
    requires forall i :: 0 <= i < |b| ==> b[i] < |original| && Part(original[b[i]].kind) == 1
    requires forall i :: 0 <= i < |c| ==> c[i] < |original| && Part(original[c[i]].kind) == 2
    requires k < |a| + |b| + |c|
    ensures
      if k < |a| then (a + b + c)[k] == a[k] && Part(original[(a + b + c)[k]].kind) == 0
      else if k < |a| + |b| then (a + b + c)[k] == b[k - |a|] && Part(original[(a + b + c)[k]].kind) == 1
      else (a + b + c)[k] == c[k - |a| - |b|] && Part(original[(a + b + c)[k]].kind) == 2
  {
    hide Part;
  }

  lemma AllLooked(original: seq<Recipient>, i: nat)
    requires i < |original| && Part(original[i].kind) < 3
    ensures i in Looked(original)
  {
    EveryPlace(Part(original[i].kind), original, |original|, i);
    hide PlacesOf;
  }

  /** The list from which duplicates are removed. */
  lemma RelevantLooked(original: seq<Recipient>)
    ensures
      var all, places := Relevant(Mapped(original, REPLY_ALL)), Looked(original);
      && |all| == |places|
      && forall k :: 0 <= k < |all| ==>
           all[k] == Recipient(KindOfPart(Part(original[places[k]].kind)), original[places[k]].address)
  {
    hide Mapped, AddressesOf, Part;
    var n := |original|;
    assert original[..n] == original;
    MappedPart(0, original, n);
    MappedPart(1, original, n);
    MappedPart(2, original, n);
    hide PlacesOf;
  }

  // ----- the first of each address -----

  /** Where the kept recipient `k` stands. */
  function KeptAt(list: seq<Recipient>, seen: set<Key>, k: nat): (i: nat)
    requires k < |Unseen(list, seen)|
    ensures i < |list|
  {
    var key := KeyOf(list[0].address);
    if key in seen then 1 + KeptAt(list[1..], seen, k)
    else if k == 0 then 0
    else 1 + KeptAt(list[1..], seen + {key}, k - 1)
  }

  lemma {:induction false} KeptAtIsFirst(list: seq<Recipient>, seen: set<Key>, k: nat)
    requires k < |Unseen(list, seen)|
    ensures
      var i := KeptAt(list, seen, k);
      && list[i] == Unseen(list, seen)[k] && KeyOf(list[i].address) !in seen
      && forall j :: 0 <= j < i ==> !SameKey(list[j], list[i])
  {
    var key := KeyOf(list[0].address);
    assert forall j :: 1 <= j < |list| ==> list[j] == list[1..][j - 1];
    if key in seen {
      KeptAtIsFirst(list[1..], seen, k);
    } else if k > 0 {
      KeptAtIsFirst(list[1..], seen + {key}, k - 1);
    }
  }

  lemma {:induction false} KeptAtRises(list: seq<Recipient>, seen: set<Key>, k: nat, l: nat)
    requires k < l < |Unseen(list, seen)|
    ensures KeptAt(list, seen, k) < KeptAt(list, seen, l)
  {
    var key := KeyOf(list[0].address);
    if key in seen {
      KeptAtRises(list[1..], seen, k, l);
    } else if k > 0 {
      KeptAtRises(list[1..], seen + {key}, k - 1, l - 1);
    }
  }

  // ----- the results -----

  /** The recipient of the original message that recipient `k` of a reply comes from. */
  function Source(original: seq<Recipient>, k: nat): (i: nat)
    requires k < |ReplyAll(original)|
    ensures i < |original|
  {
    RelevantLooked(original);
    Looked(original)[KeptAt(Relevant(Mapped(original, REPLY_ALL)), {}, k)]
  }

  /** What a recipient of a reply is: an author is a To, somebody who was named openly a Cc, and one of Bcc stays there.
      Without authors, the first who was named openly becomes a To. */
  predicate Becomes(kind: Kind, first: bool, result: Kind) {
    match kind
    case From => result == To
    case ReplyTo => result == if first then To else Cc
    case To => result == if first then To else Cc
    case Cc => result == if first then To else Cc
    case Bcc => result == Bcc
    case Sender => false
  }

  /** Each recipient of a reply comes from the first of the original recipients with its address, authors first, then
      those named openly, then Bcc, and has the kind that goes with it. */
  lemma ReplyAllIs(original: seq<Recipient>, k: nat)
    requires k < |ReplyAll(original)|
    ensures
      var i, r := Source(original, k), ReplyAll(original)[k];
      && r.address == original[i].address
      && (forall j :: 0 <= j < |original| && original[j].kind != Sender && SameKey(original[j], original[i]) ==>
            j == i || Sooner(original, i, j))
      && Becomes(original[i].kind, k == 0, r.kind)
  {
    hide *;
    var all, places := Relevant(Mapped(original, REPLY_ALL)), Looked(original);
    RelevantLooked(original);
    ReplyIs(original);
    PromotedKeeps(Unseen(all, {}));
    KeptAtIsFirst(all, {}, k);
    var x := KeptAt(all, {}, k);
    SourceIs(original, k);
    var i := Source(original, k);
    forall j | 0 <= j < |original| && original[j].kind != Sender && SameKey(original[j], original[i])
      ensures j == i || Sooner(original, i, j)
    {
      PartOf(original[j].kind);
      AllLooked(original, j);
      var y :| 0 <= y < |places| && places[y] == j;
      SameKeys(all[y], original[j], all[x], original[i]);
      if x < y { LookedSooner(original, x, y); }
    }
    Kinds(original[i].kind, k == 0, Unseen(all, {})[k].kind, ReplyAll(original)[k].kind);
  }

  lemma ReplyIs(original: seq<Recipient>)
    ensures ReplyAll(original) == Promoted(Unseen(Relevant(Mapped(original, REPLY_ALL)), {}))
  {
    hide Promoted, Unseen, Relevant, Mapped;
  }

  lemma SourceIs(original: seq<Recipient>, k: nat)
    requires k < |ReplyAll(original)|
    ensures |Unseen(Relevant(Mapped(original, REPLY_ALL)), {})| == |ReplyAll(original)|
    ensures KeptAt(Relevant(Mapped(original, REPLY_ALL)), {}, k) < |Looked(original)|
    ensures Source(original, k) == Looked(original)[KeptAt(Relevant(Mapped(original, REPLY_ALL)), {}, k)]
  {
    hide Promoted, Unseen, Relevant, Mapped, KeptAt, Looked;
    RelevantLooked(original);
    PromotedKeeps(Unseen(Relevant(Mapped(original, REPLY_ALL)), {}));
  }

  lemma PartOf(kind: Kind)
    ensures kind != Sender <==> Part(kind) < 3
  {
  }

  lemma SameKeys(r: Recipient, s: Recipient, r': Recipient, s': Recipient)
    requires r.address == s.address && r'.address == s'.address
    ensures SameKey(r, r') <==> SameKey(s, s')
  {
  }

  lemma Kinds(kind: Kind, first: bool, kept: Kind, result: Kind)
    requires Part(kind) < 3 && kept == KindOfPart(Part(kind))
    requires result == if first && kept == Cc then To else kept
    ensures Becomes(kind, first, result)
  {
  }

  /** They stand in this order. */
  lemma ReplyAllInOrder(original: seq<Recipient>, k: nat, l: nat)
    requires k < l < |ReplyAll(original)|
    ensures Sooner(original, Source(original, k), Source(original, l))
  {
    hide *;
    SourceIs(original, k);
    SourceIs(original, l);
    var all := Relevant(Mapped(original, REPLY_ALL));
    KeptAtRises(all, {}, k, l);
    LookedSooner(original, KeptAt(all, {}, k), KeptAt(all, {}, l));
  }

  /** With an author, the first recipient is one. */
  lemma AuthorsFirst(original: seq<Recipient>, j: nat)
    requires j < |original| && original[j].kind == From
    ensures ReplyAll(original) != [] && original[Source(original, 0)].kind == From
  {
    hide *;
    var all, places := Relevant(Mapped(original, REPLY_ALL)), Looked(original);
    AuthorPart(original, j);
    RelevantLooked(original);
    AllLooked(original, j);
    var y :| 0 <= y < |places| && places[y] == j;
    FirstIsKept(all);
    ReplyIs(original);
    PromotedKeeps(Unseen(all, {}));
    SourceIs(original, 0);
    if y > 0 {
      LookedSooner(original, 0, y);
      SoonerThanAuthor(original, places[0], j);
    }
  }

  lemma AuthorPart(original: seq<Recipient>, j: nat)
    requires j < |original| && original[j].kind == From
    ensures Part(original[j].kind) < 3
  {
  }

  lemma FirstIsKept(list: seq<Recipient>)
    requires list != []
    ensures Unseen(list, {}) != [] && KeptAt(list, {}, 0) == 0
  {
  }

  lemma SoonerThanAuthor(original: seq<Recipient>, i: nat, j: nat)
    requires i < |original| && j < |original| && Sooner(original, i, j) && original[j].kind == From
    ensures original[i].kind == From
  {
  }

  // ----- without one's own addresses -----

  /** Each recipient of a reply to all but oneself comes from one of the reply to all, and again the first who was named
      openly becomes a To when no author is left. */
  lemma ButMeIs(original: seq<Recipient>, own: seq<Address>, lower: string -> string, k: nat) returns (x: nat)
    requires k < |ReplyAllButMe(original, own, lower)|
    ensures x < |ReplyAll(original)| && !Owned(ReplyAll(original)[x].address, own, lower)
    ensures
      var i, r := Source(original, x), ReplyAllButMe(original, own, lower)[k];
      r.address == original[i].address && Becomes(original[i].kind, k == 0, r.kind)
  {
    hide *;
    var all := ReplyAll(original);
    var others := NotMine(all, own, lower);
    ButMeIsErased(original, own, lower);
    PromotedKeeps(others);
    EachOnce(Mapped(original, REPLY_ALL));
    ReplyIsOnce(original);
    var r := others[k];
    InNotMine(all, own, lower, r);
    x :| 0 <= x < |all| && all[x] == r;
    OwnedIs(r.address, own, lower);
    ReplyAllIs(original, x);
    if x == 0 && k > 0 { FirstStaysFirst(all, own, lower, k); }
    Again(original[Source(original, x)].kind, x == 0, k == 0, r.kind, ReplyAllButMe(original, own, lower)[k].kind);
  }

  lemma ReplyIsOnce(original: seq<Recipient>)
    ensures ReplyAll(original) == Deduplicated(Mapped(original, REPLY_ALL))
  {
    hide Deduplicated, Mapped;
  }

  lemma FirstStaysFirst(list: seq<Recipient>, own: seq<Address>, lower: string -> string, k: nat)
    requires Distinct(list) && 0 < k < |NotMine(list, own, lower)|
    ensures NotMine(list, own, lower)[k] != list[0]
  {
    hide IsMine;
    var rest := NotMine(list[1..], own, lower);
    var r := NotMine(list, own, lower)[k];
    NotMineUnfolds(list, own, lower);
    hide NotMine;
    assert r in rest;
    InNotMine(list[1..], own, lower, r);
    var i :| 0 <= i < |list[1..]| && list[1..][i] == r;
    assert list[i + 1] == r && !SameKey(list[0], list[i + 1]);
  }

  lemma Again(kind: Kind, wasFirst: bool, first: bool, before: Kind, result: Kind)
    requires Becomes(kind, wasFirst, before) && (wasFirst ==> first)
    requires result == if first && before == Cc then To else before
    ensures Becomes(kind, first, result)
  {
  }
}
