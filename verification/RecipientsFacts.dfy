/** What removing duplicates and replying to all but oneself promise. */
module RecipientsFacts {
  import opened Recipients

  function Rank(kind: Kind): nat {
    match kind
    case To => 0
    case Cc => 1
    case Bcc => 2
    case _ => 3
  }

  predicate Addressed(r: Recipient) { r.kind == To || r.kind == Cc || r.kind == Bcc }

  predicate SameKey(r: Recipient, s: Recipient) {
    r.address.mailbox == s.address.mailbox && r.address.host == s.address.host
  }

  predicate Distinct(list: seq<Recipient>) {
    forall i, j :: 0 <= i < j < |list| ==> !SameKey(list[i], list[j])
  }

  /** To before Cc before Bcc, and nothing else. */
  predicate InOrder(list: seq<Recipient>) {
    && (forall i :: 0 <= i < |list| ==> Addressed(list[i]))
    && (forall i, j :: 0 <= i < j < |list| ==> Rank(list[i].kind) <= Rank(list[j].kind))
  }

  predicate HasKind(list: seq<Recipient>, kind: Kind) { exists i :: 0 <= i < |list| && list[i].kind == kind }

  // ----- the relevant recipients -----

  lemma {:induction false} InAddresses(kind: Kind, list: seq<Recipient>, a: Address)
    ensures a in AddressesOf(kind, list) <==> Recipient(kind, a) in list
  {
    if list != [] {
      InAddresses(kind, list[1..], a);
      assert list == [list[0]] + list[1..];
    }
  }

  lemma InRelevant(list: seq<Recipient>, r: Recipient)
    ensures r in Relevant(list) <==> r in list && Addressed(r)
  {
    hide Tag, AddressesOf;
    InAddresses(To, list, r.address);
    InAddresses(Cc, list, r.address);
    InAddresses(Bcc, list, r.address);
  }

  lemma RelevantInOrder(list: seq<Recipient>)
    ensures InOrder(Relevant(list))
  {
    hide AddressesOf;
    var to, cc, bcc := Tag(To, AddressesOf(To, list)), Tag(Cc, AddressesOf(Cc, list)), Tag(Bcc, AddressesOf(Bcc, list));
    hide Tag;
  }

  // ----- each address once -----

  /** Every recipient that is kept is the first with its address. */
  lemma {:induction false} KeptIsFirst(list: seq<Recipient>, seen: set<Key>, k: nat) returns (i: nat)
    requires k < |Unseen(list, seen)|
    ensures i < |list| && list[i] == Unseen(list, seen)[k] && KeyOf(list[i].address) !in seen
    ensures forall j :: 0 <= j < i ==> !SameKey(list[j], list[i])
  {
    var key := KeyOf(list[0].address);
    if key in seen {
      i := KeptIsFirst(list[1..], seen, k);
      assert forall j :: 1 <= j < i + 1 ==> list[j] == list[1..][j - 1];
      i := i + 1;
    } else if k == 0 {
      i := 0;
    } else {
      i := KeptIsFirst(list[1..], seen + {key}, k - 1);
      assert forall j :: 1 <= j < i + 1 ==> list[j] == list[1..][j - 1];
      i := i + 1;
    }
  }

  /** Every address that has not been seen is kept. */
  lemma {:induction false} AllKept(list: seq<Recipient>, seen: set<Key>, i: nat) returns (k: nat)
    requires i < |list| && KeyOf(list[i].address) !in seen
    ensures k < |Unseen(list, seen)| && SameKey(Unseen(list, seen)[k], list[i])
  {
    var key := KeyOf(list[0].address);
    if key in seen {
      k := AllKept(list[1..], seen, i - 1);
    } else if key == KeyOf(list[i].address) {
      k := 0;
    } else {
      k := AllKept(list[1..], seen + {key}, i - 1);
      k := k + 1;
    }
  }

  lemma {:induction false} KeptAreDistinct(list: seq<Recipient>, seen: set<Key>)
    ensures Distinct(Unseen(list, seen))
    ensures forall k :: 0 <= k < |Unseen(list, seen)| ==> KeyOf(Unseen(list, seen)[k].address) !in seen
  {
    if list != [] {
      var key := KeyOf(list[0].address);
      if key in seen {
        KeptAreDistinct(list[1..], seen);
      } else {
        KeptAreDistinct(list[1..], seen + {key});
        DistinctCons(list[0], Unseen(list[1..], seen + {key}));
      }
    }
  }

  lemma DistinctCons(r: Recipient, rest: seq<Recipient>)
    requires Distinct(rest) && forall k :: 0 <= k < |rest| ==> KeyOf(rest[k].address) != KeyOf(r.address)
    ensures Distinct([r] + rest)
  {
  }

  lemma {:induction false} KeptInOrder(list: seq<Recipient>, seen: set<Key>)
    requires InOrder(list)
    ensures InOrder(Unseen(list, seen))
  {
    if list != [] {
      var key := KeyOf(list[0].address);
      TailInOrder(list);
      if key in seen {
        KeptInOrder(list[1..], seen);
      } else {
        var rest := Unseen(list[1..], seen + {key});
        KeptInOrder(list[1..], seen + {key});
        forall k | 0 <= k < |rest| ensures Rank(list[0].kind) <= Rank(rest[k].kind) {
          var i := KeptIsFirst(list[1..], seen + {key}, k);
          assert list[1..][i] == list[i + 1];
        }
        hide *;
        OrderCons(list[0], rest);
      }
    }
  }

  lemma TailInOrder(list: seq<Recipient>)
    requires list != [] && InOrder(list)
    ensures InOrder(list[1..])
  {
  }

  lemma OrderCons(r: Recipient, rest: seq<Recipient>)
    requires InOrder(rest) && Addressed(r) && forall k :: 0 <= k < |rest| ==> Rank(r.kind) <= Rank(rest[k].kind)
    ensures InOrder([r] + rest)
  {
  }

  // ----- promotion -----

  lemma PromotedKeeps(list: seq<Recipient>)
    ensures |Promoted(list)| == |list|
    ensures forall k :: 0 <= k < |list| ==> Promoted(list)[k].address == list[k].address
    ensures forall k :: 0 <= k < |list| ==>
      Promoted(list)[k].kind == if k == 0 && list[0].kind == Cc then To else list[k].kind
  {
  }

  lemma PromotedShape(list: seq<Recipient>)
    requires Distinct(list) && InOrder(list)
    ensures Distinct(Promoted(list)) && InOrder(Promoted(list))
    ensures HasKind(Promoted(list), Cc) ==> Promoted(list)[0].kind == To
  {
    PromotedKeeps(list);
    hide Promoted;
    if k :| 0 <= k < |list| && Promoted(list)[k].kind == Cc {
      assert Rank(list[0].kind) <= Rank(list[k].kind) == 1;
    }
  }

  // ----- the results about removing duplicates -----

  /** Every address is there once, To before Cc before Bcc, and there is no Cc without a To. */
  lemma EachOnce(list: seq<Recipient>)
    ensures Distinct(Deduplicated(list)) && InOrder(Deduplicated(list))
    ensures HasKind(Deduplicated(list), Cc) ==> Deduplicated(list)[0].kind == To
  {
    hide Relevant, Unseen, Promoted, Distinct, InOrder, HasKind;
    RelevantInOrder(list);
    KeptInOrder(Relevant(list), {});
    KeptAreDistinct(Relevant(list), {});
    PromotedShape(Unseen(Relevant(list), {}));
  }

  /** No To, Cc or Bcc recipient is forgotten. */
  lemma NobodyForgotten(list: seq<Recipient>, r: Recipient) returns (k: nat)
    requires r in list && Addressed(r)
    ensures k < |Deduplicated(list)| && SameKey(Deduplicated(list)[k], r)
  {
    hide Relevant, Unseen, Promoted;
    InRelevant(list, r);
    var i :| 0 <= i < |Relevant(list)| && Relevant(list)[i] == r;
    k := AllKept(Relevant(list), {}, i);
    PromotedKeeps(Unseen(Relevant(list), {}));
  }

  /** Every recipient comes from one of the strongest kind with its address. The kind is kept, but for the
      first Cc when there is no To at all. */
  lemma StrongestKind(list: seq<Recipient>, k: nat) returns (r: Recipient)
    requires k < |Deduplicated(list)|
    ensures r in list && Addressed(r) && r.address == Deduplicated(list)[k].address
    ensures forall s :: s in list && Addressed(s) && SameKey(s, r) ==> Rank(r.kind) <= Rank(s.kind)
    ensures Deduplicated(list)[k].kind == if k == 0 && r.kind == Cc then To else r.kind
    ensures k == 0 && r.kind == Cc ==> !HasKind(list, To)
  {
    hide Relevant, Unseen, Promoted;
    var all, kept := Relevant(list), Unseen(Relevant(list), {});
    PromotedKeeps(kept);
    var i := KeptIsFirst(all, {}, k);
    r := all[i];
    InRelevant(list, r);
    RelevantInOrder(list);
    forall s | s in list && Addressed(s) && SameKey(s, r) ensures Rank(r.kind) <= Rank(s.kind) {
      InRelevant(list, s);
      var j :| 0 <= j < |all| && all[j] == s;
    }
    if k == 0 && r.kind == Cc { FirstCcMeansNoTo(list); }
  }

  lemma FirstCcMeansNoTo(list: seq<Recipient>)
    requires Unseen(Relevant(list), {}) != [] && Unseen(Relevant(list), {})[0].kind == Cc
    ensures !HasKind(list, To)
  {
    hide Relevant, Unseen, InOrder;
    if n :| 0 <= n < |list| && list[n].kind == To {
      var all := Relevant(list);
      InRelevant(list, list[n]);
      RelevantInOrder(list);
      KeptInOrder(all, {});
      var j :| 0 <= j < |all| && all[j] == list[n];
      var k := AllKept(all, {}, j);
      var i := KeptIsFirst(all, {}, k);
      RanksRise(all, i, j);
      RanksRise(Unseen(all, {}), 0, k);
      assert false;
    }
  }

  lemma RanksRise(list: seq<Recipient>, i: nat, j: nat)
    requires InOrder(list) && i < |list| && j < |list|
    ensures i <= j ==> Rank(list[i].kind) <= Rank(list[j].kind)
  {
  }

  // ----- doing it again changes nothing -----

  lemma {:induction false} NoneOfKind(kind: Kind, list: seq<Recipient>)
    requires forall i :: 0 <= i < |list| ==> list[i].kind != kind
    ensures AddressesOf(kind, list) == []
  {
    if list != [] { NoneOfKind(kind, list[1..]); }
  }

  lemma {:induction false} AlreadyRelevant(list: seq<Recipient>)
    requires InOrder(list)
    ensures Relevant(list) == list
  {
    hide *;
    if list == [] {
      NothingRelevant();
    } else {
      var r, rest := list[0], list[1..];
      TailInOrder(list);
      AlreadyRelevant(rest);
      WeakerOnly(list);
      RelevantCons(list);
    }
  }

  lemma NothingRelevant()
    ensures Relevant([]) == []
  {
  }

  /** Behind a recipient there are none of a stronger kind. */
  lemma WeakerOnly(list: seq<Recipient>)
    requires list != [] && InOrder(list)
    ensures Addressed(list[0])
    ensures list[0].kind != To ==> AddressesOf(To, list) == AddressesOf(To, list[1..]) == []
    ensures list[0].kind == Bcc ==> AddressesOf(Cc, list) == AddressesOf(Cc, list[1..]) == []
  {
    hide AddressesOf;
    var r, rest := list[0], list[1..];
    assert forall i :: 0 <= i < |list| ==> Rank(r.kind) <= Rank(list[i].kind);
    if r.kind != To {
      NoneOfKind(To, list);
      NoneOfKind(To, rest);
    }
    if r.kind == Bcc {
      NoneOfKind(Cc, list);
      NoneOfKind(Cc, rest);
    }
  }

  lemma RelevantCons(list: seq<Recipient>)
    requires list != [] && Addressed(list[0])
    requires list[0].kind != To ==> AddressesOf(To, list) == AddressesOf(To, list[1..]) == []
    requires list[0].kind == Bcc ==> AddressesOf(Cc, list) == AddressesOf(Cc, list[1..]) == []
    ensures Relevant(list) == [list[0]] + Relevant(list[1..])
  {
    hide *;
    var r, rest := list[0], list[1..];
    var to, cc, bcc := AddressesOf(To, rest), AddressesOf(Cc, rest), AddressesOf(Bcc, rest);
    AddressesCons(To, list);
    AddressesCons(Cc, list);
    AddressesCons(Bcc, list);
    RelevantIs(list);
    RelevantIs(rest);
    AddressedKinds(r);
    match r.kind {
      case To => TagCons(To, r.address, to);
      case Cc => TagCons(Cc, r.address, cc);
      case Bcc => TagCons(Bcc, r.address, bcc);
    }
  }

  lemma AddressesCons(kind: Kind, list: seq<Recipient>)
    requires list != []
    ensures
      var rest := AddressesOf(kind, list[1..]);
      AddressesOf(kind, list) == if list[0].kind == kind then [list[0].address] + rest else rest
  {
  }

  lemma RelevantIs(list: seq<Recipient>)
    ensures Relevant(list)
         == Tag(To, AddressesOf(To, list)) + Tag(Cc, AddressesOf(Cc, list)) + Tag(Bcc, AddressesOf(Bcc, list))
  {
  }

  lemma AddressedKinds(r: Recipient)
    requires Addressed(r)
    ensures r.kind == To || r.kind == Cc || r.kind == Bcc
  {
  }

  lemma TagCons(kind: Kind, a: Address, rest: seq<Address>)
    ensures Tag(kind, [a] + rest) == [Recipient(kind, a)] + Tag(kind, rest)
  {
    assert ([a] + rest)[1..] == rest;
  }

  lemma {:induction false} AlreadyUnique(list: seq<Recipient>, seen: set<Key>)
    requires Distinct(list) && forall i :: 0 <= i < |list| ==> KeyOf(list[i].address) !in seen
    ensures Unseen(list, seen) == list
  {
    if list != [] {
      var key := KeyOf(list[0].address);
      forall i | 0 <= i < |list[1..]| ensures KeyOf(list[1..][i].address) !in seen + {key} {
        assert !SameKey(list[0], list[i + 1]);
      }
      forall i, j | 0 <= i < j < |list[1..]| ensures !SameKey(list[1..][i], list[1..][j]) {
        assert !SameKey(list[i + 1], list[j + 1]);
      }
      AlreadyUnique(list[1..], seen + {key});
      assert list == [list[0]] + list[1..];
    }
  }

  lemma NothingToRemove(list: seq<Recipient>)
    requires Distinct(list) && InOrder(list)
    ensures Deduplicated(list) == Promoted(list)
  {
    hide Relevant, Unseen, Promoted, Distinct, InOrder;
    AlreadyRelevant(list);
    AlreadyUnique(list, {});
  }

  lemma Idempotent(list: seq<Recipient>)
    ensures Deduplicated(Deduplicated(list)) == Deduplicated(list)
  {
    var once := Deduplicated(list);
    EachOnce(list);
    NothingToRemove(once);
  }

  // ----- replying to all but oneself -----

  lemma {:induction false} InNotMine(list: seq<Recipient>, own: seq<Address>, lower: string -> string, r: Recipient)
    ensures r in NotMine(list, own, lower) <==> r in list && !IsMine(r.address, own, lower)
  {
    if list != [] {
      hide IsMine;
      InNotMine(list[1..], own, lower, r);
      assert list == [list[0]] + list[1..];
    }
  }

  lemma {:induction false} NotMineShape(list: seq<Recipient>, own: seq<Address>, lower: string -> string)
    requires Distinct(list) && InOrder(list)
    ensures Distinct(NotMine(list, own, lower)) && InOrder(NotMine(list, own, lower))
  {
    hide *;
    NotMineUnfolds(list, own, lower);
    if list == [] {
      NothingInOrder();
    } else {
      var first, rest := list[0], NotMine(list[1..], own, lower);
      TailInOrder(list);
      TailDistinct(list);
      FirstAddressed(list);
      NotMineShape(list[1..], own, lower);
      forall k | 0 <= k < |rest|
        ensures Rank(first.kind) <= Rank(rest[k].kind) && KeyOf(rest[k].address) != KeyOf(first.address)
      {
        InNotMine(list[1..], own, lower, rest[k]);
        BehindFirst(list, rest[k]);
      }
      DistinctCons(first, rest);
      OrderCons(first, rest);
    }
  }

  lemma NotMineUnfolds(list: seq<Recipient>, own: seq<Address>, lower: string -> string)
    ensures
      if list == [] then NotMine(list, own, lower) == []
      else
        var rest := NotMine(list[1..], own, lower);
        NotMine(list, own, lower) == rest || NotMine(list, own, lower) == [list[0]] + rest
  {
    hide IsMine;
    if list != [] {
      var rest := NotMine(list[1..], own, lower);
      assert [] + rest == rest;
    }
  }

  lemma NothingInOrder()
    ensures Distinct([]) && InOrder([])
  {
  }

  lemma TailDistinct(list: seq<Recipient>)
    requires list != [] && Distinct(list)
    ensures Distinct(list[1..])
  {
  }

  lemma FirstAddressed(list: seq<Recipient>)
    requires list != [] && InOrder(list)
    ensures Addressed(list[0])
  {
  }

  lemma BehindFirst(list: seq<Recipient>, r: Recipient)
    requires list != [] && Distinct(list) && InOrder(list) && r in list[1..]
    ensures Rank(list[0].kind) <= Rank(r.kind) && KeyOf(r.address) != KeyOf(list[0].address)
  {
    var i :| 0 <= i < |list[1..]| && list[1..][i] == r;
    assert list[i + 1] == r && !SameKey(list[0], list[i + 1]);
  }

  /** Once more promoted, nothing else is left to do behind the erasure. */
  lemma ButMeIsErased(original: seq<Recipient>, own: seq<Address>, lower: string -> string)
    ensures ReplyAllButMe(original, own, lower) == Promoted(NotMine(ReplyAll(original), own, lower))
  {
    hide NotMine, Distinct, InOrder, Promoted;
    EachOnce(Mapped(original, REPLY_ALL));
    hide Deduplicated, Mapped;
    NotMineShape(ReplyAll(original), own, lower);
    NothingToRemove(NotMine(ReplyAll(original), own, lower));
  }

  /** One of one's own addresses has the same mailbox and the same host, but for the case of letters. */
  predicate Owned(a: Address, own: seq<Address>, lower: string -> string) {
    exists i :: 0 <= i < |own| && lower(own[i].mailbox) == lower(a.mailbox) && lower(own[i].host) == lower(a.host)
  }

  lemma OwnedIs(a: Address, own: seq<Address>, lower: string -> string)
    ensures IsMine(a, own, lower) <==> Owned(a, own, lower)
  {
    if IsMine(a, own, lower) {
      var i :| 0 <= i < |own| && EqualByMail(a, own[i], lower);
      assert lower(own[i].mailbox) == lower(a.mailbox);
    }
    if Owned(a, own, lower) {
      var i :| 0 <= i < |own| && lower(own[i].mailbox) == lower(a.mailbox) && lower(own[i].host) == lower(a.host);
      assert EqualByMail(a, own[i], lower);
    }
  }

  /** Exactly the addresses of a reply to all that are none of one's own get it, each once. */
  lemma ButMeIsTheOthers(original: seq<Recipient>, own: seq<Address>, lower: string -> string, a: Address)
    ensures
      (exists kind :: Recipient(kind, a) in ReplyAllButMe(original, own, lower))
      <==> (exists kind :: Recipient(kind, a) in ReplyAll(original)) && !Owned(a, own, lower)
  {
    hide NotMine, ReplyAll, ReplyAllButMe, IsMine, Promoted, Owned;
    OwnedIs(a, own, lower);
    ButMeIsErased(original, own, lower);
    var all, others := ReplyAll(original), NotMine(ReplyAll(original), own, lower);
    var but := Promoted(others);
    PromotedKeeps(others);
    if kind :| Recipient(kind, a) in but {
      var k :| 0 <= k < |but| && but[k] == Recipient(kind, a);
      InNotMine(all, own, lower, others[k]);
      assert others[k] == Recipient(others[k].kind, a);
    }
    if (exists kind :: Recipient(kind, a) in all) && !IsMine(a, own, lower) {
      var kind :| Recipient(kind, a) in all;
      InNotMine(all, own, lower, Recipient(kind, a));
      var k :| 0 <= k < |others| && others[k] == Recipient(kind, a);
      assert but[k] == Recipient(but[k].kind, a);
    }
  }

  lemma ButMeShape(original: seq<Recipient>, own: seq<Address>, lower: string -> string)
    ensures
      var but := ReplyAllButMe(original, own, lower);
      Distinct(but) && InOrder(but) && (HasKind(but, Cc) ==> but[0].kind == To)
  {
    hide NotMine, ReplyAll, Distinct, InOrder, HasKind;
    EachOnce(NotMine(ReplyAll(original), own, lower));
  }

  /** Replying to all but oneself fails exactly when nobody else is left. */
  lemma ButMeFails(original: seq<Recipient>, own: seq<Address>, lower: string -> string)
    ensures
      ReplyAllButMe(original, own, lower) == []
      <==> forall i :: 0 <= i < |ReplyAll(original)| ==> Owned(ReplyAll(original)[i].address, own, lower)
  {
    hide ReplyAll, IsMine, NotMine, Promoted, ReplyAllButMe, Owned;
    var all, others := ReplyAll(original), NotMine(ReplyAll(original), own, lower);
    forall i | 0 <= i < |all| ensures IsMine(all[i].address, own, lower) <==> Owned(all[i].address, own, lower) {
      OwnedIs(all[i].address, own, lower);
    }
    ButMeIsErased(original, own, lower);
    PromotedKeeps(others);
    if others != [] {
      InNotMine(all, own, lower, others[0]);
    } else {
      forall i | 0 <= i < |all| ensures IsMine(all[i].address, own, lower) {
        InNotMine(all, own, lower, all[i]);
      }
    }
  }

  // ----- where a reply goes -----

  lemma {:induction false} InMapped(list: seq<Recipient>, mapping: map<Kind, Kind>, r: Recipient)
    ensures r in Mapped(list, mapping)
       <==> exists kind :: kind in mapping && mapping[kind] == r.kind && Recipient(kind, r.address) in list
  {
    if list != [] {
      InMapped(list[1..], mapping, r);
      var first := list[0];
      assert list == [first] + list[1..];
      if first.kind in mapping && mapping[first.kind] == r.kind && first.address == r.address {
        assert first == Recipient(first.kind, r.address);
        assert r == first.(kind := mapping[first.kind]);
      }
    }
  }

  /** A reply to all reaches exactly the addresses of the From, Reply-To, To, Cc and Bcc headers. */
  lemma ReplyAllReaches(original: seq<Recipient>, key: Key)
    ensures
      (exists k :: 0 <= k < |ReplyAll(original)| && KeyOf(ReplyAll(original)[k].address) == key)
      <==> exists i :: 0 <= i < |original| && original[i].kind != Sender && KeyOf(original[i].address) == key
  {
    var mapped := Mapped(original, REPLY_ALL);
    hide Deduplicated, Mapped;
    if k :| 0 <= k < |ReplyAll(original)| && KeyOf(ReplyAll(original)[k].address) == key {
      var r := StrongestKind(mapped, k);
      InMapped(original, REPLY_ALL, r);
      var kind :| kind in REPLY_ALL && REPLY_ALL[kind] == r.kind && Recipient(kind, r.address) in original;
      var i :| 0 <= i < |original| && original[i] == Recipient(kind, r.address);
      assert original[i].kind != Sender && KeyOf(original[i].address) == key;
    }
    if i :| 0 <= i < |original| && original[i].kind != Sender && KeyOf(original[i].address) == key {
      var kind := original[i].kind;
      assert kind in REPLY_ALL;
      var r := Recipient(REPLY_ALL[kind], original[i].address);
      assert Recipient(kind, r.address) == original[i];
      InMapped(original, REPLY_ALL, r);
      var k := NobodyForgotten(mapped, r);
      assert KeyOf(ReplyAll(original)[k].address) == key;
    }
  }
}
