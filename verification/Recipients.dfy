/** Who gets a reply: mapping the kinds of recipients, removing duplicates and one's own addresses. */
module Recipients {

  datatype Kind = To | Cc | Bcc | From | Sender | ReplyTo

  datatype Address = Address(name: string, adl: string, mailbox: string, host: string)

  datatype Recipient = Recipient(kind: Kind, address: Address)

  type Key = (string, string)

  /** Duplicates are found by comparing just the mailbox and the host. */
  function KeyOf(a: Address): Key { (a.mailbox, a.host) }

  // ----- the reference -----

  function AddressesOf(kind: Kind, list: seq<Recipient>): seq<Address> {
    if list == [] then []
    else (if list[0].kind == kind then [list[0].address] else []) + AddressesOf(kind, list[1..])
  }

  function Tag(kind: Kind, addresses: seq<Address>): (list: seq<Recipient>)
    ensures |list| == |addresses|
    ensures forall i :: 0 <= i < |list| ==> list[i] == Recipient(kind, addresses[i])
  {
    if addresses == [] then [] else [Recipient(kind, addresses[0])] + Tag(kind, addresses[1..])
  }

  /** The To recipients, then Cc, then Bcc; no others. */
  function Relevant(list: seq<Recipient>): seq<Recipient> {
    Tag(To, AddressesOf(To, list)) + Tag(Cc, AddressesOf(Cc, list)) + Tag(Bcc, AddressesOf(Bcc, list))
  }

  function Keys(list: seq<Recipient>): set<Key> { set i | 0 <= i < |list| :: KeyOf(list[i].address) }

  /** The recipients whose address has not been seen, each once. */
  function Unseen(list: seq<Recipient>, seen: set<Key>): seq<Recipient> {
    if list == [] then []
    else
      var key := KeyOf(list[0].address);
      if key in seen then Unseen(list[1..], seen) else [list[0]] + Unseen(list[1..], seen + {key})
  }

  /** Without any To, the first Cc becomes one. */
  function Promoted(list: seq<Recipient>): seq<Recipient> {
    if list != [] && list[0].kind == Cc then [list[0].(kind := To)] + list[1..] else list
  }

  function Deduplicated(list: seq<Recipient>): seq<Recipient> { Promoted(Unseen(Relevant(list), {})) }

  function Mapped(list: seq<Recipient>, mapping: map<Kind, Kind>): seq<Recipient> {
    if list == [] then []
    else
      (if list[0].kind in mapping then [list[0].(kind := mapping[list[0].kind])] else []) + Mapped(list[1..], mapping)
  }

  const REPLY_ALL := map[From := To, ReplyTo := Cc, To := Cc, Cc := Cc, Bcc := Bcc]

  function ReplyAll(original: seq<Recipient>): seq<Recipient> { Deduplicated(Mapped(original, REPLY_ALL)) }

  /** Equal but for the case of letters, as `lower` sees it. */
  predicate EqualByMail(a: Address, b: Address, lower: string -> string) {
    lower(a.mailbox) == lower(b.mailbox) && lower(a.host) == lower(b.host)
  }

  predicate IsMine(a: Address, own: seq<Address>, lower: string -> string) {
    exists i :: 0 <= i < |own| && EqualByMail(a, own[i], lower)
  }

  function NotMine(list: seq<Recipient>, own: seq<Address>, lower: string -> string): seq<Recipient> {
    if list == [] then []
    else (if IsMine(list[0].address, own, lower) then [] else [list[0]]) + NotMine(list[1..], own, lower)
  }

  function ReplyAllButMe(original: seq<Recipient>, own: seq<Address>, lower: string -> string): seq<Recipient> {
    Deduplicated(NotMine(ReplyAll(original), own, lower))
  }

  // ----- the loops -----

  method DeduplicatedAndJustToCcBcc(input: seq<Recipient>) returns (result: seq<Recipient>)
    ensures result == Deduplicated(input)
  {
    hide *;
    var to, cc, bcc := Sorted(input);
    var alreadySeen: set<Key> := {};
    result := [];
    result, alreadySeen := AppendUnseen(result, alreadySeen, To, to);
    result, alreadySeen := AppendUnseen(result, alreadySeen, Cc, cc);
    result, alreadySeen := AppendUnseen(result, alreadySeen, Bcc, bcc);
    AllJoined(input);
  }

  method Sorted(input: seq<Recipient>) returns (to: seq<Address>, cc: seq<Address>, bcc: seq<Address>)
    ensures to == AddressesOf(To, input) && cc == AddressesOf(Cc, input) && bcc == AddressesOf(Bcc, input)
  {
    hide *;
    to, cc, bcc := [], [], [];
    assert input[..0] == [];
    NoAddresses();
    for i := 0 to |input|
      invariant to == AddressesOf(To, input[..i])
      invariant cc == AddressesOf(Cc, input[..i])
      invariant bcc == AddressesOf(Bcc, input[..i])
    {
      var recipient := input[i];
      assert input[..i + 1] == input[..i] + [recipient];
      OneMore(To, input[..i], recipient);
      OneMore(Cc, input[..i], recipient);
      OneMore(Bcc, input[..i], recipient);
      match recipient.kind {
        case To => to := to + [recipient.address];
        case Cc => cc := cc + [recipient.address];
        case Bcc => bcc := bcc + [recipient.address];
        case _ =>
      }
    }
    assert input[..|input|] == input;
  }

  lemma NoAddresses()
    ensures forall kind :: AddressesOf(kind, []) == []
  {
  }

  lemma {:induction false} OneMore(kind: Kind, list: seq<Recipient>, r: Recipient)
    ensures AddressesOf(kind, list + [r]) == AddressesOf(kind, list) + if r.kind == kind then [r.address] else []
  {
    hide *;
    if list == [] {
      OneAddress(kind, r);
      assert list + [r] == [r];
    } else {
      var more := if r.kind == kind then [r.address] else [];
      var first := if list[0].kind == kind then [list[0].address] else [];
      OneMore(kind, list[1..], r);
      AddressesUnfold(kind, list);
      AddressesUnfold(kind, list + [r]);
      assert (list + [r])[1..] == list[1..] + [r];
      assert first + (AddressesOf(kind, list[1..]) + more) == first + AddressesOf(kind, list[1..]) + more;
    }
  }

  lemma OneAddress(kind: Kind, r: Recipient)
    ensures AddressesOf(kind, []) == [] && AddressesOf(kind, [r]) == if r.kind == kind then [r.address] else []
  {
    assert [r][1..] == [];
  }

  lemma AddressesUnfold(kind: Kind, list: seq<Recipient>)
    requires list != []
    ensures
      AddressesOf(kind, list)
      == (if list[0].kind == kind then [list[0].address] else []) + AddressesOf(kind, list[1..])
  {
  }

  /** Adding to the result: the first recipient of all is promoted. */
  function Joined(result: seq<Recipient>, more: seq<Recipient>): seq<Recipient> {
    if result == [] then Promoted(more) else result + more
  }

  method AppendUnseen(result0: seq<Recipient>, seen0: set<Key>, kind: Kind, addresses: seq<Address>)
    returns (result: seq<Recipient>, alreadySeen: set<Key>)
    ensures result == Joined(result0, Unseen(Tag(kind, addresses), seen0))
    ensures alreadySeen == seen0 + Keys(Tag(kind, addresses))
  {
    result, alreadySeen := result0, seen0;
    ghost var all := Tag(kind, addresses);
    hide *;
    assert all[..0] == [] && all[0..] == all;
    NoKeys();
    for i := 0 to |addresses|
      invariant |all| == |addresses|
      invariant Joined(result, Unseen(all[i..], alreadySeen)) == Joined(result0, Unseen(all, seen0))
      invariant alreadySeen == seen0 + Keys(all[..i])
    {
      var addr := addresses[i];
      var item := (addr.mailbox, addr.host);
      OneKeyMore(all, i);
      TagAt(kind, addresses, i);
      UnseenStep(result, all, alreadySeen, i);
      if item !in alreadySeen {
        result := result + [Recipient(if result == [] && kind == Cc then To else kind, addr)];
        alreadySeen := alreadySeen + {item};
      }
    }
    assert all[..|addresses|] == all && all[|addresses|..] == [];
    NothingMore(result, alreadySeen);
  }

  lemma NoKeys()
    ensures Keys([]) == {}
  {
  }

  lemma OneKeyMore(all: seq<Recipient>, i: nat)
    requires i < |all|
    ensures Keys(all[..i + 1]) == Keys(all[..i]) + {KeyOf(all[i].address)}
    ensures KeyOf(all[i].address) == (all[i].address.mailbox, all[i].address.host)
  {
    assert KeyOf(all[i].address) == KeyOf(all[..i + 1][i].address);
    forall k | k in Keys(all[..i]) ensures k in Keys(all[..i + 1]) {
      var j :| 0 <= j < i && k == KeyOf(all[..i][j].address);
      assert k == KeyOf(all[..i + 1][j].address);
    }
  }

  lemma TagAt(kind: Kind, addresses: seq<Address>, i: nat)
    requires i < |addresses|
    ensures Tag(kind, addresses)[i] == Recipient(kind, addresses[i])
  {
  }

  lemma UnseenStep(result: seq<Recipient>, all: seq<Recipient>, seen: set<Key>, i: nat)
    requires i < |all|
    ensures
      var r, key := all[i], (all[i].address.mailbox, all[i].address.host);
      Joined(result, Unseen(all[i..], seen))
      == if key in seen then Joined(result, Unseen(all[i + 1..], seen))
         else Joined(result + [if result == [] && r.kind == Cc then Recipient(To, r.address) else r],
                     Unseen(all[i + 1..], seen + {key}))
  {
    assert all[i..][0] == all[i] && all[i..][1..] == all[i + 1..];
    var key := (all[i].address.mailbox, all[i].address.host);
    if key !in seen {
      var rest := Unseen(all[i + 1..], seen + {key});
      assert Unseen(all[i..], seen) == [all[i]] + rest;
      hide Unseen;
      assert ([all[i]] + rest)[1..] == rest;
      assert result + ([all[i]] + rest) == result + [all[i]] + rest;
    }
  }

  lemma NothingMore(result: seq<Recipient>, seen: set<Key>)
    ensures Joined(result, Unseen([], seen)) == result
  {
  }

  lemma {:induction false} UnseenConcat(a: seq<Recipient>, b: seq<Recipient>, seen: set<Key>)
    ensures Unseen(a + b, seen) == Unseen(a, seen) + Unseen(b, seen + Keys(a))
  {
    hide Keys, KeyOf, Unseen;
    UnseenUnfold(a, seen);
    UnseenUnfold(a + b, seen);
    if a == [] {
      assert a + b == b;
      NoKeys();
      assert seen + Keys(a) == seen;
    } else {
      var key := KeyOf(a[0].address);
      assert (a + b)[1..] == a[1..] + b;
      UnseenConcat(a[1..], b, seen + {key});
      KeysCons(a);
      assert seen + {key} + Keys(a[1..]) == seen + Keys(a);
      if key in seen { assert seen + {key} == seen; }
    }
  }

  lemma UnseenUnfold(list: seq<Recipient>, seen: set<Key>)
    ensures
      Unseen(list, seen)
      == if list == [] then []
         else if KeyOf(list[0].address) in seen then Unseen(list[1..], seen)
         else [list[0]] + Unseen(list[1..], seen + {KeyOf(list[0].address)})
  {
    hide KeyOf;
  }

  lemma KeysCons(a: seq<Recipient>)
    requires a != []
    ensures Keys(a) == {KeyOf(a[0].address)} + Keys(a[1..])
  {
    assert KeyOf(a[0].address) in Keys(a);
    forall i | 1 <= i < |a| ensures a[i] == a[1..][i - 1] {}
    forall i | 0 <= i < |a[1..]| ensures KeyOf(a[1..][i].address) in Keys(a) {
      assert KeyOf(a[i + 1].address) in Keys(a);
    }
  }

  lemma JoinedTwice(result: seq<Recipient>, a: seq<Recipient>, b: seq<Recipient>)
    ensures Joined(Joined(result, a), b) == Joined(result, a + b)
  {
    if result == [] && a != [] {
      PromotedConcat(a, b);
    } else if result == [] {
      assert a + b == b && Promoted([]) == [];
    } else {
      assert result + a + b == result + (a + b);
    }
  }

  lemma PromotedConcat(a: seq<Recipient>, b: seq<Recipient>)
    requires a != []
    ensures Promoted(a + b) == Promoted(a) + b && Promoted(a) != []
  {
    assert (a + b)[1..] == a[1..] + b;
  }

  lemma AllJoined(input: seq<Recipient>)
    ensures
      var to, cc := Tag(To, AddressesOf(To, input)), Tag(Cc, AddressesOf(Cc, input));
      var bcc := Tag(Bcc, AddressesOf(Bcc, input));
      Joined(Joined(Joined([], Unseen(to, {})), Unseen(cc, {} + Keys(to))), Unseen(bcc, {} + Keys(to) + Keys(cc)))
      == Deduplicated(input)
  {
    var to, cc := Tag(To, AddressesOf(To, input)), Tag(Cc, AddressesOf(Cc, input));
    var bcc := Tag(Bcc, AddressesOf(Bcc, input));
    hide Tag, AddressesOf, Keys, Unseen, Joined;
    UnseenConcat(to, cc, {});
    UnseenConcat(to + cc, bcc, {});
    KeysConcat(to, cc);
    var u, v, w := Unseen(to, {}), Unseen(cc, {} + Keys(to)), Unseen(bcc, {} + Keys(to) + Keys(cc));
    assert {} + Keys(to) + Keys(cc) == {} + Keys(to + cc);
    JoinedTwice([], u, v);
    JoinedTwice([], u + v, w);
    JoinedFirst(u + v + w);
  }

  lemma JoinedFirst(list: seq<Recipient>)
    ensures Joined([], list) == Promoted(list)
  {
  }

  lemma KeysConcat(a: seq<Recipient>, b: seq<Recipient>)
    ensures Keys(a + b) == Keys(a) + Keys(b)
  {
    forall i | 0 <= i < |a| ensures KeyOf(a[i].address) in Keys(a + b) {
      assert (a + b)[i] == a[i];
    }
    forall i | 0 <= i < |b| ensures KeyOf(b[i].address) in Keys(a + b) {
      assert (a + b)[|a| + i] == b[i];
    }
  }

  /** Kinds without a mapping are erased from the list, the others changed in place. */
  method MapRecipients(input0: seq<Recipient>, mapping: map<Kind, Kind>) returns (input: seq<Recipient>)
    ensures input == Mapped(input0, mapping)
  {
    hide *;
    input := input0;
    var recipient := 0;
    assert input[..0] + Mapped(input[0..], mapping) == Mapped(input0, mapping) by { assert input[0..] == input; }
    while recipient != |input|
      invariant recipient <= |input|
      invariant input[..recipient] + Mapped(input[recipient..], mapping) == Mapped(input0, mapping)
      decreases |input| - recipient
    {
      MappedStep(input, recipient, mapping);
      var kind := input[recipient].kind;
      if kind !in mapping {
        input := input[..recipient] + input[recipient + 1..];
      } else if mapping[kind] != kind {
        input := input[recipient := input[recipient].(kind := mapping[kind])];
        recipient := recipient + 1;
      } else {
        recipient := recipient + 1;
      }
    }
    MappedEnd(input, mapping);
  }

  lemma MappedStep(list: seq<Recipient>, n: nat, mapping: map<Kind, Kind>)
    requires n < |list|
    ensures
      var r, all := list[n], list[..n] + Mapped(list[n..], mapping);
      if r.kind !in mapping then
        var next := list[..n] + list[n + 1..];
        all == next[..n] + Mapped(next[n..], mapping)
      else
        var next := list[n := r.(kind := mapping[r.kind])];
        all == next[..n + 1] + Mapped(next[n + 1..], mapping) && (mapping[r.kind] == r.kind ==> next == list)
  {
    assert list[n..][0] == list[n] && list[n..][1..] == list[n + 1..];
    var r, rest := list[n], Mapped(list[n + 1..], mapping);
    if r.kind !in mapping {
      var next := list[..n] + list[n + 1..];
      assert next[..n] == list[..n] && next[n..] == list[n + 1..];
      assert [] + rest == rest;
    } else {
      var changed := r.(kind := mapping[r.kind]);
      var next := list[n := changed];
      assert next[..n + 1] == list[..n] + [changed] && next[n + 1..] == list[n + 1..];
      hide Mapped;
      assert list[..n] + ([changed] + rest) == list[..n] + [changed] + rest;
    }
  }

  lemma MappedEnd(list: seq<Recipient>, mapping: map<Kind, Kind>)
    ensures list[..|list|] + Mapped(list[|list|..], mapping) == list
  {
  }

  method PrepareReplyAll(originalRecipients: seq<Recipient>, output0: seq<Recipient>)
    returns (ok: bool, output: seq<Recipient>)
    ensures ok == (ReplyAll(originalRecipients) != [])
    ensures output == if ok then ReplyAll(originalRecipients) else output0
  {
    var mapping: map<Kind, Kind> := map[];
    mapping := mapping[From := To];
    mapping := mapping[ReplyTo := Cc];
    mapping := mapping[To := Cc];
    mapping := mapping[Cc := Cc];
    mapping := mapping[Bcc := Bcc];
    assert mapping == REPLY_ALL;
    var mapped := MapRecipients(originalRecipients, mapping);
    var res := DeduplicatedAndJustToCcBcc(mapped);
    if res == [] {
      return false, output0;
    } else {
      return true, res;
    }
  }

  /** One's own address is erased wherever it occurs. */
  method EraseAddress(res0: seq<Recipient>, addr: Address, lower: string -> string) returns (res: seq<Recipient>)
    ensures res == NotMine(res0, [addr], lower)
  {
    hide *;
    res := res0;
    var it := 0;
    assert res[..0] + NotMine(res[0..], [addr], lower) == NotMine(res0, [addr], lower) by { assert res[0..] == res; }
    while it != |res|
      invariant it <= |res|
      invariant res[..it] + NotMine(res[it..], [addr], lower) == NotMine(res0, [addr], lower)
      decreases |res| - it
    {
      EraseStep(res, it, addr, lower);
      if EqualByMail(res[it].address, addr, lower) {
        res := res[..it] + res[it + 1..];
      } else {
        it := it + 1;
      }
    }
    EraseEnd(res, addr, lower);
  }

  lemma EraseStep(list: seq<Recipient>, n: nat, addr: Address, lower: string -> string)
    requires n < |list|
    ensures
      var all := list[..n] + NotMine(list[n..], [addr], lower);
      if EqualByMail(list[n].address, addr, lower) then
        var next := list[..n] + list[n + 1..];
        all == next[..n] + NotMine(next[n..], [addr], lower)
      else
        all == list[..n + 1] + NotMine(list[n + 1..], [addr], lower)
  {
    assert list[n..][0] == list[n] && list[n..][1..] == list[n + 1..];
    hide EqualByMail;
    OnlyOne(list[n].address, addr, lower);
    var rest := NotMine(list[n + 1..], [addr], lower);
    var next := list[..n] + list[n + 1..];
    assert next[..n] == list[..n] && next[n..] == list[n + 1..];
    assert list[..n] + ([list[n]] + rest) == list[..n + 1] + rest;
  }

  lemma OnlyOne(a: Address, addr: Address, lower: string -> string)
    ensures IsMine(a, [addr], lower) == EqualByMail(a, addr, lower)
  {
    assert EqualByMail(a, addr, lower) ==> EqualByMail(a, [addr][0], lower);
  }

  lemma EraseEnd(list: seq<Recipient>, addr: Address, lower: string -> string)
    ensures list[..|list|] + NotMine(list[|list|..], [addr], lower) == list
  {
  }

  method EraseOwn(res0: seq<Recipient>, own: seq<Address>, lower: string -> string) returns (res: seq<Recipient>)
    ensures res == NotMine(res0, own, lower)
  {
    hide *;
    res := res0;
    assert own[..0] == [];
    NobodysOwn(res, lower);
    for i := 0 to |own|
      invariant res == NotMine(res0, own[..i], lower)
    {
      assert own[..i + 1] == own[..i] + [own[i]];
      NotMineTwice(res0, own[..i], [own[i]], lower);
      res := EraseAddress(res, own[i], lower);
    }
    assert own[..|own|] == own;
  }

  lemma {:induction false} NobodysOwn(list: seq<Recipient>, lower: string -> string)
    ensures NotMine(list, [], lower) == list
  {
    if list != [] {
      NobodysOwn(list[1..], lower);
      assert list == [list[0]] + list[1..];
    }
  }

  lemma {:induction false} NotMineTwice(list: seq<Recipient>, a: seq<Address>, b: seq<Address>, lower: string -> string)
    ensures NotMine(NotMine(list, a, lower), b, lower) == NotMine(list, a + b, lower)
  {
    if list != [] {
      NotMineTwice(list[1..], a, b, lower);
      MineOfBoth(list[0].address, a, b, lower);
      hide IsMine;
      assert NotMine([], b, lower) == [];
      var rest := NotMine(list[1..], a, lower);
      assert ([list[0]] + rest)[1..] == rest;
      assert [] + rest == rest;
    }
  }

  lemma MineOfBoth(x: Address, a: seq<Address>, b: seq<Address>, lower: string -> string)
    ensures IsMine(x, a + b, lower) == (IsMine(x, a, lower) || IsMine(x, b, lower))
  {
    hide EqualByMail;
    forall i | 0 <= i < |a| ensures (a + b)[i] == a[i] {}
    forall i | 0 <= i < |b| ensures (a + b)[|a| + i] == b[i] {}
    if i :| 0 <= i < |a + b| && EqualByMail(x, (a + b)[i], lower) {
      if i < |a| {
        assert EqualByMail(x, a[i], lower);
      } else {
        assert EqualByMail(x, b[i - |a|], lower);
      }
    }
  }

  method PrepareReplyAllButMe(originalRecipients: seq<Recipient>, own: seq<Address>, lower: string -> string,
                              output0: seq<Recipient>)
    returns (ok: bool, output: seq<Recipient>)
    ensures ok == (ReplyAllButMe(originalRecipients, own, lower) != [])
    ensures output == if ok then ReplyAllButMe(originalRecipients, own, lower) else output0
  {
    output := output0;
    NobodyLeft(own, lower);
    hide Deduplicated, NotMine, ReplyAll;
    var res := output;
    ok, res := PrepareReplyAll(originalRecipients, res);
    if !ok {
      return;
    }
    res := EraseOwn(res, own, lower);
    res := DeduplicatedAndJustToCcBcc(res);
    if |res| != 0 {
      return true, res;
    } else {
      return false, output;
    }
  }

  lemma NobodyLeft(own: seq<Address>, lower: string -> string)
    ensures Deduplicated(NotMine([], own, lower)) == []
  {
    assert Relevant([]) == [];
  }
}
