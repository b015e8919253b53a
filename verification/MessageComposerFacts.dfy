/** The two serialisations agree. */
module MessageComposerFacts {
  import opened Text
  import opened Base64
  import opened MessageComposer

  // ----- when they succeed -----

  lemma {:induction false} NoErrorIff(attachments: seq<Attachment>, check: Attachment -> Option<Error>)
    ensures FirstError(attachments, check).None? <==> forall i :: 0 <= i < |attachments| ==> check(attachments[i]).None?
  {
    if attachments != [] {
      NoErrorIff(attachments[1..], check);
      assert forall i :: 1 <= i < |attachments| ==> attachments[i] == attachments[1..][i - 1];
    }
  }

  /** The raw form needs the data of every attachment at hand. */
  lemma RawSucceeds(attachments: seq<Attachment>)
    ensures FirstError(attachments, RawError).None?
       <==> forall i :: 0 <= i < |attachments| ==> attachments[i].local && attachments[i].data.Some?
  {
    NoErrorIff(attachments, RawError);
    assert forall a: Attachment :: RawError(a).None? <==> a.local && a.data.Some?;
  }

  /** The pieces need it only where the server does not have the attachment. */
  lemma CatenateSucceeds(attachments: seq<Attachment>)
    ensures FirstError(attachments, CatenateError).None?
       <==> forall i :: 0 <= i < |attachments| ==>
              attachments[i].imapUrl != "" || (attachments[i].local && attachments[i].data.Some?)
  {
    NoErrorIff(attachments, CatenateError);
    assert forall a: Attachment ::
        CatenateError(a).None? <==> a.imapUrl != "" || (a.local && a.data.Some?);
  }

  lemma RawImpliesCatenate(attachments: seq<Attachment>)
    requires FirstError(attachments, RawError).None?
    ensures FirstError(attachments, CatenateError).None?
  {
    RawSucceeds(attachments);
    CatenateSucceeds(attachments);
  }

  lemma {:induction false} FirstErrorAt(attachments: seq<Attachment>, check: Attachment -> Option<Error>, k: nat)
    requires k < |attachments| && check(attachments[k]).Some?
    requires forall i :: 0 <= i < k ==> check(attachments[i]).None?
    ensures FirstError(attachments, check) == check(attachments[k])
  {
    if k > 0 {
      assert check(attachments[0]).None?;
      FirstErrorAt(attachments[1..], check, k - 1);
    }
  }

  predicate AtHand(a: Attachment) { a.local && a.data.Some? }

  /** Why an attachment cannot be read here. */
  function Reason(a: Attachment): Error { if a.local then Disappeared(a.caption) else NotAvailable(a.caption) }

  /** The error is about the first attachment whose data is needed and not at hand: for the raw form that is any, for
      the pieces one without a URL. */
  lemma FirstFailure(attachments: seq<Attachment>, k: nat)
    requires k < |attachments| && !AtHand(attachments[k])
    ensures (forall i :: 0 <= i < k ==> AtHand(attachments[i])) ==>
              FirstError(attachments, RawError) == Some(Reason(attachments[k]))
    ensures attachments[k].imapUrl == ""
            && (forall i :: 0 <= i < k ==> attachments[i].imapUrl != "" || AtHand(attachments[i])) ==>
              FirstError(attachments, CatenateError) == Some(Reason(attachments[k]))
  {
    if forall i :: 0 <= i < k ==> AtHand(attachments[i]) { FirstErrorAt(attachments, RawError, k); }
    if attachments[k].imapUrl == ""
      && forall i :: 0 <= i < k ==> attachments[i].imapUrl != "" || AtHand(attachments[i]) {
      FirstErrorAt(attachments, CatenateError, k);
    }
  }

  // ----- the shape of the pieces -----

  /** Text and URLs by turns, text first and last. */
  predicate Alternate(pieces: seq<Piece>) {
    && |pieces| % 2 == 1
    && forall k :: 0 <= k < |pieces| ==> (pieces[k].TextPiece? <==> k % 2 == 0)
  }

  lemma {:induction false} PiecesAlternate(text: string, attachments: seq<Attachment>, boundary: string)
    ensures Alternate(Pieces(text, attachments, boundary))
    decreases |attachments|
  {
    if attachments != [] {
      hide PartHeader, EncodedBody;
      var a, more := attachments[0], text + PartHeader(attachments[0], boundary);
      if a.imapUrl == "" {
        PiecesAlternate(more + EncodedBody(a), attachments[1..], boundary);
      } else {
        PiecesAlternate("", attachments[1..], boundary);
        TwoMore(TextPiece(more), UrlPiece(a.imapUrl), Pieces("", attachments[1..], boundary));
      }
    }
  }

  lemma TwoMore(first: Piece, second: Piece, rest: seq<Piece>)
    requires first.TextPiece? && second.UrlPiece? && Alternate(rest)
    ensures Alternate([first, second] + rest)
  {
    var pieces := [first, second] + rest;
    forall k | 0 <= k < |pieces| ensures pieces[k].TextPiece? <==> k % 2 == 0 {
      if k >= 2 { assert pieces[k] == rest[k - 2] && (k - 2) % 2 == k % 2; }
    }
  }

  lemma CatenateAlternates(beginning: string, boundary: string, attachments: seq<Attachment>)
    ensures Alternate(CatenateMessage(beginning, boundary, attachments))
  {
    PiecesAlternate(beginning, attachments, boundary);
  }

  // ----- what the server assembles -----

  /** The message the server makes of the pieces, `fetch` giving what a URL stands for. */
  function Assemble(pieces: seq<Piece>, fetch: string -> string): string {
    if pieces == [] then ""
    else (if pieces[0].TextPiece? then pieces[0].text else fetch(pieces[0].url)) + Assemble(pieces[1..], fetch)
  }

  /** The server has the encoded body of every attachment that is sent as a URL. */
  ghost predicate Serves(fetch: string -> string, attachments: seq<Attachment>) {
    forall i :: 0 <= i < |attachments| && attachments[i].imapUrl != "" ==>
      fetch(attachments[i].imapUrl) == EncodedBody(attachments[i])
  }

  lemma {:induction false} PiecesAssemble(text: string, attachments: seq<Attachment>, boundary: string,
                                          fetch: string -> string)
    requires Serves(fetch, attachments)
    ensures Assemble(Pieces(text, attachments, boundary), fetch)
         == text + Parts(attachments, boundary) + Closing(boundary)
    decreases |attachments|
  {
    if attachments == [] {
    } else {
      var a, more := attachments[0], text + PartHeader(attachments[0], boundary);
      var rest := attachments[1..];
      hide *;
      if a.imapUrl == "" {
        PiecesAssemble(more + EncodedBody(a), rest, boundary, fetch);
      } else {
        PiecesAssemble("", rest, boundary, fetch);
        EmptyFirst(Parts(rest, boundary), Closing(boundary));
      }
      Regrouped(text, PartHeader(a, boundary), EncodedBody(a), Parts(rest, boundary), Closing(boundary));
    }
  }

  lemma EmptyFirst(a: string, b: string)
    ensures "" + a + b == a + b
  {
  }

  lemma Regrouped(a: string, b: string, c: string, d: string, e: string)
    ensures a + b + c + d + e == a + (b + c + d) + e
    ensures a + b + (c + (d + e)) == a + (b + c + d) + e
  {
  }

  /** Putting each attachment's encoded body in the place of its URL makes the raw message of the pieces. */
  lemma CatenateIsRaw(beginning: string, boundary: string, attachments: seq<Attachment>, fetch: string -> string)
    requires Serves(fetch, attachments)
    ensures Assemble(CatenateMessage(beginning, boundary, attachments), fetch)
         == RawMessage(beginning, boundary, attachments)
  {
    if attachments == [] {
      assert [TextPiece(beginning)][1..] == [];
      assert Assemble([], fetch) == "";
    } else {
      PiecesAssemble(beginning, attachments, boundary, fetch);
    }
  }

  // ----- what a reader gets -----

  lemma {:induction false} PlainKeeps(data: seq<Byte>)
    ensures |Plain(data)| == |data| && forall i :: 0 <= i < |data| ==> Plain(data)[i] as int == data[i]
  {
    if data != [] { PlainKeeps(data[1..]); }
  }

  /** The data of an attachment can be had back from its encoded body. */
  lemma BodyReadsBack(a: Attachment)
    requires a.data.Some?
    ensures a.cte == CteBase64 ==> Decode(WithoutBreaks(EncodedBody(a))) == Some(a.data.value)
    ensures a.cte != CteBase64 ==>
      |EncodedBody(a)| == |a.data.value|
      && forall i :: 0 <= i < |EncodedBody(a)| ==> EncodedBody(a)[i] as int == a.data.value[i]
  {
    BodyDecodes(a.data.value);
    PlainKeeps(a.data.value);
  }
}
