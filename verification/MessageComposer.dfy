/** The two serialisations of a message: raw, and as the pieces of an IMAP CATENATE (RFC 4469). */
module MessageComposer {
  import opened Text
  import opened Base64

  datatype Cte = CteBase64 | Cte7Bit | Cte8Bit | CteBinary

  /** `data` is the content of the attachment, wherever it is; `None` if it has disappeared. Only the data of
      a local attachment can be read here. */
  datatype Attachment = Attachment(local: bool, imapUrl: string, data: Option<seq<Byte>>, caption: string,
                                   mimeType: string, disposition: string, cte: Cte)

  datatype Error = NotAvailable(caption: string) | Disappeared(caption: string)

  datatype Piece = TextPiece(text: string) | UrlPiece(url: string)

  // ----- the reference -----

  function EncodingName(cte: Cte): string {
    match cte
    case CteBase64 => "base64"
    case Cte7Bit => "7bit"
    case Cte8Bit => "8bit"
    case CteBinary => "binary"
  }

  function PartHeader(a: Attachment, boundary: string): string {
    "\r\n--" + boundary + "\r\n" + "Content-Type: " + a.mimeType + "\r\n" + a.disposition
    + "Content-Transfer-Encoding: " + EncodingName(a.cte) + "\r\n" + "\r\n"
  }

  function Closing(boundary: string): string { "\r\n--" + boundary + "--\r\n" }

  /** Bytes as they are. */
  function Plain(data: seq<Byte>): string {
    if data == [] then "" else [data[0] as char] + Plain(data[1..])
  }

  function EncodedData(cte: Cte, data: seq<Byte>): string {
    if cte == CteBase64 then Broken(Base64Lines(data)) else Plain(data)
  }

  function EncodedBody(a: Attachment): string {
    if a.data.None? then "" else EncodedData(a.cte, a.data.value)
  }

  function HeaderError(a: Attachment): Option<Error> {
    if !a.local && a.imapUrl == "" then Some(NotAvailable(a.caption)) else None
  }

  function BodyError(a: Attachment): Option<Error> {
    if !a.local then Some(NotAvailable(a.caption))
    else if a.data.None? then Some(Disappeared(a.caption))
    else None
  }

  function RawError(a: Attachment): Option<Error> {
    if HeaderError(a).Some? then HeaderError(a) else BodyError(a)
  }

  function CatenateError(a: Attachment): Option<Error> {
    if HeaderError(a).Some? || a.imapUrl != "" then HeaderError(a) else BodyError(a)
  }

  /** The first error that `check` finds. */
  function FirstError(attachments: seq<Attachment>, check: Attachment -> Option<Error>): Option<Error> {
    if attachments == [] then None
    else if check(attachments[0]).Some? then check(attachments[0])
    else FirstError(attachments[1..], check)
  }

  function Parts(attachments: seq<Attachment>, boundary: string): string {
    if attachments == [] then ""
    else PartHeader(attachments[0], boundary) + EncodedBody(attachments[0]) + Parts(attachments[1..], boundary)
  }

  function RawMessage(beginning: string, boundary: string, attachments: seq<Attachment>): string {
    if attachments == [] then beginning
    else beginning + Parts(attachments, boundary) + Closing(boundary)
  }

  /** The pieces that follow, `text` being the piece that is still open. */
  function Pieces(text: string, attachments: seq<Attachment>, boundary: string): seq<Piece>
    decreases |attachments|
  {
    if attachments == [] then [TextPiece(text + Closing(boundary))]
    else
      var a, more := attachments[0], text + PartHeader(attachments[0], boundary);
      if a.imapUrl == "" then Pieces(more + EncodedBody(a), attachments[1..], boundary)
      else [TextPiece(more), UrlPiece(a.imapUrl)] + Pieces("", attachments[1..], boundary)
  }

  function CatenateMessage(beginning: string, boundary: string, attachments: seq<Attachment>): seq<Piece> {
    if attachments == [] then [TextPiece(beginning)] else Pieces(beginning, attachments, boundary)
  }

  // ----- writing one attachment -----

  method WriteAttachmentHeader(target0: string, attachment: Attachment, boundary: string)
    returns (target: string, error: Option<Error>)
    ensures error == HeaderError(attachment)
    ensures target == if error.None? then target0 + PartHeader(attachment, boundary) else target0
  {
    target := target0;
    if !attachment.local && attachment.imapUrl == "" {
      return target, Some(NotAvailable(attachment.caption));
    }
    var header :=
      "\r\n--" + boundary + "\r\n" + "Content-Type: " + attachment.mimeType + "\r\n" + attachment.disposition;
    HeaderIs(attachment, boundary);
    EncodingLine(attachment.cte);
    hide PartHeader, EncodingName;
    match attachment.cte {
      case CteBase64 => header := header + "Content-Transfer-Encoding: base64\r\n";
      case Cte7Bit => header := header + "Content-Transfer-Encoding: 7bit\r\n";
      case Cte8Bit => header := header + "Content-Transfer-Encoding: 8bit\r\n";
      case CteBinary => header := header + "Content-Transfer-Encoding: binary\r\n";
    }
    header := header + "\r\n";
    target := target + header;
    error := None;
  }

  lemma HeaderIs(a: Attachment, boundary: string)
    ensures
      var start := "\r\n--" + boundary + "\r\n" + "Content-Type: " + a.mimeType + "\r\n" + a.disposition;
      PartHeader(a, boundary) == start + ("Content-Transfer-Encoding: " + EncodingName(a.cte) + "\r\n") + "\r\n"
  {
  }

  lemma EncodingLine(cte: Cte)
    ensures
      "Content-Transfer-Encoding: " + EncodingName(cte) + "\r\n"
      == match cte
         case CteBase64 => "Content-Transfer-Encoding: base64\r\n"
         case Cte7Bit => "Content-Transfer-Encoding: 7bit\r\n"
         case Cte8Bit => "Content-Transfer-Encoding: 8bit\r\n"
         case CteBinary => "Content-Transfer-Encoding: binary\r\n"
  {
  }

  /** A chunk for each line in base64, everything at once otherwise. */
  method WriteAttachmentBody(target0: string, attachment: Attachment) returns (target: string, error: Option<Error>)
    ensures error == BodyError(attachment)
    ensures target == if error.None? then target0 + EncodedBody(attachment) else target0
  {
    target := target0;
    if !attachment.local {
      return target, Some(NotAvailable(attachment.caption));
    }
    if attachment.data.None? {
      return target, Some(Disappeared(attachment.caption));
    }
    error := None;
    var io := attachment.data.value;
    target := CopyData(target, attachment.cte, io);
  }

  method CopyData(target0: string, cte: Cte, data: seq<Byte>) returns (target: string)
    ensures target == target0 + EncodedData(cte, data)
  {
    hide *;
    target := target0;
    var io := data;
    ghost var whole := target + EncodedData(cte, data);
    while io != []
      invariant target + EncodedData(cte, io) == whole
      decreases |io|
    {
      match cte {
        case CteBase64 =>
          var n := if |io| < 76 * 6 / 8 then |io| else 76 * 6 / 8;
          OneChunk(target, io, n);
          target := target + (Encode(io[..n]) + "\r\n");
          io := io[n..];
        case _ =>
          AllAtOnce(target, cte, io);
          target := target + Plain(io);
          io := [];
      }
    }
    NoData(target, cte);
  }

  lemma OneChunk(target: string, io: seq<Byte>, n: nat)
    requires io != [] && n == if |io| < 76 * 6 / 8 then |io| else 76 * 6 / 8
    ensures n > 0
    ensures target + (Encode(io[..n]) + "\r\n") + EncodedData(CteBase64, io[n..]) == target + EncodedData(CteBase64, io)
  {
    hide Encode, Broken;
    var line, rest := Encode(io[..n]), Base64Lines(io[n..]);
    assert n == Chunk(io);
    assert Base64Lines(io) == [line] + rest;
    BrokenCons(line, rest);
  }

  lemma AllAtOnce(target: string, cte: Cte, io: seq<Byte>)
    requires cte != CteBase64
    ensures target + Plain(io) + EncodedData(cte, []) == target + EncodedData(cte, io)
  {
  }

  lemma NoData(target: string, cte: Cte)
    ensures target + EncodedData(cte, []) == target
  {
  }

  // ----- the raw message -----

  method AsRawMessage(beginning: string, boundary: string, attachments: seq<Attachment>)
    returns (target: string, error: Option<Error>)
    ensures error == FirstError(attachments, RawError)
    ensures error.None? ==> target == RawMessage(beginning, boundary, attachments)
  {
    hide *;
    target, error := beginning, None;
    NoParts(beginning, boundary, attachments);
    if attachments == [] {
      return;
    }
    ghost var first, whole := FirstError(attachments, RawError), RawMessage(beginning, boundary, attachments);
    for n := 0 to |attachments|
      invariant StillRaw(first, whole, target, boundary, attachments, n)
    {
      var a := attachments[n];
      ghost var was := target;
      RawStep(first, whole, target, boundary, attachments, n);
      target, error := WriteAttachmentHeader(target, a, boundary);
      if error.Some? {
        return;
      }
      target, error := WriteAttachmentBody(target, a);
      if error.Some? {
        return;
      }
    }
    RawEnd(first, whole, target, boundary, attachments);
    target, error := target + ("\r\n--" + boundary + "--\r\n"), None;
  }

  /** What is written and what the attachments from `n` on add to it make up the whole; so far no error. */
  ghost predicate StillRaw(first: Option<Error>, whole: string, target: string, boundary: string,
                           attachments: seq<Attachment>, n: nat) {
    && n <= |attachments|
    && first == FirstError(attachments[n..], RawError)
    && whole == target + (Parts(attachments[n..], boundary) + Closing(boundary))
  }

  lemma NoParts(beginning: string, boundary: string, attachments: seq<Attachment>)
    ensures attachments == [] ==> FirstError(attachments, RawError).None?
    ensures attachments == [] ==> RawMessage(beginning, boundary, attachments) == beginning
    ensures attachments != [] ==>
      StillRaw(FirstError(attachments, RawError), RawMessage(beginning, boundary, attachments), beginning, boundary,
               attachments, 0)
  {
    assert attachments[0..] == attachments;
    var parts := Parts(attachments, boundary);
    assert beginning + parts + Closing(boundary) == beginning + (parts + Closing(boundary));
  }

  lemma RawStep(first: Option<Error>, whole: string, target: string, boundary: string,
                attachments: seq<Attachment>, n: nat)
    requires n < |attachments| && StillRaw(first, whole, target, boundary, attachments, n)
    ensures
      var a := attachments[n];
      && (HeaderError(a).Some? ==> first == HeaderError(a))
      && (HeaderError(a).None? && BodyError(a).Some? ==> first == BodyError(a))
      && (HeaderError(a).None? && BodyError(a).None? ==>
            StillRaw(first, whole, target + PartHeader(a, boundary) + EncodedBody(a), boundary, attachments, n + 1))
  {
    hide PartHeader, EncodedBody, HeaderError, BodyError, Closing;
    assert attachments[n..][0] == attachments[n] && attachments[n..][1..] == attachments[n + 1..];
    var a := attachments[n];
  }

  lemma RawEnd(first: Option<Error>, whole: string, target: string, boundary: string, attachments: seq<Attachment>)
    requires StillRaw(first, whole, target, boundary, attachments, |attachments|)
    ensures first.None? && whole == target + ("\r\n--" + boundary + "--\r\n")
  {
    assert Parts(attachments[|attachments|..], boundary) == "";
    assert "" + Closing(boundary) == Closing(boundary);
  }

  // ----- the pieces for CATENATE -----

  method AsCatenateData(beginning: string, boundary: string, attachments: seq<Attachment>)
    returns (target: seq<Piece>, error: Option<Error>)
    ensures error == FirstError(attachments, CatenateError)
    ensures error.None? ==> target == CatenateMessage(beginning, boundary, attachments)
  {
    hide *;
    target, error := [TextPiece(beginning)], None;
    NoPieces(beginning, boundary, attachments);
    if attachments == [] {
      return;
    }
    ghost var first, whole := FirstError(attachments, CatenateError), CatenateMessage(beginning, boundary, attachments);
    for n := 0 to |attachments|
      invariant target != []
      invariant Catenating(first, whole, Finished(target), OpenPiece(target), boundary, attachments, n)
    {
      var a := attachments[n];
      target := OpenText(target);
      var done, text := target[..|target| - 1], target[|target| - 1].text;
      CatenateStep(first, whole, done, text, boundary, attachments, n);
      text, error := WriteAttachmentHeader(text, a, boundary);
      if error.Some? {
        return;
      }
      if a.imapUrl == "" {
        text, error := WriteAttachmentBody(text, a);
        if error.Some? {
          return;
        }
        target := done + [TextPiece(text)];
      } else {
        target := done + [TextPiece(text)] + [UrlPiece(a.imapUrl)];
      }
    }
    target := OpenText(target);
    var done, text := target[..|target| - 1], target[|target| - 1].text;
    CatenateEnd(first, whole, done, text, boundary, attachments);
    target := done + [TextPiece(text + ("\r\n--" + boundary + "--\r\n"))];
    error := None;
  }

  /** The pieces that are finished, and the text of the open one. */
  function Finished(target: seq<Piece>): seq<Piece>
    requires target != []
  {
    if target[|target| - 1].TextPiece? then target[..|target| - 1] else target
  }

  function OpenPiece(target: seq<Piece>): string
    requires target != []
  {
    if target[|target| - 1].TextPiece? then target[|target| - 1].text else ""
  }

  /** Behind a URL a new piece of text is begun. */
  method OpenText(target0: seq<Piece>) returns (target: seq<Piece>)
    requires target0 != []
    ensures target != [] && target[|target| - 1].TextPiece?
    ensures target == Finished(target0) + [TextPiece(OpenPiece(target0))]
    ensures target[..|target| - 1] == Finished(target0) && target[|target| - 1].text == OpenPiece(target0)
  {
    target := target0;
    if !target[|target| - 1].TextPiece? {
      target := target + [TextPiece("")];
    }
  }

  /** What is finished, what is open and what the attachments from `n` on add to it make up the whole. */
  ghost predicate Catenating(first: Option<Error>, whole: seq<Piece>, done: seq<Piece>, text: string, boundary: string,
                             attachments: seq<Attachment>, n: nat) {
    && n <= |attachments|
    && first == FirstError(attachments[n..], CatenateError)
    && whole == done + Pieces(text, attachments[n..], boundary)
  }

  lemma NoPieces(beginning: string, boundary: string, attachments: seq<Attachment>)
    ensures attachments == [] ==> FirstError(attachments, CatenateError).None?
    ensures attachments == [] ==> CatenateMessage(beginning, boundary, attachments) == [TextPiece(beginning)]
    ensures attachments != [] ==>
      Catenating(FirstError(attachments, CatenateError), CatenateMessage(beginning, boundary, attachments),
                 Finished([TextPiece(beginning)]), OpenPiece([TextPiece(beginning)]), boundary, attachments, 0)
  {
    hide Pieces, CatenateError;
    assert attachments[0..] == attachments;
    assert Finished([TextPiece(beginning)]) == [];
  }

  lemma CatenateStep(first: Option<Error>, whole: seq<Piece>, done: seq<Piece>, text: string, boundary: string,
                     attachments: seq<Attachment>, n: nat)
    requires n < |attachments| && Catenating(first, whole, done, text, boundary, attachments, n)
    ensures
      var a := attachments[n];
      var more := text + PartHeader(a, boundary);
      && (HeaderError(a).Some? ==> first == HeaderError(a))
      && (HeaderError(a).None? && a.imapUrl == "" && BodyError(a).Some? ==> first == BodyError(a))
      && (HeaderError(a).None? && a.imapUrl == "" && BodyError(a).None? ==>
            var target := done + [TextPiece(more + EncodedBody(a))];
            Catenating(first, whole, Finished(target), OpenPiece(target), boundary, attachments, n + 1))
      && (HeaderError(a).None? && a.imapUrl != "" ==>
            var target := done + [TextPiece(more)] + [UrlPiece(a.imapUrl)];
            Catenating(first, whole, Finished(target), OpenPiece(target), boundary, attachments, n + 1))
  {
    hide PartHeader, EncodedBody, HeaderError, BodyError, Pieces;
    var a, more := attachments[n], text + PartHeader(attachments[n], boundary);
    PiecesStep(text, boundary, attachments, n);
    assert attachments[n..][0] == a && attachments[n..][1..] == attachments[n + 1..];
    if a.imapUrl == "" {
      var target := done + [TextPiece(more + EncodedBody(a))];
      assert Finished(target) == done && OpenPiece(target) == more + EncodedBody(a);
    } else {
      var target := done + [TextPiece(more)] + [UrlPiece(a.imapUrl)];
      assert Finished(target) == target && OpenPiece(target) == "";
      var rest := Pieces("", attachments[n + 1..], boundary);
      assert done + ([TextPiece(more), UrlPiece(a.imapUrl)] + rest) == target + rest;
    }
  }

  lemma PiecesStep(text: string, boundary: string, attachments: seq<Attachment>, n: nat)
    requires n < |attachments|
    ensures
      var a, more := attachments[n], text + PartHeader(attachments[n], boundary);
      Pieces(text, attachments[n..], boundary)
      == if a.imapUrl == "" then Pieces(more + EncodedBody(a), attachments[n + 1..], boundary)
         else [TextPiece(more), UrlPiece(a.imapUrl)] + Pieces("", attachments[n + 1..], boundary)
  {
    hide PartHeader, EncodedBody;
    assert attachments[n..][0] == attachments[n] && attachments[n..][1..] == attachments[n + 1..];
  }

  lemma CatenateEnd(first: Option<Error>, whole: seq<Piece>, done: seq<Piece>, text: string, boundary: string,
                    attachments: seq<Attachment>)
    requires Catenating(first, whole, done, text, boundary, attachments, |attachments|)
    ensures first.None? && whole == done + [TextPiece(text + ("\r\n--" + boundary + "--\r\n"))]
  {
    hide CatenateError;
    assert attachments[|attachments|..] == [];
    assert Closing(boundary) == "\r\n--" + boundary + "--\r\n";
  }
}
