# Trojita: formatting, sending and replying

This project models the algorithms of the Trojita mail client that turn a received mail into HTML, find the next
unread message, submit a message, quote and address a reply and serialise what is sent, and proves what they promise.

- **Plain text to HTML.** `Text`, `Markup` (the written tokens and a reader of them), `Entities` (escaping and
  unescaping), `LineMarkup` and `LineMarkupFacts` (links, addresses and emphasis in one line), `QuoteLines`,
  `QuoteLinesFacts` and `QuoteMarksFacts` (quote depths and the merging of lines), `SignatureFacts` (the separator as a
  regular expression), `JoinedText`, `JoinComparison` and `FlowedFacts` (the flowed modes against RFC 3676),
  `QuotedContent` (what a quoted line says, without the program's own stripping) and `MailLines` (the same on whole
  mails), `EscapedInk` and `ContentInk` (the characters other than line ends), `QuoteTree` and `QuoteTreeFacts` (the
  markup as a recursive function of the nested quotations, and what a reader makes of it), `QuoteStack` and
  `PlainTextFormatter` (the one-pass formatter with its stack of controls, proved to write that function),
  `PlainTextToHtml` (all three passes, end to end), `MarkupLexing` and `HtmlReader` (the same on the level of the
  written string), `StyleReader` (emphasis as it is read from the string), `QuoteControls` (the controls of the written
  page), `CollapsedQuotes` (what is on view for every state of the controls), `QuoteToggles` (the labels that switch
  them) and `CopiedText` (the quote marks in the text).
- **The unread walk.** `UnreadWalk`: both walks over a tree of threads, against preorder; `NearestUnread`: what they
  find.
- **Submission.** `Submission` (the object and its slots), `SubmissionRuns` (all runs against an environment that
  answers each task once), `SubmissionSafety` (the protocol), `SubmissionDelivery` (what the delivery agent gets),
  `SubmissionCourse` (which steps an attempt takes), `UnaskedBytes` (when the bytes do not matter) and `StaleUid` (what
  the agent gets when the server does not report UIDs).
- **Quoting in a reply.** `QuoteText` and `QuoteTextFacts`.
- **Serialisation.** `Base64`, `MessageIdHeader`, `MessageComposer`, `MessageComposerFacts` and `MimeReader`.
- **Recipients.** `Recipients`, `RecipientsFacts` and `ReplyFacts`.
- **Searching and buffering.** `FindWithUnknown`, `RingBuffer`, `SearchConditions`.

Loops of the program are methods with loops, proved against functions; lemmas about these functions state the
results. Results about pattern matching hold for every matcher of the pattern's shape: it finds a nonempty match with
contiguous captures and sees only the part of the line that is still to be scanned. Results about a submission hold
for every run in which `send()` is called when nothing is under way and every task ends once.

Where the code does not do what one would expect, the code is modelled and the exact condition is proved:

- the inside of an emphasised word is escaped twice, so that a mail `*&*` is not shown as it was written
  (`LineMarkupFacts.ReaderSeesTheLine`, `PlainTextToHtml.ReaderSeesTheMail`);
- the flowed modes swallow a blank line behind a flowed line, keep the stuffing space of section 4.4 of RFC 3676 and
  take a quoted signature separator for a flowed line (`FlowedFacts.FlowedMeetsRfc`); with DelSp the space is deleted
  before the formatter looks whether the line is flowed, so that a line needs two spaces at its end to be joined
  (`FlowedFacts.DelSpMeetsRfc`);
- all white space and further marks behind the quote marks are stripped, where only one blank belongs to the quotation,
  so that a quoted line loses its indentation (`MailLines.PlainMailReadsBack`, `MailLines.FlowedMailMeetsRfc`,
  `MailLines.DelSpMailMeetsRfc`, `PlainTextToHtml.ReaderSeesTheMail`);
- a tab between quote marks is stripped but ends the count of the marks (`QuoteMarksFacts.StrippedMarks`), and a mark
  behind a blank counts, where section 4.5 of RFC 3676 takes it for text (`QuoteMarksFacts.DepthMeetsRfc`). What a
  quoted line says is taken to begin behind the marks that the program counts;
- some configurations hand an empty message to the delivery agent (`SubmissionDelivery.SafeConfigurations`), and the
  UID pair of an earlier attempt is not cleared, so that with a server that does not report UIDs an earlier message
  can be sent (`StaleUid.AnyServer`, `StaleUid.StalePair`);
- from a current index outside column 0 the walk to the next unread message passes over the replies, and both walks
  can come back to the message they started from (`UnreadWalk.ColumnMatters` for the forward walk,
  `UnreadWalk.ColumnMattersBack` for the backward one);
- the character count of the wrapping loop starts one too low behind the first wrap (`QuoteText.WrapContent`);
- the comment at line 288 of MessageListWidget.cpp speaks of a conjunction; the words it builds are a disjunction
  (`SearchConditions.ConditionsMean`).

`dafny verify dfyconfig.toml` checks the whole project.

## Model

| member | source | states |
|---|---|---|
| LineMarkup.HtmlifySingleLine | src/trojita/src/Composer/PlainTextFormatter.cpp:40-137 | The loop that edits the escaped line in place writes exactly the markup of the recursive reference `Htmlify`, for every matcher of the pattern's shape; it ends although escaping lengthens the argument of the recursive call |
| LineMarkup.Replace | src/trojita/src/Composer/PlainTextFormatter.cpp:104-132 | The replacement of one match, written out: `<a href="` with the link, or with `mailto:` and the address, around its text; or the emphasised word in `<b>`, `<i>` or `<u>` for the marks `*`, `/` and `_`, with its two marks in their spans and its inside formatted in turn |
| StyleReader.EmphasisIsRead | src/trojita/src/Composer/PlainTextFormatter.cpp:104-132 | Read back from the written string, the text between two `*` is bold, between two `/` italic and between two `_` underlined, its marks too, and nothing around it is |
| LineMarkup.EscapeKeepsMarks | src/trojita/src/Composer/PlainTextFormatter.cpp:77-82 | Escaping adds none of the characters `*`, `/` and `_` |
| LineMarkup.InnerHasFewerMarks | src/trojita/src/Composer/PlainTextFormatter.cpp:108-130 | The text of the recursive call, escaped again, has at least two of these characters less than the text that is scanned |
| LineMarkup.Turn | src/trojita/src/Composer/PlainTextFormatter.cpp:88-135 | One turn of the loop keeps finished markup plus unscanned text equal to the line, and leaves a shorter unscanned rest |
| LineMarkupFacts.ScanShowsItsText | src/trojita/src/Composer/PlainTextFormatter.cpp:84-137 | Wherever it stands, the markup of a line leaves all open elements as they were and shows exactly its text: it is well nested |
| LineMarkupFacts.DroppingTags | src/trojita/src/Composer/PlainTextFormatter.cpp:77-137 | Dropping the tags gives back the escaped line if and only if no emphasised word holds a character that needed escaping; otherwise the text has grown |
| Entities.UnescapeEscape | src/trojita/src/Composer/PlainTextFormatter.cpp:77-82 | A browser that resolves the four entities reads the line that was escaped |
| Entities.EscapeUnescape | src/trojita/src/Composer/PlainTextFormatter.cpp:77-82 | The other way round: text in which the four special characters stand only as entities is what escaping makes of what a browser reads |
| LineMarkupFacts.ScanReads | src/trojita/src/Composer/PlainTextFormatter.cpp:77-137 | Formatting neither cuts an entity in two nor puts one together: the text it shows is escaped text wherever the scanned text is, also inside a word that is escaped again |
| LineMarkupFacts.ReaderSeesTheLine | src/trojita/src/Composer/PlainTextFormatter.cpp:40-137 | The text with its entities resolved is the line as it was written if and only if no emphasised word holds a character that needed escaping, and so is the escaped text the escaped line; a line without `&`, `<`, `>` and `"` comes back unchanged |
| LineMarkupFacts.EscapedTwice | src/trojita/src/Composer/PlainTextFormatter.cpp:77-130 | The line `*&*` is a case where the inside of the emphasis is escaped twice: even with its entities resolved the text is not the line |
| LineMarkupFacts.HtmlifyIsContained | src/trojita/src/Composer/PlainTextFormatter.cpp:77-137 | No text or link target of the markup holds `<`, `>` or `"` |
| QuoteLines.QuoteLevel | src/trojita/src/Composer/PlainTextFormatter.cpp:224-230 | The counting loop gives the number of quote marks a line starts with, blanks between them ignored |
| QuoteLines.FirstPass | src/trojita/src/Composer/PlainTextFormatter.cpp:205-233 | Every line of the text gets its depth: the separator mark, nothing behind a signature separator, else its quote level |
| SignatureFacts.SeparatorMatches | src/trojita/src/Composer/PlainTextFormatter.cpp:181-187 | A line is a signature separator if and only if the regular expression of line 186 matches it, by the meaning of literals, alternatives, repetitions and options |
| SignatureFacts.BodyEndsAt | src/trojita/src/Composer/PlainTextFormatter.cpp:205-240 | The body of a mail is what stands in front of the first line that this expression matches |
| SignatureFacts.QuoteEndsAt | src/trojita/src/Gui/MessageView.cpp:315-320 | A quote in a reply takes up what stands in front of the first such line, every character one level deeper |
| QuoteLines.MergeLine | src/trojita/src/Composer/PlainTextFormatter.cpp:240-286 | One line is stripped and either appended to the block in front of it in the way of the mode, or left as the start of a block |
| QuoteLines.SecondPass | src/trojita/src/Composer/PlainTextFormatter.cpp:235-287 | The pass that edits and erases in place gives the maximal runs of equally deep lines in front of the first signature separator, each glued together, and the rest as it was |
| QuoteLines.BlocksSnoc | src/trojita/src/Composer/PlainTextFormatter.cpp:256-286 | Absorbing line after line builds exactly the maximal runs |
| QuoteMarksFacts.StrippedMarks | src/trojita/src/Composer/PlainTextFormatter.cpp:200-243 | The marks that are stripped are the marks that are counted if and only if there is nothing but blanks and marks in front of each stripped mark |
| QuoteMarksFacts.TabbedMarks | src/trojita/src/Composer/PlainTextFormatter.cpp:200-243 | With a tab between two quote marks both are stripped and one is counted |
| QuoteMarksFacts.DepthMeetsRfc | src/trojita/src/Composer/PlainTextFormatter.cpp:200-231 | The depth of a line is the number of marks it starts with, as section 4.5 of RFC 3676 has it, if and only if no mark stands behind blanks that follow a mark |
| QuotedContent.UnquoteTakesTheMarks | src/trojita/src/Composer/PlainTextFormatter.cpp:200-231 | What is taken from a quoted line as its marks are exactly the marks that are counted, with the blanks between them, and what remains has no mark behind nothing but blanks |
| QuotedContent.StripIs | src/trojita/src/Composer/PlainTextFormatter.cpp:200-243 | Stripping takes from what a quoted line says, behind its marks and one blank, all white space and marks at its start; nothing if and only if it starts with neither |
| QuoteLinesFacts.MergedShape | src/trojita/src/Composer/PlainTextFormatter.cpp:239-314 | The merged blocks alternate in depth up to the first signature separator, and everything from there on is untouched |
| QuoteLinesFacts.PlainRoundTrip | src/trojita/src/Composer/PlainTextFormatter.cpp:264-286 | In plain mode, cutting the blocks made of single lines at their newlines gives back exactly these lines, each at its depth |
| QuoteLinesFacts.MergeUnmerge | src/trojita/src/Composer/PlainTextFormatter.cpp:264-286 | The other way round: blocks of alternating depth are what merging makes of their lines |
| QuoteLinesFacts.MergeKeepsInk | src/trojita/src/Composer/PlainTextFormatter.cpp:256-286 | In every mode merging changes no character but CR and LF and moves none to another depth: lines of different depth are never joined (section 4.5 of RFC 3676) |
| MailLines.PlainMailReadsBack | src/trojita/src/Composer/PlainTextFormatter.cpp:205-287 | For every text in plain mode: cutting the blocks in front of the signature at their newlines gives back every line of the text there, stripped and at its depth, and from the separator on the lines stand unchanged. The lines come back with all they say behind their marks and one blank if and only if no quoted line goes on with further white space or marks |
| MailLines.SpacesAreLost | src/trojita/src/Composer/PlainTextFormatter.cpp:200-243 | The line `>  a` is one that says ` a` and comes back as `a` |
| JoinedText.GlueJoins | src/trojita/src/Composer/PlainTextFormatter.cpp:264-286 | The formatter joins a line to the text in front of it exactly where that text ends in a space: behind a flowed line, and behind the blank lines that follow one |
| JoinComparison.JoinsDecide | src/trojita/src/Composer/PlainTextFormatter.cpp:264-286 | Two ways to join the same lines, one of them the formatter's, give the same text if and only if they leave out the same line breaks |
| JoinComparison.PiecesDecide | src/trojita/src/Composer/PlainTextFormatter.cpp:240-286 | The same where the lines of the other way have CRs in front that the formatter has stripped: the texts are the same if and only if the breaks are and the lines are, but for an empty line that is a CR there and joined to the next one |
| FlowedFacts.FlowedMeetsRfc | src/trojita/src/Composer/PlainTextFormatter.cpp:269-283 | In flowed mode the joined text is the one that sections 4.1, 4.3 and 4.4 of RFC 3676 ask for, with stuffing spaces deleted, if and only if no line is stuffed, no flowed line is a signature separator or stands in front of one, and no blank line stands between a flowed line and a further line |
| FlowedFacts.BlankIsJoined | src/trojita/src/Composer/PlainTextFormatter.cpp:269-283 | The lines `a `, an empty one and `b` become `a b`, where the empty line should end the paragraph |
| FlowedFacts.StuffingIsKept | src/trojita/src/Composer/PlainTextFormatter.cpp:269-283 | The lines `a ` and ` b` become `a  b` with two spaces, where the second is stuffing |
| FlowedFacts.DelSpMeetsRfc | src/trojita/src/Composer/PlainTextFormatter.cpp:245-283 | With DelSp the text joined after the deletion is the one RFC 3676 asks for, with the space of each flowed line deleted and the lines joined, if and only if there is no signature separator, nothing but a blank line is stuffed, and in front of a further line every flowed line ends in two spaces, or is only its space behind a flowed line, and no blank line follows a flowed one; CR at the line ends is covered |
| FlowedFacts.BlankIsJoinedChopped | src/trojita/src/Composer/PlainTextFormatter.cpp:245-283 | With DelSp the lines `a  `, an empty one and `b` become `a b`: the empty line is joined to the next without two spaces |
| MailLines.BlockIsRun | src/trojita/src/Composer/PlainTextFormatter.cpp:256-286 | Block after block is glued from the maximal runs of lines, which follow each other |
| QuotedContent.QuotedMeetsRfc | src/trojita/src/Composer/PlainTextFormatter.cpp:200-283 | Flowed lines of a quotation, stripped and joined, are the text that RFC 3676 asks for if and only if no line goes on behind its marks and one blank with white space or marks, no flowed line is a signature separator or stands in front of one, and no blank line stands between a flowed line and a further line |
| QuotedContent.QuotedDelSpMeetsRfc | src/trojita/src/Composer/PlainTextFormatter.cpp:200-283 | With DelSp the condition is that there is no signature separator, that no line goes on so but with nothing but its deleted space, and the ends of lines of `DelSpMeetsRfc` |
| QuotedContent.QuotedSpaceIsLost | src/trojita/src/Composer/PlainTextFormatter.cpp:200-283 | The flowed lines `>  a ` and `> b` become `a b`, where they say ` a b` |
| MailLines.FlowedMailMeetsRfc | src/trojita/src/Composer/PlainTextFormatter.cpp:205-287 | For every text in flowed mode and every block in front of the signature: the block has the text that RFC 3676 asks for of what its lines say behind their marks if and only if every quoted line goes on with no further white space or mark, no unquoted line is stuffed, and the line ends are as in `FlowedMeetsRfc` |
| MailLines.DelSpMailMeetsRfc | src/trojita/src/Composer/PlainTextFormatter.cpp:205-287 | The same with DelSp, where a quoted line may also be nothing but its deleted space, an unquoted one may be stuffed blank text, and the line ends are as in `DelSpMeetsRfc` |
| QuoteStack.CloseQuotesUpTo | src/trojita/src/Composer/PlainTextFormatter.cpp:159-179 | Closing writes one end per level, with the label and the two spans exactly for the levels on the control stack, and pops these |
| QuoteStack.PopAllStacked | src/trojita/src/Composer/PlainTextFormatter.cpp:167-178 | Levels on the control stack rise strictly and lie within 1 and the quote level, after closing as well |
| QuoteStack.PushStacked | src/trojita/src/Composer/PlainTextFormatter.cpp:352-353 | Entering a level, with a control or without, keeps the stack so |
| QuoteStack.PendingCloses | src/trojita/src/Composer/PlainTextFormatter.cpp:304-319 | In front of a shallower block the ends of the open quotations are exactly what the reference has still to write |
| QuoteStack.PendingOpens | src/trojita/src/Composer/PlainTextFormatter.cpp:337-472 | In front of a deeper block the reference goes on with the start of one more quotation: a control if the level has text of its own, a bare blockquote otherwise |
| QuoteStack.PendingBlock | src/trojita/src/Composer/PlainTextFormatter.cpp:473-495 | At the depth of the block the reference goes on with the block itself, once, and its line end |
| PlainTextFormatter.RenderWithMarks | src/trojita/src/Composer/PlainTextFormatter.cpp:403-406 | Repeating the quote marks behind every newline of the written markup is the same as repeating them in its text |
| PlainTextFormatter.PreviewText | src/trojita/src/Composer/PlainTextFormatter.cpp:356-407 | The preview of a level: the mark for what is skipped, with the closest skipped depth and a label for the level's checkbox, then the shortened block |
| PlainTextFormatter.FindOwnText | src/trojita/src/Composer/PlainTextFormatter.cpp:348-420 | Whether the level that is entered has text of its own, and where |
| PlainTextFormatter.OnlyQuotesBehind | src/trojita/src/Composer/PlainTextFormatter.cpp:414-426 | Whether only quotations and empty text follow up to the signature or the end |
| PlainTextFormatter.LevelSize | src/trojita/src/Composer/PlainTextFormatter.cpp:428-437 | The characters and lines of the level with everything nested in it |
| PlainTextFormatter.LevelStart | src/trojita/src/Composer/PlainTextFormatter.cpp:446-472 | The elements that start a level with a control, short, collapsed or expanded |
| PlainTextFormatter.EnterLevel | src/trojita/src/Composer/PlainTextFormatter.cpp:337-480 | One more level is entered and, when it is the depth of the block, the block follows: what is written and what is still to come stay the same document |
| PlainTextFormatter.OpenQuotes | src/trojita/src/Composer/PlainTextFormatter.cpp:334-481 | The level loop always reaches the block: behind it the block has been written exactly once |
| PlainTextFormatter.EmitBlock | src/trojita/src/Composer/PlainTextFormatter.cpp:314-496 | One block with the quotations that end or start in front of it, and the control stack in order |
| PlainTextFormatter.StartSignature | src/trojita/src/Composer/PlainTextFormatter.cpp:297-303 | The first separator closes all quotations and controls and opens the signature |
| PlainTextFormatter.FormatBlocks | src/trojita/src/Composer/PlainTextFormatter.cpp:289-511 | The one-pass formatter with its running level, id counter and control stack writes exactly the recursive reference `Document`; the assertions at lines 314 and 509 hold |
| QuoteTreeFacts.FeedSegment | src/trojita/src/Composer/PlainTextFormatter.cpp:295-496 | A run of blocks inside `level` blockquotes: every block once, in order, inside as many blockquotes as it is deep, all elements closed again, controls numbered on |
| QuoteTreeFacts.FeedQuotation | src/trojita/src/Composer/PlainTextFormatter.cpp:334-481 | One quotation, with everything nested in it, seen by a reader |
| QuoteTreeFacts.FeedPreview | src/trojita/src/Composer/PlainTextFormatter.cpp:356-407 | A preview is hidden where its region is; where it is on view, it is the mark for what is skipped, as deep as the shallowest of it, and then the shortened block at the depth of its level. It is well nested, and its labels name the checkbox of their level |
| QuoteTreeFacts.FeedOmitted | src/trojita/src/Composer/PlainTextFormatter.cpp:361-391 | The mark for skipped quotations stands in blockquotes of its own, down to the depth of the shallowest of them |
| QuoteTreeFacts.FeedOpening | src/trojita/src/Composer/PlainTextFormatter.cpp:446-472 | The start of a quotation with a control, for every state of its checkbox: the short form is on view if and only if the quotation is not too short to have one and the checkbox is checked, and the full form is left open |
| QuoteTreeFacts.FeedSignature | src/trojita/src/Composer/PlainTextFormatter.cpp:297-312 | The signature is shown outside all blockquotes, in a signature span that holds it and nothing else |
| QuoteTreeFacts.DocumentReads | src/trojita/src/Composer/PlainTextFormatter.cpp:289-511 | For every mail and matcher the markup is well nested, every label names the checkbox of its innermost enclosing level, with all quotations expanded each block is shown exactly once in order at its depth with its line end, the checkboxes are 1, 2, 3 and so on, and the signature span holds exactly the signature |
| MarkupLexing.TagsOfRender | src/trojita/src/Composer/PlainTextFormatter.cpp:77-82 | Cutting written markup at its angle brackets gives back its tags one by one |
| MarkupLexing.DocumentTags | src/trojita/src/Composer/PlainTextFormatter.cpp:289-511 | The tags of the whole written document are exactly its tokens: no mail text can add one |
| HtmlReader.NumberReadsBack | src/trojita/src/Composer/PlainTextFormatter.cpp:367-472 | A written number is read back by its digits |
| HtmlReader.DecimalIsInjective | src/trojita/src/Composer/PlainTextFormatter.cpp:440-472 | Different numbers are written differently, so that no two checkboxes of a page have the same id |
| HtmlReader.RenderReads | src/trojita/src/Composer/PlainTextFormatter.cpp:289-511 | A reader of strings, with its own tables of elements, classes and attributes, reads back every tag of written markup |
| QuoteControls.DocumentIsRead | src/trojita/src/Composer/PlainTextFormatter.cpp:289-511 | So for the whole page: reading the written string comes to the same as reading its tokens |
| QuoteControls.QuotationsAre | src/trojita/src/Composer/PlainTextFormatter.cpp:334-420 | The quotations that have text of their own, each once: in the order of their blocks, an outer one in front of the inner ones |
| QuoteControls.ControlsAre | src/trojita/src/Composer/PlainTextFormatter.cpp:414-472 | A reader of the written page finds one control for each of these quotations, in this order, with the ids 1, 2, 3 and so on, as deep as the quotation and where its text begins. It has nothing to be checked if and only if the quotation begins at its own depth and has at most five lines and 800 characters; any other starts expanded if and only if it is at the first level, a nonempty unquoted block stands behind it in front of the signature, and it has less than ten lines and 1600 characters |
| CollapsedQuotes.SegmentSeen | src/trojita/src/Composer/PlainTextFormatter.cpp:334-496 | What is on view of nested quotations, whichever checkboxes are checked: of a quotation whose checkbox is, nothing but its short form |
| CollapsedQuotes.CollapsedReads | src/trojita/src/Gui/SimplePartWidget.cpp:114-136 | With the style sheet of the page, and whichever of its checkboxes are checked, a reader of the written page sees the blocks one by one, in order and at their depths with their line ends, but in the place of each outermost quotation that is shut the mark for what is skipped, its shortened first block and three dots; and always the signature |
| QuoteToggles.EveryControlHasALabel | src/trojita/src/Gui/SimplePartWidget.cpp:127-136 | Whichever checkboxes are checked, the labels on view are those of exactly the controls on view: a quotation can be closed and opened again wherever it stands |
| QuoteToggles.QuotationBalanced | src/trojita/src/Composer/PlainTextFormatter.cpp:167-176 | So within every quotation, wherever it stands: its own label is on view, in its short or in its full form, if and only if its control is |
| CopiedText.LinesAreMarked | src/trojita/src/Composer/PlainTextFormatter.cpp:393-406 | In the text of a page every line of a quoted block stands behind as many quote marks as the block is deep, and one blank; an unquoted one has none |
| CopiedText.OmittedIsMarked | src/trojita/src/Composer/PlainTextFormatter.cpp:361-391 | So does the mark for skipped quotations, by the depth of the shallowest of them |
| PlainTextToHtml.ParsedShape | src/trojita/src/Composer/PlainTextFormatter.cpp:205-314 | After the first two passes, the third is given blocks of alternating, nonnegative depth and then the signature |
| PlainTextToHtml.PlainTextToHtml | src/trojita/src/Composer/PlainTextFormatter.cpp:198-511 | The three passes together write the reference document of the text |
| ContentInk.ContentsInk | src/trojita/src/Composer/PlainTextFormatter.cpp:200-287 | In every mode, what is stripped from the lines besides their marks and one blank is never shown with an `a`, and the escaped characters are the same if and only if nothing but CRs is stripped so |
| LineMarkupFacts.ScanKeepsWeight | src/trojita/src/Composer/PlainTextFormatter.cpp:77-137 | Whenever a word is escaped twice, one `a` more is shown for four characters more |
| PlainTextToHtml.ReaderSeesTheMail | src/trojita/src/Composer/PlainTextFormatter.cpp:198-511 | For every text and every mode the page is well formed, and its visible characters are, line ends aside, the escaped ones of what the lines of the mail say behind their quote marks and one blank (with DelSp without the deleted spaces), in order, each inside as many blockquotes as its line is quoted deep, if and only if no emphasised word of any block holds a character that needed escaping and no quoted line goes on behind its marks and one blank with a further mark or white space other than CR (with DelSp, a line that says nothing may hold its deleted space) |
| PlainTextToHtml.MailEscapedTwice | src/trojita/src/Composer/PlainTextFormatter.cpp:198-511 | The mail `*&*` is one that is not shown so |
| UnreadWalk.StepOn | src/trojita/src/Gui/Window.cpp:1298-1313 | One turn of the forward loop is the step to the next index |
| UnreadWalk.StepBack | src/trojita/src/Gui/Window.cpp:1334-1344 | One turn of the backward loop is the step to the previous index |
| UnreadWalk.LastLeaf | src/trojita/src/Gui/Window.cpp:1335-1350 | The descent to the last leaf, and its assertion that the child exists |
| UnreadWalk.PreorderLinked | src/trojita/src/Gui/Window.cpp:1298-1344 | Forward steps run through the preorder of the tree, backward steps through its reverse |
| UnreadWalk.Listed | src/trojita/src/Gui/Window.cpp:1286-1352 | The preorder holds every index of the tree |
| UnreadWalk.ListedOnce | src/trojita/src/Gui/Window.cpp:1286-1352 | It holds none twice |
| UnreadWalk.StepsUndo | src/trojita/src/Gui/Window.cpp:1298-1344 | A forward and a backward step undo each other; only the last and the first index lack one |
| UnreadWalk.FirstUnreadIsFirst | src/trojita/src/Gui/Window.cpp:1292-1296 | The first unread index of an order has only read ones in front of it, and there is none exactly when all are read |
| UnreadWalk.SlotNextUnread | src/trojita/src/Gui/Window.cpp:1286-1320 | From a current index in any column the walk ends, wraps at most once, and finds the first unread message of its order: in column 0 all others in cyclic preorder from the current one on, in another column cyclic preorder from the end of the thread on; none if none is unread |
| UnreadWalk.SlotPreviousUnread | src/trojita/src/Gui/Window.cpp:1322-1352 | The same backwards: all others in cyclic reverse preorder, and from another column than 0 the current message at the end |
| NearestUnread.NextIsNearest | src/trojita/src/Gui/Window.cpp:1286-1320 | Of all unread messages that the forward walk may stop at, it finds the one with the fewest places of the preorder on the way on and round the tree, and none if and only if all of them are read |
| NearestUnread.PreviousIsNearest | src/trojita/src/Gui/Window.cpp:1322-1352 | The same for the backward walk and the way back |
| UnreadWalk.ThreadTogether | src/trojita/src/Imap/Model/ThreadingMsgListModel.cpp:152-222 | The replies under a message stand together behind it in preorder, and climbing from it leads to what comes behind them |
| UnreadWalk.WalkOrder | src/trojita/src/Gui/Window.cpp:1298-1313 | In column 0 the order is the replies and then everything outside the thread; in another column, where an index has no children, it is everything outside the thread, the message itself and then its replies |
| UnreadWalk.ColumnMatters | src/trojita/src/Imap/Model/ThreadingMsgListModel.cpp:152-222 | The column makes no difference to what is found if and only if: with an unread reply, the message and everything outside the thread is read; without one, the message is read or something outside is unread |
| UnreadWalk.ColumnMattersBack | src/trojita/src/Imap/Model/ThreadingMsgListModel.cpp:152-222 | Backwards the column makes no difference if and only if another message is unread or the message itself is read |
| UnreadWalk.ReplyPassedOver | src/trojita/src/Gui/Window.cpp:1286-1320 | An unread message with an unread reply: from column 1 the walk skips the reply and comes back to the message |
| Submission.Submission.SetSmtpOptions | src/trojita/src/Composer/Submission.cpp:157-166 | BURL stays off without the URLAUTH extension |
| SubmissionCourse.Configure | src/trojita/src/Gui/ComposeWidget.cpp:348-354 | The window sets both kinds of options before it sends: BURL is on if and only if it is chosen and the server can do URLAUTH. All runs start from here |
| Submission.Submission.ShouldBuildMessageLocally | src/trojita/src/Composer/Submission.cpp:384-394 | Whether the bytes are needed here |
| Submission.Submission.SlotSend | src/trojita/src/Composer/Submission.cpp:168-190 | What a call does to all fields and to the history of states, tasks and signals |
| Submission.Submission.SlotMessageDataAvailable | src/trojita/src/Composer/Submission.cpp:193-243 | Building, its two errors, then APPEND or delivery |
| Submission.Submission.SlotAskForUrl | src/trojita/src/Composer/Submission.cpp:245-259 | Its assertion is a precondition that every caller meets |
| Submission.Submission.SlotInvokeMsaNow | src/trojita/src/Composer/Submission.cpp:261-285 | Which of the three payloads the agent is given |
| Submission.Submission.SlotAppendUidKnown | src/trojita/src/Composer/Submission.cpp:335-340 | The reported pair is stored |
| Submission.Submission.SlotAppendSucceeded | src/trojita/src/Composer/Submission.cpp:347-364 | URL request, delivery, or the fallback without a valid pair |
| Submission.Submission.SlotGenUrlAuthReceived | src/trojita/src/Composer/Submission.cpp:366-376 | An empty URL is an error |
| Submission.Submission.SlotSent | src/trojita/src/Composer/Submission.cpp:305-333 | The flag update or the end |
| Submission.Submission.SlotUpdatingFlagsEnded | src/trojita/src/Composer/Submission.cpp:396-410 | Success, whether the flags were updated or not |
| Submission.Submission.SlotGotError | src/trojita/src/Composer/Submission.cpp:297-303 | Failure |
| SubmissionRuns.HistoryGrows | src/trojita/src/Composer/Submission.cpp:168-410 | The events every slot adds to the history |
| SubmissionRuns.StepKeeps | src/trojita/src/Composer/Submission.cpp:168-410 | Every answer of the environment keeps the protocol: the outstanding task fits the state, the states of the attempt follow the edges, deliveries and signals are counted |
| SubmissionSafety.RunKeeps | src/trojita/src/Composer/Submission.cpp:168-410 | In every reachable state at most one task is outstanding, the one of the state |
| SubmissionSafety.SentIsFinal | src/trojita/src/Composer/Submission.cpp:305-318 | An attempt reaches SENT only through SUBMITTING with one delivery, and never fails afterwards |
| SubmissionSafety.EveryAttempt | src/trojita/src/Composer/Submission.cpp:168-410 | In every run all attempts but the last have ended, and the last one is where the object is |
| SubmissionSafety.EndedOnce | src/trojita/src/Composer/Submission.cpp:297-318 | An attempt that ended delivered at most once and signalled exactly one of success and failure; a flag update that fails does not make it a failure |
| SubmissionCourse.StepFollows | src/trojita/src/Composer/Submission.cpp:168-410 | Every step keeps what the attempt has done so far in line with the options and capabilities |
| SubmissionCourse.EveryCourse | src/trojita/src/Composer/Submission.cpp:168-410 | In every run against a server that reports UIDs, every attempt: gets as far as saving or handing over if and only if there is a connection, the pieces are there where the server can do CATENATE, and the bytes are there unless it can and the message is sent by IMAP submission or by BURL with URLAUTH; is saved if and only if saving is chosen, by CATENATE if and only if the server can do it; asks for a URL before it hands over if and only if it is saved, BURL is chosen and URLAUTH is there; and hands over the UID pair if saved and sent by IMAP submission by an able agent, otherwise the URL if there is one, otherwise the bytes |
| UnaskedBytes.BytesUnasked | src/trojita/src/Composer/Submission.cpp:168-394 | Runs that differ only in what the composer says of the bytes (whether their data is there, whether they can be built, and what they are) are the same in states, tasks and signals if and only if the server can do CATENATE and the message is sent by IMAP submission or by BURL with URLAUTH |
| SubmissionDelivery.ChoiceIsMessage | src/trojita/src/Composer/Submission.cpp:273-284 | With the right fields, the payload that is chosen stands for the message |
| SubmissionDelivery.StepDelivers | src/trojita/src/Composer/Submission.cpp:168-410 | What the fields must hold is kept by every step |
| SubmissionDelivery.RunDelivers | src/trojita/src/Composer/Submission.cpp:168-410 | In a safe configuration, and with a server that reports the UID of each APPEND, every run hands over the bytes, or the nonempty URL given for the nonzero pair reported in this attempt, or that pair; for URL and pair, what the attempt appended is the bytes or the list of pieces |
| SubmissionDelivery.SafeConfigurations | src/trojita/src/Composer/Submission.cpp:261-394 | That is so for all runs if and only if the message is built locally, or it is saved and can be sent from IMAP or by BURL |
| SubmissionDelivery.EmptyWithoutSaving | src/trojita/src/Composer/Submission.cpp:240-283 | Without the sent folder a message that is not built locally is handed over empty |
| SubmissionDelivery.EmptyWithoutAgent | src/trojita/src/Composer/Submission.cpp:358-363 | So it is with IMAP submission chosen and no agent able to do it |
| StaleUid.AnyServer | src/trojita/src/Composer/Submission.cpp:261-394 | Whatever the server reports, all runs hand over the message if and only if it is built locally and, if it is saved, neither IMAP submission with an agent that can do it nor BURL is in use |
| StaleUid.StepMails | src/trojita/src/Composer/Submission.cpp:168-410 | In such a configuration every step keeps what the fields must hold, without any report |
| StaleUid.StalePair | src/trojita/src/Composer/Submission.cpp:336-364 | An APPEND that ends without a report: with BURL and a stored pair the URL of that pair is asked for; otherwise what is handed over is right if and only if the bytes are there and no stored pair is taken by IMAP submission |
| StaleUid.StaleUrl | src/trojita/src/Composer/Submission.cpp:366-376 | Where a URL was asked for with a pair that the attempt has not reported, the delivery that follows is wrong |
| StaleUid.StalePairIsSent | src/trojita/src/Composer/Submission.cpp:75-364 | A possible run of two calls that hands over the earlier message by IMAP submission |
| StaleUid.StaleUrlIsSent | src/trojita/src/Composer/Submission.cpp:75-376 | A possible run of two calls that hands over a URL of the earlier message |
| StaleUid.EmptyWithoutReport | src/trojita/src/Composer/Submission.cpp:240-364 | A message that is saved and not built locally is handed over empty when the first APPEND is not reported |
| QuoteText.CountMarks | src/trojita/src/Gui/MessageView.cpp:331-343 | The quote marks of a long line and where its content starts |
| QuoteText.QuoteString | src/trojita/src/Gui/MessageView.cpp:345-349 | One more mark than the line has, and a blank |
| QuoteText.WrapContent | src/trojita/src/Gui/MessageView.cpp:351-364 | The loop over `space`, `lastSpace`, `pos` and `length`, with its count that is off by one behind the first wrap, is greedy wrapping |
| QuoteText.QuoteTextLines | src/trojita/src/Gui/MessageView.cpp:315-374 | The whole loop over the lines, up to the signature separator |
| QuoteTextFacts.WrapKeepsText | src/trojita/src/Gui/MessageView.cpp:351-364 | The pieces put together are the content |
| QuoteTextFacts.PieceWidth | src/trojita/src/Gui/MessageView.cpp:351-364 | A piece is at most one character wider than the limit or has no space but a final one |
| QuoteTextFacts.PiecesAreFilled | src/trojita/src/Gui/MessageView.cpp:351-364 | Every piece but the last ends behind a space and could not take one word more |
| QuoteTextFacts.ShortQuote | src/trojita/src/Gui/MessageView.cpp:322-328 | A line of less than 77 characters stays one line: with one mark more if it is empty or has marks, otherwise behind a mark and a blank |
| QuoteTextFacts.LinesAreFilled | src/trojita/src/Gui/MessageView.cpp:331-364 | A longer line: every quoted line but the last could not take one word more within 65 characters with its marks, 66 behind the first |
| QuoteTextFacts.WrappedWidth | src/trojita/src/Gui/MessageView.cpp:331-364 | A wrapped line has at most 67 characters with its marks, or cannot be broken |
| QuoteTextFacts.QuoteLineReadsBack | src/trojita/src/Gui/MessageView.cpp:321-364 | The content of a line is read back from its quoted lines, and each of these is exactly one level deeper |
| QuoteTextFacts.QuoteReadsBack | src/trojita/src/Gui/MessageView.cpp:315-365 | So is the whole text in front of the signature separator, and nothing behind it, every character exactly one level deeper |
| QuoteTextFacts.QuoteFits | src/plugin/messageDetails.cpp:527-578 | Every quoted line is under 79 characters or cannot be broken; both copies of the algorithm are the same |
| Base64.Alphabet | src/trojita/src/Composer/MessageComposer.cpp:651-654 | The digits are those of Table 1 in section 6.8 of RFC 2045 |
| Base64.DecodeEncode | src/trojita/src/Composer/MessageComposer.cpp:651-654 | Decoding what the encoder makes of any bytes gives them back (section 6.8 of RFC 2045) |
| Base64.LineLength | src/trojita/src/Composer/MessageComposer.cpp:649-655 | No base64 line is longer than 76 characters, and all but the last have exactly 76 |
| Base64.LinesTogether | src/trojita/src/Composer/MessageComposer.cpp:649-659 | The chunks encoded one by one are the data encoded as a whole |
| Base64.BodyDecodes | src/trojita/src/Composer/MessageComposer.cpp:649-659 | Dropping the line breaks and decoding restores the data |
| MessageComposer.WriteAttachmentHeader | src/trojita/src/Composer/MessageComposer.cpp:609-636 | The part header, or the error of an attachment that is neither local nor on the server |
| MessageComposer.WriteAttachmentBody | src/trojita/src/Composer/MessageComposer.cpp:638-661 | The chunk loop writes the encoded data, or one of its two errors |
| MessageComposer.AsRawMessage | src/trojita/src/Composer/MessageComposer.cpp:663-682 | All parts between their delimiters, or the first error |
| MessageComposer.AsCatenateData | src/trojita/src/Composer/MessageComposer.cpp:684-726 | The list of pieces whose last text is extended in place, or the first error |
| MessageComposerFacts.RawSucceeds | src/trojita/src/Composer/MessageComposer.cpp:638-682 | The raw form succeeds if and only if every attachment is local and its data is there |
| MessageComposerFacts.CatenateSucceeds | src/trojita/src/Composer/MessageComposer.cpp:684-726 | The pieces succeed if and only if that holds of the attachments without a URL |
| MessageComposerFacts.RawImpliesCatenate | src/trojita/src/Composer/MessageComposer.cpp:663-726 | Whenever the raw form succeeds, so do the pieces |
| MessageComposerFacts.FirstFailure | src/trojita/src/Composer/MessageComposer.cpp:609-661 | Otherwise the error is about the first attachment that is needed and not at hand: not available if it is not local, disappeared if it is |
| MessageComposerFacts.CatenateAlternates | src/trojita/src/Composer/MessageComposer.cpp:684-726 | Text and URLs alternate strictly, text first and last |
| MessageComposerFacts.CatenateIsRaw | src/trojita/src/Composer/MessageComposer.cpp:663-726 | Putting each attachment's encoded body in the place of its URL makes exactly the raw message of the pieces |
| MessageComposerFacts.BodyReadsBack | src/trojita/src/Composer/MessageComposer.cpp:638-661 | The data of an attachment can be had back from its body |
| MimeReader.CutConcat | src/trojita/src/Composer/MessageComposer.cpp:663-682 | Cutting the text in front of a delimiter and the text behind it on their own gives the same parts: none is found across the end of a part |
| MimeReader.HeaderIsRead | src/trojita/src/Composer/MessageComposer.cpp:609-636 | The header of a part is read back line by line up to the empty one, and the body behind it |
| MimeReader.MessageReadsBack | src/trojita/src/Composer/MessageComposer.cpp:609-682 | A reader of multipart messages (section 5.1.1 of RFC 2046, section 6 of RFC 2045) finds behind the parts of the beginning one part for each attachment, in order, with its type, the name of its encoding, and its data, provided that the boundary occurs in no part |
| MessageIdHeader.WriteHeaderWithMsgIds | src/trojita/src/Composer/MessageComposer.cpp:587-607 | The loop with its running count writes the folded header; nothing for an empty list |
| MessageIdHeader.LineWidth | src/trojita/src/Composer/MessageComposer.cpp:596-604 | Every line is at most 78 characters long or holds exactly one id (section 2.1.1 of RFC 5322) |
| MessageIdHeader.FoldsOnlyWhenNeeded | src/trojita/src/Composer/MessageComposer.cpp:597-601 | A line is left only when the next id does not fit on it |
| MessageIdHeader.HeaderUnfolds | src/trojita/src/Composer/MessageComposer.cpp:587-607 | Unfolded (section 2.2.3 of RFC 5322) the header is its name and all ids in order |
| MessageIdHeader.HeaderReadsBack | src/trojita/src/Composer/MessageComposer.cpp:587-607 | Parsing it as a list of ids (section 3.6.4 of RFC 5322) restores the list |
| Recipients.DeduplicatedAndJustToCcBcc | src/trojita/src/Composer/Recipients.cpp:38-91 | The loops over To, Cc and Bcc with the set of addresses seen give the unseen recipients in that order, the first promoted |
| Recipients.MapRecipients | src/trojita/src/Composer/Recipients.cpp:99-115 | The erasing loop maps the kinds that have a mapping and drops the others |
| Recipients.PrepareReplyAll | src/trojita/src/Composer/Recipients.cpp:118-133 | The reply to all, or failure with the output untouched |
| Recipients.EraseOwn | src/trojita/src/Composer/Recipients.cpp:290-300 | The nested erasing loops drop exactly the recipients that match an own identity |
| Recipients.PrepareReplyAllButMe | src/trojita/src/Composer/Recipients.cpp:284-309 | The reply to all but oneself, or failure with the output untouched |
| RecipientsFacts.EachOnce | src/trojita/src/Composer/Recipients.cpp:38-91 | Each address is there once, To before Cc before Bcc, and there is no Cc without a To |
| RecipientsFacts.NobodyForgotten | src/trojita/src/Composer/Recipients.cpp:38-91 | Every To, Cc and Bcc address is there |
| RecipientsFacts.StrongestKind | src/trojita/src/Composer/Recipients.cpp:66-89 | Each comes from the strongest kind it had and keeps it, but for the first Cc when there is no To |
| RecipientsFacts.Idempotent | src/trojita/src/Composer/Recipients.cpp:38-91 | Removing duplicates again changes nothing |
| RecipientsFacts.ReplyAllReaches | src/trojita/src/Composer/Recipients.cpp:118-133 | A reply to all reaches exactly the addresses of the From, Reply-To, To, Cc and Bcc headers |
| ReplyFacts.ReplyAllIs | src/trojita/src/Composer/Recipients.cpp:118-133 | Each recipient of a reply to all comes from the first original recipient with its address, authors before Reply-To, To and Cc, these before Bcc; an author becomes To, those of the other open headers Cc, or To if they come first, and Bcc stays Bcc |
| ReplyFacts.ReplyAllInOrder | src/trojita/src/Composer/Recipients.cpp:118-133 | They stand in that order |
| ReplyFacts.AuthorsFirst | src/trojita/src/Composer/Recipients.cpp:118-133 | If there is an author, an author comes first |
| RecipientsFacts.ButMeIsTheOthers | src/trojita/src/Composer/Recipients.cpp:284-309 | A reply to all but oneself has exactly the reply-all recipients that match no own identity |
| ReplyFacts.ButMeIs | src/trojita/src/Composer/Recipients.cpp:284-309 | Each recipient of a reply to all but oneself comes from an original one in the same way, and the first of the open headers becomes To if no author is left |
| RecipientsFacts.ButMeIsErased | src/trojita/src/Composer/Recipients.cpp:301-302 | The second removal of duplicates does nothing but promote the first Cc |
| RecipientsFacts.ButMeShape | src/trojita/src/Composer/Recipients.cpp:301-306 | Again each once, in order, with a To whenever there is a Cc |
| RecipientsFacts.ButMeFails | src/trojita/src/Composer/Recipients.cpp:303-308 | It fails if and only if nobody else is left |
| FindWithUnknown.LinearLowerBound | src/trojita/src/Common/FindWithUnknown.h:34-47 | The first known element that is not less than the value, or the end |
| FindWithUnknown.LowerBound | src/trojita/src/Common/FindWithUnknown.h:49-70 | When the known elements are partitioned, the binary search gives the result of the linear one, wherever the unknown elements are |
| FindWithUnknown.OrderedIsPartitioned | src/trojita/src/Common/FindWithUnknown.h:28-33 | Ordered known elements are partitioned by every value |
| FindWithUnknown.InsertingKeepsOrder | src/trojita/src/Common/FindWithUnknown.h:28-33 | Inserting where the search ended keeps the known elements in order |
| RingBuffer.RingBuffer.Append | src/trojita/src/Common/RingBuffer.h:116-127 | The buffer stands for everything that was appended since the last clear |
| RingBuffer.RingBuffer.Clear | src/trojita/src/Common/RingBuffer.h:129-136 | Nothing is left |
| RingBuffer.RingBuffer.At | src/trojita/src/Common/RingBuffer.h:52-63 | An iterator at an offset shows that item of the most recent ones |
| RingBuffer.RingBuffer.Iterate | src/trojita/src/Common/RingBuffer.h:70-114 | Going from begin to end shows the last min(n, N) items, oldest first |
| RingBuffer.RingBuffer.SkippedCount | src/trojita/src/Common/RingBuffer.h:138-142 | The number of items lost, max(0, n - N), in the width of its counter |
| RingBuffer.AppendKeeps | src/trojita/src/Common/RingBuffer.h:116-127 | Overwriting the oldest item turns the ring on by one |
| SearchConditions.QuickSearch | src/trojita/src/Gui/MessageListWidget.cpp:256-296 | Nothing, the raw text, or the words of the search for the chosen fields |
| SearchConditions.ParseConditions | src/trojita/src/Gui/MessageListWidget.cpp:281-295 | By the grammar of section 6.4.4 of RFC 3501 the ORs take exactly the keys behind them |
| SearchConditions.ConditionsMean | src/trojita/src/Gui/MessageListWidget.cpp:268-295 | The words are one search key, and it means that SUBJECT, BODY, FROM, or any of TO, CC and BCC has the text, each if its field is chosen |

## Left out

- PlainTextToHtml.ReaderSeesTheMail: in the flowed modes the stuffing space of an unquoted line counts as a character
  of the mail here; that it should go is the matter of `MailLines.FlowedMailMeetsRfc`.
- The regular expression engine: which text the pattern for links, addresses and emphasis accepts beyond the shape of
  its captures is left to the matcher.
- `firstNLines`: the shortened text of a preview is any function of the block.
- Widths: counters, ids and positions are unbounded integers, except for the skipped count of the ring buffer; a
  character is one unit, whatever its encoding.
- The branch for Qt before 4.8, in which no quotation starts collapsed.
- The lists and the stack that `closeQuotesUpTo` and the passes change through references are variables that the
  methods take and give back.
- Setting the current index and the message view of the window: the walks give back the index they find, which is in
  column 0. A row has children exactly when its row count is not zero.
- When a UID is reported: a run may report one whenever an APPEND is under way, while AppendTask.cpp (line 81) does so
  only directly before the APPEND ends. The runs that are given as examples keep to that.
- Progress, status texts and passwords of a submission, and the addresses that go with the message.
- Options that are changed, or an IMAP connection that goes away, while a message is being sent.
- Rendering a quoted message to text, and the line that introduces the quotation.
- The common beginning of a message with its other headers, and the choice of boundary, message id and date: they are
  parameters. That the boundary does not occur in a part is not demanded, as in the program.
- MimeReader.MessageReadsBack: needs that the boundary does not occur in a part, that the disposition of an attachment
  is made of whole header lines, and that each delimiter in the beginning ends its line; white space behind a delimiter
  is not read.
- AsRawMessage: what has already been written when it reports an error is not stated, since no caller uses it.
- AsCatenateData: the same for its list of pieces.
- Replies to the sender only and to the mailing list, which read List-Post URLs, and the choice of a sender identity.
- Case folding of addresses: a parameter of the comparison with one's own identities.
- Iterators of the ring buffer that are used after a change.
- The quoting of the search text on the wire.
- Trimming of References, subject prefixes, drafts, signatures of one's own and address books: easier, or tied to
  storage and widgets.
