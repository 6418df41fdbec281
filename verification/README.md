# Proofs about ds4-agent, its KV store and its small parsers

This project models, in Dafny, the parts of the repository whose correctness is least obvious
from reading one function, and proves what they promise.

* **Tool-call stream** (`Dsml`, `DsmlResume`, `DsmlPrint`, `DsmlAccept`, `DsmlMachine`,
  `TagSplitter`, `ThinkPrinters`, `Detector`, `AgentStream`, `AgentStreamProofs`, `AgentEndToEnd`,
  `ThinkReading`, `AgentStreamMachine`).  Sampled text arrives in arbitrary pieces.  A splitter takes
  `<think>` tags out of it, a detector holds bytes that may become the opening marker of a tool
  stanza, and a resumable parser runs after every byte of the stanza.
* **Files, views and edits** (`LineSplit`, `FileView`, `EditTools`, `EditDelivery`, `EditMachine`).  The agent
  remembers a CRC32 of every line it has shown and refuses a line edit whose lines have changed
  since.  Whole runs of read, search, write and edit calls are modelled, with changes from
  outside in between, and whole conversations in which only part of the results reaches the agent.
* **Two threads** (`WakePipe`, `Headless`).  A worker and a UI share a mutex, a self-pipe with a
  `wake_pending` flag, a one-slot mailbox and a prompt queue; both are state machines over
  atomic steps, so that a sequence of steps is an interleaving.
* **Turn loop and compaction** (`ToolCalls`, `TurnLoop`, `TurnTranscript`, `TurnMachine`).  The transcript, the live
  session that caches a prefix of it, everything the engine may answer, and the tool calls that
  are run because of what it sampled.
* **KV store** (`Sha1`, `Sha1Stream`, `KvHeader`, `KvEvict`, `KvLookup`).  Streaming SHA-1
  against FIPS 180-4, the header codec, eviction, and the prefix lookup with its load.
* **Round trips** (`JsonParse`, `JsonCursor`, `JsonPrint`, `JsonAccept`, `Utf8`, `JsonString`, `TailCapture`).
  The JSON reader, the UTF-8 check with the JSON string writer, and the tail ring buffer.

`Text`, `Bytes`, `Basics` and `Options` hold what several of them share.  `dafny verify dfyconfig.toml`
checks everything.

How it is built: code that updates a structure in place is a class or a loop, and its methods
are proved equal to functions of the old state; what the program promises is then proved about
those functions.  Bytes of text are `char`s where only equality matters and numbers where
arithmetic does.  Answers the model cannot know (whether a write, an unlink, a sync or an
evaluation succeeds, which token is sampled, what time it is, when a thread runs) are inputs,
and every result holds for all of them.

## Where the code and its own description disagree

The model follows the code.  For each of these a lemma names an input that shows it, and another
says exactly when the description does hold.

* After `</think>` the comment at ds4_agent.c:3145-3150 says that rendering resumes at the first
  byte that is not a space.  While a `<` is held as a possible marker it has not resumed, and a
  space that arrives then is lost: `< b` is shown as `<b` (`GapLosesSpace`; `GapConserves` says
  exactly when nothing is lost, `GapIsScan` and `GapOpens` what any text becomes).
* The comment at ds4_agent.c:1330-1331 says that opening tags stay strict, so that prose does not
  become a tool call.  For the same reason as above, right after `</think>` a marker with a space
  behind its `<` opens a stanza that can run (`SpacedMarkerOpens`).  A text opens one there exactly when
  an opening form occurs in it less those spaces (`GapOpensExact`).
* The prompt and the comment at ds4_agent.c:5480-5484 say that `old` must occur exactly once.
  The second search starts after the first match, so overlapping matches count as one
  (`OverlapAccepted`; `OnceUpToOverlap` gives the condition).
* The headless loop can exit with status 0 although its last turn failed (`ExitZeroAfterFailure`).
  That can happen exactly when there is any input (`FailureCanBeMissed`), and in a given run exactly
  when a turn failed after the last status snapshot (`MissedFailure`).
* `agent_worker_update_view_after_old_new` alone can leave the line after the replaced span with
  an outdated checksum (`StaleWithoutRefresh`).  It does so only when the line count stays, the
  span reaches the end of its last line and the new text does not end at one
  (`NextLineExact`, `UpdateAgreesUnless`); the context refresh that follows repairs it (`OldNewAgrees`).
* The prompt (ds4_agent.c:877-878) says that a line/range edit of lines never shown is refused.
  Lines the agent wrote itself pass as well, displayed or not: the middle of a long edit
  (`OmittedLinesPass`; `ContextDisplayed` says that a context is displayed whole exactly up to 36
  edited lines) and all of a file just written (`WrittenLinesPass`).  Besides those, lines pass that
  some call put into its result (`GuardMeansSeen`), and the agent may have missed that result.  All
  calls of a stanza run before any result is delivered, so a read and an edit of the same lines in
  one stanza pass (`SameStanzaPasses`); and a result that is cut at the 128 KiB of the text buffer
  (ds4_agent.c:3388-3404), replaced because it does not fit the context, or dropped with a failed
  compaction (ds4_agent.c:6968-7003) counts as shown all the same (`UndeliveredPasses`).  A line that
  passes is always one that the agent knows or one that it missed in such a way
  (`PassedKnownOrMissed`).  The promise is kept exactly when every earlier result was delivered whole
  and no earlier call of the stanza has displayed lines of the path (`PromiseExact`).
* An edit that is refused because its write stopped half way has changed the file
  (`ShortWriteWitness`, `ShortWriteDestroys`).  That is the only refusal that changes anything, and
  no refusal touches a view (`RefusedEditChangesNothing`).
* Compaction is meant to keep a long conversation going.  A user message is appended before its
  length is looked at, and one that fills the context leaves no room to ask for a summary: from
  then on every turn fails and changes nothing (`OverlongMessageSticks`, `StuckForGood`;
  `RoomToCompact` says when a compaction can still succeed).
* The directory scan of a lookup trusts the file's name for its text; the load compares bytes
  (`FoundThenLoaded`), so a colliding name costs a miss and never a wrong prefix.

One more limit of the guard, which no description denies: a line/range edit reads and checks the file
first and writes it later.  What happens to the file in between is overwritten unseen
(`OverwrittenUnseen`; `SplitEdit` says what is stored and kept).

## Model

| member | source | states |
|---|---|---|
| DsmlResume.CloseTagShape | ds4_agent.c:1314-1328 | an accepted closing tag holds no second `<` and ends at the first `>` |
| DsmlResume.CloseTagAppend | ds4_agent.c:1314-1328 | once a `>` follows, later bytes cannot change whether a closing tag stands at a place |
| DsmlResume.FindCloseAppend | ds4_agent.c:1330-1339 | the closing tag found in a buffer is still the first one after any more bytes |
| DsmlResume.StepAppend | ds4_agent.c:1345-1420 | an iteration of the parse loop that acted acts the same on a longer buffer, and one that waited loses nothing by having run |
| DsmlResume.ParseResume | ds4_agent.c:1345-1420 | parsing what has arrived, then appending and parsing again, equals parsing all of it |
| DsmlResume.ParseIdempotent | ds4_agent.c:1345-1420 | a second parse of the same buffer does nothing |
| DsmlResume.IncrementalEqualsBatch | ds4_agent.c:1431-1453 | one byte per call with a parse after each ends in the same phase, cursor, open call, calls and error as one parse of the whole body |
| DsmlResume.ChunkIndependence | ds4_agent.c:1431-1453 | any cut of the stream into feeder calls ends as one call would |
| DsmlResume.SearchFindsFirst | ds4_agent.c:1424-1453 | the 64-byte window finds exactly the first opening marker, and parsing then runs on the bytes behind it |
| DsmlPrint.ReadClose | ds4_agent.c:1314-1328 | every accepted spelling of a closing tag (spaces, a stray bar) is read to its end |
| DsmlPrint.ReadAttr | ds4_agent.c:1298-1307 | an attribute is found by name behind others whose values contain no quote |
| DsmlPrint.ReadFlag | ds4_agent.c:1298-1307 | the string flag is read back whatever the parameter's name, even one that ends in `string` |
| DsmlPrint.ValueEnds | ds4_agent.c:1330-1339 | a value without an accepted closing tag of its own ends exactly at the printed one |
| DsmlPrint.RoundTrip | ds4_agent.c:859-863 | printing calls in the documented shape with any accepted closing tags and parsing returns the same calls, names, values and flags, and stops right behind the stanza |
| DsmlAccept.AcceptedExactly | ds4_agent.c:1345-1420 | behind the marker a text is read as calls `cs` if and only if it starts with a stanza, described as a sequence of named tags, values and closing tags, that denotes `cs`, where a call that is still open when another begins counts for nothing; the parser then stops right behind it |
| DsmlAccept.RefusedExactly | ds4_agent.c:1366-1419 | it ends in an error if and only if such elements are followed by a complete tag that is none of them, or has no name, and the error is the complaint about that tag |
| DsmlAccept.AttrExact | ds4_agent.c:1298-1307 | an attribute is read if and only if a quoted value stands behind its first occurrence |
| DsmlAccept.CloseExact | ds4_agent.c:1314-1328 | a closing tag is accepted if and only if one is spelled there |
| DsmlMachine.FindCloseTag | ds4_agent.c:1330-1339 | hopping from one `</` marker to the next finds the first closing tag of all |
| DsmlMachine.StreamParser.ParseValue | ds4_agent.c:1350-1364 | the value step in place is the value step of the model |
| DsmlMachine.StreamParser.ParseOpenTag | ds4_agent.c:1388-1419 | an opening tag in place, with both missing-name errors and the unexpected-tag error cut at 80 bytes |
| DsmlMachine.StreamParser.ParseStructural | ds4_agent.c:1366-1419 | the structural step in place: spaces, both closing tags, an incomplete tag, an opening tag |
| DsmlMachine.StreamParser.ParseBuffer | ds4_agent.c:1345-1420 | the parse loop in place terminates and is the parse of the model |
| DsmlMachine.StreamParser.FeedChunk | ds4_agent.c:1431-1453 | the byte feeder in place, in all states, is the feeder of the model |
| TagSplitter.RunResume | ds4_agent.c:3197-3281 | cutting the input anywhere and resuming with the held partial tag changes nothing |
| TagSplitter.ChunkIndependence | ds4_cli.c:420-464 | for any actions on tags and bytes, any chunks and then a finishing call equal one finishing call |
| TagSplitter.RunIsPieces | ds4_cli.c:420-464 | a finished run acts on exactly the reading of the text in which every tag is taken as a tag; no byte is lost or doubled |
| TagSplitter.PiecesExist | ds4_cli.c:420-464 | every text has such a reading |
| ThinkPrinters.CliShows | ds4_cli.c:414-464 | without colour the CLI shows the bytes without tags, and a newline where thinking ends unless one was just written |
| ThinkPrinters.CliPaints | ds4_cli.c:400-464 | with colour, a terminal that obeys the escape codes shows every thinking byte grey and every other byte plain |
| ThinkPrinters.CellsAreVisible | ds4_cli.c:400-464 | without their colours those are the bytes shown without colour |
| ThinkPrinters.CliPaintsChunks | ds4_cli.c:400-464 | and they do not depend on how the text was cut |
| ThinkPrinters.CliChunks | ds4_cli.c:420-464 | the CLI's output does not depend on how the text was cut |
| ThinkPrinters.EvalStylesInStep | ds4_eval.c:2027-2079 | the style buffer keeps one style per visible byte, 1 exactly for thinking bytes |
| ThinkPrinters.EvalChunks | ds4_eval.c:2032-2079 | the evaluator's text and styles do not depend on how the text was cut |
| ThinkPrinters.TokenPrinter.ProcessText | ds4_cli.c:420-464 | the CLI's loop in place, pending bytes included, is the splitter with the CLI's actions |
| ThinkPrinters.EvalStream.AppendTokenText | ds4_eval.c:2037-2079 | the evaluator's loop in place is the splitter with the evaluator's actions |
| Detector.ScanExact | ds4_agent.c:3096-3192 | the marker detector is an exact search for both opening forms: released and held bytes are the input, what is held is the longest suffix that may still become a marker, and it stops at the first occurrence |
| AgentStream.StreamChunkIndependence | ds4_agent.c:3197-3281 | any chunks of a sampled text, then finishing, give the same rendered bytes, thinking state, notices and parsed calls as one call |
| AgentStreamProofs.RunInv | ds4_agent.c:3118-3137 | the in-thinking flag, fed by a 32-byte window, is up whenever a tool mark was read as thinking, and only when a mark or the short opening form was |
| AgentStreamProofs.NoCallFromThinking | ds4_agent.c:2989-3062 | in every text and chunking a call is executable only if no tool markup was read as thinking, and the flag is always reported |
| AgentStreamProofs.NormalIsScan | ds4_agent.c:3141-3192 | in thinking and outside it, except in the gap behind it, the visible text is what the detector releases |
| AgentStreamProofs.GapIsScan | ds4_agent.c:3145-3192 | in the gap the detector sees the text less the spaces that arrive before anything has been shown; this is the case in which that holds no opening form |
| AgentStreamProofs.GapOpens | ds4_agent.c:3141-3192 | the other case: the first prefix whose text less those spaces ends with a form starts a stanza, behind exactly the bytes in front of the form |
| AgentEndToEnd.GapOpensExact | ds4_agent.c:3141-3192 | right after thinking a text opens a stanza, and an executable one, if and only if an opening form occurs in it less those spaces |
| AgentEndToEnd.SpacedMarkerOpens | ds4_agent.c:3141-3192 | a concrete text without any opening form that opens a stanza there |
| AgentStreamProofs.GapConserves | ds4_agent.c:3145-3157 | in the gap after thinking nothing is lost if and only if no space directly follows the longest held run |
| AgentStreamProofs.GapLosesSpace | ds4_agent.c:3145-3157 | a concrete text that loses a space there |
| AgentEndToEnd.RunStanza | ds4_agent.c:3031-3062 | stanza bytes reach the parser one by one up to the byte that completes it or sets an error; an ignored stanza is then dropped |
| AgentEndToEnd.NotFinishedEarly | ds4_agent.c:1345-1420 | the parser cannot finish before the last byte of a printed stanza |
| AgentEndToEnd.ThinkThenCall | ds4_agent.c:3197-3281 | any thinking text without tool markup, any prose, either opening form and a printed stanza, in any chunking, show exactly the thinking text and the prose and leave exactly the printed calls ready to run |
| AgentEndToEnd.PlainCall | ds4_agent.c:3197-3281 | in particular spaces and then prose that does not begin with `<` are shown as that prose, in front of the same calls |
| ThinkReading.CutIsGreedy | ds4_agent.c:3212-3240 | cut at its thinking tags a text is read as the splitter reads it, and its thinking bytes are those behind an opening tag with no closing tag in between |
| ThinkReading.CutExists | ds4_agent.c:3212-3240 | every text can be cut so |
| ThinkReading.QuietText | ds4_agent.c:3197-3281 | a text without opening forms, with any tags, in any chunking: exactly its thinking bytes are shown grey, they are what is read as thinking, they are reported if and only if they hold a tool mark, and nothing may run |
| ThinkReading.StanzaAfterText | ds4_agent.c:3197-3281 | with a stanza behind such a text outside thinking, complete, malformed or cut off, the same is shown and the parser of exactly its bytes is left, unless the thinking bytes hold a tool mark |
| ThinkReading.CallAfterText | ds4_agent.c:3197-3281 | so a printed stanza there is ready to run if and only if the thinking bytes hold no tool mark, and then with the printed calls |
| ThinkReading.FormInThinkingNeverRuns | ds4_agent.c:3244-3257 | when the first opening form lies in thinking nothing of the message runs, whatever follows |
| ThinkReading.StanzaInThinkingDropped | ds4_agent.c:2989-3062 | a stanza in thinking is dropped as a whole with its notice, complete, malformed or cut off, and thinking goes on behind it |
| ThinkReading.OnlyUnmarkedThinkingRuns | ds4_agent.c:3118-3137 | from the text alone: a message may run only if the thinking bytes of every front part of it without opening forms hold no tool mark |
| AgentStreamMachine.StreamRenderer.NoteThinkingByte | ds4_agent.c:3118-3137 | the window update and both marks in place |
| AgentStreamMachine.StreamRenderer.WriteNormal | ds4_agent.c:3141-3192 | the normal-byte step in place, with the gap, the held tail and both forms |
| AgentStreamMachine.StreamRenderer.FeedStanza | ds4_agent.c:3031-3062 | the stanza step in place: done, error, and both when the stanza is ignored |
| AgentStreamMachine.StreamRenderer.FinishStream | ds4_agent.c:3259-3280 | the end of the stream in place: held bytes, unfinished and ignored stanzas, the late report |
| AgentStreamMachine.StreamRenderer.StreamChunk | ds4_agent.c:3197-3281 | the whole streaming loop in place is the state machine of the model |
| WakePipe.StepKeepsInv | ds4_agent.c:968-997 | every atomic step of either thread keeps the wake-up invariant |
| WakePipe.NoLostWakeup | ds4_agent.c:7113-7121 | under every interleaving the consumed and pending bytes are the published ones in order, unseen output implies the flag, the flag implies a byte in the pipe or a UI that owes a consume, and a blocked UI with unseen output has a byte waiting |
| WakePipe.WorkerWakesBlockedUi | ds4_agent.c:968-997 | from every reachable state with a blocked UI and unseen output at most three of the worker's own steps put a byte in the pipe |
| WakePipe.PipeNeverFills | ds4_agent.c:968-976 | the pipe never holds more than two bytes, so no wake-up byte is refused |
| Headless.StepKeepsSlot | ds4_agent.c:7125-7149 | every step keeps the mailbox discipline: a waiting command means a busy status, and a failed turn can only be the last one |
| Headless.StepKeepsOrder | ds4_agent.c:8673-8780 | every step keeps prompts complete and in order, through refused submissions and push-front |
| Headless.ExactlyOnceInOrder | ds4_agent.c:8673-8780 | in every reachable state what has run, what waits anywhere and what is still input are together stdin, in its order |
| Headless.NeverOverwritten | ds4_agent.c:7074-7094 | a waiting command leaves the mailbox only by being taken |
| Headless.ExitZeroRanAll | ds4_agent.c:8774-8780 | status 0 means that all of stdin was cut into prompts and every one was run, all but possibly the last without an error |
| Headless.ExitZeroAfterFailure | ds4_agent.c:8750-8780 | for every nonempty input there is an interleaving that exits 0 after its turn failed |
| Headless.FailureCanBeMissed | ds4_agent.c:8750-8780 | some run exits 0 with a failed turn if and only if there is any input |
| Headless.MissedFailure | ds4_agent.c:8750-8780 | a run that exits 0 had a failed turn if and only if a turn failed after the last status snapshot, and that was its last turn |
| Headless.CanAlwaysFinish | ds4_agent.c:8673-8780 | from every reachable state in which nothing has failed and the loop has not ended the two threads can go on to exit status 0 with all of stdin run, every turn without an error |
| LineSplit.LinesExact | ds4_agent.c:4717-4735 | the lines of a buffer are the one way to cut it into bodies without terminators, each with an LF, a CR LF, or a CR that no LF follows, and at the end perhaps none |
| LineSplit.LinesTile | ds4_agent.c:4717-4735 | the lines of any buffer tile it exactly, and none is empty |
| LineSplit.LinesAppend | ds4_agent.c:4717-4735 | splitting distributes over concatenation at a line boundary |
| LineSplit.PrefixLines | ds4_agent.c:4717-4735 | both sides of any line boundary split as in the whole |
| LineSplit.SpliceLines | ds4_agent.c:5600-5619 | the lines after a line/range edit are the lines before the range, those of the replacement and those after it |
| LineSplit.ReplacementCount | ds4_agent.c:5353-5373 | the reported number of replacement lines is the length of that middle part |
| LineSplit.SplitLines | ds4_agent.c:4717-4735 | the span loop returns the start, content end and end of every line |
| LineSplit.CountTextLines | ds4_agent.c:5353-5368 | the counting loop returns the number of lines |
| FileView.VerifyExact | ds4_agent.c:4920-4949 | the guard passes if and only if every line of the range has the remembered checksum under that line number |
| FileView.VerifyReason | ds4_agent.c:4920-4949 | what it complains of is the first line of the range that is not remembered as it is: not shown if nothing is remembered there, changed if something else is |
| FileView.EditAgrees | ds4_agent.c:4951-5007 | after a line/range edit every remembered checksum is that of the new file's line, whether or not line numbers shifted |
| FileView.LineForBounds | ds4_agent.c:5009-5017 | the line of a byte offset is the one whose span holds it |
| FileView.OldNewAgrees | ds4_agent.c:5039-5101 | after an old/new edit every remembered checksum but possibly the one behind the span agrees, and after the context refresh every one does |
| FileView.NextLineExact | ds4_agent.c:5039-5101 | with as many lines as before, the line behind the span is unchanged if and only if the span ends inside its own last line or the new text ends a line |
| FileView.UpdateAgreesUnless | ds4_agent.c:5039-5101 | so the update alone leaves every remembered checksum right, unless that fails, and then that one line differs |
| FileView.StaleWithoutRefresh | ds4_agent.c:5039-5101 | a concrete edit whose update alone leaves a wrong checksum |
| FileView.ContextDisplayed | ds4_agent.c:5388-5442 | every line remembered around an edit is displayed if and only if at most 36 lines were edited; otherwise exactly the middle is not |
| EditTools.OldNewStores | ds4_agent.c:5484-5541 | an old/new edit succeeds exactly when the file can be cut at the first place of the old text with no other behind it and the write succeeds; then the new text stands there and everything else is as before |
| EditTools.OldNewReason | ds4_agent.c:5484-5541 | its refusals, each with its exact condition: empty old text, an unreadable file, no such place, or a second place behind the first |
| EditTools.RangeStores | ds4_agent.c:5562-5640 | a line/range edit succeeds exactly when the guard passes and the write succeeds; then the text stands in place of the lines, with a newline exactly when it is not empty, ends in none and the last line had a terminator |
| EditTools.WholeWriteResult | ds4_agent.c:5258-5290 | a whole write, by either tool, leaves exactly the text, and what it does on failure |
| EditTools.ShowingChangesNoFile | ds4_agent.c:5157-5256 | reading and searching change no file and no view of another path |
| EditTools.ReadRangeExact | ds4_agent.c:5175-5190 | which lines a read displays: those from the one asked for on, as many as asked for, 500 by default, or all |
| EditTools.RefusedEditChangesNothing | ds4_agent.c:5484-5668 | no refused edit touches a view, and it changes a file if and only if it was accepted and its write stopped half way at other content |
| EditTools.ShortWriteDestroys | ds4_agent.c:5600-5640 | any accepted edit whose write stops at once is reported as failed and leaves an empty file |
| EditTools.ShortWriteWitness | ds4_agent.c:5600-5640 | a concrete refused edit that changed its file |
| EditTools.RunKeepsProvenance | ds4_agent.c:4880-4918 | in every run, with any outside changes and any line endings, each remembered checksum is that of this line number in what a call put into its result, or lies inside text the agent supplied |
| EditTools.GuardMeansSeen | ds4_agent.c:4920-4949 | so in every run a range passes the guard only if some call put each of its lines into its result or the agent supplied it |
| EditTools.StaleEditsRefused | ds4_agent.c:5562-5640 | in every run, a line/range edit that succeeds or changes any file, however its write ended, has passed that guard, and the file is the splice of the current one or what the failed write left |
| EditTools.SplitEdit | ds4_agent.c:5562-5640 | with any outside changes between read and write, what passed the guard is the content that was read, the edit stores its splice over whatever the file has become, other files keep their changes, and without a change to the file all is as at the write |
| EditTools.OverwrittenUnseen | ds4_agent.c:5562-5640 | a concrete change between read and write that is lost |
| EditTools.WrittenLinesPass | ds4_agent.c:5258-5290 | right after a write every range of the file passes the guard though none of it was displayed |
| EditTools.OmittedLinesPass | ds4_agent.c:5388-5442 | an omitted line of a long edit passes the guard though it was not displayed; it lies inside the replacement |
| EditTools.ReadLinesEditable | ds4_agent.c:4890-4949 | every line a read has shown passes the guard right after it, for every range inside what was shown |
| EditTools.ContextLinesEditable | ds4_agent.c:5388-5442 | so does every line in the context of a line/range edit |
| EditTools.SearchLinesEditable | ds4_agent.c:5757-5810 | so does every line a search has shown |
| EditTools.ShowingKeepsLines | ds4_agent.c:4880-4918 | a read or search makes no line uneditable |
| EditTools.RangeEditKeepsLines | ds4_agent.c:4951-5007 | after a line/range edit the lines in front of it are still editable, and those behind it too unless their numbers shifted |
| EditTools.OldNewEditKeepsLines | ds4_agent.c:5039-5101 | so are the lines around an old/new edit |
| EditTools.OtherPathsKept | ds4_agent.c:4826-4840 | a call on one path changes nothing about what may be edited on another |
| EditDelivery.PassedKnownOrMissed | ds4_agent.c:4920-4949 | in every conversation each line of a range that passes was delivered to the agent or supplied by it, or was displayed in a result that it missed |
| EditDelivery.NothingMissed | ds4_agent.c:6450-6468 | when every earlier result was delivered whole and no call of the running stanza has displayed lines of the path, the agent has missed nothing about it |
| EditDelivery.PromiseExact | ds4_agent.c:875-878 | whatever the files, calls and outside changes, every line that passes was delivered to the agent or supplied by it, if and only if every earlier result was delivered whole and no earlier call of the stanza has displayed lines of the path |
| EditDelivery.SameStanzaPasses | ds4_agent.c:6450-6468 | in one stanza a read of any file makes every line it displays pass, though the agent has heard nothing |
| EditDelivery.UndeliveredPasses | ds4_agent.c:6968-7003 | when the result of a read is cut, replaced or dropped, every line behind the cut passes in the next stanza, though the agent has not heard of it |
| EditTools.StepKeepsAgreement | ds4_agent.c:4854-5101 | each completed tool call over LF-only files keeps every view in agreement with its file |
| EditTools.ViewsAgree | ds4_agent.c:4854-5101 | so does every run of them |
| EditTools.OnceUpToOverlap | ds4_agent.c:5484-5541 | an accepted old text occurs exactly once if and only if no match starts inside the first; a refused one never does |
| EditTools.OverlapAccepted | ds4_agent.c:5484-5541 | `aa` is accepted in `aaa` |
| EditMachine.Memmem | ds4_agent.c:5469-5479 | the byte search returns the first occurrence or none |
| EditMachine.LineForOffset | ds4_agent.c:5009-5017 | the span loop returns the line of an offset |
| EditMachine.BuildSplice | ds4_agent.c:5600-5619 | the new text built from spans is the splice, with a newline added exactly when the replaced range ended in one and the text does not |
| EditMachine.Worker.RememberShown | ds4_agent.c:4890-4903 | the loop stores the checksums of the shown lines and no others |
| EditMachine.Worker.VerifySeenRange | ds4_agent.c:4920-4949 | the loop returns the first line that was not shown or has changed |
| EditMachine.Worker.UpdateViewAfterEdit | ds4_agent.c:4951-5007 | the three loops build the view of the model |
| EditMachine.Worker.UpdateViewAfterOldNew | ds4_agent.c:5039-5101 | the two loops build the view of the model, and only if there was one |
| EditMachine.Worker.AppendContext | ds4_agent.c:5388-5442 | five lines before and eight after the edit, clamped, are remembered, and the loops display all of them or the two ends of a long edit |
| EditMachine.Worker.EditLineRange | ds4_agent.c:5562-5640 | the whole line/range edit with every refusal and write outcome |
| EditMachine.Worker.EditOldNew | ds4_agent.c:5484-5541 | the whole old/new edit with every refusal and write outcome |
| EditMachine.Worker.FinishOldNew | ds4_agent.c:5518-5541 | behind the write: touched lines, view and displayed context |
| TurnMachine.FindTailStart | ds4_agent.c:6525-6541 | the loop returns the start of the verbatim tail |
| TurnLoop.TailInBudget | ds4_agent.c:6525-6541 | the tail is at most max(1, min(ctx/10, 50000)) tokens, never reaches into the system prompt, and starts at the first user boundary in the budget or, without one, uses the budget up |
| TurnLoop.SummaryText | ds4_agent.c:6655-6693 | a finished summary is the model's text up to the first control token or the room, less a `<` in front of a tool mark |
| TurnLoop.CompactKeeps | ds4_agent.c:6578-6755 | whatever the engine answers, a failed compaction leaves the transcript as it was and never leaves the private exchange live |
| TurnLoop.CompactResult | ds4_agent.c:6703-6755 | a successful compaction yields system prompt, summary, a verbatim suffix within budget and then any bash update, and the session holds all but the update |
| TurnLoop.GenerateKeeps | ds4_agent.c:6852-6927 | generation keeps session and transcript equal and never takes the position past ctx-1 |
| TurnLoop.GenerateShape | ds4_agent.c:6884-6927 | the message is exactly the sampled tokens up to the budget, an interrupt, the end token or the end of a stanza in their streamed text |
| TurnLoop.AssistantAppends | ds4_agent.c:6802-6940 | a round appends the assistant prefix, those tokens and the end token and nothing else; the calls it asks for are those of the whole message, and only if it holds a complete stanza and no tool markup in thinking |
| ToolCalls.MessageEnds | ds4_agent.c:6884-6936 | finishing the stream of a message gives what one reading of the whole message gives, and keeps the calls of a stanza that its last piece completed |
| TurnLoop.OnlyWholeCallsRun | ds4_agent.c:6884-6970 | over every run of turns the calls that were run are exactly those of a whole sampled message with a complete stanza, and none of its tool markup was read as thinking |
| TurnLoop.LaterRoundsSync | ds4_agent.c:6802-7006 | every round behind a delivered result starts with 16 tokens of room, so unless it compacts first its sync is never refused for size while the assistant prefix fits them |
| TurnLoop.StuckForGood | ds4_agent.c:6578-6755 | a transcript that calls for compaction and leaves fewer than 256 tokens to ask for it makes every later turn fail unchanged |
| TurnLoop.OverlongMessageSticks | ds4_agent.c:6771-6786 | one overlong user message gets there |
| TurnLoop.RoomToCompact | ds4_agent.c:6578-6755 | without room for the request no compaction succeeds; with it, one that finds a summary and fits does |
| TurnLoop.RoundsKeep | ds4_agent.c:6802-7008 | all tool rounds of a turn keep the session a prefix of the transcript |
| TurnLoop.SessionFollowsTranscript | ds4_agent.c:6771-7008 | over every run of turns the live session is a prefix of the transcript at each boundary, each sync of the turn loop only extends it, and no evaluation goes past ctx-1 |
| TurnTranscript.TurnText | ds4_agent.c:6771-7008 | over every turn the transcript is the old one, or what a compaction rebuilt, with the user message and, for each round, the assistant prefix, the sampled message, the end token and one tool message: what the calls return, the complaint about the stanza, the note for a queued prompt, or, exactly when the result fits neither before nor after a compaction, the size error; and how the last round ended is how the turn ends |
| TurnTranscript.CompactSucceeds | ds4_agent.c:6578-6755 | a compaction succeeds if and only if there is nothing to do, or there is room to ask, the engine gives a summary and what that builds fits |
| TurnTranscript.AsksIsTool | ds4_agent.c:6917-6938 | what a message asks for is fixed by its whole text: its calls, a tool error, or nothing |
| TurnMachine.AgentWorker.CompactTranscript | ds4_agent.c:6578-6755 | compaction in place, with the old transcript restored when the rebuild fails |
| TurnMachine.AgentWorker.GenerateTokens | ds4_agent.c:6884-6927 | the sampling loop in place, streaming each token's text into the renderer and its parser |
| TurnMachine.AgentWorker.Speak | ds4_agent.c:6817-6940 | one assistant message in place: sync, generation, end of stream, tool outcome, end token |
| TurnMachine.AgentWorker.RunRounds | ds4_agent.c:6802-7008 | the round loop in place, with the queued-prompt stop |
| TurnMachine.AgentWorker.RunUserTurn | ds4_agent.c:6771-7008 | a user turn in place, keeping the invariant |
| TurnMachine.AgentWorker.SyncSession | ds4.h:178-181 | the sync contract: refused without change when the prompt does not fit, else the session is the prompt or is invalid |
| Sha1.ChIsSelect | ds4_kvstore.c:212-252 | the program's choice function is Ch of FIPS 180-4 |
| Sha1.MajIsMajority | ds4_kvstore.c:212-252 | the program's majority function is Maj of FIPS 180-4 |
| Sha1.HashBlocksAppend | ds4_kvstore.c:212-252 | hashing blocks in two parts is hashing them all |
| Sha1Stream.Context.MakeSchedule | ds4_kvstore.c:212-222 | the 80-word schedule loop is the schedule of section 6.1.2 |
| Sha1Stream.Context.Transform | ds4_kvstore.c:212-252 | the transform in place is the hash computation of section 6.1.2 |
| Sha1Stream.Context.AbsorbPart | ds4_kvstore.c:264-279 | one turn of the update loop: copy what fits, hash a full block at once |
| Sha1Stream.Context.Update | ds4_kvstore.c:264-279 | after any update the context stands for the concatenation of everything absorbed |
| Sha1Stream.Context.Final | ds4_kvstore.c:281-296 | the pad loop ends on a block boundary and the digest is SHA-1 of the message, for fewer than 2^61 bytes |
| Sha1Stream.HashChunks | ds4_kvstore.c:254-296 | any sequence of updates and the final call return the SHA-1 of the concatenation |
| KvHeader.LeRoundTrip | ds4_kvstore.c:177-199 | a number that fits its width is read back |
| KvHeader.FromLeRoundTrip | ds4_kvstore.c:177-199 | bytes read as a number are written back |
| KvHeader.LePut | ds4_kvstore.c:177-186 | the store loop writes the little-endian bytes and nothing else |
| KvHeader.LeGet | ds4_kvstore.c:188-199 | the load loop, from the top byte down, returns the number |
| KvHeader.FillHeader | ds4_kvstore.c:379-399 | the header built in place is the encoding |
| KvHeader.ReadHeader | ds4_kvstore.c:401-422 | reading a file's header is the decoding, with every rejection and the unknown reason |
| KvHeader.HeaderRoundTrip | ds4_kvstore.c:379-422 | decoding an encoded header returns every field and the text length |
| KvHeader.DecodeExact | ds4_kvstore.c:401-422 | exactly the files with the magic, version 1, 2 or 4 bits, a nonzero token count and a text length are read, and each field is the bytes at its place |
| KvHeader.TouchFile | ds4_kvstore.c:467-484 | touching in place rewrites the header and nothing behind it; a foreign file is left alone |
| KvHeader.TouchChangesOnlyUse | ds4_kvstore.c:467-484 | touching changes only the decoded hits and last-used time; text, payload and trailer bytes stay |
| KvHeader.SizeCheckExact | ds4_kvstore.c:725-766 | the overflow-checked test holds if and only if the true size fits 64 bits and, with one percent of headroom, the budget |
| KvEvict.VictimIsCheapest | ds4_kvstore.c:522-540 | no entry is cheaper, in score and then last use, than the victim |
| KvEvict.EvictConserves | ds4_kvstore.c:510-561 | every entry is kept, deleted, or the one whose unlink failed |
| KvEvict.EvictMeetsBudget | ds4_kvstore.c:510-561 | with successful unlinks the run ends within budget, and what was left before each deletion did not fit |
| KvEvict.EvictsCheapestFirst | ds4_kvstore.c:510-561 | every deleted entry is no dearer than every survivor |
| KvEvict.DeletedInOrder | ds4_kvstore.c:510-561 | no entry that survives or is deleted later goes before a deleted one |
| KvEvict.WorthMoreSurvives | ds4_kvstore.c:486-561 | on the entry fields: of two unprotected entries the one with at least as many hits, tokens per byte and as late a use, and more of one that counts, is deleted only after the other |
| KvEvict.EmptyGoesFirst | ds4_kvstore.c:486-561 | an empty file goes before every file that holds tokens |
| KvEvict.FailedUnlinkStops | ds4_kvstore.c:510-561 | only an unlink that fails, on the cheapest entry, ends a run early |
| KvEvict.ProtectedSurvives | ds4_kvstore.c:486-561 | a protected entry that fits the budget survives |
| KvEvict.StoredCheckpointSurvives | ds4_kvstore.c:1021-1072 | a checkpoint that passed the final size check survives the eviction right after its store |
| KvEvict.Index.FindVictim | ds4_kvstore.c:522-540 | the scan returns the first cheapest entry |
| KvEvict.Index.EvictToBudget | ds4_kvstore.c:510-561 | the loop in place, with its running total and dropped protection, is the run of the model |
| KvLookup.FindTextPrefix | ds4_kvstore.c:1114-1136 | the pruned scan returns the first eligible entry with the greatest (text, tokens), or none exactly when none is eligible |
| KvLookup.BestUnique | ds4_kvstore.c:1114-1136 | that determines the answer |
| KvLookup.LoadIsSound | ds4_kvstore.c:1138-1270 | for any hash whatever, a load means that the stored text is a prefix of the prompt and the effective prompt is the loaded tokens and the tokenised rest; a failed one leaves no other tokens live |
| KvLookup.HitKeepsFile | ds4_kvstore.c:1240-1256 | a hit that does not consume its file leaves text and payload readable, with one more hit and the new time |
| KvLookup.LoadLeaves | ds4_kvstore.c:1190-1256 | a load succeeds exactly when the text checks hold and the payload has the header's token count; it deletes the file exactly when that count differs or the hit is longer than the cold limit, rewrites the use fields on any other hit, and changes nothing on any other miss |
| KvLookup.FoundThenLoaded | ds4_kvstore.c:1165-1190 | the text checks of the load hold exactly when the stored text is the prefix that was hashed |
| KvLookup.StoredThenLoaded | ds4_kvstore.c:1138-1270 | a checkpoint stored under the hash of its rendered tokens loads exactly when that text is a prefix of the prompt, and the effective prompt then starts with those tokens and renders to the prompt, if rendering undoes tokenising |
| KvLookup.Store.TryLoadText | ds4_kvstore.c:1138-1270 | lookup and load in place, with every early return, discarded and consumed files |
| JsonCursor.Cursor.ReadString | ds4_profile.c:74-112 | the string loop reads what the grammar says and stays inside the text |
| JsonCursor.Cursor.ReadLiteral | ds4_profile.c:194-213 | literals and numbers in place |
| JsonCursor.Cursor.ReadArray | ds4_profile.c:154-177 | the array loop in place |
| JsonCursor.Cursor.ReadObject | ds4_profile.c:120-152 | the object loop in place |
| JsonCursor.Cursor.ReadValue | ds4_profile.c:179-214 | on every input the mutual recursion terminates with the cursor between its start and the end, and reads exactly one value of the grammar or fails |
| JsonPrint.BodyReads | ds4_profile.c:74-112 | an escaped string body is read back to its closing quote |
| JsonPrint.ValueReads | ds4_profile.c:120-214 | a printed value at any place is read back and the cursor stops right behind it |
| JsonPrint.JsonRoundTrip | ds4_profile.c:55-214 | every value with exactly representable integers, printed by RFC 8259 with any white space between tokens and any text around it, is read back |
| JsonAccept.ReadsExactly | ds4_profile.c:55-214 | the reader accepts a value that ends at a place if and only if a value, described by its tokens and the white space between them, stands there and denotes it; everything else is refused |
| JsonAccept.StringExact | ds4_profile.c:74-112 | a string is read if and only if plain characters, escapes and closing quote stand there |
| Utf8.WellFormedIsEncoded | ds4_cli.c:625-648 | the byte grammar of RFC 3629 section 4 accepts exactly the encodings of scalar values of section 3 |
| JsonString.Utf8Valid | ds4_cli.c:625-648 | the check accepts exactly the well-formed texts |
| JsonString.WriteString | ds4_cli.c:650-675 | for a well-formed text, reading the output by section 7 of RFC 8259 gives the characters it encodes; for any other, each byte reads as the code point of its number |
| JsonString.EncodedReads | ds4_cli.c:650-675 | the escaped encoding of any characters reads back as those characters |
| JsonString.BytesRead | ds4_cli.c:663-670 | the escaped form of any bytes reads back as their numbers |
| TailCapture.LastTwice | ds4_agent.c:1465-1501 | keeping a tail after every piece is keeping the tail of the whole |
| TailCapture.RingFill | ds4_agent.c:1479-1491 | filling the free places in at most two parts appends to the ring |
| TailCapture.RingSlide | ds4_agent.c:1493-1500 | a copy over the oldest elements drops them and appends the new ones |
| TailCapture.Capture.Append | ds4_agent.c:1465-1501 | after every append, oversized and wrapping ones included, the buffer holds the tail of everything appended and its indices are in range |
| TailCapture.Capture.Take | ds4_agent.c:1503-1517 | the bytes are handed out oldest first and the capture is spent |
| TailCapture.TailOfRun | ds4_agent.c:1465-1517 | any sequence of appends yields exactly the last min(cap, total) bytes of the concatenation; with no capacity, nothing |

## Left out

- NUL bytes inside C strings, allocation failure, and the 128 KiB cap of the agent's text buffers elsewhere than in tool results; the text of tool results is not modelled.
- EditDelivery.PromiseExact: how many of the displayed lines reach the agent is an input for each stanza, where the program derives it from the length of the texts; a line that is itself cut counts as not heard, and what compaction later takes out of the transcript as heard.
- Terminal UI: colours and markdown of the agent's stream, grouping of UTF-8 bytes, the live tool visualiser, history display, linenoise, status line.  The renderer is the sequence of bytes and notices it receives.
- Tracing, bash jobs, signals, real file I/O and clocks; option and argument parsing, and dispatch of tool calls.
- Headless.ExactlyOnceInOrder: does not model one-shot prompts, the deferred save or the status markers printed to stdout, because the loop never saves and a one-shot prompt takes no part in the queue; a prompt queue is a sequence, so growth and shifting of its array are not modelled.
- WakePipe.NoLostWakeup: takes the pipe to hold at least one byte and the mutex to work; the other status fields are one version counter.
- EditTools.ViewsAgree: names files by path string as the views do, so two spellings of one path or a symbolic link count as two files; through an alias a view can be outdated.  It is about LF-only files, because a lone CR in front of an edit can merge with an LF behind it, and about writes that do not stop half way.
- EditTools.StepKeepsAgreement: names files by path string and is about LF-only files, as EditTools.ViewsAgree is.
- EditTools.StaleEditsRefused: compares CRC32 checksums, so two contents of a line with the same checksum count as the same, and takes a call as one step, as all runs here do; EditTools.SplitEdit takes a line/range edit apart, and the read and write of an old/new edit are not taken apart.
- LineSplit.SpliceLines: is about LF-only data, for the same reason.
- EditTools.ReadRangeExact: takes line numbers and counts as unbounded, so a start line and a count whose sum leaves the 32-bit range are not modelled.
- EditMachine.Worker.GetView: keeps the views in a map, where the program links them in a list; which lines a search shows is an input, since matching is not modelled.
- TurnLoop.OnlyWholeCallsRun: what running the calls returns is an input.
- TurnLoop.SessionFollowsTranscript: takes rendering, tokens and the engine's answers as inputs; overflow of the 32-bit product in the soft limit, session resume and switch, and progress reporting are not modelled.
- KvEvict.Index.EvictToBudget: scores are real numbers with an arbitrary decay in (0, 1] and a protected score above all; wrap-around of the 64-bit running total and the directory scan in front of it are not modelled.
- KvLookup.Store.TryLoadText: the payload, the tokeniser and the trailer hook are inputs, and a failure to touch the file is not modelled.
- Storing a checkpoint (temporary file, replacement of an incompatible file, trailer rewrite) and the choice of how many tokens to store.
- JsonPrint.JsonRoundTrip: takes from the C library that a decimal integer in front of a delimiter is read exactly; other numbers and `\u` escapes (read as `?`) are not part of it.
- JsonString.WriteString: the reader it is measured against refuses escaped surrogates, which the writer never puts out.
- Growth of heap buffers by doubling; sequences grow by themselves.
- The inference engine, GPU code and quantisers.
