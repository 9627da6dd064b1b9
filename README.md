# termd core in Dafny

A verified model of the core of termd, a Java terminal library: the line
editor a terminal application reads lines with, the codecs between
codepoints and the bytes of a connection, and the bookkeeping of SSH user
authentication on the server side.

- **Readline** (`readline.dfy`, `interactions.dfy`, `functions.dfy`,
  `line_buffer.dfy`, `line_status.dfy`, `readline_scenarios.dfy`). At most
  one read request is pending per connection. Input that arrives while no
  request is reading, or while an editing function has paused the
  interaction, waits in a queue and feeds the next read. The state is a
  pure `RState` value specified by functions (`Handle`, `Drain`,
  `ReadLineSpec`, `ReadSpec`, `CancelSpec`, `EndCompletionSpec`). The
  classes `Readline` and `Interaction` update their fields in place, and
  each of their methods is proved to move them as those functions say.
  The line buffer holds the text and the cursor. The history is browsed
  with a position and the text that was typed before browsing started. A
  line that ends with an unescaped backslash or inside a quote continues on
  a `> ` line. Ctrl-C starts the request again. Ctrl-D on an empty line
  resolves it with null. An unbound control codepoint rings the bell. The
  screen is modelled as its rows (prompt plus buffer) and the cursor as
  (row, column). Every test of `ReadlineTest` is replayed as a method
  whose `ensures` states the rows, the cursor and the lines delivered that
  the test asserts.
- **FunctionEvent** (`function_event.dfy`): the key event naming a
  function, with its accessors. The index guard is written as in the
  source and also as evidently intended (see Findings).
- **Complete** (`complete.dfy`): the `complete` function. It hands the
  completion handler the line and cursor, or resumes the interaction when
  there is no handler.
- **UTF-8** (`utf8.dfy`, `binary_decoder.dfy`): the encoder of section 3
  of RFC 3629, and a decoding function that accepts exactly the
  well-formed sequences of section 4. `BinaryDecoder` is a class. It holds
  an incomplete sequence between writes and gathers decoded codepoints in
  an array of fixed capacity, handing each full array on as a batch.
- **TTY output** (`tty_output_mode.dfy`): each LF written becomes CR LF.
- **SSH user authentication** (`user_auth.dfy`): the bookkeeping of
  section 5 of RFC 4252 as `AsyncUserAuthService` does it.
  - The method lists are parsed from the configuration and checked against
    the factories.
  - The first request fixes the user and the service, and repeated
    requests are counted.
  - A method that succeeds is popped from every chain it heads. The replies
    either complete the authentication or name the methods that can
    continue.
  - The authenticator's answer (true, false or null) is an input. The
    session is reduced to a disconnection flag, the packets sent and the
    service started.

The source of the readline engine, the line buffer, the keymap, the
binary encoder and decoder, and the TTY output mode is not part of this
model. Their behaviour is modelled from the assertions of `ReadlineTest`,
`BinaryEncodingTest` and `TtyOutputModeTest`. Two behaviours the tests
pin down are worth naming:

- Word motions count only ASCII letters and digits as word characters:
  testBackwardWord and testBackwardKillWord step over `__` as a separator
  (on "a01 e9__5a" the cursor goes 9, 8, 4, 0).
- Ctrl-D on a non-empty line deletes the codepoint under the cursor
  (testDeleteChar). Only on an empty line is it end of input (testEOF).

## Model

| member | source | states |
|---|---|---|
| FunctionEvents.FunctionEvent.GetCodePointAtAsWritten | src/main/java/io/termd/core/readline/FunctionEvent.java:41-47 | the accessor as written: a codepoint exactly for 0 <= index < length, and it is `seq[index]`; index == length passes the guard and fails at the array access |
| FunctionEvents.FunctionEvent.GetCodePointAt | src/main/java/io/termd/core/readline/FunctionEvent.java:41-47 | the accessor with the intended guard: a codepoint exactly for 0 <= index < length, `seq[index]`; every other index is refused by the guard |
| FunctionEvents.GuardLetsLengthThrough | src/main/java/io/termd/core/readline/FunctionEvent.java:43-46 | the event ("complete", [9]) read at index 1 escapes the written guard and fails at the array; the corrected guard refuses it |
| FunctionEvents.CodePointsOf | src/main/java/io/termd/core/readline/FunctionEvent.java:41-52 | reading every index from i to length in order gives back `seq[i..]` |
| FunctionEvents.EventReadsBack | src/main/java/io/termd/core/readline/FunctionEvent.java:29-52 | an event gives back the name and the sequence it was constructed with: `name()`, `length()` and the codepoints read one by one |
| Complete.Apply | src/main/java/io/termd/core/readline/functions/Complete.java:34-43 | the interaction after `apply` is `Effect` of the one before: with a handler a completion is handed to it, without one the interaction resumes |
| Complete.ExactlyOneEffect | src/main/java/io/termd/core/readline/functions/Complete.java:36-42 | exactly one effect per call: the handler is called once more, with the current line and cursor, and the pause is kept, if and only if there is a handler; otherwise nothing is handed out and the interaction resumes; line, continuation and history untouched |
| Complete.EffectValid | src/main/java/io/termd/core/readline/functions/Complete.java:34-43 | applying `complete` keeps the interaction well formed |
| Readlines.TabCompletes | src/main/java/io/termd/core/readline/functions/Complete.java:29-43 | Tab (codepoint 9) is bound to the function named `complete` and runs its effect on the paused interaction |
| TtyOutputMode.Translate | src/test/java/io/termd/core/tty/TtyOutputModeTest.java:35-40 | the output is as long as the input plus its number of LFs; input without LF passes unchanged |
| TtyOutputMode.TranslateHead | src/test/java/io/termd/core/tty/TtyOutputModeTest.java:37-39 | translated output never starts with a bare LF |
| TtyOutputMode.EveryLFHasCR | src/test/java/io/termd/core/tty/TtyOutputModeTest.java:35-40 | every LF of the output is directly preceded by a CR |
| TtyOutputMode.TranslateAppend | src/test/java/io/termd/core/tty/TtyOutputModeTest.java:43-49 | translation distributes over concatenation: output written in chunks is the translation of the whole |
| TtyOutputMode.UntranslateTranslate | src/test/java/io/termd/core/tty/TtyOutputModeTest.java:40 | nothing is lost or reordered: dropping the CR before each LF gives the input back |
| TtyOutputMode.Examples | src/test/java/io/termd/core/tty/TtyOutputModeTest.java:35-40 | the five assertions of testTranslateLFToCRLF |
| Utf8.EncodeScalar | src/test/java/io/termd/core/io/BinaryEncodingTest.java:22-27 | one codepoint gives 1 to 4 bytes, by its range (section 3 of RFC 3629) |
| Utf8.Encode | src/test/java/io/termd/core/io/BinaryEncodingTest.java:39 | the encoder gives between one and four bytes per codepoint |
| Utf8.EncodeAppend | src/test/java/io/termd/core/io/BinaryEncodingTest.java:39 | encoding distributes over concatenation |
| Utf8.EncodingIsWellFormed | src/test/java/io/termd/core/io/BinaryEncodingTest.java:29-44 | the bytes of a codepoint form a well-formed sequence (section 4 of RFC 3629) whose value is that codepoint |
| Utf8.WellFormedIsEncoding | src/test/java/io/termd/core/io/BinaryEncodingTest.java:45-60 | every well-formed sequence encodes a scalar value and is its encoding: the decoder accepts exactly what the encoder produces |
| Utf8.DecodeStep | src/test/java/io/termd/core/io/BinaryEncodingTest.java:59 | a decided step consumes 1 to 4 bytes and yields a scalar value; more bytes are needed only for a short prefix |
| Utf8.DecodeAll | src/test/java/io/termd/core/io/BinaryEncodingTest.java:59 | decoding never yields more codepoints, or keeps more bytes, than it was given |
| Utf8.PendingIsIncompleteTail | src/test/java/io/termd/core/io/BinaryEncodingTest.java:101-104 | the bytes held back are the tail of the input, and they are an incomplete sequence |
| Utf8.DecodedAreScalars | src/test/java/io/termd/core/io/BinaryEncodingTest.java:59-60 | the decoder only ever yields Unicode scalar values |
| Utf8.StepExtend | src/test/java/io/termd/core/io/BinaryEncodingTest.java:101-107 | once the front of the bytes is decided, bytes that arrive later do not change it |
| Utf8.DecodeAppend | src/test/java/io/termd/core/io/BinaryEncodingTest.java:101-107 | chunk invariance: decoding a + b yields what decoding a, then a's held bytes followed by b, yields, and holds the same bytes |
| Utf8.DecodeEncode | src/test/java/io/termd/core/io/BinaryEncodingTest.java:29-61 | round trip: decoding the encoder's bytes gives the codepoints back and holds nothing |
| Utf8.SplitRoundTrip | src/test/java/io/termd/core/io/BinaryEncodingTest.java:92-108 | the round trip holds however the encoded bytes are split into two writes |
| Utf8.CharIsEncoding | src/test/java/io/termd/core/io/BinaryEncodingTest.java:45-60 | what a decoded sequence yields re-encodes to exactly the bytes consumed |
| Utf8.EncodeExamples | src/test/java/io/termd/core/io/BinaryEncodingTest.java:23-27 | "A", U+20AC and U+102B7 encode to the bytes testChars expects |
| Utf8.DecodeExamples | src/test/java/io/termd/core/io/BinaryEncodingTest.java:55-60 | those bytes decode back to the codepoints |
| Utf8.EuroByteByByte | src/test/java/io/termd/core/io/BinaryEncodingTest.java:101-107 | the euro sign written byte by byte: nothing after the first two bytes, which are held, U+20AC after the third |
| BinaryDecoders.EncodeChunk | src/test/java/io/termd/core/io/BinaryEncodingTest.java:39-44 | the encoder's output decodes to the codepoints written, with nothing held |
| BinaryDecoders.BatchesAreBatching | src/test/java/io/termd/core/io/BinaryEncodingTest.java:84-90 | the batches of capacity N deliver every codepoint in order, none empty or larger than N, all but the last full |
| BinaryDecoders.BatchingUnique | src/test/java/io/termd/core/io/BinaryEncodingTest.java:84-90 | there is only one way to batch a run of codepoints at capacity N |
| BinaryDecoders.SingleBatch | src/test/java/io/termd/core/io/BinaryEncodingTest.java:88-89 | a run no longer than the capacity arrives as one batch |
| BinaryDecoders.BatchesAfterFull | src/test/java/io/termd/core/io/BinaryEncodingTest.java:84-87 | full batches already delivered are the front of the batching of the whole run |
| BinaryDecoders.DecodeStops | src/test/java/io/termd/core/io/BinaryEncodingTest.java:101-104 | decoding yields nothing at the end of the input or in front of an incomplete sequence |
| BinaryDecoders.BinaryDecoder.constructor | src/test/java/io/termd/core/io/BinaryEncodingTest.java:63-65 | a fresh decoder holds no bytes and has a scratch buffer of the given capacity |
| BinaryDecoders.BinaryDecoder.Write | src/test/java/io/termd/core/io/BinaryEncodingTest.java:63-81 | a write hands the consumer the batches of everything decodable from the held bytes plus the new ones, and holds the incomplete tail |
| BinaryDecoders.BinaryDecoder.Push | src/test/java/io/termd/core/io/BinaryEncodingTest.java:65-74 | a codepoint goes into the scratch buffer, which is handed on when full; nothing is lost or reordered |
| BinaryDecoders.BinaryDecoder.DecodeFull | src/test/java/io/termd/core/io/BinaryEncodingTest.java:63-81 | the decoding loop stops at the end or in front of an incomplete sequence; full batches plus the buffer contents are what was decoded |
| BinaryDecoders.BinaryDecoder.DecodeInto | src/test/java/io/termd/core/io/BinaryEncodingTest.java:63-81 | the batches handed on are the batching of the decoded codepoints, and the rest is the held tail |
| BinaryDecoders.EncodeAscii | src/test/java/io/termd/core/io/BinaryEncodingTest.java:24 | ASCII is its own encoding |
| BinaryDecoders.OverflowBatches | src/test/java/io/termd/core/io/BinaryEncodingTest.java:84-90 | "ABCDE" is batched as the overflow test expects at capacities 2 to 6 |
| BinaryDecoders.OverflowAt | src/test/java/io/termd/core/io/BinaryEncodingTest.java:63-81 | a decoder of capacity N handed the bytes of "ABCDE" gives the batches of capacity N |
| BinaryDecoders.OverflowScenario | src/test/java/io/termd/core/io/BinaryEncodingTest.java:83-90 | testDecoderOverflow: the five capacities give [AB, CD, E], [ABC, DE], [ABCD, E], [ABCDE], [ABCDE] |
| BinaryDecoders.UnderflowScenario | src/test/java/io/termd/core/io/BinaryEncodingTest.java:92-108 | testDecoderUnderflow: nothing after 0xE2 and 0x82, then exactly one batch, U+20AC, after 0xAC |
| BinaryDecoders.CharsRoundTrip | src/test/java/io/termd/core/io/BinaryEncodingTest.java:29-61 | testChars at any capacity: the encoder's bytes written to a fresh decoder come back as the codepoints, nothing held |
| LineBuffers.Insert | src/test/java/io/termd/core/readline/ReadlineTest.java:64-70 | the codepoint is placed at the cursor, the text around it kept, and the cursor moves past it |
| LineBuffers.InsertAll | src/test/java/io/termd/core/readline/ReadlineTest.java:252-264 | inserting several codepoints lengthens the text and advances the cursor by their number |
| LineBuffers.InsertAllSplices | src/test/java/io/termd/core/readline/ReadlineTest.java:252-264 | inserting several codepoints splices them in at the cursor, which ends after them |
| LineBuffers.BackwardDeleteChar | src/test/java/io/termd/core/readline/ReadlineTest.java:98-105 | at the start nothing changes; otherwise one codepoint fewer and the cursor back by one |
| LineBuffers.DeleteChar | src/test/java/io/termd/core/readline/ReadlineTest.java:405-419 | at the end nothing changes; otherwise one codepoint fewer and the cursor in place |
| LineBuffers.BackwardChar | src/test/java/io/termd/core/readline/ReadlineTest.java:159-175 | the text is kept and the cursor stays within it |
| LineBuffers.ForwardChar | src/test/java/io/termd/core/readline/ReadlineTest.java:178-195 | the text is kept and the cursor stays within it |
| LineBuffers.BeginningOfLine | src/test/java/io/termd/core/readline/ReadlineTest.java:304-314 | the text is kept and the cursor stays within it |
| LineBuffers.EndOfLine | src/test/java/io/termd/core/readline/ReadlineTest.java:317-332 | the text is kept and the cursor stays within it |
| LineBuffers.KillLine | src/test/java/io/termd/core/readline/ReadlineTest.java:422-440 | the text is cut at the cursor, which stays put at the new end |
| LineBuffers.SkipBack | src/test/java/io/termd/core/readline/ReadlineTest.java:443-457 | the run crossed leftwards is all of one class (word or separator) and the codepoint where it stops is not |
| LineBuffers.SkipForward | src/test/java/io/termd/core/readline/ReadlineTest.java:460-476 | the run crossed rightwards is all of one class and the codepoint where it stops is not |
| LineBuffers.BackwardWordLands | src/test/java/io/termd/core/readline/ReadlineTest.java:443-457 | backward-word lands at a word start or at 0, with a word and then only separators between it and the cursor; the word is non-empty unless the line starts there |
| LineBuffers.ForwardWordLands | src/test/java/io/termd/core/readline/ReadlineTest.java:460-476 | forward-word lands at a word end or at the end, with only separators and then a word between the cursor and it; the word is non-empty unless the line ends there |
| LineBuffers.FindBackwardWord | src/test/java/io/termd/core/readline/ReadlineTest.java:443-457 | the two-loop scan finds the backward-word target |
| LineBuffers.FindForwardWord | src/test/java/io/termd/core/readline/ReadlineTest.java:460-476 | the two-loop scan finds the forward-word target |
| LineBuffers.BackwardWord | src/test/java/io/termd/core/readline/ReadlineTest.java:443-457 | the text is kept and the cursor does not move right |
| LineBuffers.ForwardWord | src/test/java/io/termd/core/readline/ReadlineTest.java:460-476 | the text is kept and the cursor does not move left |
| LineBuffers.BackwardKillWord | src/test/java/io/termd/core/readline/ReadlineTest.java:479-497 | the buffer stays well formed |
| LineBuffers.BackwardKillWordSpan | src/test/java/io/termd/core/readline/ReadlineTest.java:479-497 | backward-kill-word deletes exactly the span from the backward-word target to the cursor, keeps the rest and leaves the cursor at the target |
| LineBuffers.EdgeOperationsAreNoOps | src/test/java/io/termd/core/readline/ReadlineTest.java:108-116 | at the start backward moves and deletions change nothing, at the end forward ones; on an empty line neither deletion does |
| LineBuffers.InsertThenBackwardDelete | src/test/java/io/termd/core/readline/ReadlineTest.java:98-105 | backward-delete undoes an insertion |
| LineBuffers.DeleteCharThenInsert | src/test/java/io/termd/core/readline/ReadlineTest.java:405-419 | deleting the codepoint under the cursor and inserting it back is moving forward over it |
| LineBuffers.BackwardDeleteRemovesPrevious | src/test/java/io/termd/core/readline/ReadlineTest.java:119-143 | backward-delete removes exactly the codepoint before the cursor |
| LineBuffers.BackwardForwardInverse | src/test/java/io/termd/core/readline/ReadlineTest.java:168-195 | one step back and one forward return to the same place, and the other way round |
| LineBuffers.LineEndsIdempotent | src/test/java/io/termd/core/readline/ReadlineTest.java:304-332 | beginning- and end-of-line are idempotent and put the cursor at 0 and at the length |
| LineBuffers.KillLineIdempotent | src/test/java/io/termd/core/readline/ReadlineTest.java:422-440 | kill-line is idempotent and leaves the cursor at the end |
| LineBuffers.ApplyEdit | src/test/java/io/termd/core/readline/ReadlineTest.java:64-195 | every single-step edit keeps the cursor within the text |
| LineBuffers.EditsKeepInvariant | src/test/java/io/termd/core/readline/ReadlineTest.java:64-195 | after any sequence of edits the cursor is within the text, and the length changed by the insertions minus the deletions applied |
| LineBuffers.BackwardWordExamples | src/test/java/io/termd/core/readline/ReadlineTest.java:443-457 | on "a01 e9__5a" backward-word goes 9, 8, 4, 0 and stays at 0 |
| LineBuffers.ForwardWordExamples | src/test/java/io/termd/core/readline/ReadlineTest.java:460-476 | forward-word goes 1, 3, 6, 10 and stays at 10 |
| LineBuffers.KillWordExamples | src/test/java/io/termd/core/readline/ReadlineTest.java:479-497 | backward-kill-word from 9 leaves "a01 e9__a", "a01 a", then "a", which it keeps |
| LineStatus.Accept | src/test/java/io/termd/core/readline/ReadlineTest.java:198-224 | an escaped codepoint is taken literally and clears the escape; a codepoint other than a backslash or quote changes nothing |
| LineStatus.Join | src/test/java/io/termd/core/readline/ReadlineTest.java:198-224 | no lines join to nothing and one line to itself |
| LineStatus.JoinSnoc | src/test/java/io/termd/core/readline/ReadlineTest.java:198-224 | joining one more visual line adds an LF and the line |
| LineStatus.ScanAppend | src/test/java/io/termd/core/readline/ReadlineTest.java:198-224 | the scan is a left fold: the logical line can be scanned visual line by visual line |
| LineStatus.QuoteParity | src/test/java/io/termd/core/readline/ReadlineTest.java:198-224 | without backslashes and single quotes, a line is inside a double quote exactly when it holds an odd number of them |
| LineStatus.ScanPlain | src/test/java/io/termd/core/readline/ReadlineTest.java:84-95 | codepoints that are neither backslashes nor quotes leave an unescaped scan as it is |
| LineStatus.TrailingBackslashContinues | src/test/java/io/termd/core/readline/ReadlineTest.java:84-95 | a trailing backslash that is not itself escaped makes the line continue |
| LineStatus.EscapeExamples | src/test/java/io/termd/core/readline/ReadlineTest.java:84-95 | a lone backslash continues; "A" and the empty line do not |
| LineStatus.OpenQuoteExamples | src/test/java/io/termd/core/readline/ReadlineTest.java:198-215 | A" continues, and so does A" LF B |
| LineStatus.ClosedQuoteExample | src/test/java/io/termd/core/readline/ReadlineTest.java:198-224 | A", B, C" join to A" LF B LF C", which does not continue |
| Interactions.Initial | src/test/java/io/termd/core/readline/ReadlineTest.java:20-30 | a new interaction has an empty line at the prompt, no continuation, no browsing, and is not paused |
| Interactions.Interaction.constructor | src/test/java/io/termd/core/readline/ReadlineTest.java:20-30 | a new interaction object is in the initial state |
| Interactions.Interaction.ContinueLine | src/test/java/io/termd/core/readline/ReadlineTest.java:84-95 | the visual line is kept as part of the logical line, and editing starts again on an empty one |
| Interactions.Interaction.Reset | src/test/java/io/termd/core/readline/ReadlineTest.java:335-358 | an interrupt drops the logical line, the buffer and the browsing; everything else is kept |
| Interactions.Interaction.RequestCompletion | src/main/java/io/termd/core/readline/functions/Complete.java:36-39 | the completion handler is handed the current line and cursor, once |
| Interactions.Interaction.Resume | src/main/java/io/termd/core/readline/functions/Complete.java:40-42 | the interaction is resumed and nothing else changes |
| Functions.EditOf | src/test/java/io/termd/core/readline/ReadlineTest.java:98-195 | every line-buffer function keeps the buffer well formed |
| Functions.Show | src/test/java/io/termd/core/readline/ReadlineTest.java:267-301 | a fetched line is shown whole, with the cursor at its end |
| Functions.PreviousHistory | src/test/java/io/termd/core/readline/ReadlineTest.java:267-301 | browsing back keeps the interaction well formed |
| Functions.NextHistory | src/test/java/io/termd/core/readline/ReadlineTest.java:267-301 | browsing forward keeps the interaction well formed |
| Functions.Effect | src/test/java/io/termd/core/readline/ReadlineTest.java:98-195 | every known function keeps the interaction well formed, and its prompt, continuation, history and handler |
| Functions.Apply | src/test/java/io/termd/core/readline/ReadlineTest.java:98-195 | applying a function by name to the interaction object gives the state `Effect` specifies; the word motions use the scan loops |
| Functions.BrowsingKeepsHistory | src/test/java/io/termd/core/readline/ReadlineTest.java:267-301 | browsing never changes the stored history; a step back shows the next older entry and a step forward the next newer one, cursor at the end |
| Functions.BrowsingClamps | src/test/java/io/termd/core/readline/ReadlineTest.java:267-301 | a step back at the oldest entry and a step forward when not browsing only resume |
| Functions.UpsReach | src/test/java/io/termd/core/readline/ReadlineTest.java:267-301 | n steps back from the typed line show the n-th newest entry and remember the typed text |
| Functions.DownsRestore | src/test/java/io/termd/core/readline/ReadlineTest.java:267-301 | n steps forward move the position n back toward the typed line, showing each entry afresh and, at position 0, the remembered text |
| Functions.UpsThenDownsRestore | src/test/java/io/termd/core/readline/ReadlineTest.java:267-301 | n steps back and n forward show again the text that was being typed |
| Functions.EditsKeepBrowsing | src/test/java/io/termd/core/readline/ReadlineTest.java:267-301 | a line-buffer function never touches the browse position or the remembered text, and resumes |
| Readlines.Binding | src/test/java/io/termd/core/readline/ReadlineTest.java:119-129 | exactly the codepoints 1, 5, 8, 9, 11, 13 and 127 are bound, each to accept-line or a known function |
| Readlines.Display | src/test/java/io/termd/core/readline/ReadlineTest.java:20-30 | the screen is the finished rows plus, while reading, the edited row |
| Readlines.Handle | src/test/java/io/termd/core/readline/ReadlineTest.java:33-61 | one input keeps the engine well formed, never touches the queue, only appends to history and results, and resolves the read exactly when it adds a result; it runs Enter through `AcceptLine`, ctrl-C through `Interrupt` and a resolved read through `Resolve`, whose content is stated by `EnterResolvesIff`, `InterruptKeepsReading`, `InterruptThenEnter`, `EofOnEmptyLine` and `DrainResolvesOnce` |
| Readlines.Unbound | src/test/java/io/termd/core/readline/ReadlineTest.java:361-368 | an unbound codepoint never resolves the read or touches history and results |
| Readlines.Drain | src/test/java/io/termd/core/readline/ReadlineTest.java:252-264 | queued input is taken until the queue is empty, the read resolves or the interaction pauses |
| Readlines.ReadLineSpec | src/test/java/io/termd/core/readline/ReadlineTest.java:48-61 | a read request is refused, with nothing changed, exactly while another is pending |
| Readlines.ReadSpec | src/test/java/io/termd/core/readline/ReadlineTest.java:252-264 | input from the terminal keeps the engine well formed |
| Readlines.CancelSpec | src/test/java/io/termd/core/readline/ReadlineTest.java:48-61 | cancel reports whether a read was pending; if so the read is delivered null and the engine is idle, otherwise nothing changes |
| Readlines.EndCompletionSpec | src/main/java/io/termd/core/readline/functions/Complete.java:36-39 | the end of a completion keeps the engine well formed; the cited lines only hand the line to the completion handler, and inserting the completed text and resuming stands for that handler's later callback; its content is stated by `EndCompletionInserts` and `EndCompletionIdle` |
| Readlines.EndCompletionInserts | src/main/java/io/termd/core/readline/functions/Complete.java:36-39 | ending the completion of a paused interaction with nothing queued splices the completed text in at the cursor, moves the cursor past it and resumes, changing nothing else (the model's stand-in for the handler's callback) |
| Readlines.EndCompletionIdle | src/main/java/io/termd/core/readline/functions/Complete.java:36-39 | ending a completion when no interaction is paused for one changes nothing |
| Readlines.Readline.constructor | src/test/java/io/termd/core/readline/ReadlineTest.java:20-30 | a new engine is idle, with empty history, queue and screen |
| Readlines.Readline.ReadLine | src/test/java/io/termd/core/readline/ReadlineTest.java:20-30 | the engine object follows `ReadLineSpec` |
| Readlines.Readline.Read | src/test/java/io/termd/core/readline/ReadlineTest.java:252-264 | the engine object follows `ReadSpec` |
| Readlines.Readline.Cancel | src/test/java/io/termd/core/readline/ReadlineTest.java:48-61 | the engine object follows `CancelSpec` |
| Readlines.Readline.EndCompletion | src/main/java/io/termd/core/readline/functions/Complete.java:36-39 | the engine object follows `EndCompletionSpec`: the completed text is spliced in at the cursor, the interaction resumes and takes queued input, and an engine not paused for a completion is unchanged (`EndCompletionInserts`, `EndCompletionIdle`); the cited lines only hand the line to the completion handler, and this method stands for that handler's later callback |
| Readlines.Readline.Deliver | src/test/java/io/termd/core/readline/ReadlineTest.java:252-264 | the input loop leaves the engine as `Drain` specifies |
| Readlines.Readline.Finish | src/test/java/io/termd/core/readline/ReadlineTest.java:33-45 | the read is resolved: the edited row is finished and the engine idle |
| Readlines.Readline.HandleOne | src/test/java/io/termd/core/readline/ReadlineTest.java:64-81 | one input handled on the object gives the state `Handle` specifies |
| Readlines.Readline.DispatchOne | src/test/java/io/termd/core/readline/ReadlineTest.java:84-95 | running a function by name on the object gives the state `Dispatch` specifies; `Dispatch`'s content is stated by `EditKeyApplies`, `BoundCodeApplies`, `HistoryKeyApplies` and `TabCompletes` |
| Readlines.DrainOnlyAppends | src/test/java/io/termd/core/readline/ReadlineTest.java:252-264 | draining never takes back a result or a history entry |
| Readlines.DrainResolvesOnce | src/test/java/io/termd/core/readline/ReadlineTest.java:252-264 | a read is resolved at most once, and the engine is idle exactly when it was |
| Readlines.CancelOnce | src/test/java/io/termd/core/readline/ReadlineTest.java:48-61 | cancel fails while idle; for a pending read a second request is refused, cancel succeeds once, delivering null, and a second cancel fails |
| Readlines.InterruptKeepsReading | src/test/java/io/termd/core/readline/ReadlineTest.java:335-358 | ctrl-C resolves nothing, leaves the row on the screen and starts again on the prompt with an empty line, no continuation and no browsing |
| Readlines.InterruptThenEnter | src/test/java/io/termd/core/readline/ReadlineTest.java:371-388 | after ctrl-C, Enter delivers the empty line, not null |
| Readlines.IllegalKeyRings | src/test/java/io/termd/core/readline/ReadlineTest.java:361-368 | an unbound control codepoint rings the bell once and changes nothing else |
| Readlines.EofOnEmptyLine | src/test/java/io/termd/core/readline/ReadlineTest.java:391-419 | ctrl-D on an empty line delivers null and ends the read; on a non-empty one it deletes the codepoint under the cursor |
| Readlines.EnterResolvesIff | src/test/java/io/termd/core/readline/ReadlineTest.java:198-224 | Enter resolves exactly when the logical line neither ends escaped nor in a quote, delivering the visual lines joined by LF and adding them to the history; otherwise a `> ` line follows |
| Readlines.PrintableInserted | src/test/java/io/termd/core/readline/ReadlineTest.java:64-70 | a printable codepoint is inserted at the cursor, which moves one column, and nothing else changes |
| Readlines.DrainOne | src/test/java/io/termd/core/readline/ReadlineTest.java:64-81 | one input read by an idle queue is handled at once |
| Readlines.EditKeyApplies | src/test/java/io/termd/core/readline/ReadlineTest.java:443-497 | a key event naming a line-buffer function applies it and resumes; nothing else changes |
| Readlines.BoundCodeApplies | src/test/java/io/termd/core/readline/ReadlineTest.java:304-332 | codepoints 1, 5, 8, 11, 127, and 4 on a non-empty line, apply their line-buffer functions |
| Readlines.HistoryKeyApplies | src/test/java/io/termd/core/readline/ReadlineTest.java:267-301 | the history keys browse back and forward |
| Readlines.Codes | src/test/java/io/termd/core/readline/ReadlineTest.java:64-81 | the inputs of a run of typed codepoints, one per codepoint, in order |
| Readlines.TypingInserts | src/test/java/io/termd/core/readline/ReadlineTest.java:252-264 | typed printable codepoints are inserted in order before the input that follows them is handled |
| Readlines.DrainFirst | src/test/java/io/termd/core/readline/ReadlineTest.java:252-264 | the first of several queued inputs is handled first |
| Readlines.HandleIgnoresQueue | src/test/java/io/termd/core/readline/ReadlineTest.java:252-264 | handling an input does not depend on what is still queued |
| Readlines.DrainAppend | src/test/java/io/termd/core/readline/ReadlineTest.java:252-264 | queued input is taken in order: more input behind the queue is handled after it |
| Readlines.ReadInChunks | src/test/java/io/termd/core/readline/ReadlineTest.java:252-264 | input delivered in two reads is handled exactly as in one |
| ReadlineScenarios.TypingSpec | src/test/java/io/termd/core/readline/ReadlineTest.java:64-81 | typing printable codepoints splices them in at the cursor before later keys are handled |
| ReadlineScenarios.EnterResolves | src/test/java/io/termd/core/readline/ReadlineTest.java:33-45 | Enter on a line that does not continue finishes the row, delivers the logical line and adds it to the history |
| ReadlineScenarios.EnterContinues | src/test/java/io/termd/core/readline/ReadlineTest.java:84-95 | Enter on a line that continues finishes the row and starts an empty continuation line |
| ReadlineScenarios.WordKeys | src/test/java/io/termd/core/readline/ReadlineTest.java:443-497 | the word keys move to, or delete back to, the word targets |
| ReadlineScenarios.ReadFour | src/test/java/io/termd/core/readline/ReadlineTest.java:252-264 | four inputs read at once are handled one after the other |
| ReadlineScenarios.PromptShown | src/test/java/io/termd/core/readline/ReadlineTest.java:20-30 | testPrompt: the screen shows `% ` with the cursor at (0, 2) |
| ReadlineScenarios.EnterOnEmptyLine | src/test/java/io/termd/core/readline/ReadlineTest.java:33-45 | testEnter: the empty line is delivered and the cursor is at (1, 0) |
| ReadlineScenarios.CancelTwice | src/test/java/io/termd/core/readline/ReadlineTest.java:48-61 | cancel: false while idle, true once with null delivered, then false |
| ReadlineScenarios.InsertChar | src/test/java/io/termd/core/readline/ReadlineTest.java:64-70 | testInsertChar: `% A`, cursor (0, 3) |
| ReadlineScenarios.InsertCharEnter | src/test/java/io/termd/core/readline/ReadlineTest.java:73-81 | testInsertCharEnter: "A" delivered, cursor (1, 0) |
| ReadlineScenarios.EscapeEnter | src/test/java/io/termd/core/readline/ReadlineTest.java:84-95 | testEscapeCR: `% \` then a `> ` row, nothing delivered, cursor (1, 2) |
| ReadlineScenarios.BackwardDeleteOnly | src/test/java/io/termd/core/readline/ReadlineTest.java:98-105 | testBackwardDeleteChar and testBackwardDeleteEscape: the only codepoint is deleted |
| ReadlineScenarios.EdgeKeysOnEmptyLine | src/test/java/io/termd/core/readline/ReadlineTest.java:108-116 | testBackwardDelete, testBackwardChar, testForwardChar: nothing changes on an empty line |
| ReadlineScenarios.BackwardDeleteLastChar | src/test/java/io/termd/core/readline/ReadlineTest.java:119-129 | testBackwardDeleteLastChar: codepoint 8 deletes the last codepoint |
| ReadlineScenarios.BackwardCharBackwardDeleteChar | src/test/java/io/termd/core/readline/ReadlineTest.java:132-143 | "AB" with the cursor between becomes "B" with the cursor at its start |
| ReadlineScenarios.InsertCharBackwardForward | src/test/java/io/termd/core/readline/ReadlineTest.java:168-195 | testInsertCharBackwardChar and testInsertCharForwardChar: the cursor moves, the row stays |
| ReadlineScenarios.QuotedMultiline | src/test/java/io/termd/core/readline/ReadlineTest.java:198-224 | testQuotedMultiline: rows and cursor after each Enter, and `A"` LF `B` LF `C"` delivered once the quote closes |
| ReadlineScenarios.Buffering | src/test/java/io/termd/core/readline/ReadlineTest.java:252-264 | testBuffering: two lines read at once; the second is delivered by the next read request |
| ReadlineScenarios.History | src/test/java/io/termd/core/readline/ReadlineTest.java:267-301 | testHistory: the rows shown while walking the history, the clamps, the edited copy not stored, and the typed "3" coming back |
| ReadlineScenarios.CtrlATwice | src/test/java/io/termd/core/readline/ReadlineTest.java:304-314 | testEndOfLine: ctrl-A goes to the start and stays there |
| ReadlineScenarios.BackThenCtrlE | src/test/java/io/termd/core/readline/ReadlineTest.java:317-332 | testBeginningOfLine: four steps back reach the start and ctrl-E the end |
| ReadlineScenarios.ResetDuringInteraction1 | src/test/java/io/termd/core/readline/ReadlineTest.java:335-345 | testResetDuringInteraction1: ctrl-C leaves "abcd" on its row and "e" is delivered |
| ReadlineScenarios.ResetDuringInteraction2 | src/test/java/io/termd/core/readline/ReadlineTest.java:348-358 | testResetDuringInteraction2: ctrl-C on a continuation line drops the whole logical line |
| ReadlineScenarios.IllegalChar | src/test/java/io/termd/core/readline/ReadlineTest.java:361-368 | testIllegalChar: the bell rings once and "ab" is delivered |
| ReadlineScenarios.InterruptEmptyThenEnter | src/test/java/io/termd/core/readline/ReadlineTest.java:371-388 | testEventHandler: ctrl-C on an empty line then Enter delivers the empty line |
| ReadlineScenarios.EofOnEmpty | src/test/java/io/termd/core/readline/ReadlineTest.java:391-402 | testEOF: ctrl-D on an empty line delivers null |
| ReadlineScenarios.DeleteCharScenario | src/test/java/io/termd/core/readline/ReadlineTest.java:405-419 | testDeleteChar: no change at the end, "abc" becomes "ac" inside |
| ReadlineScenarios.KillLineScenario | src/test/java/io/termd/core/readline/ReadlineTest.java:422-440 | testKillLine on a wide terminal: ctrl-K leaves "a", which is delivered |
| ReadlineScenarios.BackwardWordScenario | src/test/java/io/termd/core/readline/ReadlineTest.java:443-457 | testBackwardWord: the cursor columns after each step |
| ReadlineScenarios.ForwardWordScenario | src/test/java/io/termd/core/readline/ReadlineTest.java:460-476 | testForwardWord: the cursor columns after each step |
| ReadlineScenarios.BackwardKillWordScenario | src/test/java/io/termd/core/readline/ReadlineTest.java:479-497 | testBackwardKillWord: the columns and rows after each step |
| ReadlineScenarios.CompletionScenario | src/main/java/io/termd/core/readline/functions/Complete.java:36-39 | with a handler, Tab hands it the line and cursor and the interaction waits, a key typed meanwhile stays queued, and the completed text comes first |
| ReadlineScenarios.TabWithoutHandler | src/main/java/io/termd/core/readline/functions/Complete.java:40-42 | without a handler, Tab leaves the row and cursor as they were |
| UserAuth.Pieces | src/main/java/io/termd/core/ssh/netty/AsyncUserAuthService.java:69 | a string splits into at least one piece, none holding a separator |
| UserAuth.DropTrailingEmpty | src/main/java/io/termd/core/ssh/netty/AsyncUserAuthService.java:69 | the trailing empty pieces are dropped and nothing else |
| UserAuth.GenericSplit | src/main/java/io/termd/core/ssh/netty/AsyncUserAuthService.java:70 | no piece holds the separator |
| UserAuth.PiecesOfJoin | src/main/java/io/termd/core/ssh/netty/AsyncUserAuthService.java:69-70 | splitting names joined by a separator gives the names back |
| UserAuth.CommaListRoundTrip | src/main/java/io/termd/core/ssh/netty/AsyncUserAuthService.java:70 | a comma-separated chain of names splits back into the names |
| UserAuth.SingletonLists | src/main/java/io/termd/core/ssh/netty/AsyncUserAuthService.java:61-64 | one list per factory, holding its name, in factory order |
| UserAuth.CommaLists | src/main/java/io/termd/core/ssh/netty/AsyncUserAuthService.java:69-71 | one chain per whitespace-separated field |
| UserAuth.Chains | src/main/java/io/termd/core/ssh/netty/AsyncUserAuthService.java:69-71 | one written chain per list |
| UserAuth.ParseRender | src/main/java/io/termd/core/ssh/netty/AsyncUserAuthService.java:60-72 | parsing the configuration is the inverse of writing it: non-empty chains of names come back as written |
| UserAuth.RenderSplits | src/main/java/io/termd/core/ssh/netty/AsyncUserAuthService.java:69 | the written configuration is not empty and splits at whitespace into the chains |
| UserAuth.DefaultMethodLists | src/main/java/io/termd/core/ssh/netty/AsyncUserAuthService.java:61-64 | without configuration the lists are one singleton per factory, in factory order |
| UserAuth.ConfiguredNamesPlain | src/main/java/io/termd/core/ssh/netty/AsyncUserAuthService.java:69-71 | a configured method never holds a comma or whitespace |
| UserAuth.FindFrom | src/main/java/io/termd/core/ssh/netty/AsyncUserAuthService.java:76 | the first factory from k on whose name equals the method up to case, or none if none does |
| UserAuth.FindByName | src/main/java/io/termd/core/ssh/netty/AsyncUserAuthService.java:76 | a factory is found exactly when the name is not empty and some factory's name equals it up to case; the first such |
| UserAuth.FirstUnsupportedInSpec | src/main/java/io/termd/core/ssh/netty/AsyncUserAuthService.java:74-81 | a chain reports a method exactly when one of its methods selects no factory, and reports such a method |
| UserAuth.FirstUnsupportedSpec | src/main/java/io/termd/core/ssh/netty/AsyncUserAuthService.java:74-81 | construction's check reports a method exactly when some configured method selects no factory, and reports such a method |
| UserAuth.HeadsSpec | src/main/java/io/termd/core/ssh/netty/AsyncUserAuthService.java:305-313 | a name is offered exactly when it heads a non-empty chain (and is not `none` when skipped) |
| UserAuth.FailureOffers | src/main/java/io/termd/core/ssh/netty/AsyncUserAuthService.java:341-352 | a failed client is offered the head of every non-empty chain except `none`, and nothing else |
| UserAuth.BuildListJoins | src/main/java/io/termd/core/ssh/netty/AsyncUserAuthService.java:305-315 | the built reply is the offered heads joined by commas |
| UserAuth.RepliedMethodsReadBack | src/main/java/io/termd/core/ssh/netty/AsyncUserAuthService.java:305-322 | the reply text splits at its commas back into the offered heads, in order |
| UserAuth.Initial | src/main/java/io/termd/core/ssh/netty/AsyncUserAuthService.java:56-58 | the service after construction is well formed |
| UserAuth.ConstructSpec | src/main/java/io/termd/core/ssh/netty/AsyncUserAuthService.java:45-87 | construction succeeds exactly when the session is not authenticated, there are factories and every configured method selects one |
| UserAuth.PopAll | src/main/java/io/termd/core/ssh/netty/AsyncUserAuthService.java:253-259 | popping keeps the number of chains |
| UserAuth.FirstRequestFixesUser | src/main/java/io/termd/core/ssh/netty/AsyncUserAuthService.java:126-128 | the first request fixes user and service, is not counted and does not disconnect |
| UserAuth.UserStaysFixed | src/main/java/io/termd/core/ssh/netty/AsyncUserAuthService.java:126-139 | once fixed, the user name and service never change |
| UserAuth.ChangeOfUserDisconnects | src/main/java/io/termd/core/ssh/netty/AsyncUserAuthService.java:134-139 | a request for another user or service disconnects without an attempt |
| UserAuth.RepeatedRequestCounted | src/main/java/io/termd/core/ssh/netty/AsyncUserAuthService.java:129-133 | a repeated request is counted, and disconnects without an attempt exactly when the count before it exceeds the maximum |
| UserAuth.AttemptsBounded | src/main/java/io/termd/core/ssh/netty/AsyncUserAuthService.java:129-133 | once the count exceeds the maximum the next request disconnects |
| UserAuth.UnknownMethodFails | src/main/java/io/termd/core/ssh/netty/AsyncUserAuthService.java:148-171 | a method selecting no factory fails whatever the authenticator would say, with no method in progress |
| UserAuth.SuccessPops | src/main/java/io/termd/core/ssh/netty/AsyncUserAuthService.java:253-259 | success removes the method from the head of exactly the chains it heads (case-sensitively), and completes exactly when one of them is used up |
| UserAuth.PartialSuccessReply | src/main/java/io/termd/core/ssh/netty/AsyncUserAuthService.java:304-324 | a partial success replies with the remaining heads and the partial flag, and changes nothing else |
| UserAuth.FailureReply | src/main/java/io/termd/core/ssh/netty/AsyncUserAuthService.java:333-371 | a failure replies with the heads except `none`, without the partial flag, and leaves the chains |
| UserAuth.ConcludeClearsCurrent | src/main/java/io/termd/core/ssh/netty/AsyncUserAuthService.java:172-176 | after success or failure no method is in progress, so a follow-up message is an illegal state; a method in progress stays so |
| UserAuth.PopKeepsSuffix | src/main/java/io/termd/core/ssh/netty/AsyncUserAuthService.java:254-258 | a popped chain stays a suffix of its configured chain |
| UserAuth.PopAllKeepsChains | src/main/java/io/termd/core/ssh/netty/AsyncUserAuthService.java:253-259 | success keeps every chain a suffix of its configured chain, authenticated exactly when one is used up |
| UserAuth.ConcludeKeepsValid | src/main/java/io/termd/core/ssh/netty/AsyncUserAuthService.java:202-208 | concluding a method keeps the service well formed |
| UserAuth.AttemptKeepsValid | src/main/java/io/termd/core/ssh/netty/AsyncUserAuthService.java:142-171 | trying a method keeps the service well formed |
| UserAuth.RequestKeepsValid | src/main/java/io/termd/core/ssh/netty/AsyncUserAuthService.java:109-171 | a request keeps the service well formed |
| UserAuth.ProcessKeepsValid | src/main/java/io/termd/core/ssh/netty/AsyncUserAuthService.java:104-209 | every message keeps the service well formed |
| UserAuth.AuthenticatedStays | src/main/java/io/termd/core/ssh/netty/AsyncUserAuthService.java:297-303 | authentication is never taken back |
| UserAuth.ExampleLookups | src/main/java/io/termd/core/ssh/netty/AsyncUserAuthService.java:148 | `publickey` selects the second factory and `password` the first |
| UserAuth.ExampleHeads | src/main/java/io/termd/core/ssh/netty/AsyncUserAuthService.java:305-313 | the heads left after the public key are `password` and `keyboard-interactive` |
| UserAuth.ExampleReply | src/main/java/io/termd/core/ssh/netty/AsyncUserAuthService.java:305-322 | the partial-success reply text is "password,keyboard-interactive" |
| UserAuth.PublicKeyIsPartial | src/main/java/io/termd/core/ssh/netty/AsyncUserAuthService.java:245-324 | with chains `publickey,password` and `keyboard-interactive`, a public key is a partial success naming both remaining methods |
| UserAuth.PasswordCompletes | src/main/java/io/termd/core/ssh/netty/AsyncUserAuthService.java:245-303 | a password after it uses the chain up: authenticated, service started, the request counted |
| UserAuth.ParseMethods | src/main/java/io/termd/core/ssh/netty/AsyncUserAuthService.java:58-72 | the constructor's lists are the configured method lists |
| UserAuth.FactoryLists | src/main/java/io/termd/core/ssh/netty/AsyncUserAuthService.java:61-64 | the loop builds one singleton list per factory |
| UserAuth.ChainLists | src/main/java/io/termd/core/ssh/netty/AsyncUserAuthService.java:69-71 | the loop builds one chain per configured field |
| UserAuth.CheckMethods | src/main/java/io/termd/core/ssh/netty/AsyncUserAuthService.java:73-81 | the nested loops report the first configured method without a factory |
| UserAuth.RemainingMethods | src/main/java/io/termd/core/ssh/netty/AsyncUserAuthService.java:341-352 | the `StringBuilder` loop builds the comma-joined heads |
| UserAuth.AsyncUserAuthService.constructor | src/main/java/io/termd/core/ssh/netty/AsyncUserAuthService.java:45-87 | the object starts in the initial state, well formed |
| UserAuth.AsyncUserAuthService.Process | src/main/java/io/termd/core/ssh/netty/AsyncUserAuthService.java:104-209 | one message keeps the object well formed; it moves as `ProcessMessage` says, or reports the illegal state and changes nothing; `ProcessMessage`'s content is stated by `ProcessKeepsValid`, `UserStaysFixed` and `AuthenticatedStays` |
| UserAuth.AsyncUserAuthService.ProcessRequest | src/main/java/io/termd/core/ssh/netty/AsyncUserAuthService.java:109-171 | a request moves the object as `HandleRequest` says; `HandleRequest`'s content is stated by `FirstRequestFixesUser`, `UserStaysFixed` and `ChangeOfUserDisconnects` |
| UserAuth.AsyncUserAuthService.RepeatRequest | src/main/java/io/termd/core/ssh/netty/AsyncUserAuthService.java:129-133 | a repeated request moves the object as `Repeated` says; `Repeated`'s content is stated by `RepeatedRequestCounted` and `AttemptsBounded` |
| UserAuth.AsyncUserAuthService.TryMethod | src/main/java/io/termd/core/ssh/netty/AsyncUserAuthService.java:142-171 | a method is tried as `Attempt` says; `Attempt`'s content is stated by `UnknownMethodFails` and `AttemptKeepsValid` |
| UserAuth.AsyncUserAuthService.Dispatch | src/main/java/io/termd/core/ssh/netty/AsyncUserAuthService.java:202-208 | the authenticator's answer is handled as `Conclude` says; `Conclude`'s content is stated by `ConcludeClearsCurrent` and `ConcludeKeepsValid` |
| UserAuth.AsyncUserAuthService.PopHeads | src/main/java/io/termd/core/ssh/netty/AsyncUserAuthService.java:253-259 | the in-place loop pops the heads as `PopAll` does and reports whether a chain was used up |
| UserAuth.AsyncUserAuthService.HandleSuccess | src/main/java/io/termd/core/ssh/netty/AsyncUserAuthService.java:245-331 | success moves the object as `Success` says; `Success`'s content is stated by `SuccessPops`, `PartialSuccessReply` and `PopAllKeepsChains`, and the reply it builds with `BuildList` over `Heads` by `BuildListJoins`, `HeadsSpec` and `RepliedMethodsReadBack` |
| UserAuth.AsyncUserAuthService.HandleFailure | src/main/java/io/termd/core/ssh/netty/AsyncUserAuthService.java:333-371 | failure moves the object as `Failure` says; `Failure`'s content is stated by `FailureReply` and `FailureOffers` |
| UserAuth.Create | src/main/java/io/termd/core/ssh/netty/AsyncUserAuthService.java:45-87 | construction fails exactly when `Construct` does, with the same error, and otherwise gives a fresh well-formed object in its state; `Construct`'s content is stated by `ConstructSpec`, and that of the `ConfiguredMethods` and `JavaSplit` it uses by `DefaultMethodLists`, `ParseRender` and `RenderSplits` |

## Left out

- Terminal width and line wrapping. testKillLine runs on a terminal four columns wide; `ReadlineScenarios.KillLineScenario` checks the same keys on a terminal wide enough for the line.
- Event handlers: saving and restoring the terminal's handlers (testPreserveOriginalHandlers) and the event handler of testEventHandler. They are callbacks of the test terminal; the model keeps the line-editing half of testEventHandler.
- The keymap: which byte sequences name which function, its timing and `inputrc` parsing. Multi-byte keys (arrows, meta keys) are given to the engine as the `FunctionEvent` the keymap would produce; single control codepoints go through `Binding`.
- The bell is a counter; no bell output is modelled.
- Threads and the test harness's waiting (`await`, `testComplete`); the engine is modelled as taking one input at a time.
- The completion object itself (its `complete`, `suggest` and `end` methods); the end of a completion is modelled as `Readline.EndCompletion`, which inserts the text and resumes.
- Java strings are UTF-16: a supplementary character is a surrogate pair in the test's strings and one codepoint in the model.
- Utf8.DecodeAll: a malformed byte is replaced by one U+FFFD and decoding resumes at the next byte; how the JDK decoder groups the bytes of a malformed sequence into replacements is not modelled.
- BinaryDecoders.BinaryDecoder.Write: Java's signed bytes are modelled as their unsigned values, and the capacity counts codepoints.
- The SSH wire format: packet buffers, `writePacket`, the banner, the limit on concurrent sessions, `setUsername`, the idle timeout and logging.
- The asynchronous authenticator: the listener registered when an authenticator throws `AsyncAuth` is not modelled; its later answer corresponds to calling `UserAuth.AsyncUserAuthService.Dispatch` with that answer. An authenticator that throws anything else counts as a rejection, and its `destroy` is not modelled.
- The check that the session is a server session, and the reading of `maxAuthRequests` from the session's properties (it is a parameter).
- UserAuth.FindByName: the case-insensitive comparison folds ASCII letters only; Java's `CASE_INSENSITIVE_ORDER` folds other letters too.
- UserAuth.AsyncUserAuthService.RepeatRequest: the request count is an unbounded integer; Java's `int` wrap-around after 2^31 requests is not modelled.
- Choices the model fixes that neither the cited source nor its tests pin down:
  - a backslash escapes the next codepoint inside single quotes as well as outside them (`LineStatus.Accept`);
  - a continued visual line is kept with its trailing backslash, both in the logical line delivered and in the history;
  - accept-line adds every delivered line to the history, the empty line included;
  - a function event whose name the engine does not know is ignored;
  - of the single control codepoints only 1, 5, 8, 9, 11, 13 and 127 are bound (`Readlines.Binding`); the rest of the default keymap is not modelled.

## Findings

| source | as written | input that shows it | evidently intended | confidence | as-written member | corrected member |
|---|---|---|---|---|---|---|
| src/main/java/io/termd/core/readline/FunctionEvent.java:43 | the guard refuses `index > seq.length`, so `index == length` passes it and fails at the array access with `ArrayIndexOutOfBoundsException` instead of the guard's "Wrong index" | the event ("complete", [9]) read at index 1 | refuse `index >= seq.length` in the guard | not executed | FunctionEvents.FunctionEvent.GetCodePointAtAsWritten | FunctionEvents.FunctionEvent.GetCodePointAt |
