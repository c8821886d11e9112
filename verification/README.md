# A Dafny model of the edge-tts text-to-speech client

The project models, byte for byte, the pipeline of the client and proves what it is for:

1. **Text to chunks.** `Utf8`, `TextNormalizer`, `XmlEscaper`, `TextChunker`: input is validated,
   control characters become spaces, XML characters are escaped, and the text is cut into chunks of
   a bounded number of bytes. `ChunkerProperties` proves what cuts keep, `ChunkerCuts` where exactly
   they fall, `ChunkerLoss` which inputs survive without loss, for each input exactly, and
   `ChunkerWords` when no word is cut.
2. **Wire frames.** `Protocol` is a printer and a parser of header frames, `Incoming` the binary
   audio frames on top of them.
3. **The session.** `Session` is the per-chunk protocol machine with its retry loop over a scripted
   transport with a trace; `SessionProperties` gives the closed form of its output and the shape of
   its trace, when it succeeds and which error it returns otherwise.
4. **Subtitles.** `SubtitleTime`, `SrtComposer`, `SubtitleBuilder` print SRT text; `SrtProperties`
   has a reader that inverts the printer; `SessionSubtitles` proves that the cues of a whole session
   never interleave.
5. **The facade and the command lines.** `SpeechSynthesizer` is the single-use object with callbacks
   and cancellation, `FacadeProperties` what holds over any sequence of calls on it.
   `ArgumentParsers` are the two command lines, `ArgumentGrammar` their common language.
6. **Arithmetic kernels.** `Sha256` against FIPS 180-4, with its constants derived in
   `Sha256Constants` and the standard's one-block example computed in `Sha256Example`, and
   `HttpDate` against day-by-day counting.

Strings of the pipeline are sequences of bytes 0..255; command lines are sequences of characters.
Code that loops in the source is a method with a loop, proved equal to a function of its input; the
properties are lemmas about those functions. Objects that the source updates in place are classes
(`Environment`, `Builder`, `SpeechSynthesizer`, `StreamCallbacks`, `FileWriter`), and SHA-256 works
on arrays as the source does.

Randomness, clocks, the network and file writes are scripts: `Session.Net` lists how connects,
sends, receives and token requests will end and when the cancellation flag goes up;
`SpeechSynthesizer.Token` says before which tick the flag is raised, whoever raises it.

Where the code and its documentation differ, the model follows the code:

- `ProtocolMessage.hpp:22-23` says the last value wins when a header is looked up; the code returns
  the first (`Protocol.LookupIn`).
- `README.md:555` describes offset compensation by audio byte counts; the code uses boundary times
  only (`SessionProperties.PayloadsDoNotMatter`).
- `SpeechSynthesizer.hpp:132` says one of `on_complete` and `on_error` fires last; on an object that
  was used before, no callback fires (`FacadeProperties.EndsOnceIffUnused`).

Two limits of the code are made exact: below 5 bytes (4 when cutting before escaping) the chunker can
drop a whole character (`ChunkerLoss.LosslessIff`), and `parse_http_date` reads a day that
its month does not have as a day of the next month (`HttpDate.DayKeptIff`).

## Model

| member | source | states |
|---|---|---|
| `Utf8.IsValidUtf8` | modules/common/src/Utf8.cpp:8-53 | the scan accepts exactly the byte strings that decode scalar value by scalar value |
| `Utf8.TrailBytes` | modules/common/src/Utf8.cpp:36-43 | the inner loop reads exactly the continuation bytes that follow a lead byte, or finds the first that is missing |
| `Utf8.DecodeFirstExact` | modules/common/src/Utf8.cpp:8-53 | a scalar value is read at the front exactly when its encoding is a prefix: no overlong form, surrogate or value past U+10FFFF |
| `Utf8.ValidIffEncoded` | modules/common/src/Utf8.cpp:8-53 | sound and complete: accepted strings are exactly the concatenated encodings of Unicode scalar values (RFC 3629, sections 3 and 4) |
| `Utf8.EncodeAllDecodes` | modules/common/src/Utf8.cpp:8-53 | every sequence of scalar values, encoded, is accepted and decodes to itself |
| `Utf8.EncodeAllInjective` | modules/common/src/Utf8.cpp:8-53 | two different sequences of scalar values never have the same encoding |
| `Utf8.SafeBoundary` | modules/common/include/common/Utf8.hpp:19-24 | moves to the last position at or before the index that is not a continuation byte |
| `Utf8.NextCodePointBoundary` | modules/common/src/Utf8.cpp:60-68 | moves to the first position after the index that is not a continuation byte, or the end |
| `Utf8.CutAtBoundary` | modules/common/src/Utf8.cpp:55-68 | cutting valid text at a boundary leaves two valid texts |
| `Utf8.SplitUtf8ByByteLimit` | modules/common/src/Utf8.cpp:70-100 | the splitter returns the greedy pieces, and nothing for a limit of zero |
| `Utf8.PiecesJoin` | modules/common/src/Utf8.cpp:70-100 | for any bytes and any positive limit the pieces are not empty and join to the input |
| `Utf8.PiecesValid` | modules/common/src/Utf8.cpp:70-100 | pieces of valid text are valid and within the limit unless they are a single larger code point |
| `Utf8.PiecesPartitionIff` | modules/common/include/common/Utf8.hpp:53-58 | for every positive limit the pieces are a partition of the valid text into non-empty valid pieces within the limit exactly when there is such a partition at all, which is when no code point is larger than the limit, as from 4 bytes on |
| `Utf8.PiecesFewest` | modules/common/src/Utf8.cpp:70-100 | no such partition of the text, for any positive limit, has fewer pieces |
| `TextNormalizer.Normalize` | modules/serialization/src/TextNormalizer.cpp:7-41 | invalid UTF-8 is rejected; otherwise control characters become spaces and every other byte is kept, though the code copies code point by code point |
| `TextNormalizer.CleanEncodings` | modules/serialization/src/TextNormalizer.cpp:7-41 | normalizing bytes is replacing control characters in the decoded text |
| `TextNormalizer.CleanValid` | modules/serialization/src/TextNormalizer.cpp:7-41 | normalized text is valid and decodes to the cleaned scalar values |
| `TextNormalizer.ControlsBecomeSpaces` | modules/serialization/src/TextNormalizer.cpp:7-41 | code point by code point, those below 32 other than 9, 10 and 13 become 32 and all others stay; a text is unchanged exactly if it has none of them |
| `XmlEscaper.XmlEscape` | modules/serialization/src/XmlEscaper.cpp:5-17 | the loop escapes byte by byte |
| `XmlEscaper.XmlUnescape` | modules/serialization/src/XmlEscaper.cpp:19-48 | the loop replaces the five known entities within its window and keeps everything else |
| `XmlEscaper.EscapeAppend` | modules/serialization/src/XmlEscaper.cpp:5-17 | escaping distributes over concatenation |
| `XmlEscaper.UnescapeEscape` | modules/serialization/src/XmlEscaper.cpp:5-48 | unescaping an escaped text gives the text back, for all bytes |
| `XmlEscaper.EscapeUnescape` | modules/serialization/src/XmlEscaper.cpp:5-48 | escaping an unescaped text gives it back if it consists of whole tokens |
| `XmlEscaper.EscapedIffImage` | modules/serialization/src/XmlEscaper.cpp:5-17 | the texts of whole tokens are exactly the results of escaping |
| `XmlEscaper.UnescapeAppend` | modules/serialization/src/XmlEscaper.cpp:19-48 | unescaping distributes over a cut between tokens, despite the look-ahead for `;` |
| `XmlEscaper.EscapesByName` | modules/serialization/src/XmlEscaper.cpp:5-17 | `&`, `<` and `>` become the letters of their entities, every other byte stays |
| `XmlEscaper.EntitiesByName` | modules/serialization/src/XmlEscaper.cpp:35-44 | the letters of the five entities, `&quot;` and `&apos;` among them, in front of anything become their characters |
| `XmlEscaper.UnknownEntityKept` | modules/serialization/src/XmlEscaper.cpp:35-46 | any other entity of at most nine bytes stands for itself |
| `XmlEscaper.OpenByteKept` | modules/serialization/src/XmlEscaper.cpp:23-33 | a byte other than `&`, or a `&` with no `;` among the eight bytes after it, is kept |
| `XmlEscaper.FindToken` | modules/serialization/src/XmlEscaper.cpp:5-17 | every position of an escaped text is a token boundary or lies inside an entity that starts at one |
| `XmlEscaper.EscapeValid` | modules/serialization/src/XmlEscaper.cpp:5-17 | escaping keeps UTF-8 validity |
| `TextChunker.StripView` | modules/serialization/src/TextChunker.cpp:17-27 | the shrinking view ends at the longest stretch with no strip byte at either end |
| `TextChunker.AdjustXmlEntity` | modules/serialization/src/TextChunker.cpp:31-44 | the loop moves the cut in front of every entity left open |
| `TextChunker.ChooseCut` | modules/serialization/src/TextChunker.cpp:57-86 | the four steps, with the backward scan for a code-point start, choose the cut that `ChunkerCuts.CutIsCut` places |
| `TextChunker.SplitByLimit` | modules/serialization/src/TextChunker.cpp:48-99 | the consuming loop returns the stripped stretches between the cuts, for every positive limit |
| `TextChunker.Chunk` | modules/serialization/src/TextChunker.cpp:103-139 | both modes, the rejection of invalid UTF-8, and the exception on a limit of zero |
| `ChunkerProperties.ChunksFit` | modules/serialization/src/TextChunker.cpp:48-99 | for every positive limit no chunk is empty, starts or ends with a strip byte or exceeds the limit |
| `ChunkerProperties.AdjustedCutIsBoundary` | modules/serialization/src/TextChunker.cpp:31-44 | in escaped text the adjusted cut is a token boundary, and moves back only to the start of the entity it was in |
| `ChunkerProperties.CutIsSeam` | modules/serialization/src/TextChunker.cpp:57-90 | for every positive limit and both modes every cut falls between code points and, where entities are protected, between entities; a cut at the front skips a strip byte unless the first code point or entity is larger than the limit |
| `ChunkerProperties.SplitSound` | modules/serialization/src/TextChunker.cpp:48-99 | if every code point, and in escape-first mode every entity, fits the limit, the chunks consist of whole ones and cover the text up to strip bytes between them |
| `ChunkerProperties.CoversKeepsText` | modules/serialization/src/TextChunker.cpp:88-97 | chunks that cover a text join to it once strip bytes are deleted on both sides |
| `ChunkerCuts.CutIsCut` | modules/serialization/src/TextChunker.cpp:57-86 | where a text is cut: at the last newline below the limit if newlines are preferred and there is one, else at the last space below it if spaces are preferred and there is one, else at the last position up to the limit between code points and, where entities are protected, between entities |
| `ChunkerCuts.FirstCut` | modules/serialization/src/TextChunker.cpp:88-97 | the first chunk of any text is what lies before that place, stripped; the rest is split from there on, or one byte on after a cut at the front |
| `ChunkerCuts.SplitIff` | modules/serialization/src/TextChunker.cpp:48-99 | if every code point or protected entity fits the limit, cutting at those places all the way gives the chunks and nothing else |
| `ChunkerCuts.ChunkingIff` | modules/serialization/src/TextChunker.cpp:108-139 | the same for the chunks of a valid input in both modes, if no character is written with more bytes than the limit |
| `ChunkerLoss.LosslessIff` | modules/serialization/src/TextChunker.cpp:108-139 | for every valid input, both modes and every positive limit: unescaping the chunks and joining them gives the normalized input, strip bytes aside (nothing lost, doubled, reordered or escaped twice), exactly when no character of the input is written with more bytes than the limit |
| `ChunkerLoss.ChunkLossless` | modules/serialization/src/TextChunker.cpp:108-139 | from 5 bytes on (4 when cutting before escaping) every valid input survives |
| `ChunkerLoss.SplitLoses` | modules/serialization/src/TextChunker.cpp:88-97 | if some code point or protected entity is larger than the limit, what is left of the chunks is not the text |
| `ChunkerLoss.ChunksAreWhole` | modules/serialization/src/TextChunker.cpp:108-139 | if each character has room, every chunk is non-empty valid UTF-8 of whole entities; in escape-first mode also stripped and within the limit |
| `ChunkerLoss.LosslessIffRoom` | modules/serialization/src/TextChunker.cpp:90 | the chunker is lossless on all valid inputs exactly when the limit is at least 5 (escape first) or 4 (raw) |
| `ChunkerLoss.FrontIsLost` | modules/serialization/src/TextChunker.cpp:90 | a cut at the front that skips no strip byte loses the first character |
| `ChunkerLoss.WidestIsLost` | modules/serialization/src/TextChunker.cpp:90 | below the safe limit the single character `&` (escape first) or U+10000 (raw) is an example of a lost text |
| `ChunkerWords.WordsKept` | modules/serialization/src/TextChunker.cpp:57-98 | if every run without space or newline fits the limit, the words of the chunks are the words of the text, in order |
| `ChunkerWords.WordsKeptIff` | modules/serialization/src/TextChunker.cpp:57-98 | for every text, limit and preferences the words are kept exactly when no cut falls inside a word |
| `ChunkerWords.WordsFitIff` | modules/serialization/src/TextChunker.cpp:57-98 | where the only white space is newline and space, both preferences keep the words exactly when each word fits the limit |
| `Protocol.LookupIn` | modules/serialization/src/ProtocolMessage.cpp:8-14 | the first header of that name, or nothing exactly if there is none |
| `Protocol.SerializeMessage` | modules/serialization/src/ProtocolSerializer.cpp:7-22 | the printed frame of a message |
| `Protocol.ParseFrame` | modules/serialization/src/ProtocolParser.cpp:13-56 | the consuming loop, its skipped blank lines and its two errors |
| `Protocol.ParseSerialize` | modules/serialization/src/ProtocolParser.cpp:13-56 | parsing a printed message with at least one header, colon-free names and CRLF-free names and values gives the message back |
| `Protocol.FramableIffRoundTrip` | modules/serialization/src/ProtocolSerializer.cpp:7-22 | those are exactly the messages that survive printing and parsing |
| `Protocol.ParsedHeadersClean` | modules/serialization/src/ProtocolParser.cpp:24-54 | every header the parser returns is of that kind |
| `Protocol.SerializeParse` | modules/serialization/src/ProtocolSerializer.cpp:7-22 | printing a parsed frame gives the frame back exactly when it does not begin with CRLF |
| `Protocol.ParsedIff` | modules/serialization/src/ProtocolParser.cpp:13-56 | every frame: it parses to a message exactly if it is that clean message printed, possibly after one CRLF, or the bare separator and a body |
| `Incoming.ParseTextFrame` | modules/communication/src/EdgeProtocolIncoming.cpp:20-74 | dispatch of a text frame by its first Path, with the events of a metadata frame in order |
| `Incoming.TextFrameIff` | modules/communication/src/EdgeProtocolIncoming.cpp:20-74 | on every received text: exactly the frames of messages with first Path `turn.end` end the turn, exactly `audio.metadata` frames whose body holds them deliver boundaries, in order, exactly `response` and `turn.start` frames are ignored, and all else is a protocol error |
| `Incoming.ParseBinaryFrame` | modules/communication/src/EdgeProtocolIncoming.cpp:80-183 | every branch of the length-prefixed decoder, with every index in range on every input; which input takes which branch is `BinaryAudioIff`, `BinaryIgnoredIff` and `BinaryOutcomes` |
| `Incoming.DeliveredKinds` | modules/communication/src/EdgeProtocolIncoming.cpp:191-197 | text frames never deliver audio; a decoded binary frame delivers exactly one message, never a boundary and never the end of the turn; every failure is a protocol error |
| `Incoming.BinaryAudioIff` | modules/communication/src/EdgeProtocolIncoming.cpp:80-183 | audio `b` is returned exactly for a big-endian length n, n - 2 header bytes with first Path `audio` and first Content-Type `audio/mpeg`, CRLF, then non-empty `b` |
| `Incoming.BinaryIgnoredIff` | modules/communication/src/EdgeProtocolIncoming.cpp:158-162 | a frame is ignored exactly if it is laid out with no body and a header with first Path `audio` and no Content-Type |
| `Incoming.BinaryOutcomes` | modules/communication/src/EdgeProtocolIncoming.cpp:80-183 | every other input, and only those, is a protocol error |
| `Incoming.AudioRoundTrip` | modules/communication/src/EdgeProtocolIncoming.cpp:80-183 | an encoded audio frame decodes to its body |
| `Session.TakeMessages` | modules/communication/src/SynthesisSession.cpp:87-124 | the messages of one frame: events before `turn.end` are shifted and appended, the rest dropped, the largest raw end kept |
| `Session.ReceiveTurn` | modules/communication/src/SynthesisSession.cpp:79-124 | the receive loop with its cancellation check before each frame, up to `turn.end` |
| `Session.RunOneChunk` | modules/communication/src/SynthesisSession.cpp:48-132 | one turn: two sends, the receive loop and the missing-audio error |
| `Session.Synthesize` | modules/communication/src/SynthesisSession.cpp:138-225 | the session with its retry loop and offset accumulation returns the assembled turns or the first error of the run, which `SuccessIff`, `OneTextError` and `FirstErrorDecides` determine |
| `SessionProperties.SuccessReadsFrames` | modules/communication/src/SynthesisSession.cpp:138-225 | a successful session's turns are the events before each `turn.end` of the received frames, one audible turn per text |
| `SessionProperties.SuccessIff` | modules/communication/src/SynthesisSession.cpp:138-225 | over all scripts a session succeeds exactly when the retries carry every connect with a token per attempt, two sends per text succeed, every text can be built, the frames hold an audible turn per text, and the flag stays down for one check per text and one per frame read |
| `SessionProperties.OpenIff` | modules/communication/src/SynthesisSession.cpp:164-203 | the connections of a session are made exactly when each failure before one is a DRM error within the retries and a token is had for each attempt |
| `SessionProperties.OpensIff` | modules/communication/src/RetryPolicy.cpp:6-11 | a connection is made exactly when the number of leading DRM errors is at most the retry limit, the outcome after them is a success and every attempt gets its token |
| `SessionProperties.OpenOutcome` | modules/communication/src/SynthesisSession.cpp:164-203 | as many retries are made as the leading DRM errors call for and the limit allows; the error returned is that of the first token that fails on the way, or else of the connect after the retries |
| `SessionProperties.DrainError` | modules/communication/src/SynthesisSession.cpp:79-124 | how receiving ends: with cancellation if the flag goes up before the first frame that does not go on, or else with that frame's network or protocol error, or its turn end |
| `SessionProperties.OneTextError` | modules/communication/src/SynthesisSession.cpp:48-203 | one text's turn returns the first error in the order of its steps: flag, token, connect, first send, building the text, second send, receiving, missing audio |
| `SessionProperties.FirstErrorDecides` | modules/communication/src/SynthesisSession.cpp:151-222 | a failing session returns the error of its first failing text, in the world the texts before it leave |
| `SessionProperties.AssembleClosedForm` | modules/communication/src/SynthesisSession.cpp:149-219 | the output is the turns in order, each shifted by the sum over the earlier turns of their largest raw end, at least zero |
| `SessionProperties.TurnOffsets` | modules/communication/src/SynthesisSession.cpp:96-113 | each boundary is moved by the sum of the latest ends of the turns before its own, with kind, text and duration kept; audio stays |
| `SessionProperties.LatestEnd` | modules/communication/src/SynthesisSession.cpp:104-107 | the latest end of a turn is at least zero and at least each offset plus duration, and is one of these |
| `SessionProperties.TurnsDoNotOverlap` | modules/communication/src/SynthesisSession.cpp:104-113 | with raw offsets from zero on, every boundary of an earlier turn ends no later than any of a later one starts |
| `SessionProperties.AudioIsTransparent` | modules/communication/src/SynthesisSession.cpp:104-113 | a turn's largest end and shifted boundaries are those of its boundaries alone |
| `SessionProperties.PayloadsDoNotMatter` | modules/communication/src/SynthesisSession.cpp:104-113 | altering the payloads of received audio frames, to anything but nothing, changes neither whether a session succeeds nor any boundary it reports |
| `SessionProperties.OpenTrace` | modules/communication/src/SynthesisSession.cpp:164-203 | opening leaves at most the allowed number of DRM failures in the trace, then a connection, a refused connect with the error returned or nothing, with a new id per attempt; a DRM error is final only after all retries |
| `SessionProperties.DrainTrace` | modules/communication/src/SynthesisSession.cpp:74-124 | the receive loop adds receives only, at most one failed and that one last |
| `SessionProperties.RunTurnTrace` | modules/communication/src/SynthesisSession.cpp:205-216 | a turn and the close after it add an allowed ending; a successful one has both sends and no failed receive |
| `SessionProperties.RunTrace` | modules/communication/src/SynthesisSession.cpp:151-222 | every run's trace is, per text, DRM failures, connect, two sends, receives, one close; a failing run is a prefix of that plus the close |
| `SessionProperties.SessionClosesSocket` | modules/communication/src/SynthesisSession.cpp:205-216 | on every such trace each step is legal for the socket and the socket ends closed |
| `SessionProperties.RunKeepsDiscipline` | modules/communication/src/SynthesisSession.cpp:138-225 | every run, successful or not, keeps the trace shape and leaves the socket closed |
| `SubtitleTime.ReadPadded` | modules/subtitle/src/SubtitleTime.cpp:20-35 | a padded number of any size is read back |
| `SubtitleTime.ReadTimestamp` | modules/subtitle/src/SubtitleTime.cpp:20-35 | a printed timestamp is read back to the same millisecond |
| `SubtitleTime.TimestampDigits` | modules/subtitle/src/SubtitleTime.cpp:20-35 | below 100 hours the bytes of a timestamp are `hh:mm:ss,mmm`, digit by digit |
| `SubtitleTime.SplitMillis` | modules/subtitle/src/SubtitleTime.cpp:20-35 | hours, minutes, seconds and milliseconds recompose to the time |
| `SubtitleTime.TimestampFitsBuffer` | modules/subtitle/src/SubtitleTime.cpp:20-35 | for every tick count of 64 bits the timestamp fits the 32-byte buffer |
| `SrtComposer.StripNewlines` | modules/subtitle/src/SrtComposer.cpp:15-22 | removing newlines at both ends keeps the non-empty lines |
| `SrtComposer.MakeLegalContent` | modules/subtitle/src/SrtComposer.cpp:15-35 | cleaned text is the non-empty lines joined by single newlines |
| `SrtComposer.StableSort` | modules/subtitle/src/SrtComposer.cpp:48-56 | sorting the index array in place sorts the selected cues |
| `SrtComposer.InsertInPlace` | modules/subtitle/src/SrtComposer.cpp:48-56 | one step puts an index after all cues not above its own and leaves the rest of the array as it was |
| `SrtComposer.Compose` | modules/subtitle/src/SrtComposer.cpp:45-82 | the output is the blocks of the kept sorted cues, renumbered from 1 |
| `SrtProperties.SortedIsStableSort` | modules/subtitle/src/SrtComposer.cpp:48-56 | sorting is ordered by (start, end) and keeps the cues of each key in their order |
| `SrtProperties.StableSortUnique` | modules/subtitle/src/SrtComposer.cpp:48-56 | there is only one such sequence, so any stable sort gives it |
| `SrtProperties.KeptSorted` | modules/subtitle/src/SrtComposer.cpp:58-66 | filtering and sorting commute |
| `SrtProperties.SortedApart` | modules/subtitle/src/SrtComposer.cpp:48-56 | sorting two lists of which no cue of the second is below one of the first is sorting each |
| `SrtProperties.CleaningKeepsLines` | modules/subtitle/src/SrtComposer.cpp:15-35 | cleaning keeps the lines and is idempotent |
| `SrtProperties.KeptTextIsLegal` | modules/subtitle/src/SrtComposer.cpp:15-41 | a kept cue's cleaned text is not empty, neither starts nor ends with a newline and has no two in a row |
| `SrtProperties.ReadBlock` | modules/subtitle/src/SrtComposer.cpp:68-79 | one printed block in front of anything is read back as number, exact times and cleaned text |
| `SrtProperties.ReadInvertsCompose` | modules/subtitle/src/SrtComposer.cpp:45-82 | reading the printed text of any cues gives exactly the stably sorted kept cues, numbered 1..k |
| `SrtProperties.ReadsShownCues` | modules/subtitle/src/SrtComposer.cpp:45-82 | a reader sees, numbered from 1 and ordered by start and end, exactly the cues that end after they start and have a byte other than space, tab, CR and LF: for every start and end their lines, each once, in the order fed |
| `SrtProperties.OneCueText` | modules/subtitle/src/SrtComposer.cpp:68-79 | the bytes printed around the times and the lines of a cue |
| `SubtitleBuilder.Builder.constructor` | modules/subtitle/include/subtitles/SubtitleBuilder.hpp:45-52 | a new builder has no cues and no type |
| `SubtitleBuilder.Builder.Feed` | modules/subtitle/src/SubtitleBuilder.cpp:12-36 | an accepted boundary adds a cue with its text and with times t such that 10000 t <= ticks < 10000 (t + 1), and fixes the type; a rejected one leaves the builder as it was |
| `SubtitleBuilder.Builder.ToSrt` | modules/subtitle/src/SubtitleBuilder.cpp:43-47 | the text of the collected cues |
| `SubtitleBuilder.Builder.Clear` | modules/subtitle/src/SubtitleBuilder.cpp:49-53 | back to the new state, type included |
| `SubtitleBuilder.FeedingIff` | modules/subtitle/src/SubtitleBuilder.cpp:12-36 | feeding a whole sequence succeeds exactly on boundaries of one type that start and end from zero on, and gives cues that show them in order |
| `SubtitleBuilder.ShowsIff` | modules/subtitle/src/SubtitleTime.cpp:9-18 | a cue with the text of a boundary and the whole milliseconds of its ticks exists for timed boundaries only, and is the one fed |
| `SessionSubtitles.AssembledEnds` | modules/communication/src/SynthesisSession.cpp:104-113 | no boundary of the assembled turns ends after their total |
| `SessionSubtitles.CuesApart` | modules/subtitle/src/SubtitleTime.cpp:9-18 | rounding to milliseconds keeps events on two sides of a border in order |
| `SessionSubtitles.SessionCuesInOrder` | modules/subtitle/src/SrtComposer.cpp:48-66 | sorting the cues of a whole session is sorting each turn's cues and joining them |
| `SessionSubtitles.SessionSrtReadsInOrder` | modules/subtitle/src/SrtComposer.cpp:45-82 | what is read from the subtitles of a successful session is the cues of its turns in order, numbered through |
| `SessionSubtitles.ReadsBoundaries` | modules/subtitle/src/SubtitleTime.cpp:9-18 | from ticks to what is read: for every start and end in milliseconds, a reader of the subtitles of timed boundaries sees the lines of the visible boundaries whose ticks lie there, in their order |
| `Sha256.PrepareSchedule` | modules/common/src/Sha256.cpp:50-63 | the two loops fill W_0..W_63 of FIPS 180-4, section 6.2.2 |
| `Sha256.Sha256Block` | modules/common/src/Sha256.cpp:47-83 | the hash array is updated in place by the compression of one block |
| `Sha256.FillPad` | modules/common/src/Sha256.cpp:101-117 | the pad buffer holds the rest, the marker, zeros and the length; no write leaves it or hits the marker |
| `Sha256.WriteDigest` | modules/common/src/Sha256.cpp:119-127 | the digest is the eight words, most significant byte first |
| `Sha256.FullBlocks` | modules/common/src/Sha256.cpp:93-98 | the whole blocks of the data are folded, whatever follows them |
| `Sha256.PadBlocks` | modules/common/src/Sha256.cpp:115-117 | the one or two blocks of the pad buffer are folded |
| `Sha256.Sha256Raw` | modules/common/src/Sha256.cpp:86-128 | block-by-block processing and the pad buffer fold the compression over the padded message, its length field taken modulo 2^64 |
| `Sha256.FoldAt` | modules/common/src/Sha256.cpp:94-98 | folding from any block on is folding the rest from the compressed hash |
| `Sha256.PaddingLayout` | modules/common/src/Sha256.cpp:100-117 | one or two blocks of the pad buffer are the unprocessed rest of the padded message of FIPS 180-4, section 5.1.1, with the least number of zeros |
| `Sha256.CodeIsSha256` | modules/common/src/Sha256.cpp:86-128 | below 2^61 bytes the digest is that of the reference definition |
| `Sha256Example.DigestOfAbc` | modules/common/tests/Sha256Tests.cpp:21-25 | the digest of `abc` is the published one, proved through all 48 schedule words and 64 rounds of the one-block example |
| `Sha256Constants.ConstantsFromPrimes` | modules/common/src/Sha256.cpp:19-45 | every round constant and initial word is the first 32 fractional bits of the cube or square root of its prime |
| `Sha256Constants.FirstPrimes` | modules/common/src/Sha256.cpp:19-45 | the primes they are derived from are the first 64: the list starts at 2, holds primes only, and no prime lies between neighbours |
| `HttpDate.ParseHttpDate` | modules/communication/src/HttpDate.cpp:51-81 | a timestamp is returned exactly for scanned fields with one of the twelve month names, day 1..31, hour 0..23, minute 0..59 and second 0..60, and is that of the month named |
| `HttpDate.DaysFormula` | modules/communication/src/HttpDate.cpp:16-24 | the era arithmetic is one closed sum of leap-year counts |
| `HttpDate.FormulaStep` | modules/communication/src/HttpDate.cpp:16-24 | the next day counts exactly one more, across month, leap-year, century and 400-year ends |
| `HttpDate.FormulaCountsDays` | modules/communication/src/HttpDate.cpp:16-24 | for every real date from 1970 on the formula is the number of days counted one by one |
| `HttpDate.LaterDateCountsMore` | modules/communication/src/HttpDate.cpp:16-24 | later dates have larger counts |
| `HttpDate.StampOrder` | modules/communication/src/HttpDate.cpp:71-81 | for seconds 0..59 timestamps have exactly the order of dates and times, and are equal only for the same moment |
| `HttpDate.LeapSecondCountsOne` | modules/communication/src/HttpDate.cpp:74-80 | the accepted second 60 counts one more than second 59, on every day and in every minute |
| `HttpDate.LeapSecondIsNextMinute` | modules/communication/src/HttpDate.cpp:74-80 | second 60 has the timestamp of the next minute, with the carry into hour and day: 23:59:60 is midnight of the next day |
| `HttpDate.DayKeptIff` | modules/communication/src/HttpDate.cpp:60-81 | an accepted day 1..31 counts as a day of its month exactly if the month has it |
| `HttpDate.MissingDayRollsOver` | modules/communication/src/HttpDate.cpp:60-81 | a day the month does not have counts as a day of the next month |
| `SpeechSynthesizer.SpeechSynthesizer.RunPipeline` | modules/api/src/SpeechSynthesizer.cpp:154-186 | cancellation, proxy, configuration, text, empty text, backend, in this order; `FacadeProperties.FirstUseReply` says which one a caller sees |
| `SpeechSynthesizer.SpeechSynthesizer.Synthesize` | modules/api/src/SpeechSynthesizer.cpp:192-200 | the single-use guard in front of the pipeline; a refused call changes nothing |
| `SpeechSynthesizer.SpeechSynthesizer.SynthesizeStream` | modules/api/src/SpeechSynthesizer.cpp:202-242 | the callbacks fired, the result and the clock are those of streaming the pipeline's result; a refused call fires nothing |
| `SpeechSynthesizer.SpeechSynthesizer.Dispatch` | modules/api/src/SpeechSynthesizer.cpp:217-241 | the dispatch loop delivers the chunks from the present state of the flag |
| `SpeechSynthesizer.SpeechSynthesizer.Save` | modules/api/src/SpeechSynthesizer.cpp:244-296 | the gathering loop and the two writes: what is handed to the writer and what is returned |
| `SpeechSynthesizer.SpeechSynthesizer.Cancel` | modules/api/src/SpeechSynthesizer.cpp:148 | raises the flag and nothing else |
| `FacadeProperties.Perform` | modules/api/include/api/SpeechSynthesizer.hpp:112-139 | one call of any kind on the object is one step of the model |
| `FacadeProperties.BackendRunsAtMostOnce` | modules/api/src/SpeechSynthesizer.cpp:154-296 | over any sequence of calls the backend runs at most once, and does so exactly when the first call is a use and nothing stops its pipeline |
| `FacadeProperties.BackendRunsIff` | modules/api/src/SpeechSynthesizer.cpp:154-186 | over any sequence of calls the backend is reached exactly when the first call is a use, the flag is down, no proxy is set, the configuration has no error, and the text is valid and has a byte above 32 |
| `FacadeProperties.FirstUseReply` | modules/api/src/SpeechSynthesizer.cpp:154-296 | the reply to the first use of any kind, after any cancellations: the error of the first obstacle in the order flag, proxy, configuration, text, backend, told once to a stream; without one, the chunks returned, streamed or saved |
| `FacadeProperties.SpeaksIff` | modules/api/src/SpeechSynthesizer.cpp:172-182 | a valid text gives no chunks exactly if all its bytes are at most 32 |
| `FacadeProperties.CancelledObjectNeverRuns` | modules/api/include/api/SpeechSynthesizer.hpp:112-114 | an unused object whose flag is up never reaches the backend, whatever is called |
| `FacadeProperties.LaterUsesAreRefused` | modules/api/src/SpeechSynthesizer.cpp:192-250 | after any use every later use returns the state error, fires nothing and writes nothing |
| `FacadeProperties.StreamTrace` | modules/api/src/SpeechSynthesizer.cpp:217-241 | with any callbacks set, what fires is those of a prefix of the chunks in order and one terminal event that says what is returned; completion means every chunk |
| `FacadeProperties.FirstStreamTrace` | modules/api/src/SpeechSynthesizer.cpp:202-242 | the whole first call with all callbacks set, pipeline errors included |
| `FacadeProperties.EndsOnceIffUnused` | modules/api/include/api/SpeechSynthesizer.hpp:131-139 | one terminal event comes last exactly if the object was not used before |
| `FacadeProperties.StopsAtFirstRaisedCheck` | modules/api/src/SpeechSynthesizer.cpp:217-237 | dispatch stops at the first check that finds the flag up, and completes exactly if none does |
| `FacadeProperties.CancelInsideCallback` | modules/api/src/SpeechSynthesizer.cpp:217-237 | after a chunk callback that cancels, only the error fires, and the call returns it |
| `FacadeProperties.SavedFiles` | modules/api/src/SpeechSynthesizer.cpp:261-295 | a rejected boundary writes nothing and is an invalid argument; otherwise the media file is the joined audio, the subtitle text follows only a successful media write and reads as the visible boundaries, and the result is the first write error or success |
| `FacadeProperties.AssembledAudio` | modules/communication/src/SynthesisSession.cpp:149-219 | the audio of a session is the audio of its turns joined in order |
| `FacadeProperties.BackendGetsWholeText` | modules/api/src/SpeechSynthesizer.cpp:172-185 | the chunks of a valid text, unescaped and joined, are the normalized text up to strip bytes, each of 1 to 4096 bytes, cut at 4096 escaped bytes with both preferences |
| `FacadeProperties.SavedSessionReadsInOrder` | modules/api/src/SpeechSynthesizer.cpp:244-296 | text to files: over a successful session, saving hands over the joined audio and subtitles that read as the cues of the turns in order, with the lines and milliseconds of the visible boundaries, each turn shifted behind those before it |
| `ArgumentParsers.RequireValue` | modules/cli/src/EdgeTtsArgumentParser.cpp:78-99 | an option's value is the attached one or the next token unless that looks like an option |
| `ArgumentParsers.ParseEdgeTts` | modules/cli/src/EdgeTtsArgumentParser.cpp:36-277 | the token loop of `edge-tts`: the first help or version token, the first error, or the last value of each option and the group rule |
| `ArgumentParsers.ParsePlayback` | modules/cli/src/PlaybackArgumentParser.cpp:24-229 | the same for the separately written loop of `edge-playback` |
| `ArgumentGrammar.ReadsSpelled` | modules/cli/src/EdgeTtsArgumentParser.cpp:62-241 | each legal spelling of an option (attached by `=`, separate, joined or separate short form) in front of anything is read as that option |
| `ArgumentGrammar.ReadIsSpelled` | modules/cli/src/EdgeTtsArgumentParser.cpp:62-241 | whatever is read is a legal spelling of the item read |
| `ArgumentGrammar.SchemeIff` | modules/cli/src/EdgeTtsArgumentParser.cpp:158-170 | a proxy has a scheme exactly if it contains `://` |
| `ArgumentGrammar.SpelledLineIsRead` | modules/cli/src/EdgeTtsArgumentParser.cpp:58-247 | every legal line is read back as its items |
| `ArgumentGrammar.ReadLineIsSpelled` | modules/cli/src/EdgeTtsArgumentParser.cpp:58-247 | every line read is a legal spelling of its items: nothing else is accepted |
| `ArgumentGrammar.LineHasNoFastToken` | modules/cli/src/EdgeTtsArgumentParser.cpp:40-56 | a readable line of either program holds no help or version token, so the fast path never hides one |
| `ArgumentGrammar.SynthesizesIff` | modules/cli/src/EdgeTtsArgumentParser.cpp:252-276 | `edge-tts` synthesizes exactly the legal lines with one of text and file and no voice list, with the last value of each option |
| `ArgumentGrammar.EdgeOutcomes` | modules/cli/src/EdgeTtsArgumentParser.cpp:36-277 | when `edge-tts` answers with help or version (the first such token decides), lists voices, or reports that there is nothing or too much to say, by the items of the legal line |
| `ArgumentGrammar.EdgeSettings` | modules/cli/src/EdgeTtsArgumentParser.cpp:62-241 | each setting is the value last given for its option, or the default |
| `ArgumentGrammar.PlaybackOutcomes` | modules/cli/src/PlaybackArgumentParser.cpp:24-229 | when `edge-playback` answers with help, plays, or reports nothing or too much to say: a help token anywhere, or the items of a legal line in its own language |
| `ArgumentGrammar.PlaybackSettings` | modules/cli/src/PlaybackArgumentParser.cpp:40-208 | the same for the settings of `edge-playback`, its player flag included |
| `ArgumentGrammar.ReadsAgree` | modules/cli/src/PlaybackArgumentParser.cpp:40-208 | where one parser reads a setting both have, the other reads the same |
| `ArgumentGrammar.ItemsAgree` | modules/cli/src/PlaybackArgumentParser.cpp:40-208 | one parser reads a line of common settings exactly when the other does, with the same items |
| `ArgumentGrammar.ParsersAgree` | modules/cli/src/PlaybackArgumentParser.cpp:24-229 | for all token lists, `edge-tts` synthesizes without write options exactly when `edge-playback` plays without mpv, with equal text, file, voice, rate, volume, pitch and proxy |

## Left out

- `WebSocketClient`, `HttpClient` and their threads: the transport is a script with a trace.
- JSON parsing of metadata and voices: a metadata frame's boundary records, or its error, come from a parameter.
- `EdgeTokenProvider` and the clock-skew correction between attempts: floating point; a token request ends as the script says.
- Outgoing frame templates, `SsmlBuilder`, request headers and service constants: the two sent frames are opaque.
- `sscanf` in `parse_http_date`: the model starts from the scanned fields.
- Error messages and contexts: only error codes are modelled, and the command lines' messages by their cases.
- Exit codes and help texts of the command lines: constants.
- `TtsConfig` validation: its verdict is a parameter of the facade.
- `FileWriter`, `InputLoader`, process plumbing, dispatchers and voice listing: I/O; for `save` only the bytes handed to the writer are modelled, not what reaches the disk.
- 64-bit overflow of tick sums: ticks are mathematical integers; the SHA-256 length field does wrap in the model.
- Bit masks in UTF-8 decoding are written as division and remainder, and the byte casts of SHA-256 as remainders.
- `std::stable_sort`: modelled as an insertion sort on the index array; `SrtProperties.StableSortUnique` shows that any stable sort gives the same order.
- Hexadecimal printing of digests, random identifiers, output formats: easy members.
- SpeechSynthesizer.SpeechSynthesizer.RunPipeline: does not model state of the backend between runs, because it runs at most once; the backend is a function of the chunks.
- SpeechSynthesizer.SpeechSynthesizer.Cancel: does not model other threads step by step; the tick before which the flag goes up stands for every interleaving.
