# Speech-recognition load-test client, modelled in Dafny

This project models the algorithmic core of `client.go`. That program is a load-test and
correctness client for a streaming speech-recognition service. It opens `parallel`
websocket sessions. Each session streams every audio sample `iterations` times. One
exchange (`test_audio`) sends an `audio-start` message, then the audio payload, then an
`audio-end` message. It then reads the service's reply and answers the reply's
acknowledgement sub-protocol. Finally it compares the transcript with a label derived
from the sample's file name. The program prints how many exchanges succeeded.

The model has six modules:

- `Wrappers` (`wrappers.dfy`): the `Option` type.
- `Wave` (`wave.dfy`): the RIFF/WAVE chunk walk that finds where the audio payload starts.
  - `PayloadWalk` is the specification function.
  - `LocatePayload` is the loop, proved equal to it.
  - Lemmas give the offset for buffers built from a header, skipped sub-chunks and a
    `data` chunk, for truncated buffers and for non-WAVE buffers.
  - They also cover the two malformed inputs that panic or never end.
- `Reply` (`reply.dfy`): the framed-reply parser.
  - The `DXTL` tag, the header line up to the first newline, and the header's split on
    `:` and `;` with empty fields dropped.
  - The reading of field 2 as a clamped signed 64-bit decimal with the error ignored.
  - The ack decision: an ack on most exchanges, and a skipped ack plus one extra read on
    every 100th exchange.
- `Label` (`label.dfy`): the expected label and the verdict.
  - The label is the base name, minus its extension, with underscores turned into spaces.
  - The verdict compares the transcript with the label after lower-casing both.
- `Exchange` (`exchange.dfy`): one exchange, as a function over the messages written and
  the replies waiting. `TestAudio` is the method proved equal to it.
- `LoadTest` (`loadtest.dfy`): the loops of `main`.
  - The samples that exist, each run `iterations` times in every session.
  - The shared success counter and the exits before any session starts.
  - The summary as printed (`LoadTest`), and the summary it evidently means to print
    (`IntendedReport`).
  - The methods `Iterations`, `Session` and `RunLoadTest` are the loops, proved equal to
    the functions `RunSteps`, `RunSessions` and `LoadTest`.

Every way the source panics is modelled as a failure value that ends the run (`Exchange.Failure`,
`LoadTest.Exit`). These are:

- a negative `txts` size;
- an out-of-range payload slice;
- a missing reply;
- a framed header with fewer than three fields;
- an unreadable sample;
- a negative session count, which the wait group refuses (`LoadTest.NegativeParallel`).

A chunk walk that would never end makes the source hang (client.go:119). The model
reports it instead, as a failed session (`Exchange.WalkNeverEnds`).

Points where the code's behaviour is easy to misread, and which the model follows:

- A buffer whose format tag is not `WAVE` is sent from byte 12, not from byte 0. Its
  first 12 bytes are dropped (`Wave.NonWaveKeepsHeaderOffset`).
- A buffer shorter than 12 bytes makes the payload slice panic. So does a walk whose
  offset ends past the end of the buffer, when the last chunk's body is truncated. Both
  abort the run (`Exchange.ShortBufferPanics`, `Wave.OffsetWhenHeaderMissing`); the
  program does not fall back to the offset found so far.
- A reply shorter than 4 bytes is read as unframed. The source slices `msg[:4]` up to the
  buffer's capacity, and the websocket library's reply buffer leaves room for it. That
  library is not part of this model.
- The printed total is `iterations × parallel`. It does not count the samples. See
  Findings.

## Model

| member | source | states |
|---|---|---|
| Wave.Int32LE | client.go:84-93 | a sub-chunk size decodes as a signed 32-bit little-endian value, negative exactly when the top byte's high bit is set |
| Wave.Int32RoundTrip | client.go:90-93 | encoding a non-negative 32-bit size and decoding it gives the size back |
| Wave.SkipBody | client.go:121-129 | where the reader stands after a chunk body: a `txts` body is read up to the end of the buffer; any other body is skipped by a relative seek, which is refused when it would go before the start |
| Wave.WalkFrom | client.go:119-127 | one round of the loop: stop at `data`; a negative `txts` size panics; otherwise add the size to the offset and pass the body |
| Wave.ReadNext | client.go:130-136 | the end of a round: a header read that finds fewer than 8 bytes breaks the loop; otherwise the header's identifier and size are taken and 8 is added to the offset |
| Wave.PayloadWalk | client.go:108-138 | the walk over a whole buffer: offset 12 unless the buffer is WAVE, else the loop from the outer identifier with size 0, as the loop `LocatePayload` and the lemmas below pin down |
| Wave.LocatePayload | client.go:108-138 | the reader-position loop returns exactly the walk's result (offset, negative-`txts` panic, or non-terminating walk) |
| Wave.ReadOneChunk | client.go:119-136 | one round over a non-`data` chunk whose body fits advances both the reader and the offset by 8 plus the declared size |
| Wave.SkipRun | client.go:119-136 | a run of laid-out non-`data` chunks advances the reader and the offset by their total encoded length |
| Wave.WalkOverLayout | client.go:108-136 | on a WAVE buffer the walk passes every skipped sub-chunk laid out after the 12-byte header |
| Wave.EncodedIsLaidOut | client.go:90-93 | encoded sub-chunks are read back at their positions with their identifiers and sizes |
| Wave.OffsetAfterSkippedChunks | client.go:108-138 | header, skipped chunks, then a `data` header: the payload starts 12 + skipped bytes + 8 |
| Wave.DataFirstStartsAtTwenty | client.go:113-136 | a `data` chunk right after the header puts the payload at offset 20 |
| Wave.OneSkippedChunk | client.go:119-136 | one skipped chunk of size K before `data` puts the payload at 28 + K |
| Wave.OffsetWhenHeaderMissing | client.go:128-136 | when the last non-`data` chunk leaves no room for another header, the walk stops at that chunk's declared end, even past the end of the buffer |
| Wave.LastRound | client.go:128-133 | a chunk whose declared body leaves no room for another header ends the walk at its declared end |
| Wave.NonWaveKeepsHeaderOffset | client.go:108-115 | a buffer that is too short for the header, or is not tagged WAVE, gives offset 12 |
| Wave.OuterDataIdentifier | client.go:111-119 | a WAVE buffer whose outer identifier is `data` never enters the loop and gives offset 12 |
| Wave.NegativeSizeRepeats | client.go:119-136 | a non-`txts` chunk of size -8 re-reads its own header forever: the walk has a fixed point and never stops |
| Wave.NegativeTxtsPanics | client.go:121-124 | a `txts` chunk whose size is negative panics when its buffer is allocated |
| Reply.IsSeparator | client.go:95-97 | the header's field separators are `:` and `;` |
| Reply.SeparatorIndex | client.go:95-97 | the first `:` or `;`; no separator precedes it |
| Reply.Fields | client.go:160 | every field is non-empty and holds no separator |
| Reply.FieldsKeepEveryOtherCharacter | client.go:160 | joining the fields gives the header with its separators removed |
| Reply.FieldsSplitAt | client.go:160 | splitting at a separator splits the field list there |
| Reply.FieldsOfField | client.go:160 | a separator-free non-empty header is a single field |
| Reply.ThreeFields | client.go:160-161 | `a:b:c` with separator-free non-empty parts has exactly the fields a, b, c |
| Reply.ScanDigits | client.go:162 | an accepted digit string stays within 64 unsigned bits and never decreases the accumulator |
| Reply.ScanPrefix | client.go:162 | scanning digits left to right carries the prefix's decimal value |
| Reply.RangeErrorIsFinal | client.go:162 | once the value overflows 64 bits, further characters do not matter |
| Reply.ScanAllDigits | client.go:162 | an all-digit string scans to its decimal value, or overflows exactly when that value exceeds 64 bits |
| Reply.Atoi | client.go:162 | the sequence number always lies in the signed 64-bit range |
| Reply.AtoiDigits | client.go:162 | digits, optionally signed, read as their value clamped to the signed 64-bit range |
| Reply.AtoiDecimal | client.go:162 | the decimal spelling of any in-range number, positive or negative, reads back as that number |
| Reply.NonDigitReadsZero | client.go:162 | a field, signed or not, with a non-digit reads as 0, unless the digits before the first non-digit exceed 64 bits |
| Reply.OverflowingDigitsClamp | client.go:162 | a field whose leading digits exceed 64 bits reads as the end of the signed 64-bit range on its sign's side, whatever follows |
| Reply.SignedDigits | client.go:162 | a field whose unsigned part is all digits reads as their value, negated under a minus sign and clamped to the signed 64-bit range |
| Reply.IsFramed | client.go:153 | a reply is framed when its first four characters are `DXTL` |
| Reply.NewlineIndex | client.go:156 | the position of the first newline, or none when there is none |
| Reply.HandleReply | client.go:153-182 | only a framed reply can panic or be acknowledged. An unacknowledged reply keeps its whole body. Otherwise the body is the tail from the first newline, and the ack is skipped exactly on multiples of 100 |
| Reply.FramedReply | client.go:153-182 | a framed reply: fewer than three header fields panics; otherwise the body keeps the newline, and the action is a skipped ack on multiples of 100 or else an ack of field 2 |
| Reply.UnframedUntouched | client.go:153-156 | an unframed reply, or a framed one without a newline, is kept whole and not acknowledged |
| Reply.AckUnlessMultipleOfHundred | client.go:163-180 | a framed reply is acknowledged unless the exchange index is a multiple of 100, and the body does not depend on the index |
| Reply.SkipsWithinTwoHundredFifty | client.go:163 | over indices 1 to 250, only 100 and 200 skip the ack |
| Reply.SequenceIsThirdField | client.go:156-178 | the ack carries the third header field read as a number |
| Reply.ExampleSequence | client.go:153-178 | `DXTL abc:def:42` followed by a newline is acknowledged with sequence 42 |
| Label.TrimTrailingSlashes | client.go:263 | the path without trailing slashes is a prefix that no longer ends in one |
| Label.LastElement | client.go:263 | the last path element is a slash-free suffix that directly follows a slash |
| Label.Base | client.go:263 | the base name is never empty: `.`, `/`, or a slash-free name |
| Label.BaseOfJoin | client.go:263 | the base of `dir/name` plus trailing slashes is `name` |
| Label.LastElementOfJoin | client.go:263 | the last element of `dir/name` is `name` |
| Label.Ext | client.go:264 | the extension is a suffix that is empty or a dot followed by neither dots nor slashes |
| Label.ExtOfDotted | client.go:264 | the extension of `stem.tail` is `.tail` |
| Label.NoDotNoExt | client.go:264 | a name without a dot has no extension |
| Label.TrimSuffix | client.go:264 | removing a present suffix leaves the rest; an absent one changes nothing |
| Label.ReplaceUnderscores | client.go:265 | each underscore becomes a space; every other character is kept |
| Label.ExpectedLabel | client.go:263-265 | the label has the length of the base name minus its extension, and spells that start of the base name with every underscore as a space |
| Label.LabelFromParts | client.go:263-265 | the label is the stem of the base name with its underscores replaced |
| Label.SampleParts | client.go:263-264 | the base of `dir/stem.ext` is `stem.ext` and its extension is `.ext` |
| Label.LabelOfSample | client.go:263-265 | `dir/stem.ext` is labelled with the stem, underscores turned into spaces |
| Label.LabelWithoutExtension | client.go:263-265 | a name without an extension is labelled with the whole name |
| Label.ExampleLabel | client.go:263-265 | `hello_world.wav` is labelled `hello world` |
| Label.Lower | client.go:189 | lower-casing keeps the length and maps each character |
| Label.Transcript | client.go:184-186 | a result without the `r0` key gives the empty transcript |
| Label.Verdict | client.go:188-195 | the verdict is 0 or 1 |
| Label.VerdictIgnoresCase | client.go:189-192 | the verdict is 1 exactly when transcript and label agree ignoring letter case, and it is symmetric |
| Label.LowerIdempotent | client.go:189 | lower-casing twice is lower-casing once |
| Label.EchoPasses | client.go:189-191 | the label itself, or its lower-cased form, passes |
| Label.MissingTranscript | client.go:184-191 | without a transcript the exchange passes only for an empty label |
| Label.ExampleVerdict | client.go:189-191 | `Hello World` passes against `hello world` |
| Exchange.Exchange | client.go:99-196 | a completed exchange has read at least one waiting reply and judged 0 or 1 |
| Exchange.TestAudio | client.go:99-196 | the step-by-step exchange, running the chunk-walk loop, equals the exchange function |
| Exchange.CompletedShape | client.go:99-195 | a completed exchange writes start, payload and end, then at most one ack. It reads two replies exactly when it skipped the ack |
| Exchange.PayloadIsTail | client.go:141-142 | the audio frame is the buffer from the located offset to its end |
| Exchange.NonWaveSendsAllButHeader | client.go:108-148 | a non-WAVE buffer is sent whole except its first 12 bytes |
| Exchange.ShortBufferPanics | client.go:108-142 | a buffer shorter than 12 bytes aborts the exchange at the payload slice |
| Exchange.AckSentWhen | client.go:153-180 | an ack is written exactly when the reply handling chose one, and it carries the header's sequence number |
| Exchange.EchoReplyPasses | client.go:151-195 | an unframed reply with the label, in any case, completes the exchange with verdict 1 after one read |
| Exchange.ReplayIgnored | client.go:163-169 | the replayed message read on a skipped ack is discarded: two inboxes that share their first reply give the same exchange |
| Exchange.FramedVerdict | client.go:153-189 | a framed reply with a well-formed header completes, and is judged on its body from the header's newline on |
| Exchange.SkipAckReadsReplay | client.go:163-169 | a skipped ack happens on multiples of 100 and reads a second reply, or panics without one |
| LoadTest.IterationJobs | client.go:273-276 | iterations `from`..`iters` run the sample with consecutive indices |
| LoadTest.FileSteps | client.go:259-276 | a sample's share of a session: nothing when it does not exist, a read failure when it cannot be read, else its iterations |
| LoadTest.Schedule | client.go:255-278 | a session's steps are its samples' shares in list order |
| LoadTest.Runs | client.go:262-274 | the per-job exchange derives the label from the sample path, reads waiting replies and judges 0 or 1 |
| LoadTest.RunSteps | client.go:255-278 | a session aborts at the first failed exchange or unreadable sample; otherwise it adds each verdict and passes the unread replies on |
| LoadTest.RunSessions | client.go:248-287 | the sessions run in turn over one shared counter, and the first crash ends the run |
| LoadTest.RunStepsAppend | client.go:255-278 | running two parts of a session one after the other is running the whole |
| LoadTest.Iteration | client.go:273-275 | one loop iteration performs the first pending exchange of the loop |
| LoadTest.Iterations | client.go:270-276 | the iteration loop runs indices 1..iterations and yields the specified session outcome |
| LoadTest.Session | client.go:249-279 | the session loop skips missing samples, fails on unreadable ones, and otherwise runs their iterations |
| LoadTest.RunLoadTest | client.go:213-292 | the whole run, with exits for no samples, no endpoint or a negative session count, equals the load-test function, printed total included |
| LoadTest.LoadTest | client.go:213-292 | the run as the program reports it: an exit, or the counted successes out of `iterations × parallel` |
| LoadTest.PrintedTotal | client.go:291-292 | the printed denominator is iterations times sessions |
| LoadTest.RequestCount | client.go:255-276 | the exchanges run are sessions times a session's steps |
| LoadTest.IntendedReport | client.go:282-292 | the summary with the exchanges run as its total never reports more successes than that total, nor fewer than none |
| LoadTest.SessionBounds | client.go:273-286 | a finished session adds between 0 and its number of steps to the counter |
| LoadTest.SessionsBounds | client.go:248-287 | the sessions add at most sessions × steps to the counter |
| LoadTest.SuccessesWithinRequests | client.go:282-292 | the reported successes lie between 0 and the number of exchanges run |
| LoadTest.FileStepsRun | client.go:259-276 | an existing readable sample contributes `iterations` exchanges; a missing one contributes none |
| LoadTest.ScheduleLength | client.go:255-276 | a session runs readable samples × iterations exchanges |
| LoadTest.EchoesPass | client.go:273-276 | replies that echo each label make every exchange of the session pass |
| LoadTest.AllPassSession | client.go:255-276 | a session whose exchanges all pass adds one per exchange and reads one reply each |
| LoadTest.NextSession | client.go:248-287 | a passing session adds its step count before the next one starts |
| LoadTest.AllPassSessions | client.go:248-287 | passing sessions add sessions × steps |
| LoadTest.EchoSessions | client.go:248-287 | sessions whose replies echo every label add one success per exchange: sessions × steps in all |
| LoadTest.EchoServerAllPass | client.go:248-292 | against an echoing server every exchange succeeds: successes equal the exchanges run, printed out of iterations × sessions |
| LoadTest.EchoTwentyFour | client.go:248-292 | four sessions, two iterations and three samples against an echoing server print 24 out of 8; the intended summary is 24 out of 24 |
| LoadTest.PrintedTotalIgnoresSamples | client.go:291-292 | the exchanges run are readable samples times the printed total |
| LoadTest.PrintedTotalUndercounts | client.go:291-292 | with two or more samples and an echoing server, the printed successes exceed the printed total |
| LoadTest.TwoSamplesOneRequest | client.go:291-292 | two samples, one session and one iteration print 2 successes out of 1; the intended summary is 2 out of 2 |

## Left out

- The websocket dial, the URL scheme choice and message writes are left out. A
  connection is modelled by the replies waiting on it, and its write errors are not
  modelled: the source ignores them, except the ack write's error check.
- A read error is modelled only as "no reply is waiting". A server that never answers
  blocks forever in the source; that is not modelled.
- JSON encoding and decoding are left out. The decoding of a reply body into its result
  map is the parameter `Exchange.Decoder`. A body that is not valid JSON is whatever
  that parameter gives for it.
- Concurrency is left out. Sessions run one after another. Their verdicts reach the
  counter through a channel, and the sum does not depend on the order. The source
  reads the counter without waiting for the last verdict to be added; that race is
  not modelled.
- The signal handler, flag parsing, the known-endpoints help text, the `.wav`/`.raw`
  globbing, logging and the 10 ms sleep are left out. A sample's presence and
  readability are the value `LoadTest.FileState`.
- The metadata text of a `txts` chunk is only logged, so it is not kept.
- Paths use `/` as their only separator and have no volume names. `filepath.Base` and
  `filepath.Ext` follow the separator of the operating system, so the label is modelled
  as on a Unix-like system only.
- LoadTest.PrintedTotal: the product `iterations × parallel` is not wrapped to 64
  bits. Flag values whose product overflows are not modelled.
- Label.Lower: lower-cases ASCII letters only; Unicode case mapping is not modelled.
  Characters stand for the bytes of the reply and of file names.
- Wave.PayloadWalk: the walk is bounded by the buffer length in rounds. It reports a
  never-ending walk (`Unbounded`) when the rounds run out. The model proves
  non-termination only for the fixed point of a size of -8
  (`Wave.NegativeSizeRepeats`), not for every input that reaches the bound.
- LoadTest.Runs: derives the expected label from the path once per exchange rather
  than once per sample. The value is the same.

## Findings

| source | as written | input that shows it | evidently intended | confidence | as-written member | corrected member |
|---|---|---|---|---|---|---|
| client.go:291-292 | the summary prints successes out of `iterations × parallel` requests | two readable samples, one session, one iteration and a server that echoes each label: 2 successes are printed out of 1 request | the total is the number of exchanges run: `parallel × iterations × readable samples` | not executed | LoadTest.LoadTest with LoadTest.PrintedTotal (shown by LoadTest.TwoSamplesOneRequest and LoadTest.PrintedTotalUndercounts) | LoadTest.IntendedReport with LoadTest.RequestCount (LoadTest.SuccessesWithinRequests, LoadTest.EchoServerAllPass) |
