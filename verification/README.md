# A Dafny model of the spcedp protocol engine

spcedp receives connections from Vanderbilt SPC alarm panels that speak EDP v2. This project
models its protocol engine and proves what the engine promises:

- **Frames** (`Checksum`, `Cipher`, `Codec`, `Detection`, `LengthCollision`, `WireFormat`):
  the wire layout, the 16-bit shift-and-add checksum, zero padding and the encrypted tail. A
  key is an abstract invertible map on 16-byte blocks.
- **Stream decoder** (`Decoder`, `DecoderErrors`, `Streams`, `Coverage`, `Recovery`): the
  buffer, the resync budget and the bounded wait. `FrameDecoder` is a class whose ghost log
  and chunk history are tied to `Run`, a function of the chunks fed; the theorems about
  `Run` therefore hold of the object. `Scan` is the same stream read in one go, with no
  notion of waiting.
- **Session** (`Reassembly`, `EventStream`, `WriteQueue`, `Requests`, `RequestSafety`,
  `SessionModel`, `SessionSafety`, `SessionLaws`, `SessionWitness`, `SessionObject`):
  commands, replies, acknowledgements, the write queue, the event stream and teardown.
  `SessionModel.Next` is one atomic step between two awaits; every theorem is about all runs
  of steps in any order. `SessionObject.Session` is the class with the source's fields. What
  it does between two awaits is a method whose whole effect is proved to be one step of the
  machine; the parts the steps share are proved against the functions they are made of. A
  new object is valid, and every step keeps it so.
- **Connection** (`Connection`, `EndToEnd`): decoder and session together, from input bytes to
  acknowledgement bytes.
- **Events and snapshot** (`SiaEvents`, `PanelSnapshot`): the right-anchored event parser and
  the alarm latch of the panel snapshot.

Bytes are integers below 256, text is a sequence of characters, and the clock is a
nondecreasing count of milliseconds. Where a promise is not true of every input, the exact
condition is proved:

- keyless decode rejects an encoded cleartext frame with any one byte changed, but for the two
  dlen bytes; there a raised value is rejected, and a lowered one is accepted if and only if the
  register over the shortened struct equals the checksum sent (`LoweredLengthDecides`), which
  does happen (`LoweredLengthCanPass`);
- chunk independence holds for streams whose headers claim at most `bound` bytes if and only if
  `bound` is at most 8216 (`ChunkIndependenceBound`);
- the step that makes a request leaves a reply future behind that no command awaits if and only
  if the request's text is ASCII and its payload longer than 65514 bytes, because `_send` raises
  before the command's `try` begins (`LeakIff`); so two futures can be outstanding at once
  (`TwoOutstanding`);
- an allocated sequence is greater than everything received or allocated before it if and only
  if the 32-bit counter has not wrapped, at this allocation or before (`AllocationAboveIff`); a
  received frame with sequence 0xFFFFFFFF makes the next allocation wrap (`AllocationWraps`);
- a late reply to an earlier request settles the request about to be made if and only if the
  earlier one was of the same kind and carried the sequence about to be allocated
  (`LateReplyIff`), which cannot be before the counter wraps (`LateReplyHarmless`) and can be
  after (`LateReplyCrosses`);
- the update returned for an event names every change if and only if the event needed no area
  query, or each area the refresh removed was already known when the query was made
  (`ReconcileEventNames`); a refresh that overlaps the query breaks it (`ReconcileCanMiss`).

Acknowledgements go to the source ID of the first frame of the connection
(spcedp/client.py:516-518), not to the source of the frame they answer as PROTOCOL.md:33 says;
the model follows the code.

## Model

| member | source | states |
|---|---|---|
| Checksum.StepIsPermutation | spcedp/wire.py:77-88 | for each byte the register step is a permutation of the 65536 states, with `Unstep` as its inverse |
| Checksum.StepInjectiveInByte | spcedp/wire.py:80-88 | for each register state, different bytes lead to different states |
| Checksum.HalvesStep | spcedp/wire.py:80-88 | the loop's work on separate low and high bytes is the 16-bit shift, add and XOR of PROTOCOL.md |
| Checksum.EdpChecksum | spcedp/wire.py:56-89 | the loop computes the register over every byte but the checksum slot, and fails exactly for a struct shorter than dlen says |
| Checksum.SingleByteDetected | spcedp/wire.py:64-68 | two structs that differ in one covered byte have different checksums |
| Checksum.RegisterFrame | spcedp/wire.py:77-79 | the checksum slot and the bytes past the end do not count |
| Checksum.RegisterByByte | spcedp/wire.py:73-89 | what each struct byte does to the register, from 0xFFFF on: bytes 17 and 18 nothing, any other a shift, an addition to the low half alone, and 0xA097 folded in on a carry |
| Checksum.XorBits | spcedp/wire.py:87-88 | the fold is the bitwise exclusive or |
| Cipher.EcbBlock | spcedp/wire.py:264-286 | block i of the result is the image of block i of the text |
| Cipher.PaddedWithZeros | spcedp/wire.py:259-263 | the pad is the fewest zero bytes that fill the last block |
| Cipher.EcbInverse | spcedp/wire.py:264-286 | block-wise decryption undoes block-wise encryption, given that it does on one block |
| Codec.HeaderFields | PROTOCOL.md:10-23 | each field of an encoded header sits at its documented offset, little-endian, masked to its width |
| Codec.EncodeBound | spcedp/wire.py:134-176 | encode succeeds exactly for payloads of at most 65514 bytes, with or without a key, and otherwise raises the too-large error |
| Codec.EncodeShape | spcedp/wire.py:145-176 | the wire image is the length prefix and the struct with its checksum, the part from struct offset 15 padded and encrypted under a key |
| Codec.DecodeEncodeClear | spcedp/wire.py:178-232 | decode undoes cleartext encode up to field widths, under any key setting |
| Codec.DecodeEncodeSealed | spcedp/wire.py:189-232 | decode undoes encrypted encode up to field widths, the encrypted bit cleared |
| Codec.DecryptRestores | spcedp/wire.py:269-290 | decrypting an encrypted wire image restores the clear struct but for the encrypted bit |
| Codec.EncodeDecodeClear | spcedp/wire.py:178-232 | a cleartext buffer of exactly HEADER_LEN + dlen bytes that decode accepts is reproduced byte for byte by encode |
| WireFormat.EncodeOutcome | spcedp/wire.py:134-176 | for any frame and key setting, which frames encode and which exception the others raise |
| WireFormat.ClearBytes | PROTOCOL.md:10-23 | an encoded cleartext frame byte by byte |
| WireFormat.SealedBytes | spcedp/wire.py:246-267 | a sealed frame is the same frame in clear with its encrypted bit set, sealed block by block from wire offset 17, zero-padded |
| WireFormat.ClearAccepted | spcedp/wire.py:178-232 | exactly which cleartext buffers decode, and to which fields |
| WireFormat.SealedAccepted | spcedp/wire.py:189-232 | exactly which encrypted buffers decode under a usable key: whole blocks, and opened bytes whose payload fits and whose checksum, encrypted bit in place, is right |
| WireFormat.DecodeErrors | spcedp/wire.py:189-222 | why a framed buffer is rejected, in the order of the tests |
| WireFormat.SealedDecides | spcedp/wire.py:204-218 | an image that seals a struct decodes exactly when the register over the struct is the checksum in it |
| WireFormat.SealedChangeRejected | spcedp/wire.py:204-218 | a frame changed in one byte before it was sealed is rejected under the key, the two dlen bytes and the encrypted bit excepted |
| Detection.OneByteChangeRejected | spcedp/wire.py:180-222 | keyless decode rejects an encoded cleartext frame with any one byte changed, the two dlen bytes excepted |
| Detection.RaisedLengthRejected | spcedp/wire.py:200-203 | a dlen byte changed upwards is rejected as an overflow |
| Detection.LoweredLengthDecides | spcedp/wire.py:200-222 | a dlen byte changed downwards is accepted, with a shortened payload, exactly when the shorter register equals the checksum sent, and otherwise is a checksum mismatch |
| LengthCollision.LoweredLengthCanPass | spcedp/wire.py:76-79 | a concrete encoded frame whose dlen byte, lowered from 1 to 0, passes decode |
| Decoder.FrameDecoder.constructor | spcedp/wire.py:302-313 | a new decoder is empty and stands for the run over no chunks |
| Decoder.FrameDecoder.ResetWait | spcedp/wire.py:377-381 | the wait anchor is cleared and nothing else changes |
| Decoder.FrameDecoder.Resync | spcedp/wire.py:383-397 | one byte is dropped and counted; it fails exactly when the count passes the limit |
| Decoder.FrameDecoder.Advance | spcedp/wire.py:318-375 | one turn of the loop does what `TurnOf` says, with the five outcomes of the source |
| Decoder.FrameDecoder.Feed | spcedp/wire.py:315-375 | feed ends in the state and with the frames of the loop function, or raises and discards the frames of the same call; the object goes on standing for the run over all chunks |
| DecoderErrors.TurnCases | spcedp/wire.py:318-375 | what every turn of the loop does, case by case: wait, drop a byte, deliver, demand encryption, give up |
| DecoderErrors.RunErrors | spcedp/wire.py:360-397 | over every run with a usable key, feed gives up exactly when more than 8192 bytes were dropped since the last frame, demands encryption exactly when a complete encrypted frame is at the front and there is no key, and raises for no other reason |
| Decoder.LoopConserves | spcedp/wire.py:316-375 | consumed segments and final buffer spell the loop's input: no byte is lost, doubled or invented |
| Decoder.RunSettles | spcedp/wire.py:318-359 | after every run that did not raise, the buffer is below MAX_PLAUSIBLE_FRAME, the drop count within the limit, an armed wait has grown by at most the limit, and every byte fed is in exactly one segment or the buffer |
| Streams.ScanExtends | spcedp/wire.py:318-375 | scanning more input raises where the prefix raises and otherwise continues where it stopped |
| Streams.RunIsScan | spcedp/wire.py:315-375 | on streams whose visited headers claim at most 8216 bytes, a run over any chunks is one scan of all the bytes |
| Streams.ChunkIndependence | spcedp/wire.py:315-375 | on those streams any partition ends like the single feed: same error, or same frames, buffer and drop count |
| Streams.ChunkIndependenceBound | spcedp/wire.py:339-359 | chunk independence for all streams whose plausible headers claim at most `bound` holds exactly when `bound` <= 8216 |
| Streams.OversizeClaimSplits | spcedp/wire.py:345-358 | a header claiming 8217 bytes, split after the header, ends differently from the same bytes in one feed |
| Coverage.RunJustified | spcedp/wire.py:323-375 | every dropped byte had a lasting reason and every delivered frame decodes from its own bytes |
| Coverage.SegmentSlices | spcedp/wire.py:373-375 | each segment of a run is the slice of the bytes fed between its two offsets, never empty, and a delivered frame is the decoding of its slice |
| Coverage.SlicesDisjoint | spcedp/wire.py:373-375 | a later segment starts no earlier than an earlier one ends |
| Coverage.NothingSkipped | spcedp/wire.py:388-390 | every decodable frame of at most 8216 bytes whose start was passed is delivered or starts inside a delivered frame |
| Coverage.NoWedge | spcedp/wire.py:306-313 | from every reachable state, MAX_PLAUSIBLE_FRAME more bytes, or RESYNC_LIMIT + 1 once a header is buffered, deliver a frame, drop a byte or raise |
| Recovery.GarbageRecovery | spcedp/wire.py:335-397 | garbage runs within the resync limit cost no frame, under any chunking, and nothing raises, even if they hold plausible headers of complete frames that do not decode |
| Recovery.StreamRoundTrip | spcedp/wire.py:127-375 | encoded frames of at most 8216 wire bytes, concatenated and cut anywhere, come out exactly and in order, leaving nothing behind |
| Reassembly.ContainsIff | spcedp/xmlcmd.py:77 | the substring search finds exactly the buffers in which the tag occurs at some position |
| Reassembly.TagText | spcedp/xmlcmd.py:53-77 | the tag is the bytes of its text, and a request text is sent as its code points |
| Reassembly.ReplyAssembler.Feed | spcedp/xmlcmd.py:66-81 | a feed drops the marker; it raises past the limit, returns and clears the buffer when the tag stands anywhere in it, and otherwise asks for more; an empty payload changes nothing |
| Reassembly.CompletesIff | spcedp/xmlcmd.py:66-81 | a list of fragments completes on its last one exactly when the tag is in the joined text but not in what came before |
| Reassembly.Reassembles | spcedp/xmlcmd.py:66-81 | a body ended by its only closing tag, cut into any pieces, is reassembled exactly after n - 1 times more |
| Reassembly.CompletesOnlyWhole | spcedp/xmlcmd.py:66-81 | fed the first pieces of such a body, the assembler completes only with all of them and exactly that body |
| EventStream.StepLine | spcedp/client.py:330-393 | every step keeps delivered, in-flight and queued events an in-order subsequence of the emitted ones, and loses one event exactly in the two full-queue cases |
| EventStream.StepMoves | spcedp/client.py:330-393 | which event each step moves where: a full queue gives up its oldest for a new event, and its newest for one put back |
| EventStream.RunLine | spcedp/client.py:330-393 | over any run, the events missing from the line are counted by the losing steps |
| EventStream.NothingLost | spcedp/client.py:330-393 | while in-flight plus queued never exceeds the capacity, the line is exactly the emitted events |
| WriteQueue.PostConserves | spcedp/client.py:127-143 | posting a frame keeps the accepted frames equal to written then queued, refusals only on a closed session |
| WriteQueue.WriteConserves | spcedp/client.py:177-181 | a writer turn keeps the accepted frames equal to written then queued |
| WriteQueue.NothingRefusedWhileOpen | spcedp/client.py:130-143 | while no teardown is requested, every frame handed to send is written or queued, in order |
| SessionSafety.RefusalCloses | spcedp/client.py:135-143 | in every step of a reachable session the queue stays within its bound, a frame is refused exactly by a full queue, and a refusal closes the session and requests teardown in the same step, for good |
| RequestSafety.RequestKeeps | spcedp/client.py:243-255 | making a request keeps futures, entries and exchanges correlated, whether or not its frame encodes |
| RequestSafety.SettleKeeps | spcedp/client.py:623-632 | a reply frame keeps them correlated: it settles only the future registered under its sequence and kind |
| RequestSafety.WakeKeeps | spcedp/client.py:256-279 | resuming a command pops its entry, keeps what it gathered consistent with the assembler, and ends it with what its replies justify |
| RequestSafety.FailKeeps | spcedp/client.py:192-202 | failing the pending futures keeps everything settled before |
| RequestSafety.AtMostOneOutstanding | spcedp/client.py:237-261 | with encodable requests at most one future is open and the two pending maps hold at most one entry between them |
| SessionSafety.LeakIff | spcedp/client.py:243-261 | in a reachable open session the step that makes a request leaves a new open future that no command awaits exactly when the text is ASCII and the payload exceeds 65514 bytes |
| SessionWitness.TwoOutstanding | spcedp/client.py:246-256 | after a request whose command ID makes it one byte too long, a second request is registered while the first is still open |
| SessionSafety.AllocationAboveIff | spcedp/client.py:111-113 | in every reachable session the next sequence exceeds everything received or allocated exactly when the counter has not wrapped, now or before; every request carries an allocated sequence |
| SessionWitness.AllocationWraps | spcedp/client.py:111-113 | after a received sequence of 0xFFFFFFFF the next request is numbered 0 |
| SessionWitness.LateReplyCrosses | spcedp/client.py:628-632 | after a wrap, a reply to a command that timed out settles the next command, which was given the same sequence |
| RequestSafety.RepliesAreOwn | spcedp/client.py:256-270 | each reply a finished command consumed came in a received frame of its kind, with its own sequence, after its request |
| RequestSafety.FragmentsRequested | spcedp/client.py:241-275 | a command that assembled a body made one request per fragment, the first marked 0x01 and the rest 0x02, and the body is the assembly of the replies |
| SessionModel.RunKeepsInv | spcedp/client.py:70-393 | every run of steps from a sound session keeps correlation, freshness, conservation, acknowledgement, quiet-time and teardown invariants |
| SessionModel.ReceiveKeepsInv | spcedp/client.py:515-526 | dispatching any frame a decoder can deliver keeps them |
| SessionModel.SendKeepsInv | spcedp/client.py:243-255 | sending a request after the quiet time keeps them |
| SessionLaws.AnswersExact | spcedp/client.py:634-651 | in every reachable session the frames posted that are not commands answer, one by one and in order, the received POLL, HELLO and EVENT_PUSH frames: same sequence, major and payload, minor plus one, from the receiver to the source of the first frame |
| SessionLaws.AnswerEncodes | spcedp/client.py:204-219 | the answer to any frame a decoder can deliver encodes |
| SessionLaws.CommandsExact | spcedp/client.py:115-125 | in every reachable session the command frames posted are, in order, those of the requests that encode: major 10 or 4, minor 0, the request's sequence and payload, to the panel |
| SessionLaws.RequestsAsk | spcedp/client.py:245-307 | each request of a command carries what the command was called with: opcode, area and zero, or the marker and the text |
| SessionLaws.QuietTime | spcedp/client.py:315-328 | a waiting command may go on exactly 100 ms after the last dispatched frame, or when the session has closed |
| SessionLaws.RequestMade | spcedp/client.py:243-255 | a command past its quiet time gets the next sequence modulo 2^32 and awaits a new future registered under it |
| SessionLaws.ReceivedSettles | spcedp/client.py:619-632 | a received frame settles the one open future registered under its kind and sequence and no other, and moves the counter up to its sequence at most |
| SessionLaws.ReplyReaches | spcedp/client.py:623-632 | in every reachable session a reply to the awaited request reaches its open future, and the command can go on |
| SessionLaws.TeardownFails | spcedp/client.py:192-202 | the teardown fails every open future in the two maps and changes no other |
| SessionLaws.TornDownSettled | spcedp/client.py:599-603 | once torn down, with encodable requests, no future is open in any later state |
| SessionLaws.TeardownEndsCommand | spcedp/client.py:192-202 | after a disconnect the awaiting command can go on at once, and ends with the connection lost unless its reply or an expiry came first |
| SessionLaws.ExpiryEndsCommand | spcedp/client.py:256-261 | a timeout or cancellation ends the awaiting command as such, and its entry leaves the map |
| SessionLaws.UnsentEnds | spcedp/client.py:237-245 | how a command ends that has not sent: timed out, cancelled, session closed, text not ASCII |
| SessionLaws.OversizeEnds | spcedp/client.py:243-255 | a request too long to encode ends its command with that error, posts nothing, and leaves its future open and registered |
| SessionLaws.AreaReplyEnds | spcedp/client.py:308-313 | the reply to an area command decides how it ends |
| SessionLaws.FragmentDecides | spcedp/client.py:262-279 | the reply to an XML request ends the command past 1 MiB, with the closing tag, or as the 64th, and otherwise it asks for more |
| SessionSafety.OneOutstanding | spcedp/client.py:237-313 | in every reachable session with encodable requests at most one reply future is outstanding |
| SessionSafety.SettledOnce | spcedp/client.py:623-632 | over any further run a settled future never changes |
| SessionSafety.SuccessRestsOnOwnReplies | spcedp/client.py:256-313 | a command succeeds only on replies of its own kind to its own sequences: one OK byte, or one fragment per request assembling the body |
| SessionSafety.BodyIsWhole | spcedp/client.py:241-275 | a command whose replies are marked pieces of a body with its only closing tag at the end can end with a body only as that body, after one request per piece |
| SessionSafety.RunningCommandOnPieces | spcedp/client.py:241-275 | a command answered with the pieces of a reply within MAX_REPLY_BYTES and MAX_XML_FRAGMENTS has, while it runs, consumed fewer than all of them and made at most one request per piece |
| SessionSafety.FinishedCommandOnPieces | spcedp/client.py:241-279 | such a command ends with exactly the body if it consumed all the pieces and with no body otherwise, after at most one request per piece, and never with a protocol error |
| SessionSafety.LateReplyHarmless | spcedp/client.py:221-313 | until the counter wraps, a late reply never settles another request than its own |
| SessionSafety.LateReplyIff | spcedp/client.py:619-632 | a reply to an earlier request settles the request just made exactly when both have the same kind and sequence, which can be read off before it is made |
| SessionSafety.CommandsWaitForQuiet | spcedp/client.py:315-328 | every command frame is posted at least the quiet time after each frame dispatched before it |
| SessionSafety.ClosedPostsNoCommand | spcedp/client.py:315-328 | once the session is closed no run posts a command frame |
| SessionSafety.TeardownIsFinal | spcedp/client.py:599-603 | once the teardown has run, both pending maps are empty in every later state |
| SessionSafety.EventsInOrder | spcedp/client.py:643-651 | the emitted events are the parsed received pushes, and the consumer sees an in-order subsequence of them |
| SessionSafety.NoPushLost | spcedp/client.py:330-393 | in every run in which in-flight plus queued events fit the capacity, delivered, in-flight and queued are exactly the parsed received pushes, in order |
| SessionObject.Session.constructor | spcedp/client.py:74-101 | a new session is the machine's start state, and valid |
| SessionObject.Session.StepKeepsValid | spcedp/client.py:70-393 | an object that takes a step of the machine stays valid |
| SessionObject.Session.AllocSeq | spcedp/client.py:111-113 | the counter goes up by one modulo 2^32 and its value is returned |
| SessionObject.Session.Send | spcedp/client.py:127-143 | an encodable frame is queued or, on a full queue, refused with teardown requested; otherwise nothing changes |
| SessionObject.Session.RequestTeardown | spcedp/client.py:159-168 | the machine's step: both closing flags are set and nothing else changes |
| SessionObject.Session.WriterTurn | spcedp/client.py:177-181 | the machine's step on the whole state: the front frame moves from the queue to the written ones |
| SessionObject.Session.WriterFails | spcedp/client.py:182-190 | the machine's step on the whole state: the writer stops |
| SessionObject.Session.FailPendingFutures | spcedp/client.py:192-202 | the two loops fail exactly the open futures of the two maps and clear them |
| SessionObject.Session.ReplyEcho | spcedp/client.py:204-219 | the request's sequence and payload are sent back under the given minor code |
| SessionObject.Session.BeginCommand | spcedp/client.py:237-241 | the machine's step on the whole state: a command starts, or ends at once if the session has closed |
| SessionObject.Session.QuitWaiting | spcedp/client.py:315-328 | the machine's step on the whole state: a command that times out before sending ends with nothing registered |
| SessionObject.Session.SendWhenQuiet | spcedp/client.py:243-255 | the machine's step on the whole state: the end of the quiet wait raises on a closed session, raises with the sequence spent on a text that is not ASCII, and otherwise makes the request |
| SessionObject.Session.ExpireWait | spcedp/client.py:256-259 | the machine's step on the whole state: an expiry cancels the awaited future only if it is still open |
| SessionObject.Session.Resume | spcedp/client.py:256-279 | the machine's step on the whole state: the command pops its entry and goes on with its reply, failure or expiry |
| SessionObject.Session.EmitEvent | spcedp/client.py:330-341 | the event is queued, the oldest one making room in a full queue |
| SessionObject.Session.RequeueEvent | spcedp/client.py:379-393 | draining and refilling puts the event in front and keeps what fits of the rest, in order |
| SessionObject.Session.CancelConsumer | spcedp/client.py:356-377 | a cancelled consumer's pulled event goes back in front |
| SessionObject.Session.PullEvent | spcedp/client.py:350-355 | the front event passes to the consumer |
| SessionObject.Session.YieldEvent | spcedp/client.py:367 | the consumer is handed the event it pulled |
| SessionObject.Session.DrainEvent | spcedp/client.py:363-366 | after a disconnect the queued events are handed out in order, then the stream ends |
| SessionObject.Session.ConsumerTurn | spcedp/client.py:343-393 | every turn of events() is the machine's step on the whole state, and hands out the event held or, after a disconnect, the oldest one queued |
| SessionObject.Session.TearDown | spcedp/client.py:599-603 | the machine's step on the whole state: pending futures fail, both maps empty, both closing flags set |
| SessionObject.Session.Receive | spcedp/client.py:515-526 | naming the panel and dispatching a frame is the machine's step on the whole state |
| Connection.FeedFramesFit | spcedp/wire.py:330-375 | every frame a feed returns has a 32-bit sequence and a payload far below the encode limit |
| Connection.HandleChunk | spcedp/client.py:503-526 | a chunk is fed and its frames dispatched in order, or the read loop ends with none of them dispatched |
| EndToEnd.MovesKeepSound | spcedp/client.py:488-538 | over every chunking and interleaving, the frames dispatched and still to be dispatched are those of the feeds that did not raise |
| EndToEnd.AcknowledgementsOfDispatched | spcedp/client.py:488-538 | on every connection the bytes posted that are not commands are the encodings of the answers to exactly the asking frames dispatched, a prefix of those handed over by the feeds that did not raise |
| EndToEnd.AcknowledgementBytes | spcedp/client.py:488-538 | on streams whose visited headers claim at most 8216 bytes those frames are the ones a single scan of the input finds, up to the chunk whose feed raised |
| SiaEvents.MatchPrint | spcedp/events.py:20 | the envelope expression matches a printed envelope with its own groups |
| SiaEvents.PrintMatch | spcedp/events.py:20 | whatever the envelope expression matches is the printed form of its groups |
| SiaEvents.PrintText | spcedp/events.py:20-33 | the printed form, field by field |
| SiaEvents.SplitsIff | spcedp/events.py:63-75 | the rest splits into five fields exactly when it holds at least four pipes |
| SiaEvents.Spaces | spcedp/events.py:54-58 | which characters are stripped around an event |
| SiaEvents.ParsePrint | spcedp/events.py:35-86 | parsing a printed event, padded with whitespace, returns it, pipes in the description included |
| SiaEvents.RoundTrip | spcedp/events.py:35-86 | the same with a plain decimal panel id |
| SiaEvents.PrintParse | spcedp/events.py:35-86 | any accepted text is, after stripping, the printed form of the event returned, its outer fields pipe-free |
| SiaEvents.ParsesIff | spcedp/events.py:54-75 | parse succeeds exactly for a well-formed envelope whose rest holds at least four pipes |
| PanelSnapshot.Panel.RefreshAreas | spcedp/panel.py:273-290 | the loop computes the refreshed area snapshot, or leaves it alone when the query raises |
| PanelSnapshot.RefreshedLookup | spcedp/panel.py:273-290 | an area is in the new snapshot exactly when a row names it; its last row decides name and mode, and it stays triggered exactly when it was and that row is not unset |
| PanelSnapshot.Panel.RefreshZones | spcedp/panel.py:292-300 | the loop computes the refreshed zone snapshot, or leaves it alone when the query raises |
| PanelSnapshot.RefreshedZonesLookup | spcedp/panel.py:292-300 | a zone is in the new snapshot exactly when a row names it, and its last row decides every field |
| PanelSnapshot.Panel.ApplyEvent | spcedp/panel.py:313-348 | the object changes and reports what `Applied` says, whose update is characterised by AppliedNames |
| PanelSnapshot.AppliedShows | spcedp/panel.py:313-348 | a zone is closed after ZC and open after ZO and the alarm codes, an alarm triggers its area, the update names just these, and nothing else changes |
| PanelSnapshot.AppliedNames | spcedp/panel.py:313-348 | the update names every zone and area entry that an event changed, and no entry comes or goes |
| PanelSnapshot.NumericReads | spcedp/panel.py:318-324 | addresses and IDs are ASCII digits and nothing else, an address with whitespace around it |
| PanelSnapshot.TextLaws | spcedp/panel.py:317-324 | decimal notation, and codes compared without regard to case |
| PanelSnapshot.SignedReads | spcedp/panel.py:231-235 | what `int` reads: grouped digits with or without a sign |
| PanelSnapshot.ParseIntPads | spcedp/panel.py:231-235 | whitespace around a number does not count |
| PanelSnapshot.GroupedReads | spcedp/panel.py:231-235 | digits are grouped, and an underscore between digits does not count |
| PanelSnapshot.AreaReads | spcedp/panel.py:231-235 | the area of a zone is 0 for an AREA that is missing, empty or no number |
| PanelSnapshot.Panel.StartReconcile | spcedp/panel.py:362-366 | any other code is applied at once; an area code goes on to the query with the IDs known now and nothing changed |
| PanelSnapshot.Panel.FinishReconcile | spcedp/panel.py:367-380 | after the query the snapshot and update are those of `ReconcileEvent`; a failed query changes nothing |
| PanelSnapshot.ReconcileShows | spcedp/panel.py:350-380 | the six area codes take the rows of the query for the snapshot and name every area known before or after, BV triggers the area it is addressed to, and any other code is applied as it is |
| PanelSnapshot.ReconcileEventNames | spcedp/panel.py:350-380 | the update of reconcile_event names every change exactly when no query was needed or each removed area was known when it was made |
| PanelSnapshot.ReconcileCanMiss | spcedp/panel.py:366-380 | an area that another refresh brings in during the query and the reply takes out again goes unnamed |
| PanelSnapshot.TriggeredStep | spcedp/panel.py:273-380 | one action leaves an area triggered exactly when it raises the alarm or keeps a standing one uncleared |
| PanelSnapshot.AlarmLatch | spcedp/panel.py:273-380 | over every history an area is triggered exactly when an alarm was raised for it since it last entered the snapshot and was last reported unset |

## Left out

- AES itself (spcedp/wire.py:258-265, 277-286): a key is any invertible length-preserving map on 16-byte blocks, together with its key bytes.
- Sockets, asyncio scheduling, TLS errors, idle timeouts and server start and stop: only their effect as atomic steps is modelled.
- XML parsing and attribute quoting (spcedp/xmlcmd.py:53-56, 84-145): a request is a marker byte and any text, ASCII or not, and a command ends with the assembled body.
- Text decoding of event payloads (spcedp/events.py:47-53) is a parameter; digits and case mapping are the ASCII ones and stripped whitespace that below code point 256. So the ValueError that `int` raises on a character such as a superscript two, which passes `isdigit`, is not modelled (spcedp/panel.py:105-109, 321-324), nor is Python's limit on the length of integer literals.
- The parsed timestamp of an event (spcedp/events.py:87-107): the raw 14 digits are kept.
- wait_ready and its ready flag, the write-queue warning flag, logging, error texts, reply-code names, enum accessors, key normalisation, PanelInfo and AreaControl: they add nothing to the properties above.
- The errors of binary_command for a bad area ID or opcode (spcedp/client.py:283-285): they raise before any state is touched, so such a command never begins.
- Frame.encode stores the checksum in the frame it encodes; the model returns it beside the wire image instead of changing the frame in place.
- Detection.OneByteChangeRejected: the two dlen bytes are excepted, as the code does not protect them; RaisedLengthRejected and LoweredLengthDecides say what becomes of those.
- Decoder.FrameDecoder.Advance: the body of feed's loop is a method of its own here.
- Connection.HandleChunk: the frames of one chunk are dispatched at one clock reading.
- PanelSnapshot.Panel.ApplyEvent: areas and zones are values in the snapshot, so references that a caller keeps to an Area or Zone object are not modelled.
- More than one consumer of the event stream.
