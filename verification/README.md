# hwwctl verification

A Dafny model of the parts of hwwctl whose correctness is not visible from reading one function:
the Trezor wire and protobuf codec, the UHID relay and its log drain, the instance registry with the
emulator and bridge it owns, the timestamp calendar, and the framing of the control socket.
`dafny verify dfyconfig.toml` checks the whole project.

The modules follow the program:

- `Bytes`: machine integers, `Option`, `Result`.
- `Varint`, `Utf8`, `Fields`, `Cursors`, `Framing`, `Wire`, `Layout`: `crates/protocol`. Loops over
  buffers are methods with loops and arrays; each is proved equal to a specification function, and the
  theorems are about those functions. `Cursors` says exactly when a length takes a scanner past usize.
- `Relay`: the UHID thread and the two TCP relay tasks of `crates/bridge`, as a step relation in which
  any of them may move next. A run is any sequence of steps from the initial state.
- `LogDrain`: the hex text of intercepted messages, the drain task's counters and 500-entry ring, and the
  unified log.
- `Resources`, `Emulator`, `Bridge`, `Commands`, `Daemon`: what the daemon acquires from the operating
  system, the emulator and bridge objects, the meaning on values of the registry's commands and of the
  traffic that reader and drain tasks bring between them, and the registry actor itself. The actor is
  proved to go through exactly the worlds these events describe: what each instance shows and holds, and
  what is live on the host. The theorems are about those worlds. Traffic that arrives while a command is
  under way stands before or after it; `Commands.TrafficCommutes` and `Commands.TrafficIsForgotten` say
  why that loses nothing.
- `Calendar`, `Timestamp`: `days_to_ymd` and the timestamp text of `crates/bundler`, against the
  day-by-day Gregorian calendar (RFC 3339, section 5.7 and appendix C for month lengths and leap years,
  section 5.6 for the text form).
- `ControlFrames`: `write_frame` and `read_frame` of `crates/control`.

Everything outside becomes a parameter: sockets are queues of datagrams and a set of failing sends, an
empty queue stands for the time limit running out, each system call on the way to a started instance is
an answer in an environment record, clocks are numbers, and the JSON codec is a pair of functions.
Integer widths are explicit where they matter: u64 shifts and sums wrap, a message length is cast to
u32, and an addition to a scanner's cursor that leaves usize is an `Overflow` outcome of its own. Byte
slices are shorter than 2^63 bytes, as Rust guarantees.

## What the code does where its text says otherwise

- `read_frame`'s comment promises `None` only when the peer closed before any byte of a frame
  (crates/control/src/lib.rs:371-373). The code also returns `None` for a stream cut inside the
  four length bytes; `ControlFrames.CutFrame` and `ControlFrames.Classification` state the exact line.
- `GenericEmulator::start` returning `Ok` does not mean there is a process: a failed spawn leaves the
  status `Starting`, so the next start returns `Ok` at once. `Emulator.StartAfterFailedSpawn` is the
  witness, and `Emulator.GenericEmulator.Start` gives the exact condition.
- A bridge whose TCP connect failed stays `running` and keeps its UHID device until it is stopped or
  dropped; `Bridge.GenericBridge.Start` states this.
- `collect_logs` says it spreads emulator lines evenly over time (crates/hwwctl/src/daemon/instance.rs:119-123);
  it gives every line the time of the call. `LogDrain.EmulatorLinesStandTogether` states where that puts
  them in every unified log, and `LogDrain.LinesAreNotSpread` is an input that shows the difference.
- The field scanners do not return on every input: a declared length can take the cursor past usize
  (`Cursors.OverflowIsReached`). `Cursors.FindOverflowsIff` and `Cursors.TokensOverflowIff` say when, for
  every input; `Cursors.FindOverflowsAtLengthIff` and `Cursors.TokensOverflowAtLengthIff` say it by one
  comparison for a length behind well-formed fields. Without overflow checks the same input can keep the
  scan going for ever (`Cursors.UncheckedScanNeverEnds`).
- `is_running` tells of Task A alone: a bridge whose Task B has ended on a failed write still counts as
  running (`Relay.RunningTellsTaskA`, `Relay.RunningMayBeHalfDead`).
- Framing casts the payload length to u32, so the round trip holds exactly below 2^32 bytes
  (`Framing.FrameRoundTripIff`).
- A continuation packet whose data starts with `##` is taken for a first packet by the stand-alone
  header decoder (`Framing.LaterPacketsDecode` says exactly when); the receive loops do not look at it
  and are not confused.
- A report that UHID delivers without a report-ID byte and that starts with 0x00 loses that byte on the
  way to the emulator (`Relay.BareReportArrives`).
- `StartupTimeout` is never replied: BitBox02 starts with the probe skipped (the contract of `Commands.StartReply`).

## Model
| member | source | states |
|---|---|---|
| Calendar.DaysToYmdIsNthDate | crates/bundler/src/lib.rs:389-402 | the closed form of any day count a u64 number of seconds can give is the date reached from 1970-01-01 by that many next-day steps |
| Calendar.DaysToYmdBijective | crates/bundler/src/lib.rs:389-402 | different day counts give different dates, and each date from 1970-01-01 on is given by exactly its own day number |
| Calendar.EveryDateIsReached | crates/bundler/src/lib.rs:389-402 | no date of the calendar from the epoch on is skipped |
| Calendar.FourHundredYears | crates/bundler/src/lib.rs:389-402 | 146097 days later is the same month and day 400 years on |
| Calendar.YearOfEraInverts | crates/bundler/src/lib.rs:392-394 | the division chain recovers century, leap cycle and year from any day of the 400-year era, the last day of the era included |
| Calendar.DayNumberInverts | crates/bundler/src/lib.rs:389-402 | the conversion undoes an independent day number of every date |
| Calendar.DayNumberOfNth | crates/bundler/src/lib.rs:389-402 | that day number counts the calendar's own steps |
| Timestamp.TextRoundTrip | crates/bundler/src/lib.rs:369-386 | up to the year 9999 the text read field by field through the inverse calendar gives back the second it was made from |
| Timestamp.TextOrder | crates/bundler/src/lib.rs:369-386 | up to the year 9999 an earlier second has a strictly smaller text |
| Timestamp.TextLength | crates/bundler/src/lib.rs:369-386 | the text has 20 characters exactly before the year 10000 and is never shorter |
| Timestamp.TextSeparators | crates/bundler/src/lib.rs:369-386 | dashes, T, colons and Z stand at their six places |
| Varint.EncodeVarint | crates/protocol/src/trezor_debug.rs:419-433 | the loop writes the base-128 groups of the value, lowest first |
| Varint.DecodeVarint | crates/protocol/src/trezor_debug.rs:436-450 | value and length of what the shifting loop reads on any input, as the base-128 number in the continued bytes, cut to 64 bits and to ten bytes |
| Varint.RoundTrip | crates/protocol/src/trezor_debug.rs:419-450 | decoding an encoding, whatever follows it, gives the value and the encoding's length, which is 1 to 10 |
| Varint.EncodingLength | crates/protocol/src/trezor_debug.rs:419-433 | an encoding fits n bytes exactly when the value is below 2^(7n) |
| Varint.Shortest | crates/protocol/src/trezor_debug.rs:419-450 | no shorter input decodes to the value |
| Varint.PrefixFree | crates/protocol/src/trezor_debug.rs:419-450 | an encoding that starts a stream starting with another is that other |
| Varint.Truncated | crates/protocol/src/trezor_debug.rs:436-450 | an encoding cut short is consumed whole and gives the low bits it holds |
| Varint.Overlong | crates/protocol/src/trezor_debug.rs:436-450 | of ten continuation bytes or more the first ten give the value and all of the input is consumed |
| Varint.Decoding | crates/protocol/src/trezor_debug.rs:436-450 | on any input the decoder consumes at most the input, and at least one byte of a non-empty one |
| Fields.EncodeFieldVarint | crates/protocol/src/trezor_debug.rs:453-459 | the bytes are the protobuf encoding of a varint field |
| Fields.EncodeFieldString | crates/protocol/src/trezor_debug.rs:462-470 | the bytes are the protobuf encoding of a length-delimited field |
| Fields.ExtractStringField | crates/protocol/src/trezor_debug.rs:491-530 | on every input the loop returns what the specified scan returns, with every slice in bounds |
| Fields.ExtractFailureMessage | crates/protocol/src/trezor_debug.rs:533-571 | the same for the Failure scanner, with its two fixed texts |
| Fields.ParseTokensField | crates/protocol/src/trezor_debug.rs:574-633 | the same for the token scanner |
| Utf8.ValidIffEncodedText | crates/protocol/src/trezor_debug.rs:491-530 | the check behind str::from_utf8 accepts exactly the encodings of sequences of Unicode scalar values (RFC 3629): no overlong form, no surrogate, nothing past U+10FFFF |
| Fields.FindsFirstPayload | crates/protocol/src/trezor_debug.rs:491-530 | on the encoding of any list of fields the scan finds the first length-delimited field with the number asked for, or nothing |
| Fields.ExtractsFirstString | crates/protocol/src/trezor_debug.rs:491-530 | the extracted string is that payload if it is UTF-8, else nothing |
| Fields.FindsAllTokens | crates/protocol/src/trezor_debug.rs:574-633 | on the encoding of any list of fields the tokens are all valid field-13 strings in order |
| Fields.FindPassesFields | crates/protocol/src/trezor_debug.rs:491-530 | a scan that starts at encoded fields finds the first payload asked for among them, or goes on behind them as if they were not there |
| Fields.TokensPassFields | crates/protocol/src/trezor_debug.rs:574-633 | a token scan that starts at encoded fields collects their texts and goes on behind them |
| Cursors.FindOverflowsIff | crates/protocol/src/trezor_debug.rs:491-571 | on every input a payload scan overflows exactly when one of the ends it comes to, on an unbounded cursor, does not fit usize |
| Cursors.TokensOverflowIff | crates/protocol/src/trezor_debug.rs:574-633 | the same for the token scan |
| Cursors.FindAtLength | crates/protocol/src/trezor_debug.rs:491-530 | what the scan does with any length behind well-formed fields and any bytes after it: overflow, skip, return, or read a second length |
| Cursors.FindOverflowsAtLengthIff | crates/protocol/src/trezor_debug.rs:491-530 | for a length past the data, overflow exactly when cursor plus length reaches 2^64; a truncated match followed by more bytes has a second length, compared the same way, and where that fits the scan goes on from its end |
| Cursors.TokensOverflowAtLengthIff | crates/protocol/src/trezor_debug.rs:574-633 | for a length past the data the token scan overflows exactly when cursor plus length reaches 2^64, and otherwise returns the texts before it |
| Cursors.UnknownWireEnds | crates/protocol/src/trezor_debug.rs:510-528 | a tag of wire type 3, 4, 6 or 7 behind well-formed fields ends both scans with what they have |
| Cursors.LoneTagEnds | crates/protocol/src/trezor_debug.rs:491-530 | so does a tag with nothing behind it |
| Cursors.OverflowIsReached | crates/protocol/src/trezor_debug.rs:491-571 | eleven bytes on which the scan overflows whatever number is asked for |
| Cursors.WrapsBackIff | crates/protocol/src/trezor_debug.rs:516-520 | without overflow checks the cursor falls behind the length it has read exactly where the checked addition overflows |
| Cursors.UncheckedScanNeverEnds | crates/protocol/src/trezor_debug.rs:491-530 | for every other field number there is a length with which such a scan returns to the start of the data after every turn |
| Fields.FailureMessageAgrees | crates/protocol/src/trezor_debug.rs:491-571 | on every input the failure text is the string in field 2 when extraction finds one, and otherwise one of the two fixed texts |
| Fields.PublicKeyPayload | crates/protocol/src/trezor_debug.rs:244-250 | the GetPublicKey payload is the encoding of its list of fields, for every path |
| Fields.PublicKeyRequestFields | crates/protocol/src/trezor_debug.rs:244-250 | the request is one field 1 for each path component, in order, and then field 4 with the seven bytes of "Bitcoin" |
| Fields.PublicKeyCoin | crates/protocol/src/trezor_debug.rs:244-250 | field 4 of that payload reads back as "Bitcoin", for every path |
| Fields.LoadDevicePayload | crates/protocol/src/trezor_debug.rs:262-272 | the LoadDevice payload is the encoding of its list of fields |
| Fields.LoadDeviceFields | crates/protocol/src/trezor_debug.rs:262-272 | the mnemonic reads back from field 1 and the label from field 6 exactly when it is not empty |
| Framing.FrameMessage | crates/protocol/src/trezor_debug.rs:380-414 | filling 64-byte buffers by offset gives the specified packets |
| Framing.PacketCount | crates/protocol/src/trezor_debug.rs:380-414 | one packet, and one more for each 63 bytes or part of them past the first 55 |
| Framing.FirstPacketBytes | crates/protocol/src/trezor_debug.rs:380-414 | every byte of the first packet: magic, type and length high byte first, payload, zeros |
| Framing.FrameRoundTrip | crates/protocol/src/trezor_debug.rs:137-174 | receiving framed packets gives back type and payload and leaves exactly what follows them |
| Framing.FrameRoundTripIff | crates/protocol/src/trezor_debug.rs:380-414 | that holds exactly when the payload is shorter than 2^32 bytes |
| Framing.StreamRoundTrip | crates/protocol/src/trezor_debug.rs:137-174 | any list of framed messages sent back to back is received as that list, whatever the payloads contain, and the datagrams behind them are left |
| Framing.ReceivesFewest | crates/protocol/src/trezor_debug.rs:137-174 | on any datagrams a receive succeeds on the first k exactly when they are a first packet and the fewest continuations that complete its length; the payload is the joined bodies cut to that length |
| Framing.BadStart | crates/protocol/src/trezor_debug.rs:137-149 | a receive refuses its first datagram exactly when it is shorter than nine bytes or does not start with 0x3F 0x23 0x23 |
| Framing.ReceiveBreaksOff | crates/protocol/src/trezor_debug.rs:151-170 | behind good continuations that are not enough, a receive times out if nothing more comes and ends on an empty datagram, or where it is checked on one without 0x3F, leaving what follows |
| Framing.LaxFollowsStrict | crates/protocol/src/trezor_debug.rs:291-362 | where the checked loop returns a message, the two unchecked loops return it too and consume the same datagrams |
| Framing.FirstPacketDecodes | crates/protocol/src/trezor.rs:99-138 | packet 0 of any message decodes to its type and length |
| Framing.LaterPacketsDecode | crates/protocol/src/trezor.rs:99-138 | a later packet is a continuation exactly when its two first data bytes are not both 0x23 |
| Framing.DecoderCases | crates/protocol/src/trezor.rs:99-138 | for all bytes, which of its four answers the decoder gives, and what counts as a continuation |
| Wire.UdpSocket.ReceiveMessage | crates/protocol/src/trezor_debug.rs:137-174 | the loop returns what the receive specification gives and consumes the same datagrams, errors included |
| Wire.UdpSocket.SendAll | crates/protocol/src/trezor_debug.rs:117-126 | packets are handed over in order up to the first failing send |
| Wire.HandedUpToFailure | crates/protocol/src/trezor_debug.rs:117-126 | what is handed over is a prefix that ends with the first packet whose send fails, or all |
| Wire.PressesAndAcks | crates/protocol/src/trezor_debug.rs:94-99 | a press is message 100 with field 1 set to 0, 1 or 2, the one that answers a ButtonRequest is 1, and an ack is message 27 without payload |
| Wire.Requests | crates/protocol/src/trezor_debug.rs:75-92 | the layout request is message 101 with field 3 set to 0, the public key request message 11 |
| Wire.LayoutRefused | crates/protocol/src/trezor_debug.rs:75-92 | an answer is refused with its type exactly when it is no message 102 |
| Wire.TrezorDebugLink.PressButton | crates/protocol/src/trezor_debug.rs:94-99 | one packet with the button's code is sent |
| Wire.TrezorDebugLink.GetLayout | crates/protocol/src/trezor_debug.rs:75-92 | the request is sent, one message is received, and its tokens are the result |
| Wire.TrezorWireClient.RecvWithConfirm | crates/protocol/src/trezor_debug.rs:285-336 | verdict, acks, debug presses and datagrams left are those of the dialogue specification on every datagram queue and every pattern of failing sends |
| Wire.ConfirmsEach | crates/protocol/src/trezor_debug.rs:285-336 | against k leading ButtonRequests and a budget: k acks if it suffices, else the budget's acks and an error |
| Wire.ConfirmDialogue | crates/protocol/src/trezor_debug.rs:285-336 | up to nine ButtonRequests the next message decides the verdict and nothing after it is consumed; from ten on it gives up after exactly ten acks |
| Wire.ReplyIffNoFailure | crates/protocol/src/trezor_debug.rs:285-336 | behind at most nine ButtonRequests another message is returned as a reply exactly when its type is not 3 |
| Wire.FailureEndsDialogue | crates/protocol/src/trezor_debug.rs:328-331 | a Failure of any fields ends the dialogue as a failure with its first field-2 text, "(invalid utf8)" if that is not UTF-8, "(unknown error)" if there is none |
| Wire.FailedAckEnds | crates/protocol/src/trezor_debug.rs:311-324 | an ack that cannot be sent ends the dialogue with the acks before it and leaves what follows |
| Wire.NoAnswerEnds | crates/protocol/src/trezor_debug.rs:289-311 | a receive that fails behind at most nine ButtonRequests ends the dialogue with its error |
| Wire.TrezorWireClient.SendAndRecv | crates/protocol/src/trezor_debug.rs:338-367 | the request goes out and the unchecked receive decides the reply |
| Wire.TrezorWireClient.GetPublicKey | crates/protocol/src/trezor_debug.rs:239-260 | for every path and queue: what is handed over when the request fails part way, and otherwise request, acks, debug presses, verdict and the datagrams left |
| Wire.PublicKeyExchange | crates/protocol/src/trezor_debug.rs:239-260 | the device receives the request whole, through up to nine ButtonRequests the client receives the reply whole, and the xpub read from a well-formed reply is its first field-2 string |
| Wire.LayoutExchange | crates/protocol/src/trezor_debug.rs:75-92 | the layout is the list of texts the device put under field 13 |
| Layout.ParsedLayout.ExtractFromValue | crates/protocol/src/trezor_debug.rs:670-785 | for every JSON tree the mutating extractor leaves what a pure preorder traversal collects, added behind what was there |
| Layout.TitleIsFirstCandidate | crates/protocol/src/trezor_debug.rs:670-697 | an empty title becomes the first non-empty candidate in preorder; a title that is set never changes |
| Layout.ScreenInOrder | crates/protocol/src/trezor_debug.rs:670-785 | the listing of any object is what it says itself, then its content, page and inner part, then the items of its items and of its pages, each wholly before the next |
| Layout.TitleOfScreen | crates/protocol/src/trezor_debug.rs:675-703 | an empty title becomes the non-empty text under title, else subtitle, else label, else component |
| Layout.ButtonsOfScreen | crates/protocol/src/trezor_debug.rs:705-724 | the buttons are the non-empty texts of left, middle and right in this order, plain or in an object, and none if buttons is no object |
| Layout.LinesOfScreen | crates/protocol/src/trezor_debug.rs:726-768 | the lines are the paragraphs, then description, text and value, then the notification in brackets |
| Layout.ParagraphLine | crates/protocol/src/trezor_debug.rs:727-743 | a paragraph of words without blanks adds one line, and cutting it at its blanks gives back the words |
| Layout.WordsAreTexts | crates/protocol/src/trezor_debug.rs:729-734 | the words of a paragraph are the texts of its list in order: others are passed over, none is lost |
| Layout.AfterAppend | crates/protocol/src/trezor_debug.rs:740-785 | extracting from two groups of nodes in turn is extracting from both in order |
| Layout.ParseLayoutTokens | crates/protocol/src/trezor_debug.rs:649-667 | the joined tokens are parsed and extracted from; unparsable text falls back to the tokens as lines, no text to an empty layout |
| Layout.TokensAreJoined | crates/protocol/src/trezor_debug.rs:649-653 | the text parsed is all tokens, one behind the other |
| ControlFrames.ByteStream.ReadFrame | crates/control/src/lib.rs:374-390 | outcome and bytes consumed on every stream |
| ControlFrames.ByteStream.WriteFrame | crates/control/src/lib.rs:356-369 | one frame is appended, nothing if the message is over the limit, and the part the stream took if it fails on the way |
| ControlFrames.FramesRoundTrip | crates/control/src/lib.rs:356-390 | any messages within the limit are read back in order, then what follows decides |
| ControlFrames.CutFrame | crates/control/src/lib.rs:374-390 | after whole frames, a stream cut within the four length bytes ends as closed, one cut within the body is an error |
| ControlFrames.FrameBytes | crates/control/src/lib.rs:356-369 | a frame is the length of its body in four bytes, high byte first, and the body |
| Relay.RunConserves | crates/bridge/src/generic.rs:120-274 | in every state of every interleaving nothing is lost, duplicated or reordered in either direction |
| Relay.HostReportsArriveInOrder | crates/bridge/src/generic.rs:251-274 | the log is a prefix of the polled reports, the bytes written are a prefix of the stripped log, and all of it whenever Task B waits |
| Relay.PrefixedReportsArrive | crates/bridge/src/generic.rs:259-263 | reports delivered behind a report-ID byte reach the emulator exactly, even those that start with zero themselves |
| Relay.EmulatorBlocksArriveInOrder | crates/bridge/src/generic.rs:217-249 | report i given to UHID is the i-th block of report_size bytes the emulator sent |
| Relay.BlockIsDelivered | crates/bridge/src/generic.rs:139-249 | while thread and Task A live, once the emulator has sent the rest of a block, in any pieces, there is a continuation without more from either side that logs it and gives it to UHID behind all that was waiting |
| Relay.ReportIsDelivered | crates/bridge/src/generic.rs:146-274 | while thread and Task B live, a report UHID has can be polled and it and all before it written to the emulator, stripped, without more from either side |
| Relay.TaskBFollowsThread | crates/bridge/src/generic.rs:251-274 | when the thread is gone Task B can still write all it was handed, and then ends having dropped nothing |
| Relay.FailuresEnd | crates/bridge/src/generic.rs:139-163 | a failed UHID write or poll, or a report nobody receives, ends the thread; a failed read ends Task A and lowers the flag; a failed write ends Task B |
| Relay.StopIsSeen | crates/bridge/src/generic.rs:128-136 | stop can come at any time; a stopped thread that comes to its check exits |
| Relay.CountersAccountForTraffic | crates/hwwctl/src/daemon/spawn.rs:265-297 | once the drain has taken the log, its four counters are the blocks read whole and their bytes, and the reports polled and not waiting or dropped and their bytes |
| Relay.RunningTellsTaskA | crates/bridge/src/generic.rs:232-238 | until stop the bridge counts as running exactly as long as Task A reads, in every interleaving |
| Relay.RunningMayBeHalfDead | crates/bridge/src/generic.rs:264-267 | a run in which a failed write has ended Task B and the bridge still counts as running |
| Relay.NothingWrittenWithoutTaskB | crates/bridge/src/generic.rs:251-274 | once Task B has ended no continuation writes to the emulator |
| Relay.StoppedRunEnds | crates/bridge/src/generic.rs:475-489 | after stop every continuation has at most as many steps as a measure of the state it was stopped in, and polls UHID at most once more |
| Relay.StuckIffFinished | crates/bridge/src/generic.rs:120-163 | a stopped relay can take no step exactly when the thread and both tasks have ended and stop has returned |
| LogDrain.HexTokenCount | crates/bridge/src/lib.rs:123-135 | the hex text has one whitespace-separated token a byte, none for empty data |
| LogDrain.HexRoundTrip | crates/bridge/src/lib.rs:123-135 | the data can be read back from the hex text |
| LogDrain.CountersOfReports | crates/hwwctl/src/daemon/spawn.rs:265-297 | the counters taken from texts are the numbers of reports and bytes of each direction, modulo 2^64 |
| LogDrain.Drain.Capture | crates/hwwctl/src/daemon/spawn.rs:265-297 | one turn keeps the ring the last 500 of the whole history and the counters its totals, in terms of the history and of the state before |
| LogDrain.Drain.DrainAll | crates/hwwctl/src/daemon/spawn.rs:265-297 | so does draining any channel |
| LogDrain.PushBounded | crates/emulators/src/generic.rs:354-360 | evicting the front when full and appending leaves the last entries |
| LogDrain.LastOfPush | crates/hwwctl/src/daemon/spawn.rs:289-293 | pushing onto the suffix of a history gives the suffix of the longer history |
| LogDrain.CollectLogs | crates/hwwctl/src/daemon/instance.rs:114-163 | the loop gives the selected buffers sorted by time, cut to the tail asked for |
| LogDrain.EmulatorLogIsItsLines | crates/hwwctl/src/daemon/instance.rs:117-134 | asking for the emulator gives all its lines in order, dated by the call, and nothing else |
| LogDrain.BridgeLogIsItsRing | crates/hwwctl/src/daemon/instance.rs:136-153 | asking for the bridge gives the entries of its ring by time, each once, with ">>" or "<<" for its direction, and nothing else; a ring in time order is given as it stands |
| LogDrain.TailIsSuffix | crates/hwwctl/src/daemon/instance.rs:155-160 | a tail of n is the last n entries of the whole log, or all of it |
| LogDrain.MillisAreWhole | crates/hwwctl/src/daemon/instance.rs:139-143 | times are whole milliseconds since the start |
| LogDrain.SortSorts | crates/hwwctl/src/daemon/instance.rs:153-153 | the result is in time order and a permutation of what was selected |
| LogDrain.SortKeepsSource | crates/hwwctl/src/daemon/instance.rs:153-153 | sorting does to one source what it does when the other is not there |
| LogDrain.CollectedKeepsOrder | crates/hwwctl/src/daemon/instance.rs:114-163 | the unified log is a sorted permutation in which each source is exactly its own buffer in its own order |
| LogDrain.EmulatorLinesStandTogether | crates/hwwctl/src/daemon/instance.rs:114-163 | the whole unified log for every input: the emulator's lines, dated by the call, stand together behind exactly the bridge entries of an earlier millisecond |
| LogDrain.BridgeEntriesStayPut | crates/hwwctl/src/daemon/instance.rs:133-153 | a bridge log in time order is not rearranged around them |
| LogDrain.LinesAreNotSpread | crates/hwwctl/src/daemon/instance.rs:119-132 | an input on which two lines get the same time |
| LogDrain.RingIsMonotone | crates/hwwctl/src/daemon/spawn.rs:284-293 | the ring is in time order under a clock that never runs backwards |
| Emulator.GenericEmulator.Start | crates/emulators/src/generic.rs:379-504 | every exit with its status, its process and what it releases; success without a process exactly after a failed spawn |
| Emulator.StartAfterFailedSpawn | crates/emulators/src/generic.rs:379-435 | a failed spawn followed by a start that reports success and starts nothing |
| Emulator.GenericEmulator.Stop | crates/emulators/src/generic.rs:506-527 | the process is released and the status is Stopped, whatever it was |
| Emulator.GenericEmulator.Drop | crates/emulators/src/generic.rs:541-551 | dropping the value releases its process |
| Emulator.GenericEmulator.PushLine | crates/emulators/src/generic.rs:354-360 | the buffer holds the last 500 lines |
| Bridge.GenericBridge.Start | crates/bridge/src/generic.rs:168-274 | every exit with the flag, the device and the tasks; a failed connect leaves the flag up and the device held |
| Bridge.GenericBridge.Stop | crates/bridge/src/generic.rs:475-489 | every device held is released |
| Bridge.GenericBridge.Drop | crates/bridge/src/generic.rs:102-107 | so it is when the bridge is dropped with its senders |
| Resources.OwnedAfterRelease | crates/hwwctl/src/daemon/registry.rs:187-211 | taking an entry away with what it holds leaves exactly the other entries' resources live |
| Resources.OwnedAfterAcquire | crates/hwwctl/src/daemon/spawn.rs:321-343 | adding an entry with fresh resources keeps live equal to owned |
| Daemon.Registry.StopInstance | crates/hwwctl/src/daemon/registry.rs:187-211 | the entry is gone, exactly its process and its device are no longer live, and every other entry keeps what it holds and shows |
| Daemon.Registry.StartBitbox02 | crates/hwwctl/src/daemon/spawn.rs:84-344 | the reply is that of the first failing step; every failing way out leaves slots and live resources as they were; success files one instance with a new process and a new device and releases exactly what its id held before |
| Daemon.Registry.Insert | crates/hwwctl/src/daemon/spawn.rs:341-343 | an id that comes up twice replaces the old instance and releases exactly what it held; the other entries stay |
| Daemon.Registry.Start | crates/hwwctl/src/daemon/spawn.rs:50-79 | only BitBox02 is started, and every entry the start does not concern keeps what it holds and shows |
| Daemon.Registry.Shutdown | crates/hwwctl/src/daemon/registry.rs:172-182 | no instance is left and nothing is live |
| Daemon.Registry.Logs | crates/hwwctl/src/daemon/registry.rs:152-161 | the sorted and cut log of the instance, InstanceNotFound exactly for an unknown id |
| Daemon.Registry.Handle | crates/hwwctl/src/daemon/registry.rs:129-184 | one command moves slots and live resources as specified, is answered with what the world before it shows, and itself leaves every entry it does not concern as it was |
| Daemon.Registry.RunLoop | crates/hwwctl/src/daemon/registry.rs:126-185 | for every list of commands, output lines and bridge messages in any order: the worlds it goes through follow the events one by one, in each what is live is what is owned, each command gets one reply, and entries no command concerns keep process, device and summary |
| Daemon.Registry.Say | crates/emulators/src/generic.rs:435-453 | a line a reader task pushes changes the lines of its instance, kept to the last 500, and nothing else |
| Daemon.Registry.Cross | crates/hwwctl/src/daemon/spawn.rs:265-297 | a message the drain captures changes ring and counters of its instance and nothing else |
| Commands.RepliesTellTraffic | crates/hwwctl/src/daemon/registry.rs:152-171 | in every run a counter reply is the counters of all messages since the instance was started, and a log reply is the unified log of its last 500 lines and last 500 messages since then |
| Commands.StatsReplyCountsReports | crates/hwwctl/src/daemon/registry.rs:162-171 | said of the reports: the reply is how many crossed the bridge each way since the start, and their bytes, modulo 2^64 |
| Commands.StatusListsWhatStands | crates/hwwctl/src/daemon/registry.rs:137-151 | in every run from an empty registry, a summary is listed exactly when the last event that decided about some id was a start answered with that summary |
| Commands.OneInstanceOrNotFound | crates/hwwctl/src/daemon/registry.rs:137-171 | Status, Logs and BridgeStats of an id are answered for it exactly if such a start stands, with that summary, and InstanceNotFound otherwise |
| Commands.PlainReplies | crates/hwwctl/src/daemon/registry.rs:132-182 | a stop is acknowledged whatever the id, a shutdown is done, and nothing but a command is answered |
| Commands.StartAnswers | crates/hwwctl/src/daemon/spawn.rs:84-344 | each error code exactly when its step is the first to fail, and the id, serial, port and hidraw of a summary |
| Commands.SinceHoldsFiveHundred | crates/hwwctl/src/daemon/instance.rs:17-20 | the buffers hold the last 500 lines and the last 500 messages since the start |
| Commands.TrafficTells | crates/hwwctl/src/daemon/spawn.rs:249-297 | while no command concerns an instance, what it shows is told by its own traffic alone, whatever other instances and commands do |
| Commands.TrafficCommutes | crates/hwwctl/src/daemon/registry.rs:126-185 | traffic of an instance gives the same before and after a command that does not concern it |
| Commands.TrafficIsForgotten | crates/hwwctl/src/daemon/registry.rs:126-185 | traffic of an instance before a command that ends or replaces it leaves no trace |
| Commands.SoundAfterMove | crates/hwwctl/src/daemon/registry.rs:126-211 | whatever a command does as specified, live stays equal to owned, each resource with one owner |
| Commands.MoveOfOne | crates/hwwctl/src/daemon/registry.rs:126-211 | a command itself changes nothing an instance it does not concern holds or shows; what a concerned one held is no longer live |
| Commands.UnconcernedKeepsAll | crates/hwwctl/src/daemon/registry.rs:126-185 | over a whole run, an instance no command concerns keeps its process, its device and its summary |
| Commands.RunOfView | crates/hwwctl/src/daemon/registry.rs:126-185 | what can be seen after any number of the events of a run is what those events, commands and traffic, say and nothing else |
| Commands.LiveIffListed | crates/hwwctl/src/daemon/registry.rs:126-211 | in every world of a run a process, and a device, is live exactly when an instance is listed |
| Commands.SerialsUnique | crates/hwwctl/src/daemon/spawn.rs:121-124 | no two entries share a serial |
| Commands.DistinctSerials | crates/hwwctl/src/daemon/spawn.rs:121-124 | serials tell instances apart exactly as ids do |
| Commands.LastWordDecides | crates/hwwctl/src/daemon/registry.rs:126-185 | the last command that concerns an id decides, whatever came before: listed exactly if it was a successful start, and then showing the last 500 lines, the last 500 messages and the counters of all messages since |
| Commands.StaysUnlisted | crates/hwwctl/src/daemon/registry.rs:126-185 | an id that is not listed and that no command concerns does not come to be listed, whatever traffic there is |

## Left out
- Operating system: sockets, processes, signals, `/dev/uhid`, files and HTTP are outcomes or queues; a held process that dies by itself still counts as held until it is released.
- Builds without overflow checks: an addition that leaves usize is the outcome `Overflow`; what such a build does instead is followed only for the cursor of the string scanner.
- `serde_json`: JSON values are a datatype, and control messages go through a pair of functions of which one undoes the other.
- Relay tasks in their source form: thread and tasks are steps of one relation and not loops, so that every interleaving is covered; how tokio schedules them is not modelled, and an aborted task may take a bounded number of further steps.
- Relay over Unix stream and datagram sockets: these branches reconnect and can lose a report, and their tasks are not aborted by `stop`, so conservation and termination do not carry over.
- `TrezorBridge`, the hidraw scan, asset names, uevent lines, wallet tables, HID descriptors and command-line output.
- `swipe`, `input_text`, `ping`, `get_features`: one message each, through operations that are modelled.
- `message_type_name` and the hex copy of `decode_packet`: constant tables. The message names in crates/protocol/src/trezor.rs and the message ids in crates/protocol/src/trezor_debug.rs are separate tables.
- The two arms of `start_bitbox02` for a status other than Running after a successful start: with the probe skipped neither can be reached.
- Readiness probing: whether the transport became reachable is one answer of the environment.
- Order of the instances in a status reply: the source iterates a hash map, the model replies with a set.
- Turns of the drain task are single steps: a snapshot that the source takes between the two counter updates of one message, or between them and the ring, is not modelled.
- Traffic of an instance before its start has returned is taken as arriving right after the start: nothing can ask for it earlier.
- Uniqueness of `random_suffix`: not assumed; a repeated id replaces the older instance, which is released.
- Profile directories under `/tmp`: the daemon creates and never removes them.
- Exit of the daemon's main loop after shutdown: it depends on notification timing.
- LogDrain.CollectedKeepsOrder: assumes an uptime below 2^64 milliseconds, past which the cast of a log time wraps.
- LogDrain.SortSorts: the library's stable sort is modelled by insertion.
