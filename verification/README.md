# A verified model of the TCP to UART bridge

The bridge makes a UART on an ESP32 appear as a pseudo-terminal on a Linux host. A daemon task per
device reads the terminal, frames what it reads and keeps a TCP connection to the firmware alive; the
firmware's three tasks move frames between the socket and the UART over two bounded queues and an
eventfd. This project models both ends, the two wire formats and the link between them, and proves
what holds over every run, however steps interleave and wherever the link fails.

Run `dafny verify dfyconfig.toml` in this directory to check everything (Dafny 4.11).

## How the model is laid out

| files | what they model |
|---|---|
| `Bytes`, `Buffers`, `Streams`, `Subsequences`, `Utf8` | bytes and widths, `BytesMut` and cursors, the laws of incremental decoders and of `Framed`, order-preserving selection, well-formed UTF-8 (section 4 of RFC 3629) |
| `DeviceCodec`, `FrameReader` | the device protocol as the daemon and as the firmware read it |
| `ControlCodec`, `ControlCodecRun` | the control protocol between command-line tool and daemon: as functions, and as the buffer-updating code proved equal to them |
| `WireFormat` | the bytes of both protocols written out, and exactly which buffers are malformed |
| `UartLine`, `UartRx`, `Termios` | applying line settings, chunking UART input, watching terminal settings |
| `Firmware`, `FirmwareEffects`, `FirmwareTasks`, `FirmwareFlush`, `FirmwareRuns` | the firmware as an interleaving state machine; what it makes of each frame; its tasks' loops over the queues, the eventfd and the UART they share, whose effect is proved to be that machine's; what schedules can bring about, and the runs that go wrong |
| `ConnProtocol`, `ConnEvents`, `ConnectionTask`, `Backoff` | the daemon's connection task: its state machine, what each event makes of it, the objects whose in-place steps are proved to be that machine, its reconnect delays |
| `Bridge`, `BridgeLinks`, `BridgeWire`, `BridgeFlow`, `BridgeTokens`, `BridgeRuns`, `BridgeLoss`, `BridgeSession`, `BridgeServe`, `BridgeStale`, `BridgeStuck`, `BridgeLine`, `BridgeEnds` | daemon task, any number of TCP sessions and firmware composed into one system, and its end-to-end theorems |
| `Registry`, `DaemonLoop`, `DaemonEntries`, `DaemonRuns`, `DaemonAnswers` | the daemon's list of connections and its responses, its event loop interleaved with the connection tasks, where entries come from and whom requests ask, how entries leave, and which answers can be sent |

A machine is a deterministic step function over labelled actions together with the predicate saying
when an action is possible; a run is a sequence of actions, and the theorems quantify over all of
them. What the real code gets from its surroundings (bytes, failures, whose turn it is) is in the
labels. Objects the source updates in place are classes whose methods are proved against the step
functions. Fields such as `pushed`, `out`, `h`, `tag` or `from` are bookkeeping no decision looks at.

## What the model assumes of its surroundings

- A FreeRTOS queue is a bounded first-in-first-out queue; an eventfd is a number that writing adds to and reading resets.
- TCP delivers, per session, a prefix of the bytes accepted, in order, cut off where either side gives up; the firmware serves sessions in the order they were opened.
- A `send` that fails, or is dropped half way, has put a strict prefix of its frame on the wire.
- A `send` of the firmware that does not fail has taken all the bytes it was given; the code at server/main/tcp.c:83-88 does not look at a short count.
- `uart_read_bytes` without waiting returns at least one byte when some are buffered.
- `readv` fills no more than the 255 bytes of the daemon's terminal buffer.
- The `termios` masks are those of Linux; the table from speed codes to bit rates is an arbitrary function.
- The path of a terminal has at most 255 bytes.
- The firmware is built with any choice of its reset and flow-control options.

## Where the code and what is said about it differ

The model follows the code in each case.

- The comment at server/main/uart.c:127-133 says `uart_rx_task` never blocks on the queue, and the one at server/main/uart.c:212-217 that `uart_tx_task` never backs up `tcp_task`. The code blocks without limit at server/main/uart.c:121 and server/main/uart.c:196. `FirmwareRuns.CircularWaitIsReachable` gives a run after which `tcp_task` and `uart_tx_task` wait for each other for ever, and `Firmware.StuckTogetherIffCircularWait` says exactly when they do. `BridgeStuck.ShippedEndsCanWedge` does it with the daemon as the only client.
- A failed send can leave queued messages that nothing will announce: `Firmware.WakeupLostIffSendFailsUnnoticed` is the exact condition, `FirmwareRuns.FailedSendCanStrandMessages` a run.
- The daemon's decoder ignores the announced length of kinds 2 to 4, the firmware's reader obeys it: `FrameReader.ReadersAgreeIffLengthRight`, `DeviceCodec.EncodeInvertsDecodeIffLengthRight`, and `FrameReader.ReadersCanDisagree` for four bytes they read differently.
- A control message whose text is too long fails to encode after its type byte is written, and a listing of 65536 or more entries is written with a truncated count: `ControlCodec.RequestRoundTripsIffFits`, `ControlCodec.ResponseRoundTripsIffFits`, with `ControlCodec.LongNameIsRefused` and `ControlCodec.LongListingIsLost` as instances.
- A control response queued in an earlier session can be taken for the answer to a later request: `BridgeStale.StaleAnswerIsReachable`. Which request one answer belongs to is decided by the control messages on the way, `BridgeSession.AnswerIsTheAskersIff`. Whether a session can ever see a wrong or unsolicited answer is decided when the firmware accepts it, by whether the firmware holds a control message then: `BridgeServe.SessionGoesWrongIff`, in both directions.
- What is retained when the task is told to stop is lost, and nothing else is: `ConnProtocol.ShutdownLosesTheRetained`.
- A configuration that is lost is never sent again, and the terminal's initial settings are never sent: `BridgeLine.LostConfigurationStaysLost` gives a run, `BridgeLine.LineIsLastHandled` says what the line is at any time, and `BridgeLine.QuietLineIsCurrent` that with nothing lost and nothing on the way it is what was last asked for.
- A refusal repeats the name asked for, so a name that could be read can make a response too long to send, on which the client's handler gives up (daemon/src/main.rs:112-115): `DaemonAnswers.AnswerReachesClientIff` is the exact condition, `DaemonAnswers.UnanswerableRequest` an instance.
- A farewell carries only a name, so a late one can end a newer connection: `DaemonRuns.LateFarewellHitsNewerEntry`. `DaemonRuns.FarewellHitsItsOwnIff` says exactly when it does not, and `DaemonRuns.AddedEntryIsSafe` when it never will.
- The event loop awaits replies inline, so it can wait for a task that waits for the loop: `DaemonRuns.StuckIsReachable`, exactly characterised by `DaemonRuns.NeverAnsweredIffStuck`.

## Model

| member | source | states |
|---|---|---|
| `Streams.StrictPrefixAsksForMore` | common/src/msg.rs:137-151 | for any lawful decoder, no strict prefix of an item yields an item or an error |
| `Streams.DrainInTwo` | common/src/msg.rs:137-214 | draining a buffer, then its leftover with more bytes, is draining it all: same messages, same error, same leftover |
| `Streams.LeftoverAsksForMore` | common/src/msg.rs:149-151 | what an error-free drain leaves is an unfinished message |
| `Streams.DrainRecovers` | common/src/msg.rs:98-214 | a stream of encoded messages and an unfinished tail drains to exactly those messages and that tail |
| `Streams.ChunkingDoesNotMatter` | daemon/src/tcp_bridge.rs:54-76 | however a stream is cut into chunks, append-then-drain gives the messages, the error outcome and the leftover of decoding it whole |
| `Streams.FeedAccounts` | daemon/src/tcp_bridge.rs:54-76 | one more chunk keeps the reader where decoding everything received so far would put it; after an error bytes stay unread |
| `Streams.Framed.Read` | daemon/src/tcp_bridge.rs:62-75 | the framed transport's loop: one chunk yields what draining buffer and chunk yields, and nothing after an error |
| `Streams.Framed.ReadAll` | daemon/src/tcp_bridge.rs:54-76 | over a whole session the loop yields the messages, verdict and leftover of the concatenated chunks |
| `Buffers.Cursor.TryGetU32` | common/src/msg.rs:160-162 | four big-endian bytes are consumed if there are that many, and otherwise nothing is |
| `Buffers.Cursor.TryTake` | common/src/ctl.rs:273-276 | the asked-for bytes are consumed if they are all there, and otherwise nothing is |
| `Bytes.BE32OfValue` | common/src/msg.rs:114 | big-endian bytes are determined by their value, so re-encoding what was read restores them |
| `Utf8.Utf8IffPoints` | common/src/ctl.rs:278-280 | a byte sequence is a text if and only if it is the encoding of a sequence of code points that are not surrogates, by the arithmetic of section 3 of RFC 3629 |
| `Utf8.TextIsItsPoints` | common/src/ctl.rs:278-280 | the code points read off a text encode to that text |
| `Utf8.PointsOfText` | common/src/ctl.rs:278-280 | every sequence of code points encodes to a text, off which exactly those are read |
| `Utf8.PointDecodes` | common/src/ctl.rs:278-280 | the encoding of a code point is one character, recognised whatever follows it |
| `Utf8.PointEncodes` | common/src/ctl.rs:278-280 | a character is the shortest encoding of its code point, never of a surrogate or beyond 0x10FFFF |
| `DeviceCodec.RequestOf` | common/src/msg.rs:37-48 | accepts exactly the code of the one request, and returns the request with that code |
| `DeviceCodec.ResponseOf` | common/src/msg.rs:49-61 | accepts exactly the two response codes, and returns the response with that code |
| `DeviceCodec.FromBytesTruncatesIffTooLong` | common/src/msg.rs:83-91 | the conversion pads with zeros, and keeps every byte if and only if there are at most 255 |
| `DeviceCodec.DecodeIsLawful` | common/src/msg.rs:137-214 | the decoder uses at least one byte and no more than it has, and never revises a verdict when more bytes come |
| `DeviceCodec.DecodeInvertsEncode` | common/src/msg.rs:98-214 | decoding an encoded message followed by anything uses exactly its bytes and gives its payload; it gives the message itself if and only if that was zero-padded |
| `DeviceCodec.DecodeRecovers` | common/src/msg.rs:98-214 | the same as a law usable on streams: every zero-padded message is recovered, whatever follows |
| `DeviceCodec.StrictPrefixOfEncodeAsksForMore` | common/src/msg.rs:140-151 | every strict prefix of an encoded message is unfinished, never an error |
| `DeviceCodec.EncodeInvertsDecodeIffLengthRight` | common/src/msg.rs:149-211 | what the decoder consumed is the encoding of what it returned, and as long as announced, if and only if the kind is 1 or the announced length is the kind's own |
| `DeviceCodec.LeftoverIsBounded` | common/src/msg.rs:149-151 | at most 256 bytes stay buffered after an error-free drain |
| `DeviceCodec.LeftoverBoundIsReached` | common/src/msg.rs:149-151 | the bound of 256 bytes is tight |
| `DeviceCodec.DeviceStreamsAreUnsegmented` | common/src/msg.rs:133-215 | segmentation independence of the device protocol, with the bounded leftover |
| `DeviceCodec.Codec.EncodeInto` | common/src/msg.rs:98-130 | the encoder appends exactly the wire form to the buffer |
| `DeviceCodec.Codec.DecodeFrom` | common/src/msg.rs:137-214 | the cursor-moving decoder does what the pure one says, consumes what it used, and leaves the buffer alone when it asks for more or fails |
| `WireFormat.DeviceLayout` | common/src/msg.rs:98-130 | every message's bytes written out: kind, length and fields in their order, with the literal codes of requests and responses |
| `WireFormat.DeviceMalformedIff` | common/src/msg.rs:149-207 | a buffer is malformed if and only if the announced length is there and the kind is none of 1 to 4, the flow flag is neither 0 nor 1, or the code is none of those known |
| `WireFormat.NumbersAreBigEndian` | common/src/msg.rs:114 | numbers go out digit by digit, highest first |
| `FrameReader.ReadFrameIsLawful` | server/main/tcp.c:34-45 | the firmware's reader obeys the same decoder laws |
| `FrameReader.ReadFrameInvertsFrameBytes` | server/main/tcp.c:34-45 | reading header and body of any frame gives that frame and consumes its bytes, whatever follows |
| `FrameReader.FrameBytesInvertsReadFrame` | server/main/tcp.c:34-45 | what the reader consumed is exactly the frame it returned |
| `FrameReader.StrictPrefixOfFrameAsksForMore` | server/main/tcp.c:34-45 | no partial frame is ever taken for a frame |
| `FrameReader.EncodeIsFrameBytes` | common/src/msg.rs:98-130 | what the daemon's encoder writes is a frame in the firmware's layout |
| `FrameReader.ReaderAgreesWithEncoder` | server/main/tcp.c:34-45 | on every concatenation of encoded messages and an unfinished tail the firmware reads the same kinds, bodies and boundaries |
| `FrameReader.ReadersAgreeIffLengthRight` | server/main/tcp.c:40 | both readers consume the same bytes and see the same frame if and only if the announced length is right |
| `FrameReader.ReadersCanDisagree` | server/main/tcp.c:40 | four bytes that the daemon reads as a three-byte reset request and the firmware as a four-byte frame |
| `FrameReader.ConfigFieldsAgree` | server/main/message.h:24-30 | the packed struct read by the firmware holds the fields the daemon encoded, rate in network order |
| `FrameReader.Socket.Recv` | server/main/tcp.c:18-19 | `recv` takes some of the bytes still to come, none only at the end |
| `FrameReader.ReadAll` | server/main/tcp.c:15-32 | the loop fills the first `size` bytes with the next `size` of the stream and touches no others, and fails if and only if the stream ends first |
| `FrameReader.ReadMsg` | server/main/tcp.c:34-45 | one frame is read and exactly its bytes consumed, or the session is over and no frame is reported |
| `FrameReader.ReadSession` | server/main/tcp.c:65-75 | reading until failure gives exactly the frames the stream drains to |
| `ControlCodec.DecodeRequestIsLawful` | common/src/ctl.rs:89-137 | the request decoder obeys the decoder laws |
| `ControlCodec.DecodeResponseIsLawful` | common/src/ctl.rs:177-251 | the response decoder, nested listing loop included, obeys the decoder laws |
| `ControlCodec.StrAtStable` | common/src/ctl.rs:267-281 | a text that was read, or found ill-formed, reads the same with more bytes behind it |
| `ControlCodec.StrDecodes` | common/src/ctl.rs:254-281 | an encoded text decodes to itself at any position |
| `ControlCodec.StrEncodes` | common/src/ctl.rs:254-281 | a decoded text encodes to exactly the bytes it was read from |
| `ControlCodec.InfosDecode` | common/src/ctl.rs:154-163 | encoded entries decode to themselves, all of them and in order |
| `ControlCodec.InfosEncode` | common/src/ctl.rs:197-229 | decoded entries encode to exactly the bytes they were read from |
| `ControlCodec.InfosEncodeIffFit` | common/src/ctl.rs:156-162 | the entries of a listing encode if and only if each text has at most 255 bytes |
| `ControlCodec.RequestDecodes` | common/src/ctl.rs:61-138 | whatever begins with a fully encoded request decodes to it, using exactly its bytes |
| `ControlCodec.DecodedRequestEncodes` | common/src/ctl.rs:61-138 | whenever a request is decoded from n bytes, encoding it gives exactly those n bytes |
| `ControlCodec.ResponseDecodes` | common/src/ctl.rs:140-252 | whatever begins with a fully encoded response of at most 65535 entries decodes to it, using exactly its bytes |
| `ControlCodec.DecodedResponseEncodes` | common/src/ctl.rs:140-252 | whenever a response is decoded from n bytes, encoding it gives exactly those n bytes |
| `ControlCodec.RequestRoundTripsIffFits` | common/src/ctl.rs:64-137 | decode after encode is the identity, with any trailing bytes, if and only if the name has at most 255 bytes; otherwise encoding fails with just the type byte written |
| `ControlCodec.ResponseRoundTripsIffFits` | common/src/ctl.rs:143-251 | the same for responses, where the texts and the number of entries have to fit; says exactly which misfits encode without an error |
| `ControlCodec.LongNameIsRefused` | common/src/ctl.rs:256-261 | a removal with a name of 256 letters fails to encode, with its type byte written |
| `ControlCodec.LongListingIsLost` | common/src/ctl.rs:155 | a listing of 65536 entries encodes without an error and decodes as an empty listing |
| `ControlCodec.StrictPrefixOfRequestAsksForMore` | common/src/ctl.rs:89-137 | strict prefixes of encoded requests are unfinished, never an error |
| `ControlCodec.StrictPrefixOfResponseAsksForMore` | common/src/ctl.rs:177-251 | strict prefixes of encoded responses are unfinished, never an error |
| `ControlCodec.ControlStreamsAreUnsegmented` | common/src/ctl.rs:85-252 | segmentation independence of both control decoders |
| `WireFormat.RequestLayout` | common/src/ctl.rs:61-86 | every request's bytes written out: type 1, 2, 3 or 4 and its fields, texts behind their length |
| `WireFormat.ResponseLayout` | common/src/ctl.rs:143-170 | every response's bytes written out: type 1, 2, 3, 4 or 255, a listing as its count and its entries |
| `WireFormat.EntryLayout` | common/src/ctl.rs:156-162 | an entry's bytes written out: name, address, port, path, flag |
| `WireFormat.RequestMalformedIff` | common/src/ctl.rs:96-130 | a buffer is a malformed request if and only if its type is unknown, or its text is all there and not UTF-8 |
| `WireFormat.EntryMalformedIff` | common/src/ctl.rs:198-220 | an entry is malformed if and only if its name, or its path after a good name, is all there and not UTF-8, or the flag after both is neither 0 nor 1 |
| `WireFormat.ResponseMalformedIff` | common/src/ctl.rs:177-244 | a buffer is a malformed response if and only if its type is unknown, its text is all there and not UTF-8, or encoded entries, fewer than announced, lead to a malformed one |
| `ControlCodecRun.EncodeStrInto` | common/src/ctl.rs:254-265 | appends the text's wire form, or fails and appends nothing |
| `ControlCodecRun.EncodeRequestInto` | common/src/ctl.rs:64-82 | appends what the pure encoder says, also when it stops half way |
| `ControlCodecRun.EncodeInfosInto` | common/src/ctl.rs:156-162 | the loop over entries appends what the pure encoder says, up to the entry it stops at |
| `ControlCodecRun.EncodeResponseInto` | common/src/ctl.rs:143-170 | appends what the pure encoder says, also when it stops half way |
| `ControlCodecRun.DecodeStrFrom` | common/src/ctl.rs:267-281 | the cursor moves past the text exactly when one is read |
| `ControlCodecRun.DecodeListFrom` | common/src/ctl.rs:196-230 | the counted loop returns the entries, asks for more or fails as the pure decoder does |
| `ControlCodecRun.DecodeRequestFrom` | common/src/ctl.rs:89-137 | does what the pure decoder says and leaves the buffer alone unless it returns a request |
| `ControlCodecRun.DecodeResponseFrom` | common/src/ctl.rs:177-251 | does what the pure decoder says and leaves the buffer alone unless it returns a response |
| `UartLine.AppliedIffInRange` | server/main/uart.c:31-91 | the format the UART ends up with is the requested one, and the rate is taken, if and only if no switch falls into its error default |
| `UartLine.EachFieldAlone` | server/main/uart.c:31-91 | each setting follows its own field when that is in range, and otherwise stays as it was, whatever the other fields are; flow control follows its flag only where it is compiled in |
| `UartLine.Uart.ApplyConfig` | server/main/uart.c:31-91 | applies each setting in turn, leaving alone those out of range |
| `UartRx.ForwardBuffered` | server/main/uart.c:182-208 | with bursts arriving in between, the queued chunks have 1 to 255 bytes, and together with what is still to come are the UART's bytes in order; the driver's buffer is empty at the end |
| `UartRx.UartPort.ReadBytes` | server/main/uart.c:193 | takes between one and the asked-for number of buffered bytes off the front |
| `Termios.UnreportedIsInvisible` | daemon/src/async_pty.rs:261-292 | settings that count as unchanged are rendered the same |
| `Termios.RenderIsLegal` | daemon/src/async_pty.rs:205-239 | every reported change has 5 to 8 data bits, 1 or 2 stop bits and parity 0 to 2, and the default of 0 data bits is unreachable |
| `Termios.ReportedChangeIsApplied` | server/main/uart.c:31-91 | encoding a reported change, reading the struct and applying it leaves the UART with that rate and format |
| `Termios.BitsReachTheLine` | daemon/src/async_pty.rs:205-239 | from the terminal's flag word to the UART: word length by bits 0x30, two stop bits exactly with 0x40, odd parity exactly with 0x100 and 0x200, even exactly with 0x100 alone, flow control by bit 31 where it is compiled in |
| `Termios.ChangedIff` | daemon/src/async_pty.rs:261-292 | a change is reported if and only if the speed or one of the flag bits 0x80000370 differs |
| `Termios.ResultByControlByte` | daemon/src/async_pty.rs:93-125 | what a packet gives is decided by its control byte: data, as much as there is room for, exactly at 0; with bit 0x40 the settings seen with `EXTPROC` set, unless they do not differ; otherwise the control byte, or an error |
| `Termios.ReportsAreNeverStale` | daemon/src/async_pty.rs:78-134 | over any packets, the last change reported, or the initial settings if none was, renders the settings last observed; and every report is legal |
| `Termios.AsyncPty.Handle` | daemon/src/async_pty.rs:93-125 | one packet: data, a change, a control byte or nothing, with the remembered settings updated exactly on a change and no data lost |
| `Termios.AsyncPty.Read` | daemon/src/async_pty.rs:78-134 | the loop skips exactly the packets that report nothing, fills the buffer with the bytes returned, and keeps the bytes still to be read |
| `Firmware.NotificationStep` | server/main/tcp.c:52-96 | every step keeps the queue bounds, the pending notice of a pass under way, the notice of a full queue, and the pending wakeup while no send has failed |
| `Firmware.FullQueueIsAlwaysNoticed` | server/main/tcp.c:77-94 | in every reachable state, failed sends included, a full queue to the client has the eventfd set, a producer about to set it, or the consumer about to receive |
| `Firmware.NoLostWakeup` | server/main/tcp.c:52-94 | while no send has failed, `tcp_task` waiting in `select` over queued messages has the eventfd readable or a producer about to write it, also after sessions that ended in a failed read |
| `Firmware.WakeupLostIffSendFailsUnnoticed` | server/main/tcp.c:79-92 | a step loses the wakeup if and only if it is a failed send that leaves messages queued with the eventfd at 0 and no producer about to write it |
| `Firmware.StrandedUntilNextPush` | server/main/tcp.c:77-94 | messages so stranded stay queued untouched, over any steps and sessions, until the next push, which wakes the consumer |
| `Firmware.StuckTogetherIffCircularWait` | server/main/tcp.c:72 | `tcp_task` blocked on its queue and `uart_tx_task` without a step if and only if both queues are full and `uart_tx_task` is pushing a reply |
| `Firmware.CircularWaitIsForever` | server/main/uart.c:121 | no run leads out of the circular wait; queues, handled messages and what was sent never change again |
| `Firmware.NoControlNoCircularWait` | server/main/uart.c:240-247 | in runs without control messages a blocked `tcp_task` always has `uart_tx_task` enabled |
| `Firmware.InboundStep` | server/main/uart.c:221-248 | every step keeps received = handled, in hand, queued, in `tcp_task`'s hand, in that order |
| `Firmware.OutboundStep` | server/main/tcp.c:77-94 | every step keeps pushed = taken out, being sent, queued, in order, with at most one failed send per session |
| `Firmware.UartInOrderStep` | server/main/uart.c:182-208 | every step keeps the UART's bytes equal to those of the chunks pushed and in hand |
| `Firmware.RepliesInOrderStep` | server/main/uart.c:93-125 | every step keeps the replies pushed and in hand equal to those due for the control messages handled, in order |
| `Firmware.NothingIsLostButFailedSends` | server/main/tcp.c:65-94 | in every reachable state: conservation in both directions, each producer's order, chunks of 1 to 255 bytes, the effects on the UART, and at most one popped message lost per session |
| `Firmware.InvOverRuns` | server/main/main.c:38-41 | all of these invariants hold after every run from start-up, with queues of 16 and 128 |
| `FirmwareEffects.HandlingByKind` | server/main/uart.c:225-247 | only a frame of kind 1 is written to the UART, only one of kind 2 with 8 bytes touches the line, exactly one of kind 3 with one byte is answered, with 1 for a reset that is compiled in and 2 for anything else |
| `FirmwareEffects.OnlyHandlingActs` | server/main/uart.c:218-249 | no other step writes to the UART, touches the line or makes an answer |
| `FirmwareEffects.PassServesBoth` | server/main/tcp.c:65-80 | when client and eventfd are both ready, one pass reads and queues the message and then starts to drain |
| `FirmwareEffects.SessionEndsIff` | server/main/tcp.c:59-96 | a session begins with an accept and ends exactly with the first failing select, read or send |
| `FirmwareEffects.DrainGoesOn` | server/main/tcp.c:82-93 | a drain takes the oldest message each time, and goes on until the queue is found empty or a send fails |
| `FirmwareEffects.UartGetsDataOnly` | server/main/uart.c:225-226 | in every reachable state the UART has been written exactly the payloads of the data messages among the frames handled, as the daemon's decoder reads them |
| `FirmwareEffects.RepliesAreRight` | server/main/uart.c:93-125 | in every reachable state the replies pushed and in hand answer the commands handled one for one: status 1 if and only if the command is 1 and reset is compiled in, status 2 otherwise |
| `FirmwareEffects.SuccessNeedsReset` | server/main/uart.c:99-119 | a success among the replies implies that reset is compiled in; with only resets asked, it is success exactly then |
| `FirmwareRuns.CircularWaitIsReachable` | server/main/uart.c:121 | a run from start-up into a circular wait that no continuation leaves |
| `FirmwareRuns.FailedSendCanStrandMessages` | server/main/tcp.c:79-92 | a run in which a failed send leaves the next session asleep over queued data |
| `FirmwareFlush.Flush` | server/main/tcp.c:77-94 | from any state waiting in `select`, some schedule without a failing call empties both queues and `uart_tx_task`, waking `tcp_task` by new UART data where it has to |
| `FirmwareTasks.Queue.Send` | server/main/tcp.c:72 | appends the message to the queue |
| `FirmwareTasks.Queue.Receive` | server/main/uart.c:223 | takes the oldest message off the queue |
| `FirmwareTasks.EventFd.Read` | server/main/tcp.c:79 | hands the count over and resets it |
| `FirmwareTasks.Board.Selected` | server/main/tcp.c:59-77 | `select` returns with the eventfd readable exactly when it holds a count |
| `FirmwareTasks.Board.QueueForUart` | server/main/tcp.c:72-77 | the message goes into the queue to the UART, and the pass goes on to the eventfd if `select` found it readable; the objects are then where the machine is |
| `FirmwareTasks.Board.ReceiveForClient` | server/main/tcp.c:82 | a message is received from the queue, or the queue is found empty and the loop left; the objects are then where the machine is |
| `FirmwareTasks.Board.SentToClient` | server/main/tcp.c:83-92 | a whole send keeps draining, a failed one ends the session; the objects are then where the machine is |
| `FirmwareTasks.Board.QueueChunk` | server/main/uart.c:196 | the chunk goes into the queue to the client; the objects are then where the machine is |
| `FirmwareTasks.Board.Effect` | server/main/uart.c:225-247 | data is written to the UART, a configuration of the right length applied setting by setting, a control message of the right length answered; anything else is ignored |
| `FirmwareTasks.Board.HandleForUart` | server/main/uart.c:225-247 | after the dispatch UART, line settings and saved reply are where the machine is |
| `FirmwareTasks.Board.EnabledIsCan` | server/main/main.c:38-57 | what the objects allow a waiting task to do is what the machine allows |
| `FirmwareTasks.Board.Await` | server/main/uart.c:223 | at a waiting call the other tasks move queues, eventfd and UART as the machine says until the call can return, and none of them moves the caller |
| `FirmwareTasks.Board.DrainToClient` | server/main/tcp.c:82-93 | the drain loop receives and sends until the queue is found empty or a send fails; queues, sends and the rest are as the machine has them |
| `FirmwareTasks.Board.HandleClient` | server/main/tcp.c:47-96 | a session's loop over `select`, read, queue, eventfd and drain, early returns included, leaves the objects as the machine has them and ends waiting for the next client |
| `FirmwareTasks.Board.TcpTask` | server/main/tcp.c:127-149 | under every schedule of the other tasks, the code over queues, eventfd and socket leaves them as the machine has them |
| `FirmwareTasks.Board.UartRxTask` | server/main/uart.c:176-209 | under every schedule of the other tasks, building, queueing and announcing chunks leaves the objects as the machine has them |
| `FirmwareTasks.Board.UartTxTask` | server/main/uart.c:218-249 | under every schedule of the other tasks, taking, dispatching and answering leaves queues, eventfd, line and UART as the machine has them |
| `FirmwareTasks.Board.ObjectsAreSafe` | server/main/main.c:34-60 | at any point of any schedule from power-up the real queues are within their depths, a full one is announced, while no send has failed queued messages are announced, and the UART has been written a beginning of the data received |
| `FirmwareTasks.PlayRun` | server/main/main.c:61-70 | conversely, every run of the machine is what queues, eventfd, line, UART and sends of a freshly started board go through under some schedule |
| `ConnProtocol.LinkStep` | daemon/src/connection.rs:143-383 | every step keeps the stream present in Connected and Resyncing and absent in Reconnecting, and never takes the guards for a missing or present one |
| `ConnProtocol.OutboundStep` | daemon/src/connection.rs:163-200 | every step keeps: read from the terminal = accepted by the transport, then the retained message, in order |
| `ConnProtocol.AnswersStep` | daemon/src/connection.rs:251-284 | every step keeps: requests asked = requests answered plus the one waiting, as multisets |
| `ConnProtocol.ExchangeStep` | daemon/src/connection.rs:226-232 | every step keeps: a device's answer is only given to a request that was sent earlier in the same session and is still open |
| `ConnProtocol.WritesStep` | daemon/src/connection.rs:219-224 | every step keeps: written to the terminal = the payloads decoded, in order, short only by shutting down |
| `ConnProtocol.NothingReadIsLost` | daemon/src/connection.rs:163-200 | after every run: read = accepted then retained, in order; once shutting down at most one message is missing |
| `ConnProtocol.ShutdownLosesTheRetained` | daemon/src/connection.rs:299-302 | entering shutdown loses exactly what was retained at that moment |
| `ConnProtocol.EveryRequestIsAnswered` | daemon/src/connection.rs:385-418 | a task that has finished has answered every request it received exactly once |
| `ConnProtocol.OnlyTheWaitingRequestIsOpen` | daemon/src/connection.rs:253-264 | at any moment only the waiting request is unanswered, none waits while reconnecting or resyncing, and every device answer was earned in its own session |
| `ConnProtocol.InboundIsRefined` | daemon/src/tcp_bridge.rs:37-81 | the bridge's defensive branches are never taken, and what the terminal gets is the concatenated payloads decoded |
| `ConnProtocol.InvOverRuns` | daemon/src/connection.rs:413-418 | all of these hold after every run of the task |
| `ConnEvents.StopsIff` | daemon/src/connection.rs:158-222 | the task goes to shutting down if and only if it is told to, its requests are closed, or, while connected, reading or writing the terminal fails |
| `ConnEvents.StopCanCome` | daemon/src/connection.rs:351-364 | in every live state both ways of being told to stop are possible |
| `ConnEvents.OnlyTheEndIsLeft` | daemon/src/connection.rs:385-418 | from shutting down the one possible step refuses the waiting request, sends the farewell and ends the task |
| `ConnEvents.StoppedStays` | daemon/src/connection.rs:413-418 | a run in which the task was told to stop, its requests were closed or its terminal failed ends shutting down, whatever came after |
| `ConnEvents.OneFarewell` | daemon/src/connection.rs:385-392 | over any run the daemon has been told once if the task is done, and not at all before |
| `ConnEvents.LosesLinkIff` | daemon/src/connection.rs:163-274 | a live task with a link goes offline if and only if the link is found lost or a send that is made fails |
| `ConnEvents.RegainsLink` | daemon/src/connection.rs:320-338 | only a successful connect leads on from reconnecting, to sending what is retained, or else to connected; anything else leaves it waiting with what it retains |
| `ConnEvents.Resyncs` | daemon/src/connection.rs:368-380 | sending what was retained leads to connected |
| `ConnEvents.StaysConnected` | daemon/src/connection.rs:156-286 | a connected task stays so through any event that neither stops it nor loses the link |
| `ConnEvents.StatusIsTrue` | daemon/src/connection.rs:277-311 | a status request is answered true exactly when the task is connected, and changes nothing |
| `ConnEvents.RefusedAtOnce` | daemon/src/connection.rs:251-308 | a control request while another waits or without a connection is refused at once and changes nothing |
| `ConnEvents.RepliesByEvent` | daemon/src/connection.rs:226-311 | each reply by its cause: a status from a status request, a device's answer from its own response, to the one that waits, and a refusal from neither |
| `ConnEvents.ReadsByEvent` | daemon/src/connection.rs:163-201 | bytes read become one data message of exactly those bytes, a settings change one configuration with exactly its fields, and nothing else is read |
| `ConnectionTask.TcpBridge.Send` | daemon/src/tcp_bridge.rs:37-52 | sends the whole frame, or drops the stream, or refuses without one |
| `ConnectionTask.TcpBridge.Next` | daemon/src/tcp_bridge.rs:54-76 | takes the next message off the receive buffer, or drops the stream |
| `ConnectionTask.TcpBridge.TryConnect` | daemon/src/tcp_bridge.rs:78-95 | keeps a stream it has, and otherwise starts one with empty buffers if the connect succeeds |
| `ConnectionTask.ConnectionTask.FailPendingCtl` | daemon/src/connection.rs:402-406 | refuses the waiting request, if there is one, exactly once |
| `ConnectionTask.ConnectionTask.ForwardMessage` | daemon/src/connection.rs:163-201 | a message from the terminal is sent, or retained with the link dropped and the waiting request refused |
| `ConnectionTask.ConnectionTask.HandleIncoming` | daemon/src/connection.rs:215-237 | data goes to the terminal, a response to the waiting request, anything else nowhere |
| `ConnectionTask.ConnectionTask.HandleLinkLost` | daemon/src/connection.rs:239-248 | the link is dropped, the waiting request refused, the delay started over |
| `ConnectionTask.ConnectionTask.HandleHwRequest` | daemon/src/connection.rs:251-275 | refused while another waits; otherwise sent and waiting, or refused with the link dropped |
| `ConnectionTask.ConnectionTask.StepConnected` | daemon/src/connection.rs:156-286 | the in-place step is the machine's, and the buffers agree with the history |
| `ConnectionTask.ConnectionTask.StepReconnecting` | daemon/src/connection.rs:288-338 | the in-place step is the machine's, and the buffers agree with the history |
| `ConnectionTask.ConnectionTask.StepResyncing` | daemon/src/connection.rs:340-383 | the in-place step is the machine's, a send abandoned half way included |
| `ConnectionTask.ConnectionTask.Step` | daemon/src/connection.rs:143-154 | whatever branch is ready, state, link, waiting request and history change as in the machine; told to stop, the task is shutting down after it, a shutting-down task exits with one farewell, and a status answer is whether it was connected |
| `ConnectionTask.ConnectionTask.FinishUp` | daemon/src/connection.rs:385-392 | the waiting request is refused and the daemon told, once |
| `ConnectionTask.ConnectionTask.Receive` | daemon/src/tcp_bridge.rs:62 | bytes may arrive in any pieces: what the session has decoded stays what its bytes decode to |
| `ConnectionTask.ConnectionTask.DecodedInOrder` | daemon/src/tcp_bridge.rs:54-76 | a session's decoded messages are the beginning of what its own bytes decode to, so two sessions never mix |
| `ConnectionTask.LifeIsARun` | daemon/src/connection.rs:143-154 | the events a task takes of what is offered make up a run of the machine, so every law over runs holds of it |
| `ConnectionTask.ConnectionTask.ConnTask` | daemon/src/connection.rs:413-418 | over whatever bytes and events are offered, the task takes exactly those possible when their turn comes; state, history and receive buffer follow, the events taken are a run of the machine, and one farewell is sent, at the end |
| `Backoff.DelayDoubles` | daemon/src/connection.rs:398-400 | the next delay after k failures is the delay after k + 1 |
| `Backoff.TotalClosedForm` | daemon/src/connection.rs:398-410 | the first k delays add up to 100 * (2^k - 1) ms up to six, and 6300 + 5000 * (k - 6) ms beyond |
| `Backoff.TrafficKeepsDeadline` | daemon/src/connection.rs:304-316 | a request that comes in while waiting moves neither deadline nor state |
| `Backoff.BackoffOverRuns` | daemon/src/connection.rs:288-337 | however requests and failed connects interleave, after k failures the delay is min(100 * 2^k, 5000) ms, the retained message is kept, and the next connect is due after the first k + 1 delays |
| `Backoff.LosingTheLinkStartsOver` | daemon/src/connection.rs:371-377 | every way of losing the link starts again at the initial delay |
| `BridgeLinks.EffectsOfEvents` | daemon/src/connection.rs:143-383 | what an event of the task does to the sessions is one of: send, torn send, open, take, nothing |
| `BridgeLinks.AttemptsOfEvents` | daemon/src/connection.rs:163-200 | a message is tried for the first time exactly when it is read or asked for; resyncing is not a first try |
| `BridgeLinks.StateChangeOfEvents` | daemon/src/connection.rs:320-380 | a torn first send retains its message, a resync sends the retained one before anything else, opening a session keeps it |
| `BridgeWire.WireStepDaemon` | daemon/src/tcp_bridge.rs:37-52 | every step of the daemon keeps each session's bytes equal to whole frames and at most one torn one, at the end of a session it has left |
| `BridgeWire.WireStepDevice` | server/main/tcp.c:65-94 | every step of the firmware keeps the same, for the bytes it reads and those it sends |
| `BridgeWire.ReadIsOldest` | server/main/tcp.c:34-45 | the frame the firmware reads is the oldest whole one on its session, never a torn one |
| `BridgeWire.DownRead` | common/src/msg.rs:137-214 | what the daemon decodes from a session's bytes is the oldest whole frame on it, and decoding consumes exactly that |
| `BridgeFlow.UpStepDaemon` | daemon/src/connection.rs:340-380 | every step of the daemon keeps: enqueued, on the wire, retained is an order-preserving selection of what was tried |
| `BridgeFlow.UpStepDevice` | server/main/tcp.c:65-75 | every step of the firmware keeps the same |
| `BridgeFlow.DownStepDaemon` | daemon/src/connection.rs:215-237 | every step of the daemon keeps: decoded, on the wire, being sent, queued is an order-preserving selection of what was pushed |
| `BridgeFlow.DownStepDevice` | server/main/tcp.c:77-94 | every step of the firmware keeps the same |
| `BridgeTokens.FirmwareKeepsTokens` | server/main/uart.c:93-125 | inside the firmware a control request and then its response are neither lost nor doubled, whichever step is taken |
| `BridgeTokens.SettledStepDaemon` | daemon/src/connection.rs:226-284 | every step of the daemon within a session keeps: the control messages on the way are exactly the waiting request, or none once the firmware has given the session up |
| `BridgeTokens.SettledStepDevice` | server/main/tcp.c:65-94 | every step of the firmware keeps the same |
| `BridgeTokens.UnservedStepDaemon` | daemon/src/connection.rs:251-264 | every step of the daemon keeps: on a session the firmware has not accepted, the only control message is the waiting request |
| `BridgeTokens.UnservedStepDevice` | server/main/tcp.c:131-143 | every step of the firmware keeps the same |
| `BridgeTokens.TokensOnlyShrink` | server/main/tcp.c:83-92 | giving up a session loses control messages of that session and makes none |
| `BridgeRuns.SysInvOverRuns` | daemon/src/connection.rs:413-418 | the whole system's invariant holds after every run of daemon, sessions and firmware |
| `BridgeRuns.TerminalToUart` | server/main/tcp.c:65-75 | across any disconnects and reconnects, what `tcp_task` reads is an order-preserving, duplicate-free selection of the messages first tried, and the UART gets the data of a prefix of it |
| `BridgeRuns.UartToTerminal` | server/main/uart.c:182-208 | the frames the daemon decodes are an order-preserving, duplicate-free selection of those pushed, which carry the UART's bytes; the terminal gets their data, short only by shutting down |
| `BridgeRuns.NoMalformedFrames` | common/src/msg.rs:201-207 | neither end ever sees an ill-formed frame of the other, torn sends included |
| `BridgeRuns.ConfigurationsAreApplied` | server/main/uart.c:233-239 | every configuration that reaches the firmware has the right length and gives the UART exactly the format asked for |
| `BridgeSession.AnswerIsTheAskersIff` | daemon/src/connection.rs:226-232 | in every reachable state, the response decoded next is the first control message on the way; it is given to the request its own tag names if and only if the first control message on the way is the waiting request, and is unsolicited if and only if none waits |
| `BridgeSession.SettledOverRuns` | daemon/src/connection.rs:251-264 | a session whose control messages on the way are exactly the waiting request stays so over every continuation, whatever either end and the network do |
| `BridgeSession.OneTokenPerRequest` | daemon/src/connection.rs:251-264 | from any such state on, at most one control message is on the way, exactly while a request waits, unless the firmware has given the session up |
| `BridgeSession.AnswersAreTheAskers` | daemon/src/connection.rs:226-232 | from any such state on, no response is unsolicited, and each is given to the request it stems from |
| `BridgeSession.AcceptSettlesIff` | server/main/tcp.c:131-143 | when the firmware accepts the session the daemon is in, the session is of that kind if and only if the firmware holds no control message |
| `BridgeServe.AllArrives` | server/main/tcp.c:52-96 | from a session just accepted, some continuation brings every control message on the way to the daemon's end of it |
| `BridgeServe.SessionGoesWrongIff` | server/main/tcp.c:77-94 | in a session the firmware accepts, some continuation has a response that is unsolicited or given to the wrong asker if and only if the firmware holds a control message when it accepts |
| `BridgeLoss.RetentionOfEvents` | daemon/src/connection.rs:163-380 | a message read or retained is sent or retained, except a control request whose send fails and what is retained when shutting down |
| `BridgeLoss.AccountStep` | server/main/tcp.c:65-94 | every step of either side keeps the books of both directions, charging a loss only to the steps named in `UpLost` and `DownLost` |
| `BridgeLoss.EveryLossHasItsStep` | daemon/src/connection.rs:163-200 | over any run: tried = read by the firmware + on the way + retained + lost, and pushed = decoded + on the way + queued + lost; a run without a losing step loses, repeats and reorders nothing, both ways |
| `BridgeStale.StaleAnswerIsReachable` | daemon/src/connection.rs:226-229 | a run in which the second asker gets the first asker's answer while the device has not seen the second request |
| `BridgeStuck.ShippedEndsCanWedge` | server/main/uart.c:121 | a run of daemon and firmware together into the circular wait, which no continuation leaves, reconnecting included: nothing is read from the client or written to the UART again |
| `BridgeLine.LineIsLastHandled` | server/main/uart.c:233-239 | in every reachable state the UART has the settings of the last configuration handled, or those of start-up if there was none |
| `BridgeLine.QuietLineIsCurrent` | daemon/src/connection.rs:165-175 | after a run without a losing step, with nothing on the wire, retained or unhandled, the UART has the settings of the last configuration the daemon has tried to send, and has been written all the data read |
| `BridgeLine.LineWaitsForNextChange` | daemon/src/connection.rs:320-338 | with no configuration on the way, nothing either end does changes the line, reconnecting included, until another configuration is tried |
| `BridgeLine.LostConfigurationStaysLost` | daemon/src/connection.rs:239-246 | a run that ends connected and at rest with the UART at its start-up settings although others were reported; no continuation mends that without another report |
| `BridgeEnds.EndsOverRuns` | daemon/src/connection.rs:187-188 | over any run what the task has read as data is what the terminal's reads brought, and what the UART task was given is what the UART brought |
| `BridgeEnds.UartGetsWhatIsTyped` | server/main/uart.c:225-226 | in a run that loses nothing on the way up the UART has been written a beginning of the bytes read from the terminal, and all of them once nothing is under way |
| `BridgeEnds.TerminalGetsWhatIsHeard` | daemon/src/connection.rs:219-224 | in a run that loses nothing on the way down the terminal has been written a beginning of the bytes the UART delivered, and all of them once nothing is under way |
| `BridgeEnds.UartShowsLastReport` | server/main/uart.c:233-239 | in a run that loses nothing on the way up, once nothing is under way, the UART has rate, word length, stop bits, parity and flow control of the last change reported, or 115200 8N1 if there was none |
| `BridgeEnds.AnswersTellReset` | server/main/uart.c:99-119 | in every reachable state, whatever was lost, an answer a user got from the device is success if and only if the firmware is built to reset |
| `Registry.Find` | daemon/src/state.rs:18 | the position of the first entry of that name, or the end exactly when there is none |
| `Registry.SwapRemoveKeepsOthers` | daemon/src/state.rs:22 | every other entry is kept, as a multiset |
| `Registry.SwapRemoveFromDistinct` | daemon/src/state.rs:22 | distinct names stay distinct, and exactly the entry of that name is gone |
| `Registry.State.Add` | daemon/src/state.rs:13-15 | appends the connection |
| `Registry.State.Remove` | daemon/src/state.rs:17-25 | removes an entry and stops its task if and only if there is one of that name; with distinct names exactly that one leaves, and its task is the one stopped |
| `Registry.State.Exists` | daemon/src/state.rs:50-52 | whether some entry has that name |
| `Registry.State.List` | daemon/src/state.rs:27-39 | one line per entry, in order, with each task's own answer |
| `Registry.State.SendHardwareCtl` | daemon/src/state.rs:41-48 | asks the first connection of that name, if there is one |
| `Registry.HandleDaemonRequest` | daemon/src/main.rs:126-217 | an addition appends exactly the requested name, address and port with the opened path and the new task, a removal takes out the entry and stops its task, a listing tells every entry with its own status; success exactly when the free name, the entry or the device's answer is there, and a refusal changes nothing |
| `Registry.WhatHandlingDoes` | daemon/src/main.rs:126-217 | the same of every registry and request, in the words of the request |
| `Registry.WhyRefused` | daemon/src/main.rs:131-214 | each refusal, by exactly what brings it about: the name taken, the terminal's failing step, no such name, the device's answer or none |
| `Registry.WordingTellsTheRefusal` | daemon/src/main.rs:131-214 | two refusals have the same text if and only if they are the same refusal, of the same name where the text has one |
| `DaemonLoop.RemovalStep` | daemon/src/state.rs:17-25 | removing a name, whoever asks, unregisters exactly the task of that name and keeps registered = not told to stop |
| `DaemonLoop.AddStep` | daemon/src/main.rs:131-189 | adding registers exactly the new task |
| `DaemonLoop.InvStep` | daemon/src/main.rs:55-85 | every step of loop, clients and tasks keeps the registry's and the event queue's invariant |
| `DaemonLoop.RegistryOverRuns` | daemon/src/main.rs:68-79 | in every reachable state names are distinct, a task still going is registered or told to stop, and an entry whose task has exited has its own farewell queued |
| `DaemonEntries.EntriesWereAsked` | daemon/src/main.rs:131-189 | over any run every entry has the name, address and port of a submitted request, was added when that request was taken, with the path opened for it, and no two entries stem from the same one |
| `DaemonEntries.ListingStarts` | daemon/src/state.rs:27-39 | a listing begins with the first entry's task, or is done at once without entries |
| `DaemonEntries.ListingStep` | daemon/src/state.rs:27-39 | an answer, or that the task is gone, moves the listing to the next entry or ends it after the last; meanwhile no entry comes or goes |
| `DaemonEntries.ListingsAskInOrder` | daemon/src/state.rs:27-39 | in every reachable state a listing waits for the task of some entry, with exactly the entries after it still to ask |
| `DaemonEntries.ResetAsks` | daemon/src/state.rs:41-48 | a reset waits for the task of the one entry of its name, and for nobody exactly when there is none |
| `DaemonRuns.RemovalTakesOne` | daemon/src/state.rs:17-25 | a removal takes one entry of that name, tells its task to stop, and keeps all others as a multiset |
| `DaemonRuns.EntriesLeaveByName` | daemon/src/main.rs:68-79 | an entry only ever leaves by a removal of its name or a farewell in its name |
| `DaemonRuns.FarewellHitsItsOwnIff` | daemon/src/main.rs:74-77 | a farewell spares every entry but its sender's if and only if the sender is still registered or nobody has the name |
| `DaemonRuns.AddedAlone` | daemon/src/main.rs:131-189 | an entry added when every older task of its name is done, farewell taken, starts out protected |
| `DaemonRuns.ProtectedOverRuns` | daemon/src/main.rs:74-77 | a protected entry stays, and stays protected, until a user's removal of its name or its own task's exit |
| `DaemonRuns.AddedEntryIsSafe` | daemon/src/main.rs:131-197 | from start-up: an entry so added leaves only by a user's removal of its name or its own task's exit |
| `DaemonRuns.NeverAnsweredIffStuck` | daemon/src/main.rs:68-79 | the reply the loop awaits can never come if and only if the task asked is waiting for room in a full event queue |
| `DaemonRuns.StuckIsReachable` | daemon/src/main.rs:71 | a run from start-up that leaves the loop waiting for ever |
| `DaemonRuns.LateFarewellHitsNewerEntry` | daemon/src/main.rs:74-77 | a run in which a late farewell ends a newer connection of the same name that nobody removed |
| `DaemonAnswers.RefusalFitsIff` | daemon/src/main.rs:133-214 | each refusal fits a response if and only if the name leaves room for its text: 217, 224, 211 or 199 bytes, and always when no terminal could be opened |
| `DaemonAnswers.DecodedRequestFits` | common/src/ctl.rs:89-137 | a request that could be read has a name of at most 255 bytes |
| `DaemonAnswers.ResponseEncodesIff` | common/src/ctl.rs:143-170 | a response encodes if and only if the request is granted or its name leaves room for the refusal |
| `DaemonAnswers.AllFitStep` | daemon/src/main.rs:55-85 | every step keeps: the entries of the registry fit a listing and the queued requests are ones that could be read |
| `DaemonAnswers.AnswerReachesClientIff` | daemon/src/main.rs:102-115 | in every reachable state the answer to the request taken next encodes if and only if the request is granted or its name leaves room for the refusal |
| `DaemonAnswers.UnanswerableRequest` | daemon/src/main.rs:112-115 | bytes that decode to a removal, queued in a reachable state, whose answer does not encode |

## Left out

- Wi-Fi bring-up, Tailscale start-up, the status LED task and every send to its queue: they do not touch what the bridge carries.
- The command-line tool and the manual test server; `handle_stream` of daemon/src/main.rs appears only as clients that submit requests at any time, and delivering the responses to them is not modelled.
- Opening the pseudo-terminal: it succeeds, or fails at any of its steps.
- Ctrl-C and the end of the event loop.
- `ESP_ERROR_CHECK` aborts of the UART driver, failures of `xQueueCreate`, `socket` and `bind`, and UART events other than data.
- Driving the reset pin: only that a reset is answered is modelled.
- Uninitialised bytes behind a message's length in the firmware's `Message` structs: a queued frame is its kind and its body.
- Fairness and time: liveness is stated as which steps are possible, and the only clock is the one of the reconnect delays.
- The connection task's requests reach it one at a time in any order; its channel of capacity 8 is not a queue of the model.
- Scheduling inside `select!`: any branch that is ready may be taken, and no branch is preferred.
- Terminals on systems other than Linux, where the speed needs no table.
- AddedEntryIsSafe: one direction only, over runs. The converse fails where a user's removal is queued ahead of the older farewell, or where the event loop is stuck; the exact condition for one farewell is `DaemonRuns.FarewellHitsItsOwnIff`.
- ConnTask: an offer of the surroundings that is not possible in the current state is passed over rather than queued.
