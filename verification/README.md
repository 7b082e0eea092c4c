# Verified model of libpict

libpict is a client for the Picture Transfer Protocol (ISO 15740) and its vendor dialects, over raw USB
bulk pipes or over TCP (PTP/IP, CIPA DC-005).  This project models its core in Dafny and proves what that
core is meant to guarantee.

* `Bytes`, `Packets` - the little-endian codecs and the two wire formats, with independent encoders.
* `PacketAccess` - the accessors of src/packet.c as functions of the bytes in the I/O buffer.
* `UsbReceive`, `IpReceive`, `UsbSend` - the receive loops, the write loop and the attempts of a transaction
  as runs against an arbitrary device stream and an arbitrary schedule, and what every run has in common.
* `AnswerIds` - whose answer a transaction accepts when answers are left unread.
* `DeviceModel`, `Runtime` - the device backend and `struct PtpRuntime` as classes: a real array that is
  resized, in-place packet building, the receive and send loops, `ptp_send` and `ptp_send_data` as one
  thread sees them, each proved against the runs above.
* `Engine`, `EngineSafety` - the same code as N threads run it, one step per unprotected flag test, lock,
  flag assignment, chunk written and chunk read, and the invariant of all interleavings; `EngineSilence` -
  when nothing more will ever be written; `EngineOperations` - each operation sends its own command, parses
  only answers that mean success, and returns what its answer's code means; `EngineSolo` - one thread alone
  does what `Runtime` says.
* `AvailList` - the heap list of legal property values and the map that it implements.
* `PtpStrings`, `ObjectInfoData`, `DeviceInfoData`, `PropDescData`, `EosEvents` - the dataset codecs of
  src/data.c, and the event reader that counts in one pass and decodes in another.
* `Operations` - the download loop and the array copy.
* `EndToEnd` - transport and codecs composed.

Backend reads and writes are a schedule: a function from the number of the call to what it would return,
capped by the size asked for and by what the device still has.  The device's bytes are a sequence.  Threads
in `Engine` get their I/O results from the environment's choices.  The tables of src/enums.c and src/conv.c
are a parameter of the event reader.

Where the code and its intent part ways, the code is what is modelled, and the exact condition under which
the intent holds is proved, each with an input at which it does not (condition - input):

* `EngineSilence.FailureIsFinal` - `EngineSilence.CutShortOnTheWire`
* `UsbReceive.UsbChunking` - `UsbReceive.IgnoredThoughComplete`
* `AnswerIds.AcceptsOwnAnswer` - `AnswerIds.AnswersLagBehind`
* `IpReceive.RequestFits` - `IpReceive.ZeroLengthOverruns`
* `IpReceive.IpSound` - `IpReceive.ShortEndPanics`
* `IpReceive.PayloadIsEndBody` - `IpReceive.OverstatedLength`
* `IpReceive.ResponseCovers` - `IpReceive.NoCodeAccepted`
* `PacketAccess.PayloadIff` - `UsbReceive.ShortLengthAccepted`
* `PacketAccess.ParamAfterDataPhase` - `PacketAccess.ParameterIsLost`
* `AvailList.AgreesWithLatest` - `AvailList.StaleValueAccepted`
* `AvailList.OnlyZeroIsForgotten` - `AvailList.ZeroIsForgotten`
* `PtpStrings.CursorsAgree` - `PtpStrings.ReaderSlips`
* `ObjectInfoData.ParserStopsWithPacker` - `ObjectInfoData.LongNameStopsShort`
* `PropDescData.WordBack` - `PropDescData.SignIsLost`
* `PropDescData.RangeWordBack` - `PropDescData.BoundIsLost`
* `Operations.CompleteWhen` - `Operations.NothingFetched`

`dafny verify dfyconfig.toml` checks everything.

## Model

| member | source | states |
|---|---|---|
| Runtime.PtpRuntime.BufferResize | src/lib.c:113-129 | The buffer never shrinks, ends up at least as large as asked for, and keeps every byte it held. |
| Runtime.PtpRuntime.UsbTransfer | src/transport.c:153-165 | One backend read into the growing buffer: it lands inside the buffer, and the buffer then holds the bytes already received followed by exactly the bytes the device gave. |
| Runtime.PtpRuntime.Inspect | src/transport.c:192-231 | The header checks, 32-bit wrap-around included, decide between keep reading, done and broken by the bytes received alone, whatever stale bytes lie beyond them. |
| Runtime.PtpRuntime.UsbReadAllPackets | src/transport.c:148-235 | For every device stream, schedule and length fields: the loop stops, `data[..data_filled_length]` is exactly what was consumed, and outcome, retries left and number of calls are those of the run that `UsbSound` and `UsbChunking` speak about. |
| UsbReceive.DoneIsComplete | src/transport.c:199-230 | A verdict of done implies a RESPONSE header no longer than the bytes received, or a DATA header with a RESPONSE header right behind it that ends with them: no wrap-around of `length + 12` or `data_length + length` can fake one. |
| UsbReceive.VerdictIs | src/transport.c:192-231 | The exact conditions, container by container, for done and for broken: a data container followed by something that is no response, by a response that ends before the bytes do, or by one whose end wraps around. |
| UsbReceive.TooMuchIsAnError | src/transport.c:223-230 | A read within the retry budget that carries the count from below to beyond the end of a well-formed answer with a data phase makes the loop return -5. |
| UsbReceive.UsbReceivedExplained | src/transport.c:149-234 | What the return code of the loop says about the calls it made, exactly: with the retries used up -5 if the last call failed and -10 otherwise; before that 0 for a complete answer and -5 for one that cannot become complete; and no earlier point would have stopped it. |
| UsbReceive.UsbSound | src/transport.c:148-235 | For any bytes and any schedule: success means a complete response in the buffer; at most `response_wait_default` + 1 reads are not positive; COMMAND_IGNORED only after exactly `response_wait_default` earlier ones. |
| UsbReceive.UsbChunking | src/transport.c:153-234 | A well-formed [DATA] RESPONSE stream is received whole if and only if the backend hands it over with fewer than `response_wait_default` empty or failed reads, however it is cut up. |
| UsbReceive.StreamIsWellFormed | src/packet.c:56-80 | Every encoded response, with or without a data phase, is a stream of the kind `UsbChunking` is about. |
| Runtime.PtpRuntime.UsbReceiveAll | src/transport.c:237-252 | Success leaves in the buffer a complete response, whose return code and payload are what the accessors of src/packet.c get from the whole buffer. |
| Runtime.PtpRuntime.IpReadPrefix | src/transport.c:48-60 | The bounded wait for a length prefix: result, calls spent and bytes stored. |
| Runtime.PtpRuntime.IpReadBody | src/transport.c:89-102 | The body loop, which takes the length from the shared buffer every time round, reads exactly the rest of the packet or reports an error, in as many calls as it takes. |
| Runtime.PtpRuntime.IpReadPacket | src/transport.c:44-103 | One packet at offset `of`, whatever its length field: bytes consumed land there in order and nothing else changes; a read that would leave the buffer is found out exactly when the length does not fit; of a packet too short for a type field, the type is partly what the buffer held before. |
| Runtime.PtpRuntime.IpReceiveBulk | src/transport.c:105-146 | For any length fields and any earlier contents of the buffer, the three-packet dance equals the run that `IpSound` and `IpChunking` speak about, including the `data_filled_length` that leaves out the first packet. |
| IpReceive.IpPacketIff | src/transport.c:44-103 | A packet with any length field is accepted if and only if there is room for it, its prefix arrives in one read within the wait budget and its body arrives before a failing read. |
| IpReceive.PacketErrors | src/transport.c:48-102 | Which error it is otherwise: -10 if and only if no read brings a byte of the prefix and the last one fails; -5 for an empty last read, a short prefix or a failing body. |
| IpReceive.RequestFits | src/transport.c:71-90 | The first read of a packet's body lies inside the possibly resized buffer if and only if the length field is at least 4 and its sum with the offset does not wrap around. |
| IpReceive.ZeroLengthOverruns | src/transport.c:71-90 | An input: a length field of 0 makes the receiver ask for 2^32 - 4 bytes. |
| IpReceive.FailuresEnd | src/transport.c:89-102 | The unbounded body loops all end if the connection, each time it is used again, fails sooner or later. |
| IpReceive.IpSound | src/transport.c:105-146 | For any length fields and whatever the buffer held: success leaves RESPONSE alone, or START, END, RESPONSE end to end, if and only if no packet was shorter than its eight-byte header. Then the accessors find the response, the panic in `ptpip_get_response_packet` is out of reach, and the payload pointer leads behind END's header. How long the payload is said to be is another matter: `PayloadIsEndBody`. |
| IpReceive.ShortEndPanics | src/transport.c:118-143 | An input: an END that is only its length field, stored where an earlier answer left the type of END, is accepted; the response then overwrites that type, and no response is found any more: the panic is reached. |
| IpReceive.PayloadIsEndBody | src/packet.c:143-177 | The payload that the accessors delimit is the body of END if and only if the payload length in START, cut down to 32 bits, is the length of that body; nothing compares the two. Of an END too short for a body the payload lies in the response. |
| IpReceive.OverstatedLength | src/packet.c:168-177 | An input: START announces a hundred bytes, END brings none, the answer is accepted, and the payload reaches beyond it. |
| IpReceive.ResponseCovers | src/packet.c:128-198 | In an accepted answer the response code and the transaction ID are there to be read, and the parameter count is not close to 2^30, if and only if the length field of the response covers what they are taken from. |
| IpReceive.NoCodeAccepted | src/transport.c:105-146 | An input: a response of eight bytes is accepted and has no code. |
| IpReceive.LaidOutPrefixed | src/packet.c:92-166 | Bytes behind an accepted answer in the buffer move neither the response nor the payload pointer. |
| IpReceive.IpChunking | src/transport.c:105-146 | An encoded response is received whole if and only if each of its packets arrives. |
| Runtime.PtpRuntime.IpReceiveAll | src/transport.c:237-252 | The PTP/IP branch: the buffer holds exactly the bytes consumed, and after a success in which no packet was shorter than its header the accessors, reading the whole buffer, find response and payload pointer in these bytes. |
| IpReceive.TransportIndependence | src/transport.c:105-235 | Received over USB and over PTP/IP, under any two schedules that deliver it, the same response gives the same return code, transaction ID, parameter count and payload, and without a data phase the same parameters. |
| PacketAccess.UsbStreamCarries | src/packet.c:128-230 | The accessors read back what a USB device encoded. |
| PacketAccess.IpStreamCarries | src/packet.c:92-230 | The accessors read back what a PTP/IP device encoded, through offsets re-derived from the buffer. |
| PacketAccess.ParamAfterDataPhase | src/packet.c:200-215 | After a USB data phase `ptp_get_param` yields the response code instead of the parameter: the transports agree on a parameter if and only if it equals that code. |
| PacketAccess.ParameterIsLost | src/packet.c:200-215 | An input: the parameter 7 is 7 over PTP/IP, and the response code over USB. |
| PacketAccess.UsbOffsets | src/packet.c:128-230 | Where the accessors look in a USB container, by its type number. |
| PacketAccess.CompletePrefix | src/packet.c:128-198 | The accessors' results depend on a complete response alone, not on what lies behind it in the buffer. |
| PacketAccess.CompletePayload | src/packet.c:143-182 | Nor does the payload depend on what lies behind the response. |
| PacketAccess.PayloadIff | src/packet.c:168-198 | The payload of a complete answer lies inside it if and only if the first length field is at least 12; otherwise the length computed from it is close to 4 GiB. Likewise the parameters and the length field of the response, with a count close to 2^30. |
| UsbReceive.ShortLengthAccepted | src/transport.c:192-204 | An input: a RESPONSE header whose length field is below 12 is accepted, with such a payload length. |
| Runtime.PtpRuntime.StoreUsbHeader | src/packet.c:56-80 | The overlapping 32-bit stores at offsets 0, 4, 6 and 8 leave a correct container header. |
| Runtime.PtpRuntime.NewUsbCommand | src/packet.c:68-80 | The buffer begins with the command container of the current transaction. |
| Runtime.PtpRuntime.NewUsbData | src/packet.c:56-66 | The buffer begins with the data container of the current transaction and the payload. |
| Runtime.PtpRuntime.NewIpCommand | src/packet.c:11-33 | The buffer begins with a PTP/IP operation request that carries code, phase, transaction and parameters. |
| Packets.ParseUsbInverts | src/packet.c:56-80 | An independent reader of the byte stream gets back kind, code, ID and body of a container, and what follows it. |
| Packets.SentTrafficDecodes | src/packet.c:56-80 | A device that decodes a command and its data phase gets back code, ID, parameters and payload, and nothing is left over. |
| Packets.ParseIpInverts | src/packet.c:11-33 | An independent reader of a PTP/IP request gets back phase, code, ID and parameters. |
| Packets.UsbExamples | src/packet.c:56-80 | Containers of all three kinds, byte by byte. |
| Packets.IpExamples | src/packet.c:11-33 | PTP/IP packets of four kinds, byte by byte. |
| Runtime.PtpRuntime.SendPacket | src/transport.c:9-42 | Success writes exactly the packet, in requests of at most `max_packet_size`; failure writes a prefix; it succeeds if and only if the schedule accepts all bytes before failing. |
| UsbSend.BusyEnds | src/transport.c:14-41 | The unbounded write loop ends unless the backend goes on returning 0 for ever; it may go on succeeding. |
| UsbSend.TrySucceeds | src/lib.c:176-190 | An attempt succeeds if and only if some call completes its packet, none before it failing, and the receive loop started then succeeds. |
| UsbSend.FindsTheCode | src/lib.c:161-190 | An attempt that succeeds against the encoding of a response takes all of it and finds that response's code. |
| UsbSend.RetriedOnce | src/lib.c:213-221 | A transaction succeeds if and only if its first attempt returns 0, or returns -10 and the only retry, on what that left of the stream, returns 0. |
| UsbReceive.IgnoredThoughComplete | src/transport.c:186-190 | The retry budget is checked before the header: one miss too many and then a complete answer leaves that answer in the buffer and still counts as ignored, so the command is sent again. |
| AnswerIds.AcceptsTheFirst | src/transport.c:192-231 | Whatever the device goes on to send, the receive loop accepts the first complete answer in the stream, and with a data phase nothing beyond it. |
| AnswerIds.AcceptsOwnAnswer | src/packet.c:217-230 | Nothing compares transaction IDs. For a device that answers each command once, in order and with its ID, the accepted answer carries the ID of the command if and only if no answer to an earlier transaction was unread when the command went out. |
| AnswerIds.AnswersLagBehind | src/lib.c:201-234 | A run of two transactions with such a device: the first answer comes two reads late, the retry is answered by it, and the next transaction by the answer to the retry. |
| AnswerIds.StaysInStep | src/lib.c:176-190 | With nothing unread, an answer accepted at the first attempt carries the ID of its command and leaves nothing unread. |
| AnswerIds.StaysBehind | src/lib.c:176-190 | One answer behind, a transaction that accepts an answer with a data phase takes the earlier one and leaves its own unread, whole. |
| AnswerIds.CutAnswerMimics | src/transport.c:186-231 | Why the condition is about whole answers: of an answer whose header was read, the payload may pass for the answer to another transaction. |
| Runtime.PtpRuntime.SendTry | src/lib.c:176-190 | An attempt writes a prefix of its packet, all of it when it is answered or ignored; it returns what `UsbSend.TryRun` does for the schedule, so it succeeds if and only if the packet is accepted and the receive loop then succeeds. |
| Runtime.PtpRuntime.Send | src/lib.c:161-234 | On the wire goes the packet, or it and an identical retry; unless the kill switch stops the call before any transfer, the transaction moves on if and only if the first attempt, or after an ignored first the second, is accepted and answered within its retry budget, and then the result is 0 if and only if the code received is 0x2001, -5 if and only if it is 0xFFFF, -8 otherwise; otherwise the kill switch is set; the lock depth is restored. |
| Runtime.PtpRuntime.OpenSession | src/operations.c:87-100 | The session command, 0x1002 with the session number, carries transaction 0; after it the transaction is 1 if and only if `UsbSend.Transacts` for that command, otherwise 0 with the kill switch set. The result is what the code means, as for `Send`. |
| Runtime.PtpRuntime.SendDataTry | src/lib.c:236-267 | The same as `SendTry` for a command and its data packet. |
| Runtime.PtpRuntime.SendData | src/lib.c:161-313 | As `Send`, for command and data packets together. |
| EngineSafety.StepKeeps | src/lib.c:201-313 | Every step a thread can take, at any of its 28 program points and under any choice of the environment, keeps the shared invariant and the thread's own, and touches only what the mutex allows. |
| EngineSafety.OthersKeep | src/lib.c:131-145 | A step of one thread takes nothing from what any other thread relies on. |
| EngineSafety.WireIsWholeAttempts | src/lib.c:176-313 | In every interleaving of any number of threads the wire is the attempts' bytes one attempt after another, never interleaved. An answered or ignored attempt is whole; a failed one is a prefix, and the last attempt ever if it was a retry or its thread held the mutex around it; an unfinished one is the newest, and its thread owns the mutex. |
| EngineSafety.LocksAreBalanced | src/lib.c:131-145 | The recursive mutex is held exactly as often as each thread's position says; between operations, exactly as often as its caller had locked it. |
| EngineSafety.ParsesWhatItReceived | src/operations.c:148-289 | What an operation that holds the outer lock parses is the bytes received during its own attempt, untouched by other threads: a complete answer, whose code is the return code. That the device meant it for this command is not implied: `AnswerIds`. |
| EngineOperations.SendsItsOwnCommand | src/operations.c:148-389 | In every reachable state the attempt that a thread is making, or is about to parse the answer of, is its own and carries the command of the operation it runs: the caller's for a send or a query, GetPartialObject with the handle, the offset reached and the piece size for a download, CloseSession for a report; and that operation's data phase. |
| EngineOperations.DownloadsInSteps | src/operations.c:361-389 | The offset a download asks for is the sum of the payload lengths of the answers it has parsed, in 32 bits. |
| EngineOperations.ParsesTheNewest | src/operations.c:370-387 | Each time a download parses, it is the complete answer received last; it goes on if and only if that one's payload is not empty and as long as asked for. |
| EngineOperations.ParsesOnSuccess | src/operations.c:154-163 | A query or a download parses if and only if its send returned 0. |
| EngineOperations.ReturnsTheCode | src/lib.c:161-174 | In every interleaving a send that got an answer returns 0 if and only if the code of that answer is 0x2001, -5 if and only if it is 0xFFFF, and -8 otherwise; one that got none returns -5. |
| EngineOperations.ReportEnds | src/error.c:6-29 | A report that has run to its end leaves both kill switches set; it sends CloseSession if and only if it reports no error and no other report was first. |
| EngineOperations.HistoryStays | src/lib.c:176-313 | No step changes an attempt that is over. |
| EngineSafety.TransactionNumbering | src/lib.c:201-234 | The k-th transaction to complete carries ID k; a retry directly follows the ignored attempt, repeats its bytes and is never itself retried. |
| EngineSafety.CounterOrKilled | src/lib.c:213-229 | Between transactions the counter is the number completed; a send that returns without moving it has set the operation kill switch. |
| EngineSafety.ShutdownOnce | src/error.c:6-29 | `io_kill_switch` implies `operation_kill_switch`, and at most one `ptp_report_error` ever reaches its CloseSession. |
| EngineSilence.SilentAfterKill | src/error.c:6-29 | Once `io_kill_switch` is set nothing more is written, whatever every thread goes on to do. |
| EngineSilence.SilentOnceIdle | src/lib.c:201-207 | `operation_kill_switch` with the mutex free already silences the wire for ever. |
| EngineSilence.FinalMeansLast | src/lib.c:213-221 | A failed retry, or an attempt that failed under an outer lock, is the last on the wire, and no schedule adds to it. |
| EngineSilence.FailureIsFinal | src/lib.c:222-226 | A failure is final if and only if operations were switched off already, the attempt was a retry, its thread holds the mutex around it, or no other thread is ready to begin: the mutex is released before the kill switch is set. Not ready are threads that are about to set the switch themselves. |
| EngineSilence.GapIsUsed | src/lib.c:302-305 | In the remaining case a schedule lets an idle thread send its whole command right behind the cut-off one. |
| EngineSilence.CutShortOnTheWire | src/lib.c:222-226 | A run of two threads from the start: five of twelve bytes of one command, then the other's command. |
| EngineSolo.SendsAlone | src/lib.c:201-313 | A thread of the engine that runs alone ends `ptp_send` or `ptp_send_data` as `Runtime.PtpRuntime.Send` and `SendData` say: the counter moves if and only if `UsbSend.Transacts`, otherwise operations are switched off, and the lock depth is restored. |
| EngineSolo.LockedAlone | src/operations.c:148-389 | A thread alone runs a query, or a piece of a download, to its end: its own command is sent, the counter moves if and only if `UsbSend.Transacts`, the lock depth is restored, and a download advances by the payload and goes on if and only if the piece was whole. |
| EngineSolo.ReportsAlone | src/error.c:6-29 | A thread alone runs `ptp_report_error` to its end: both switches set, the lock depth restored, the session closed before if and only if no error is reported and the transaction succeeds. |
| EngineSolo.Starts | src/operations.c:148-389 | What a caller starts is what runs, with its own command and from offset 0. |
| EngineSolo.Attempts | src/lib.c:176-267 | Its attempts return what `UsbSend.TryRun` says, and unless an I/O error ends them they do so at the same time, having taken the same bytes. |
| EngineSolo.ReadsAnswer | src/transport.c:148-235 | Its read steps give `UsbReceive.UsbReceived`. |
| EngineSolo.WritesAll | src/transport.c:9-42 | Its write steps complete the packet with the same call as the write loop, or fail when that does. |
| EngineSafety.RunInv | src/lib.c:131-313 | The invariant holds after every schedule. |
| AvailList.PropAvail.Set | src/lib.c:66-101 | The heap list becomes the one for the announced map: a new code gets a node, or fills a newest one of code 0, a known code gets other bytes but keeps size and count; the chain stays linked with distinct codes. |
| AvailList.PropAvail.Find | src/lib.c:69-72 | The walk along `prev` ends, at the code's node or, for an unknown code, at the end. |
| AvailList.PropAvail.Validate | src/generic.c:6-38 | 0, 1 or 2 exactly as the abstract map and its value list say; code 0 finds the blank node as long as no other code was announced. |
| AvailList.OnlyZeroIsForgotten | src/lib.c:84-101 | An announcement makes the list forget a property if and only if the property has code 0 and the announced code is new. |
| AvailList.ZeroIsForgotten | src/lib.c:84-101 | An input: code 0 announced behind another code is known, and unknown once a third has come. |
| AvailList.SlotHoldsLatestCovering | src/lib.c:74-82 | After any history of codes other than 0, slot i holds what the latest announcement with more than i values put there. |
| AvailList.ValidatedAfter | src/generic.c:6-38 | For every history of codes other than 0: 1 if and only if the code was never announced, 0 if and only if the value is in a slot of the first announcement as last written, 2 otherwise. |
| AvailList.RefinesMap | src/lib.c:66-101 | When a code always comes with the same number of values, the list is a map from codes to their latest values. |
| AvailList.AgreesWithLatest | src/lib.c:74-82 | With another number of values of the same size, since `memb_cnt` stays as it was, the accepted values are the latest list if and only if the stale values beyond a shorter list are in it anyway, or all values beyond the first count of a longer one repeat earlier ones. |
| AvailList.StaleValueAccepted | src/lib.c:74-82 | An input: after 5, 6, 7 and then 9 alone, 6 is still accepted. |
| AvailList.SlotReinterpreted | src/lib.c:74-82 | With another member size, since `memb_size` stays too, a slot is whatever bytes of the new values lie there, completed by old bytes where the new values end inside it, or the old value if none reach it. |
| AvailList.SizesMixedUp | src/lib.c:74-82 | An input: after one 16-bit value and then 5 and 6 in eight bits, neither 5 nor 6 is accepted, but 0x605 is. |
| PtpStrings.ReadString | src/data.c:34-61 | Field and cursor after reading, for any bytes: those of `FieldIs`. |
| PtpStrings.FieldIs | src/data.c:42-58 | Each character taken is stored as '?' above 128, as a space from 1 to 31, and as itself otherwise; as many as counted, but one less than the field holds; terminated only if the last one was zero or there was none; the rest of the field is untouched. |
| PtpStrings.WriteString | src/data.c:98-117 | The buffer receives exactly the encoding of the text and nothing else changes. |
| PtpStrings.ReadsBack | src/data.c:34-61 | A string with room to spare comes back sanitised, and the reader stops where the writer did. |
| PtpStrings.CursorsAgree | src/data.c:45-52 | Reader and writer stay in step if and only if the string is empty or at most field size - 2 and 254 long. |
| PtpStrings.TooLongIsUnterminated | src/data.c:45-58 | A longer string loses its tail, and the last byte of the field stays what it was, so the field may lack a terminator. |
| PtpStrings.ReaderSlips | src/data.c:45-58 | An input: three characters in a field of four leave two bytes unread and the field unterminated. |
| PtpStrings.SanitisedIsPlain | src/data.c:47-48 | What sanitising leaves are characters 32 to 128. |
| PtpStrings.PlainIsSanitised | src/data.c:47-48 | Characters 32 to 128 are not touched, so sanitising twice is sanitising once. |
| ObjectInfoData.ObjectInfo.Pack | src/data.c:451-477 | 0 and an untouched buffer below 1024 bytes of room; otherwise exactly the encoded dataset, at most 440 bytes. |
| ObjectInfoData.ObjectInfo.Parse | src/data.c:405-430 | All fifteen numbers and the four strings, each from the offset that the strings before it determine. |
| ObjectInfoData.FixedReadsBack | src/data.c:408-422 | The fifteen numbers of an encoded dataset are read back, each from its own offset. |
| ObjectInfoData.ParsesBack | src/data.c:405-477 | Parsing what was packed gives the same numbers, the same cursor, and the strings character by character with '?' above 128 and a space for 1 to 31. |
| ObjectInfoData.EncodedParts | src/data.c:405-477 | The order of the strings in the dataset. |
| ObjectInfoData.FieldSizes | src/cl_data.h:52-73 | The field sizes as numbers. |
| ObjectInfoData.SanitisedOnce | src/data.c:405-477 | Plain datasets round-trip unchanged, and a second round trip changes nothing for any dataset. |
| ObjectInfoData.ParserStopsWithPacker | src/data.c:424-427 | The parser stops where the packer did if and only if no string fills its field up to the terminator. |
| ObjectInfoData.LongNameStopsShort | src/data.c:424-427 | An input: a filename of 63 characters makes the parser stop short. |
| DeviceInfoData.ReadUint16Array | src/data.c:81-95 | Panics exactly when the bound check rejects the size or the array outgrows its field; otherwise the codes, their number and the cursor. |
| DeviceInfoData.ArrayReadsBack | src/data.c:81-95 | An encoded array is read back, and the only panic left is one that is too long for its field. |
| DeviceInfoData.DeviceInfo.Parse | src/data.c:504-530 | Panics exactly when one of the five arrays does; otherwise every field is read at the offset that all the variable-length fields before it determine. |
| DeviceInfoData.EncodedIsReadable | src/data.c:504-530 | An encoded DeviceInfo whose arrays fit and whose strings leave a spare byte raises no panic and reads nothing beyond itself. |
| DeviceInfoData.DeviceLaidOut | src/data.c:504-530 | The order of all fields of the dataset. |
| DeviceInfoData.FieldSizes | src/cl_data.h:13-39 | The field sizes as numbers. |
| DeviceInfoData.DeviceInfo.Recovers | src/data.c:504-530 | After parsing it, every field is the encoded one, strings sanitised. |
| PropDescData.SizesAgree | src/data.c:174-301 | The two functions that measure a value agree on every value that lies in memory and has no negative size, well encoded or not. |
| PropDescData.TypeLaws | src/data.c:174-301 | The data types by their numbers: widths, signs, and which are supported. |
| PropDescData.ValueSize | src/data.c:174-301 | An encoded value of any supported type is measured, and copied, at exactly its length. |
| PropDescData.ValuesBack | src/data.c:316-334 | Encoded values one after another are each found where the reader's cursor stands, and the cursor ends behind the last. |
| PropDescData.WordBack | src/data.c:210-229 | Numbers of up to four bytes come back if and only if they are not negative 8-bit ones, whose sign is lost. |
| PropDescData.RangeWordBack | src/data.c:315-320 | Range bounds come back if and only if, besides, they fit an int. |
| PropDescData.SignIsLost | src/data.c:215-217 | An input: -1 in eight bits is read as 255. |
| PropDescData.BoundIsLost | src/data.c:223-224 | An input: 2^31 as an unsigned range bound is read as -2^31. |
| PropDescData.PropDesc.ParseEnumeration | src/data.c:321-334 | Exactly the bytes of the listed values are copied, or -1 at the first value of negative size. |
| PropDescData.PropDesc.Parse | src/data.c:303-347 | Panics exactly for an unknown data type or form; otherwise code, type, both values and the form are those of the dataset. |
| PropDescData.FailureIsNegativeSize | src/data.c:325-329 | An enumeration is given up if and only if one of its values has a negative size. |
| PropDescData.EncodedDescParses | src/data.c:303-347 | Every encoded dataset is readable, raises no panic, and its enumeration is exactly the concatenated encoded values. |
| PropDescData.PropDesc.Recovers | src/data.c:306-311 | Both values come back if and only if they are not negative 8-bit numbers. |
| PropDescData.PropDesc.RecoversRange | src/data.c:316-320 | Each bound of a numeric range comes back if and only if its type does not spoil it and it fits an int. |
| PropDescData.PropDesc.WalkEnumeration | src/data.c:354-397 | The second walk over the copied enumeration, value by value; for arrays and strings it is a panic instead. |
| PropDescData.WalkVisitsTheValues | src/data.c:385-397 | On an encoded enumeration the walk visits every value once and ends exactly at the end of the copy. |
| EosEvents.EventsLength | src/data.c:725-745 | The counting pass counts the records before a record of type 0 or the end. |
| EosEvents.Nth | src/data.c:753-811 | Record k begins at the sum of the first k sizes, with all but k of the records still ahead. |
| EosEvents.CopiedInside | src/data.c:795-801 | `memb_size * count` never exceeds the record's own bytes. |
| EosEvents.PropNext | src/data.c:637-723 | The event of a property change, `PropertyEvent` of its code and words, of which `PropertyLaws` says what it is. |
| EosEvents.PropertyLaws | src/data.c:649-704 | For every property code of the switch, name, value and text of the event: four converted values and what an unlisted one leaves, battery, image format, mirror, mode dial, focus mode, focus; any other code by the name tables. |
| EosEvents.RecordLaws | src/data.c:767-805 | For every record type, what the event takes from which word of the record. |
| EosEvents.ListLaws | src/data.c:786-802 | For a list of values, code, count, size and bytes of the announcement, and when there is none. |
| EosEvents.Decode | src/data.c:767-805 | The event of a record, its name and value from the tables, and the list of legal values after it. |
| EosEvents.EventReader.Next | src/data.c:753-811 | One event per counted record, at the sum of the sizes before it, then -1 for ever; the panic is out of reach. |
| EosEvents.Events | src/data.c:813-825 | As many events as were counted, in order, and the list that all announcements together leave. |
| EosEvents.EventsJson | src/data.c:827-855 | The JSON list holds the events in order with separators between them and nowhere else. |
| EosEvents.JoinedAlternates | src/data.c:834-850 | Events and separators alternate: exactly one separator fewer than events. |
| EosEvents.ListIsItsHistory | src/data.c:789-802 | Reading a stream into an empty list leaves the list of its announcements, so `RefinesMap` applies to it. |
| EosEvents.MessageBack | src/data.c:753-811 | The encoding of any message - property change, transfer request, new object, list of values, notice, unknown - is read as that message, wherever it lies. |
| EosEvents.StreamBack | src/data.c:725-811 | A camera's encoding of any messages, with or without the terminating record, is counted as that many records, and record k is read as message k. |
| EosEvents.EventsAreMeanings | src/data.c:813-825 | The events read from it are what its messages mean, one for one and in order. |
| EosEvents.EncodedValuesAreListed | src/generic.c:14-30 | Of announced numbers of 1, 2 or 4 bytes, exactly these numbers are accepted. |
| Operations.DownloadObject | src/operations.c:361-389 | For any object below 4 GiB, any piece size and any failing request: return code, number of requests, bytes in the file, and whether the file was closed. |
| Operations.LastRequest | src/operations.c:373-387 | A piece is short or empty exactly at request |obj| / max, which is the last of the requests counted. |
| Operations.CompleteWhen | src/operations.c:188-197 | The whole object arrives if and only if max is not 0 and fits 32 bits, or its low 32 bits cover the object at once. |
| Operations.NothingFetched | src/operations.c:361-389 | Inputs: a piece size of 0 fetches nothing of any longer object, one of 2^32 + 1 a single byte. |
| EndToEnd.DataArrives | src/transport.c:105-235 | For every response with a data phase and all schedules that hand it over, after either receive loop the parsers' pointer is at the data and the payload accessors delimit exactly it. |
| EndToEnd.ObjectInfoArrives | src/data.c:405-430 | There an encoded ObjectInfo is parsed into itself, strings sanitised. |
| EndToEnd.DeviceInfoArrives | src/data.c:504-530 | There an encoded DeviceInfo is parsed without panic and into itself, strings sanitised. |
| EndToEnd.PropDescArrives | src/data.c:303-347 | There an encoded property description is parsed without panic, and its values come back up to the sign of 8-bit ones. |
| EndToEnd.EventsArrive | src/data.c:725-825 | There the events of an encoded stream are what its messages mean. |
| Operations.DupUintArray | src/operations.c:11-26 | The copy has the length and the numbers of the payload's array. |
| Operations.DupReadsBack | src/operations.c:11-26 | An encoded array is copied out as that array. |
| Bytes.ReadBackU16 | src/libpict.h:321-325 | `ptp_read_u16` at an offset yields x if and only if the encoding of x lies there. |
| Bytes.ReadBackU32 | src/libpict.h:326-330 | The same for 32 bits. |
| Bytes.ReadBackU64 | src/libpict.h:331-337 | The same for 64 bits. |
| Bytes.LowByteFirst | src/libpict.h:321-337 | The low byte comes first. |

## Left out

- Sockets, libusb, WPD, device enumeration, sleeping and logging: foreign I/O.
- `ptp_send_packet` over PTP/IP: the code panics there (src/transport.c:18-24), so sending is modelled for the USB-style connections only.
- Runtime.PtpRuntime.SendData: does not model the resize branch of `ptp_send_data` (src/lib.c:284-288), which unlocks early and asks for too few bytes; the payload plus 50 bytes must fit. Otherwise as SendDataTry.
- Runtime.PtpRuntime.UsbReadAllPackets: requires `response_wait_default` >= 1, since with 0 a backend that keeps returning 0 bytes makes the source loop for ever, and a device stream short enough for the int that counts the bytes read.
- Runtime.PtpRuntime.IpReceiveBulk: where the source would read or have read something beyond the buffer, or the size of the buffer would no longer fit data_length, the model stops with the outcome `OVERRUNS`. Requires that no body loop goes on for ever (`BulkEnds`), since the source then never returns, and a device stream short enough for the int offsets.
- Runtime.PtpRuntime.IpReceiveAll: as IpReceiveBulk; the report of the return code at its end (src/transport.c:143), where the panic would occur, is not modelled, only what it would find.
- Runtime.PtpRuntime.IpReadPacket: as IpReceiveBulk, for one packet.
- Runtime.PtpRuntime.IpReadBody: requires a call that ends the loop.
- Runtime.PtpRuntime.SendPacket: requires a call that ends the write loop (`WriteEnds`), since a backend that returns 0 for ever makes the source loop for ever.
- Runtime.PtpRuntime.SendTry: as SendPacket, whenever the packet is sent (`AttemptEnds`).
- Runtime.PtpRuntime.Send: as SendTry.
- Runtime.PtpRuntime.OpenSession: as SendTry.
- Runtime.PtpRuntime.SendDataTry: as SendTry, for both packets.
- EngineSolo.SendsAlone: as SendTry.
- EngineSolo.Attempts: as SendTry.
- EngineSolo.WritesAll: as SendPacket.
- Runtime.PtpRuntime.BufferResize: does not model a failing realloc; allocation always succeeds.
- Engine: transactions beyond 2^31, reconnecting, `ptp_reset` and `ptp_device_close`; the operations whose parse is not under their own lock (`ptp_get_device_info`, `ptp_get_object_info`) are covered only when the caller holds the mutex.
- Engine: the receive loop of a thread is the USB one; PTP/IP is modelled for one thread. The piece size of a download is 32 bits wide, as in the command; wider ones are in `Operations`.
- The NULL mutex of the lock wrappers (src/lib.c:131-145), with which nothing is locked, and `ptp_mutex_unlock_thread` (src/lib.c:153-159): a runtime here has its mutex.
- DeviceInfoData.DeviceInfo.Parse: does not model that the runtime keeps a pointer to the parsed structure (`r->di = di`, src/data.c:527).
- AvailList.PropAvail.Set: the buffer of a node is a sequence in the node, so that it belongs to no other node is not proved but built in; sizes that would overrun the buffer are a precondition (`Safe`).
- AvailList.AgreesWithLatest: for one member size; with another size the accepted values are those of `AvailList.SlotReinterpreted`, and there is no shorter condition.
- AvailList.SlotHoldsLatestCovering: for histories in which a code keeps its member size, and no code is 0; a node of code 0 may be taken over, as `AvailList.OnlyZeroIsForgotten` says.
- `ptp_update_transaction` (src/packet.c:117-126): nothing calls it.
- PropDescData.PropDesc.Parse: array counts beyond INT_MAX in the default, current and range values move the source's cursor backwards and are excluded; in enumerations they are modelled.
- EosEvents.EventsLength: requires record sizes of at least 1, since a record of size 0 makes the counting pass loop for ever, no wrap-around of the offset, and the size and type of each record inside the payload.
- EosEvents.Decode: requires the bytes it reads to lie in the payload, and announcements that stay inside the buffer of an earlier one (`Safe`); the source overruns it otherwise.
- EosEvents.EventReader.Next: as Decode, for every record of the stream (`Storable`).
- EosEvents.Events: as EosEvents.EventReader.Next.
- EosEvents.EventsJson: as EosEvents.EventReader.Next.
- `ptp_parse_storage_info`, the JSON forms other than separators and the walk over an enumeration, UTF-8 and UTF-16 C-string helpers: easier members of the same kind.
- Operations.DownloadObject: objects of 4 GiB and more, where the 32-bit offset wraps.
- src/conv.c, src/enums.c, src/ml.c, src/canon.c, src/bind.c, the command-line tool and the one-command wrappers: tables, frame conversion and plumbing.
- Big-endian hosts: the casts of src/packet.c are read as little-endian.
