# AMB RC Lap Timer: a verified model of the data path

A lap timer for RC racing reads the P3 byte stream of an AMB decoder over TCP, fans it out to phones
over WebSockets, and shows lap times. This project models that path from the socket to the lap list,
together with the machines that keep it running, and proves what they promise. `dafny verify
dfyconfig.toml` checks all of it.

| file | component |
|---|---|
| `Bytes`, `Durations`, `Decimal` | bytes and little-endian integers, 64-bit durations, decimal integers |
| `Wire` | escaping and unescaping, gateway and web client |
| `Framing` | the gateway's `Split` and the web client's streaming framer as one scanner with a switch |
| `Tlv`, `Records` | header, TLV walk, PASSING and STATUS records, the streaming decoder |
| `Encoder` | the frame builders of the field-test tools |
| `Anonymize`, `AnonymizeLimits` | the transponder-renaming rewrite of a capture, and exactly what it keeps |
| `Backoff` | reconnect delays, gateway and web client |
| `HubProtocol`, `Hub` | fan-out as a step relation over all interleavings, and as objects |
| `RealSource`, `TcpSource` | the reconnecting TCP source as a step relation, and as objects |
| `WsClient` | the WebSocket client's state machine |
| `LapStore` | the lap list of one transponder |
| `Session`, `Stitching` | client, store and decoder together: which socket a frame's bytes came from |
| `Mock` | the synthetic source and its scheduler |
| `Recording`, `Replay` | recorder and replay source |
| `Pipeline` | read loop, hub and decoder together |

Objects whose methods update fields are classes whose methods are proved equal to functions of the old
state; loops are loops with invariants; the theorems are lemmas about those functions, and say what each
operation does in terms of the event list, the wire bytes or the clock. Concurrency is a
relation over atomic steps (one lock section, channel operation, dial, sleep or socket read each), and
its theorems quantify over every list of steps. Clocks, random draws, failing sleeps, failing writes and
what a peer sends are parameters.

## What the proofs found

- **Frames can be stitched together from two connections.** The store drops the decoder's buffer when the
  client reports `disconnected` or `reconnecting`. It does not when the visibility hook forces a reconnect,
  which only reports `connecting`, nor when the connection is lost while the store is stopped.
  `Session.NoStitching` proves that each frame stems from one socket on every run without such an event
  over a non-empty buffer, and `Session.StitchingIff` that exactly those events make a frame of two sockets
  possible. Bytes skipped inside a frame, while the settings hold no target or the store is stopped, are
  the other way to a frame that was never sent (`Session.NoGaps`, `Session.GapIff`). `Stitching` shows for
  any two records how each of the three merges them into a third.
- **An address update can be missed.** The comment at gateway/internal/source/real/real.go:93 says the
  next read dials the new address. `RealSource.UpdateMayBeMissed` is a run in which the update lands
  during a dial and the reader goes on with the old address; `RealSource.InstalledAddress` says exactly
  when the installed connection leads to the current address.
- **Go and TypeScript framers differ** on a stream exactly when some frame of the gateway's splitter ends
  in a dangling escape (`Framing.FramersAgreeIff`). Exactly such a frame can keep anonymizing from
  commuting with decoding (`AnonymizeLimits.CommutesIff`).
- **The anonymizer does not keep all other bytes verbatim** as its header comment says: bytes outside
  frames are dropped (which the comment on the function admits), and a rewritten frame is escaped anew,
  so a non-canonical escape such as 0x8D 0x41 comes out as the plain byte 0x21
  (`AnonymizeLimits.NotVerbatim`). `AnonymizeLimits.FrameUnchangedIff` and `AnonymizeLimits.UnchangedIff`
  say exactly which frames and which streams come out byte for byte, and `Anonymize.OnlyTranspondersChange`
  what holds of the unescaped bytes of all of them.
- **`dropped` may overcount**, when the consumer drains the queue between two channel operations of a send
  (`HubProtocol.DroppedMayOvercount`), and is exact if and only if that never happens
  (`HubProtocol.DropCounterExactIff`).
- **Messages that end inside a frame** may be forged into new records by the hub's drops
  (`Pipeline.HalvesMayForge`). Messages that end outside one cannot, however many frames they hold, and
  they are the only ones (`Framing.CompleteIff`, `Pipeline.SurvivorsDecodeIff`).
- **Fail-soft recording** loses no more than the failed chunks, whatever the bytes are, if and only if no
  failed write that left bytes behind is followed by a recorded chunk, and no torn row promises bytes that
  happen to be there (`Replay.RecordThenReplayIff`); otherwise what follows may be shifted
  (`Replay.HalfWrittenChunkShifts`).
- **Redundant code**: the generation check of the WebSocket handlers and both `manualDisconnect` checks
  never decide anything (`WsClient.GenerationIsRedundant`, `WsClient.ManualChecksAreDead`); the decoder's
  `invalid-escape` result is unreachable (`Records.InvalidEscapeUnreachable`).
- **Round robin of the mock** depends on the lap in nanoseconds not overflowing to a non-positive value
  (`Mock.RoundRobinIff`); the backoff schedule on the initial delay being positive
  (`Backoff.GoFollowsScheduleIff`).

## Model

| member | source | states |
|---|---|---|
| Bytes.GetPutLE | gateway/internal/source/mock/mock.go:250-263 | reading back a little-endian write returns every value that fits |
| Bytes.PutGetLE | web/src/protocol/records.ts:86-108 | writing back a little-endian read restores the bytes |
| Wire.UnescapeEscape | gateway/internal/p3frame/p3frame.go:92-141 | unescaping undoes escaping for every byte list, and escaped bodies are canonical |
| Wire.EscapeUnescape | gateway/internal/p3frame/p3frame.go:92-141 | escaping undoes unescaping exactly when the body has no raw SOR or EOR and each ESC starts a pair that encodes a special byte |
| Wire.Escape | gateway/internal/p3frame/p3frame.go:123-141 | the gateway's loop computes the escaped frame |
| Wire.Unescape | gateway/internal/p3frame/p3frame.go:92-116 | the gateway's loop computes the unescaped frame, with wrap-around and dropped dangling escape |
| Wire.UnescapeChecked | web/src/protocol/escape.ts:46-85 | the web client's buffer loop yields the same bytes on every input; reports a dangling escape exactly when there is one, at the offset of its ESC |
| Wire.DanglingEndsInEsc | web/src/protocol/escape.ts:72-74 | a dangling escape is the last body byte |
| Framing.ScanAppend | web/src/protocol/frame.ts:38-97 | scanning a concatenation is scanning the parts one after the other with the buffer carried over |
| Framing.ScanWellFormed | web/src/protocol/frame.ts:48-95 | every frame starts at SOR and ends at its first closing EOR; the buffer is empty or an unfinished frame |
| Framing.ReadingIsUnique | gateway/internal/p3frame/p3frame.go:66-83 | if a stream can be read as gaps without SOR, frames and a rest, then the scanner finds exactly those frames and that rest |
| Framing.ReadingExists | gateway/internal/p3frame/p3frame.go:66-83 | every stream can be read that way |
| Framing.ChunkingIndependence | web/src/protocol/frame.ts:38-97 | for any split of any stream into pushes, frames and buffer are those of one push of the whole |
| Framing.FramersAgreeIff | web/src/protocol/frame.ts:62-92 | gateway and web client cut the same frames exactly when no frame of the gateway ends in a dangling escape |
| Framing.FramersAgree | gateway/internal/p3frame/p3frame.go:66-82 | they agree on every stream with no ESC directly followed by EOR |
| Framing.AwareFramesNeverDangle | web/src/protocol/frame.ts:62-92 | no frame cut by the web client ends in a dangling escape |
| Framing.EncodedIsFrame | gateway/internal/p3frame/p3frame.go:123-141 | an escaped record is one frame with no SOR behind its first byte |
| Framing.StartedBeforeMeaning | web/src/protocol/frame.ts:51-60 | the number of skipped frames counts exactly those whose SOR lies before the cut |
| Framing.ScanFrames | web/src/protocol/frame.ts:38-97 | a concatenation of frames is cut into those frames with nothing left |
| Framing.FinishCloses | web/src/protocol/frame.ts:62-92 | any unfinished frame can be finished by at most two bytes, and is then cut out whole |
| Framing.CompleteIff | web/src/protocol/frame.ts:48-95 | bytes leave whatever follows them alone exactly when the framer is outside a frame behind them |
| Framing.SelfSynchronisation | web/src/protocol/frame.ts:38-97 | cut a stream of encoded records anywhere and feed the rest in any chunks: exactly the records starting at or behind the cut come out |
| Framing.Split | gateway/internal/p3frame/p3frame.go:66-83 | the gateway's loop returns the scanner's frames |
| Framing.FrameStream.constructor | web/src/protocol/frame.ts:32-36 | starts with an empty buffer and history |
| Framing.FrameStream.Push | web/src/protocol/frame.ts:38-97 | returns the frames of scanning the chunk from the kept buffer; all frames so far and the buffer are the one-shot scan of the whole history |
| Framing.FrameStream.CutBuffer | web/src/protocol/frame.ts:48-96 | the nested loops cut the buffer into its frames and keep the unfinished rest |
| Framing.FrameStream.NextSor | web/src/protocol/frame.ts:53-60 | finds the first SOR at or behind a position, or the end |
| Framing.FrameStream.NextEor | web/src/protocol/frame.ts:62-82 | finds the EOR that closes the frame, or tells that the frame is unfinished |
| Framing.FrameStream.Reset | web/src/protocol/frame.ts:99-101 | forgets buffer and history |
| Tlv.FieldsOfEncoded | web/src/protocol/tlv.ts:37-56 | walking encoded fields followed by a truncated tail returns the fields and ignores the tail |
| Tlv.EncodedOfFields | gateway/internal/p3frame/p3frame.go:165-186 | any body is its encoded fields followed by a truncated tail |
| Tlv.IterateTlvs | web/src/protocol/tlv.ts:37-56 | the loop returns the list of complete fields |
| Tlv.HeaderLayout | web/src/protocol/header.ts:37-49 | the header fields lie in this order, little-endian, behind the SOR |
| Records.LastOfWidthMeaning | web/src/protocol/records.ts:119-169 | a field is present exactly when some TLV has its id and width, and the last such TLV gives its value |
| Records.PassingIff | web/src/protocol/records.ts:110-187 | a PASSING record comes out exactly when no recognised TLV has a wrong length and all six required fields occur |
| Records.PassingOf | web/src/protocol/records.ts:171-187 | otherwise the result is malformed with one of two reasons and the raw frame |
| Records.PassingReasonIff | web/src/protocol/records.ts:119-187 | the reason is a wrong length exactly when a known field has one, whatever else is missing |
| Records.PassingValues | web/src/protocol/records.ts:119-187 | each value of a PASSING record is that of the last field with its id and width; the ids and widths, spelled out |
| Records.StatusValues | web/src/protocol/records.ts:189-231 | the same for a STATUS record, where every value may be absent |
| Records.DecodePassing | web/src/protocol/records.ts:110-187 | the loop with early returns computes the order-independent definition |
| Records.DecodeStatus | web/src/protocol/records.ts:189-231 | the loop computes the definition; wrong lengths are ignored |
| Records.ParseFrame | web/src/protocol/decoder.ts:65-87 | decides one frame like the definition, whose results ParseIff characterises |
| Records.ParseIff | web/src/protocol/decoder.ts:65-87 | each kind of result has its exact cause in the frame: too short, a length field that is not the frame's length, type 1, type 2, or any other type |
| Records.ParseFrames | web/src/protocol/decoder.ts:53-57 | one result per frame, in order |
| Records.Decoder.constructor | web/src/protocol/decoder.ts:44-49 | starts with an empty stream |
| Records.Decoder.Push | web/src/protocol/decoder.ts:51-58 | reports the results of the new frames; all results so far are those of decoding the whole history at once |
| Records.Decoder.Reset | web/src/protocol/decoder.ts:60-62 | forgets stream and history |
| Records.DecodingIgnoresChunking | web/src/protocol/decoder.ts:51-58 | for any split into pushes the results are those of one push of the whole |
| Records.OnlyDanglingIsInvalid | web/src/protocol/decoder.ts:66-69 | the reason invalid-escape is reported exactly for a dangling escape |
| Records.InvalidEscapeUnreachable | web/src/protocol/decoder.ts:51-69 | on no stream does the decoder report invalid-escape |
| Encoder.AssembledLayout | tools/fieldtest/internal/frame/frame.go:79-90 | header, body and brackets of an assembled frame read back, with the length truncated to 16 bits |
| Encoder.ParseEncoded | web/src/protocol/decoder.ts:65-87 | decoding an encoded frame with a true length field reads its type and fields |
| Encoder.PassingFieldsMean | web/src/protocol/records.ts:110-187 | the seven fields of a PASSING frame decode to the arguments |
| Encoder.PassingRoundTrip | tools/fieldtest/internal/frame/frame.go:47-57 | decoding what BuildPassing returns gives exactly the 16-, 32- and 64-bit arguments, for all arguments |
| Encoder.PassingBody | tools/fieldtest/internal/frame/frame.go:47-57 | the body of a PASSING frame byte by byte, in wire order |
| Encoder.StatusRoundTrip | tools/fieldtest/internal/frame/frame.go:69-77 | the same for BuildStatus |
| Encoder.StatusBody | tools/fieldtest/internal/frame/frame.go:69-77 | the body of a STATUS frame byte by byte |
| Encoder.AppendTlv | tools/fieldtest/internal/frame/frame.go:112-125 | appends the next field of the layout |
| Encoder.Finalize | tools/fieldtest/internal/frame/frame.go:79-90 | the buffer writes produce the escaped assembled frame |
| Encoder.BuildPassing | tools/fieldtest/internal/frame/frame.go:47-57 | returns the frame of PassingRoundTrip |
| Encoder.BuildStatus | tools/fieldtest/internal/frame/frame.go:69-77 | returns the frame of StatusRoundTrip |
| Anonymize.FirstSeenOrder | gateway/cmd/anonymize/main.go:135-141 | the table lists ids by first appearance: everything before the first occurrence of an entry is in the table before it |
| Anonymize.SyntheticInjective | gateway/cmd/anonymize/main.go:138 | no two entries get the same number, even when the 32-bit number wraps |
| Anonymize.TableFacts | gateway/cmd/anonymize/main.go:110-141 | each id of the PASSING frames is listed once, nothing else is, numbers are 1, 2, 3 and so on and pairwise different |
| Anonymize.FramesOfAnonymized | gateway/cmd/anonymize/main.go:103-155 | the output splits into the renamed frames, one for one |
| Anonymize.Idempotent | gateway/cmd/anonymize/main.go:103-155 | anonymizing twice gives the bytes of anonymizing once |
| Anonymize.OnlyTranspondersChange | gateway/cmd/anonymize/main.go:131-145 | unescaped, a PASSING frame of the output differs from its input at most in 4-byte TRANSPONDER values, which are renamed by the final table; other frames are unchanged |
| Anonymize.DecodingCommutes | gateway/cmd/anonymize/main.go:103-155 | decoding the output is decoding the input and renaming, for every stream whose split frames do not dangle; AnonymizeLimits.CommutesIff is the converse |
| Anonymize.DecodingCommutesOnCleanStreams | web/src/protocol/decoder.ts:65-87 | the same for every stream with no ESC directly followed by EOR |
| Anonymize.LookUp | gateway/cmd/anonymize/main.go:135-141 | returns the final number of an id and keeps map and list equal to the first-seen table |
| Anonymize.VisitField | gateway/cmd/anonymize/main.go:131-145 | the callback overwrites one field in place and extends the table |
| Anonymize.RewriteFrame | gateway/cmd/anonymize/main.go:131-145 | the walk turns the buffer in place into the renamed frame, with the numbers of the final table |
| Anonymize.AnonymizeFrame | gateway/cmd/anonymize/main.go:117-153 | one frame: untouched, or renamed and escaped anew |
| Anonymize.Anonymize | gateway/cmd/anonymize/main.go:103-155 | the one-pass rewrite equals the two-pass definition; mapping and both counters are exact |
| Anonymize.RewrittenCounts | gateway/cmd/anonymize/main.go:146-148 | the counter of rewritten frames counts exactly the frames with a transponder |
| AnonymizeLimits.FrameUnchangedIff | gateway/cmd/anonymize/main.go:117-153 | a frame comes out byte for byte exactly when it has no transponder, or its transponders keep their names and its escapes are canonical |
| AnonymizeLimits.NumberedIff | gateway/cmd/anonymize/main.go:135-141 | a table renames nothing exactly when its entries are 1, 2, 3 and so on already |
| AnonymizeLimits.UnchangedIff | gateway/cmd/anonymize/main.go:103-155 | a stream comes out byte for byte exactly when it is nothing but its frames, numbered already and canonical wherever it names transponders |
| AnonymizeLimits.NotVerbatim | gateway/cmd/anonymize/main.go:3-5 | a PASSING frame with 0x8D 0x41, whose only transponder is number 1 already, comes out with other bytes and the same content |
| AnonymizeLimits.CommutesIff | gateway/cmd/anonymize/main.go:103-155 | a frame of the splitter does not dangle exactly when, in front of any stream whose frames do not dangle, anonymizing and decoding still commute |
| AnonymizeLimits.DecodingNeedNotCommute | gateway/cmd/anonymize/main.go:104-105 | a four-byte stream on which they do not |
| Backoff.GoFollowsSchedule | gateway/internal/upstream/upstream.go:46-58 | with 64-bit wrap-around the loop still computes min(initial * 2^n, max), cut at zero |
| Backoff.GoFollowsScheduleIff | gateway/internal/upstream/upstream.go:42-71 | it does so for all attempts exactly when the initial delay is positive or the cap is not |
| Backoff.GoMonotone | gateway/internal/upstream/upstream.go:42-71 | later attempts never wait less |
| Backoff.ClientAgreesWithGateway | web/src/transport/wsClient.ts:301-316 | both loops compute the same base delay on all non-negative settings |
| Backoff.TsFollowsSchedule | web/src/transport/wsClient.ts:301-316 | for positive initial delays, fractional ones too, the web client's base delay is min(initial * 2^n, max) |
| Backoff.FirstAttempts | gateway/internal/upstream/upstream.go:42-58 | negative attempts wait like the first; fractions of an attempt do not double |
| Backoff.OffsetMeaning | web/src/transport/wsClient.ts:318-321 | the drawn offset is zero in the middle, odd around it, and the whole part of the distance times twice the jitter |
| Backoff.TsDelayWithinJitter | web/src/transport/wsClient.ts:314-323 | for fractional settings and attempts too, the web client's delay lies within the jitter of its base |
| Backoff.TsDelayIs | web/src/transport/wsClient.ts:314-323 | for a jitter of up to one, the clamp never acts: the delay is the base moved by that offset |
| Backoff.GoDelayWithinJitter | gateway/internal/upstream/upstream.go:56-70 | the gateway's delay lies within the jitter of its base while that fits 64 bits |
| Backoff.GoDelayIs | gateway/internal/upstream/upstream.go:56-70 | the same for the gateway, while base plus jitter fits 64 bits |
| Backoff.DelaysNotNegative | gateway/internal/upstream/upstream.go:56-70 | no delay is negative for any settings at all; without jitter it is the base, or zero for a negative one |
| Backoff.Backoff.Next | gateway/internal/upstream/upstream.go:42-71 | the loop computes the delay; without jitter it is the schedule |
| Backoff.NextBackoffMs | web/src/transport/wsClient.ts:301-324 | the loop computes the delay, for fractional settings and attempts too |
| HubProtocol.AlwaysInv | gateway/internal/hub/hub.go:89-134 | the books of every client balance at every point of every interleaving of sends, receives, adds, removes, limits and close |
| HubProtocol.DeliveryGuarantee | gateway/internal/hub/hub.go:190-219 | delivered and queued messages are in order and among those attempted; attempted = delivered + queued + lost (+ one in flight); the newest attempted is never lost; the queue never exceeds its capacity; between broadcasts the counter is the number of lost messages plus that of drops that found nothing to drop |
| HubProtocol.FastConsumerLosesNothing | gateway/internal/hub/hub.go:198-202 | a registered client whose queue was never found full has or will get every message since it was added |
| HubProtocol.DroppedMayOvercount | gateway/internal/hub/hub.go:203-213 | a run in which the counter is one and nothing was lost |
| HubProtocol.DropCounterExactIff | gateway/internal/hub/hub.go:203-213 | in every interleaving, between broadcasts, the counter is the number of lost messages exactly when no send found the queue drained between its failed try and its drop |
| HubProtocol.MissesAreDrainedDrops | gateway/internal/hub/hub.go:203-207 | those sends are read off the run: they are its drop steps on an empty queue |
| HubProtocol.WholeSendIsOffer | gateway/internal/hub/hub.go:190-219 | uninterrupted, the four channel operations append, or replace the oldest entry of a full queue and count that |
| HubProtocol.KeepsNewest | gateway/internal/hub/hub.go:203-212 | without a consumer the queue holds the newest messages, as many as fit |
| HubProtocol.LimitsAreTheLast | gateway/internal/hub/hub.go:149-160 | the limits in force are those set last, or the defaults, in every interleaving |
| HubProtocol.CapacityFromAdd | gateway/internal/hub/hub.go:89-105 | a queue keeps the capacity that was in force when its client was added |
| HubProtocol.AddRespectsLimit | gateway/internal/hub/hub.go:89-105 | adding succeeds exactly while the hub is open and below the limit in force |
| HubProtocol.DoneStopsSends | gateway/internal/hub/hub.go:193-197 | once a client's done channel is closed, no further message is sent to it, in any continuation |
| HubProtocol.RemovedAreTold | gateway/internal/hub/hub.go:109-188 | on every run, a client that is no longer registered has its done channel closed or about to be |
| Hub.Subscriber.Send1 | gateway/internal/hub/hub.go:190-219 | queue and counter after an uninterrupted send |
| Hub.Subscriber.Receive | gateway/internal/hub/hub.go:76-78 | takes the oldest entry |
| Hub.Subscriber.CloseDone | gateway/internal/hub/hub.go:221-223 | closing twice is closing once |
| Hub.Fanout.constructor | gateway/internal/hub/hub.go:48-64 | non-positive limits become the defaults |
| Hub.Fanout.Add | gateway/internal/hub/hub.go:89-105 | fails exactly when closed or full; otherwise registers a fresh client with the current buffer length |
| Hub.Fanout.Remove | gateway/internal/hub/hub.go:109-116 | unregisters and closes the client, registered or not |
| Hub.Fanout.Broadcast | gateway/internal/hub/hub.go:124-134 | every registered client is offered the message, in whatever order |
| Hub.Fanout.SetLimits | gateway/internal/hub/hub.go:149-160 | new limits leave clients and queues alone |
| Hub.Fanout.Close | gateway/internal/hub/hub.go:172-188 | closes every registered client, whose queues keep their entries |
| RealSource.AlwaysInv | gateway/internal/source/real/real.go:97-243 | the invariant of the reconnect loop in every interleaving with ApplyUpstream, ApplyBackoff, Close, cancellation and watchers |
| RealSource.NoConnectionLeaks | gateway/internal/source/real/real.go:97-107 | every dialled connection is closed, installed, or held by a step about to install or close it |
| RealSource.InstallOverwritesNothing | gateway/internal/source/real/real.go:236-240 | an install finds no connection in place, and all older ones were taken out |
| RealSource.ChunksInOrder | gateway/internal/source/real/real.go:133-186 | chunks of one connection are returned in order without gaps, and never after those of a later one |
| RealSource.WaitsCountFailures | gateway/internal/source/real/real.go:202-242 | the backoff attempt is the number of dials failed in a row, less one |
| RealSource.AtMostOneLateChunk | gateway/internal/source/real/real.go:159-184 | after a connection was taken away, at most one more chunk of it is returned, whatever happens next |
| RealSource.TakesAway | gateway/internal/source/real/real.go:97-107 | ApplyUpstream and Close take the connection away at once, in every reachable state, and its closing is then due |
| RealSource.ClosedDeliversNothing | gateway/internal/source/real/real.go:190-199 | nothing more is read from a closed connection, in any continuation |
| RealSource.SettingsAreTheLast | gateway/internal/source/real/real.go:97-117 | address and backoff strategy are those set last, in every interleaving |
| RealSource.SleepsIff | gateway/internal/source/real/real.go:204-217 | the reader waits before a dial exactly when a dial failed since the last success |
| RealSource.SleepsAsSeen | gateway/internal/source/real/real.go:204-217 | it waits by the strategy in force when it last looked; a later one counts from the next attempt on |
| RealSource.DialsCurrent | gateway/internal/source/real/real.go:219-226 | it dials the address set last before it looked |
| RealSource.InstalledAddress | gateway/internal/source/real/real.go:219-240 | the installed connection leads to the current address exactly when the updates since the re-read, if any, ended on the address dialled |
| RealSource.UpdateMayBeMissed | gateway/internal/source/real/real.go:219-240 | a run that leaves the reader on the old address, for any two addresses |
| TcpSource.Source.constructor | gateway/internal/source/real/real.go:62-71 | starts without connection and attempts |
| TcpSource.Source.ApplyUpstream | gateway/internal/source/real/real.go:97-107 | changes the address, drops and closes the connection |
| TcpSource.Source.ApplyBackoff | gateway/internal/source/real/real.go:112-117 | replaces the strategy and nothing else |
| TcpSource.Source.Close | gateway/internal/source/real/real.go:190-199 | drops and closes the connection |
| TcpSource.Source.Connect | gateway/internal/source/real/real.go:202-243 | dials until the first success or the end of the context, in a sleep or a dial; no wait before the first dial of all, then the delays of the strategy in turn; the attempt counter is reset or carried over |
| TcpSource.Source.Read | gateway/internal/source/real/real.go:133-186 | returns the next chunk of the upstream over whichever connection, loses and repeats none until the context ends, fails exactly then, and closes every connection it gives up; attempts and delays over all dials of the call |
| WsClient.AlwaysInv | web/src/transport/wsClient.ts:95-276 | on every run: exactly one of socket and timer while active, neither otherwise; every other socket was closed by the client or reported closed; the visibility subscription exists exactly while active |
| WsClient.GenerationIsRedundant | web/src/transport/wsClient.ts:189-221 | a handler's guard holds exactly for the socket the client holds |
| WsClient.ManualChecksAreDead | web/src/transport/wsClient.ts:211-242 | after a disconnect no timer is armed and no socket is current |
| WsClient.AttemptIsStreak | web/src/transport/wsClient.ts:226-258 | the attempt counter is the number of closes since the last open, effective connect, disconnect or forced reconnect |
| WsClient.ReconnectDelay | web/src/transport/wsClient.ts:226-236 | the announced delay is that of the number of closes before it |
| WsClient.MessageFromCurrent | web/src/transport/wsClient.ts:197-204 | a message is emitted only for the newest socket, which the client holds, and changes nothing |
| WsClient.MessagesComeInOrder | web/src/transport/wsClient.ts:197-204 | the messages of a run never go back to an older socket |
| WsClient.ClientIsSimple | web/src/transport/wsClient.ts:95-276 | on every run the client holds, waits for, counts, closes and emits exactly what an observer without generations, manual flag and subscription would; the time it was hidden is read off the events |
| WsClient.ForcedIff | web/src/transport/wsClient.ts:150-170 | a return to the foreground reconnects exactly when, by the events alone, the page had been hidden for at least the threshold |
| WsClient.Client.constructor | web/src/transport/wsClient.ts:95-102 | the initial state |
| WsClient.Client.DoConnect | web/src/transport/wsClient.ts:249-259 | new state and output are those of the connect event |
| WsClient.Client.DoDisconnect | web/src/transport/wsClient.ts:261-276 | the same for disconnect |
| WsClient.Client.Open | web/src/transport/wsClient.ts:181-187 | the same for opening a socket |
| WsClient.Client.Schedule | web/src/transport/wsClient.ts:226-246 | the same for scheduling a reconnect |
| WsClient.Client.Force | web/src/transport/wsClient.ts:128-144 | the same for a forced reconnect |
| WsClient.Client.HandleOpen | web/src/transport/wsClient.ts:189-195 | the same for an open event |
| WsClient.Client.HandleMessage | web/src/transport/wsClient.ts:197-204 | the same for a message event |
| WsClient.Client.HandleClose | web/src/transport/wsClient.ts:206-216 | the same for a close event |
| WsClient.Client.HandleError | web/src/transport/wsClient.ts:218-223 | the same for an error event |
| WsClient.Client.HandleTimer | web/src/transport/wsClient.ts:238-244 | the same for the reconnect timer |
| WsClient.Client.HandleVisibility | web/src/transport/wsClient.ts:150-170 | the same for a visibility change; ClientIsSimple and ForcedIff say what that event does |
| LapStore.Best | web/src/features/laps/passingsStore.ts:141-148 | the best lap is a lap of the history and no lap is shorter; there is one exactly from the second passing on |
| LapStore.LapsTelescope | web/src/features/laps/passingsStore.ts:132-139 | the laps since the reset sum to last minus first RTC time |
| LapStore.NewestSnoc | web/src/features/laps/passingsStore.ts:140 | prepending and cutting keeps the newest entries, each with the lap it had |
| LapStore.ShownLaps | web/src/features/laps/passingsStore.ts:132-140 | what the list shows: the newest passings in reverse order, each with its RTC time less that of the one before it, also of one no longer shown |
| LapStore.MatchingMeaning | web/src/features/laps/passingsStore.ts:128-131 | the filter keeps exactly the passings of the target, in order |
| LapStore.Store.constructor | web/src/features/laps/passingsStore.ts:59-70 | starts with an empty history |
| LapStore.Store.Start | web/src/features/laps/passingsStore.ts:72-84 | loads the target, tells the subscribers, and leaves history and decoder alone; a second start does nothing |
| LapStore.Store.Stop | web/src/features/laps/passingsStore.ts:109-114 | stops listening and changes nothing else |
| LapStore.Store.Reset | web/src/features/laps/passingsStore.ts:94-100 | forgets history and decoder buffer, keeps the target, and tells the subscribers |
| LapStore.Store.HandleState | web/src/features/laps/passingsStore.ts:157-161 | resets exactly on disconnected and reconnecting, otherwise changes and tells nothing |
| LapStore.Store.Record | web/src/features/laps/passingsStore.ts:132-149 | list, best lap and previous passing remain functions of the history: the newest entries with the laps of ShownLaps up to the limit (none for a negative one), and the minimum of all laps even after eviction |
| LapStore.Store.ShowResults | web/src/features/laps/passingsStore.ts:126-150 | the history grows by the matching records |
| LapStore.Store.HandleMessage | web/src/features/laps/passingsStore.ts:116-155 | target, decoder stream and history after any message; subscribers are told, once, exactly when the history grew |
| LapStore.HistoryIgnoresChunking | web/src/features/laps/passingsStore.ts:116-155 | with one target, the history is what filtering the decoded stream gives, however it was split into messages |
| Session.TagScanErases | web/src/protocol/frame.ts:38-97 | the scanner with provenance cuts the frames of the scanner without |
| Session.NoStitching | web/src/features/laps/passingsStore.ts:72-84 | on every run of client events and store starts, stops and resets, in which the socket never changes behind the store's back while the buffer is not empty, each frame consists of bytes of a single socket |
| Session.NoStitchingUnlessForced | web/src/transport/wsClient.ts:206-276 | in particular on every run without a forced reconnect in which the store is not stopped |
| Session.StitchingIff | web/src/features/laps/passingsStore.ts:109-161 | exactly a forced reconnect, or a close or disconnect while the store is stopped, over a non-empty buffer makes a frame with bytes of two sockets possible |
| Session.NoGaps | web/src/features/laps/passingsStore.ts:116-126 | if moreover no bytes are skipped while the buffer is not empty, each frame is a stretch of consecutive bytes of its socket |
| Session.GapIff | web/src/features/laps/passingsStore.ts:121-124 | exactly those events, and binary messages that reach no decoder while the buffer is not empty, make another kind of frame possible |
| Session.ForceKeepsBuffer | web/src/transport/wsClient.ts:128-183 | after a forced reconnect a new socket is current and the decoder's buffer is what it was |
| Session.StitchingPossibleIff | web/src/transport/wsClient.ts:128-144 | forcing a reconnect now can lead to a frame with bytes of two sockets exactly when the buffer is not empty |
| Stitching.HalvesJoin | tools/fieldtest/internal/frame/frame.go:47-57 | beginning of one record and ending of another are byte for byte the encoding of a third |
| Stitching.ForcedReconnectForges | web/src/features/laps/passingsStore.ts:157-161 | for any two records, a run after which the decoder reports the mixed record that was never sent |
| Stitching.StoppedStoreForges | web/src/features/laps/passingsStore.ts:109-114 | the same when the connection is lost while the store is stopped |
| Stitching.NoTargetForges | web/src/features/laps/passingsStore.ts:121-124 | the same on one connection, when the settings hold no target for a while |
| Mock.Pick | gateway/internal/source/mock/mock.go:181-186 | the first of the earliest due slots |
| Mock.RoundRobin | gateway/internal/source/mock/mock.go:116-130 | without jitter, emission m goes to transponder m mod N, through ties and truncated stagger |
| Mock.RoundRobinIff | gateway/internal/source/mock/mock.go:121-213 | it does so for all m exactly when the lap in nanoseconds, with 64-bit wrap-around, is positive |
| Mock.StepBounds | gateway/internal/source/mock/mock.go:207-211 | without overflow a reschedule is the lap plus the drawn jitter |
| Mock.StepsExactIff | gateway/internal/source/mock/mock.go:207-211 | it is, for every draw, exactly when the two extremes fit 64 bits in nanoseconds |
| Mock.Staggered | gateway/internal/source/mock/mock.go:116-130 | at boot the transponders are spread over one lap, evenly up to the truncation of the stride |
| Mock.JitterCovers | gateway/internal/source/mock/mock.go:207-210 | the draws give every jitter from -J to J exactly once |
| Mock.DrawnStep | gateway/internal/source/mock/mock.go:207-211 | without overflow a reschedule is the lap plus the drawn jitter, in milliseconds |
| Mock.DuesNeverDecrease | gateway/internal/source/mock/mock.go:180-213 | chosen due times never go back while steps are not negative |
| Mock.SlotHistory | gateway/internal/source/mock/mock.go:197-211 | each due time is the start plus that transponder's own steps; its passing number counts its emissions modulo 2^32 |
| Mock.FairnessFrom | gateway/internal/source/mock/mock.go:180-213 | bounds on the due times of two slots while one of them waits |
| Mock.Fairness | gateway/internal/source/mock/mock.go:180-213 | while a transponder waits for its next emission, any other emits at most floor((lap + J) / (lap - J)) + 1 times |
| Mock.RunIsFair | gateway/internal/source/mock/mock.go:148-213 | the same for every run of reads, whatever sleeps fail, in terms of the configured lap and jitter |
| Mock.MockRoundTrip | gateway/internal/source/mock/mock.go:230-248 | every built frame is one frame and decodes to its inputs, without decoder id |
| Mock.MockBody | gateway/internal/source/mock/mock.go:230-248 | the body of a synthetic frame byte by byte |
| Mock.BuildFrame | gateway/internal/source/mock/mock.go:230-248 | the builder returns that frame |
| Mock.FramesFollowTimetable | gateway/internal/source/mock/mock.go:148-213 | on every run, whatever sleeps fail and whenever it is closed, the k-th frame decodes to the passing of the slot whose turn it is, with its next number, the microseconds since boot, and the strength and hits drawn |
| Mock.StepsInJitter | gateway/internal/source/mock/mock.go:204-211 | on every run without overflow all reschedules lie within the jitter of the lap |
| Mock.FramesInRotation | gateway/internal/source/mock/mock.go:148-213 | without jitter, the k-th frame decodes to transponder k mod N on every run |
| Mock.LegacyFrames | gateway/internal/source/mock/mock.go:162-176 | with one transponder, on every run: number n + 1 and n times a second and a half of RTC time, through the wrap of the counter |
| Mock.ReadFailsIff | gateway/internal/source/mock/mock.go:148-196 | a read fails, or ends, exactly for these causes, and then costs nothing |
| Mock.EveryReadEmits | gateway/internal/source/mock/mock.go:148-213 | while nobody closes it, a run of reads whose sleeps are not cancelled returns a frame each time |
| Mock.Source.constructor | gateway/internal/source/mock/mock.go:100-132 | defaults and the staggered timetable |
| Mock.Source.Earliest | gateway/internal/source/mock/mock.go:181-186 | the loop finds the slot of Pick |
| Mock.Source.ReadMulti | gateway/internal/source/mock/mock.go:180-213 | new state and result; FramesFollowTimetable says what the frame holds, ReadFailsIff when there is none |
| Mock.Source.ReadLegacy | gateway/internal/source/mock/mock.go:162-176 | the same for a single transponder, with LegacyFrames |
| Mock.Source.Read | gateway/internal/source/mock/mock.go:148-159 | the same for the dispatch between both |
| Mock.Source.Close | gateway/internal/source/mock/mock.go:216-227 | closed, once and for all |
| Decimal.ParseFormat | gateway/internal/recorder/recorder.go:115-118 | every 64-bit integer survives printing and parsing |
| Decimal.ParseIntIff | gateway/internal/source/replay/replay.go:208-215 | accepted are exactly the printed 64-bit integers with an optional sign and leading zeros, and each means its number |
| Recording.EveryChunkAccountedFor | gateway/internal/recorder/recorder.go:105-130 | recorded chunks plus counted failures are the chunks written |
| Recording.HarmlessMeaning | gateway/internal/recorder/recorder.go:109-114 | failures are harmless exactly when no write that left bytes behind comes before a recorded chunk that has bytes |
| Recording.RecordingHolds | gateway/internal/recorder/recorder.go:105-130 | if failures are harmless, the rows are those of the recorded chunks, then a torn one, and the bytes of those chunks come first in the file |
| Recording.ShapeDecidesHarm | gateway/internal/recorder/recorder.go:105-130 | that depends on the outcomes and lengths of the writes only, not on the bytes |
| Recording.Recorder.constructor | gateway/internal/recorder/recorder.go:75-96 | header row written, nothing else |
| Recording.Recorder.Open | gateway/internal/recorder/recorder.go:75-96 | opening fails exactly when the header row cannot be written |
| Recording.Recorder.WriteRow | gateway/internal/recorder/recorder.go:115-129 | a timing failure is sticky |
| Recording.Recorder.Write | gateway/internal/recorder/recorder.go:105-130 | both files and the failure counter after one chunk, for every combination of failures |
| Replay.NextRowIsPromised | gateway/internal/source/replay/replay.go:188-222 | the row loop returns the first row that the plan of the remaining rows promises |
| Replay.ReplayIsPrefix | gateway/internal/source/replay/replay.go:111-163 | for any rows, any bytes and any run, the replayed bytes are a prefix of the recording |
| Replay.EndIsFinal | gateway/internal/source/replay/replay.go:115-128 | after the end or a bad row every later read says EOF |
| Replay.ReplayIsCut | gateway/internal/source/replay/replay.go:111-163 | undisturbed, the k-th read returns the k-th promised piece, at every speed, and a truncated file ends it |
| Replay.ReplayCoversIff | gateway/internal/source/replay/replay.go:149-162 | the whole file is replayed exactly when the lengths cover it or there is no timing file |
| Replay.RecordThenReplay | gateway/internal/source/replay/replay.go:188-222 | after harmless failures the replay returns the chunks whose writes succeeded, except empty ones, with boundaries and offsets |
| Replay.RecordThenReplayIff | gateway/internal/recorder/recorder.go:105-130 | for given times, lengths and outcomes: it does so whatever the bytes are, if and only if no bytes left behind are followed by recorded ones and no torn row promises bytes that are there |
| Replay.PerfectRecording | gateway/internal/recorder/recorder.go:98-130 | without write failures, reads return exactly the recorded non-empty chunks |
| Replay.HalfWrittenChunkShifts | gateway/internal/recorder/recorder.go:109-114 | a half-written chunk makes the replay return a byte nobody recorded there |
| Replay.ScaledExactIff | gateway/internal/source/replay/replay.go:135 | the offset in nanoseconds is exact exactly within 64 bits |
| Replay.FastIsTenth | gateway/internal/source/replay/replay.go:135-138 | within that range the fast mode divides every offset by ten without remainder |
| Replay.CadenceKept | gateway/internal/recorder/recorder.go:108 | a recorded offset, scaled for replay, is the original time since the start less than a millisecond off |
| Replay.NeverEarly | gateway/internal/source/replay/replay.go:133-147 | in the timed modes, undisturbed, the k-th chunk leaves no earlier than the first read plus the k-th row's scaled offset |
| Replay.NoneEarly | gateway/internal/source/replay/replay.go:133-147 | on any run, disturbed or not, each chunk leaves no earlier than the common start plus the scaled offset of the row it was read with |
| Replay.FailureIff | gateway/internal/source/replay/replay.go:111-163 | each kind of failure has its exact cause; a sleep is cut only if the clock is before the start plus the row's scaled offset |
| Replay.FailureCosts | gateway/internal/source/replay/replay.go:111-144 | a cancelled read costs nothing, a cut sleep the row that was waited for, and neither a byte |
| Replay.ChunkLength | gateway/internal/source/replay/replay.go:149-162 | a chunk is the next bytes of the recording, as many as its row says unless the file ends or fails before |
| Replay.LeavesOnTime | gateway/internal/source/replay/replay.go:133-147 | with exact sleeps a chunk leaves at the later of the clock and its target, not later |
| Replay.NextRowStops | gateway/internal/source/replay/replay.go:188-222 | the loop stops at the first row that is neither a leading header nor empty, and says whether that row parses |
| Replay.Source.constructor | gateway/internal/source/replay/replay.go:69-107 | a missing timing file forces instant mode |
| Replay.Source.NextTimingRow | gateway/internal/source/replay/replay.go:188-222 | the loop with header, bad rows and skipped rows |
| Replay.Source.ReadWholeBin | gateway/internal/source/replay/replay.go:224-234 | everything at once, EOF, or the read error |
| Replay.Source.ReadFull | gateway/internal/source/replay/replay.go:149-162 | the bytes asked for, or those that could be read, which ends the replay |
| Replay.Source.Read | gateway/internal/source/replay/replay.go:111-163 | new state and result of one read in every mode; FailureIff, ChunkLength and LeavesOnTime say what they are |
| Pipeline.SurvivorsDecode | web/src/protocol/decoder.ts:51-58 | pushing any selection of messages that end outside a frame reports exactly the records of the selected ones, in order |
| Pipeline.SurvivorsDecodeIff | gateway/internal/hub/hub.go:203-212 | exactly the lists of such messages can lose any of their messages, whatever message comes next, without changing what the others decode to |
| Pipeline.OneFrameComplete | gateway/internal/source/mock/mock.go:230-248 | messages of one frame each are of this kind |
| Pipeline.SubscriberSeesWholeRecords | gateway/internal/hub/hub.go:124-219 | in every interleaving, if messages end outside frames, a subscriber's decoder reports exactly the records of the messages delivered to it, in the order sent |
| Pipeline.PhoneHistory | web/src/features/laps/passingsStore.ts:116-155 | the lap history of a phone is the filter of the surviving records |
| Pipeline.MockRaceIsNeverMalformed | gateway/internal/source/mock/mock.go:230-248 | with the mock source, whatever the hub drops, a phone gets passings only, each with transponder, number, RTC time, strength and hits of the emission whose turn it was |
| Pipeline.FirstAndLast | gateway/internal/hub/hub.go:203-212 | a run in which a slow subscriber gets the first and the last of four messages |
| Pipeline.EntriesMeaning | gateway/cmd/gateway/main.go:377-414 | the chunks of ReadLoop are exactly those the source returned, in order |
| Pipeline.HalvesMayForge | gateway/internal/hub/hub.go:203-212 | for any two records sent in halves, that subscriber's decoder reports a third one that was never sent |
| Pipeline.ReadLoop | gateway/cmd/gateway/main.go:377-414 | recorder and subscribers get the same chunks in the same order, up to the end of the source; source errors, write failures and full queues stop nothing; queues, drop counters and the reported upstream state |

## Left out

- Backoff.TsDelayWithinJitter: real numbers instead of floating point, so no rounding of the jitter product.
- Mock.RunIsFair: the steps must fit 64 bits in nanoseconds.
- HubProtocol.AlwaysInv: Go channels are queues with atomic operations; the scheduler's fairness is not modelled, so nothing is said about when a message arrives.
- RealSource.AlwaysInv: one context for all reads of a run, which may be cancelled at any step; a failed dial and the check of the context after it are one step.
- TcpSource.Source.Read: without interleaving; RealSource has the interleavings.
- WsClient.AlwaysInv: handlers do not call connect or disconnect from inside a notification, and the WebSocket constructor does not throw.
- Replay.NeverEarly: offsets that overflow 64 bits in nanoseconds wrap, as in the code, and are then due when the wrapped offset is.
- Recording.Recorder.Write: CSV quoting and the files' text layer are not modelled, a torn row is whatever a reader makes of it; nor is closing the files.
- Replay.Source.Read: rows that are not valid CSV; a row with a wrong number of fields stands for both kinds of bad rows.
- Pipeline.ReadLoop: hub calls of other goroutines during the loop are in HubProtocol, not here.
- Mid-session changes of the target transponder beyond what one message does.
- CRC: not computed or checked anywhere in the code.
- HTTP and WebSocket servers, login, admin configuration, status pages, logging.
- React components, speech, formatting, settings storage, QR codes and banners.
- Command-line tools around the anonymizer and the field-test emitters, PowerShell scripts.
