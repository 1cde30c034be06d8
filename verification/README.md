# Verification of the binary protocol, the load generators and the HTTP server's supporting code

The program serves a small request/reply protocol over TCP. A packet is a big-endian 16-bit
payload length and a payload; the first payload byte selects one of two codecs (a six-byte
raw struct or a MessagePack map) for a player state `{x, y, hp}`. The server advances each
state and echoes it in the same codec. Two load generators drive it, one blocking and one
pipelined over io_uring. Around this stand a response serialiser for the HTTP side, the
start-up handshake between a parent and its workers, and the enumeration of CPUs.

| file | what it models |
|---|---|
| `wire.dfy` | the framing: byte streams, frames, splitting a stream into frames |
| `msgpack.dfy`, `player_codec.dfy` | the two codecs and the server's answer to one payload |
| `server_parse.dfy` | what the server makes of a whole byte stream |
| `wire_format.dfy` | the bytes on the wire, written out |
| `binary_server.dfy` | the server's packet loop and connection list, as classes updated in place |
| `server_runs.dfy` | whole runs of the server: a fold over a script of events, what it means, and the objects that follow it |
| `loadgen_core.dfy`, `send_pool.dfy` | the pipelined client on values: tags, receive buffer, send slots, one completion |
| `completion_counts.dfy` | what one completion does to the counters, from any state |
| `accumulation.dfy` | the receive buffer over any sequence of receives: contents, counts, when it fills up |
| `uring_client.dfy` | the pipelined client as classes and arrays, each method equal to the function on values |
| `pipeline.dfy`, `pipeline_proof.dfy`, `pipeline_theorems.dfy` | client, ring, FIFO channels and server as one step system, its invariant, and what follows for every run |
| `pipeline_progress.dfy` | why the pipelined client does not get stuck, and when it does |
| `pipeline_depth.dfy` | when submissions are given up and what becomes of the depth |
| `blocking_client.dfy` | exact reads over short and interrupted reads, rounds of requests and replies on a connection in any state |
| `round_counts.dfy` | what the blocking client counts when reads or writes fail |
| `half_written.dfy` | what the server makes of a request behind a half-written one |
| `memory.dfy`, `http_text.dfy` | buffers filled from the front, C strings, decimal numbers, CRLF lines |
| `http_response.dfy`, `response_writer.dfy` | the response text, a reader for it, when the bounded writer succeeds, the writer itself and the size calculator |
| `startup.dfy`, `worker_manager.dfy` | the start-up handshake as a step system over eventfds, and the worker manager it consists of |
| `cpu_set.dfy`, `default_startup.dfy` | the CPU set, its list as text, and a start with the default configuration |

Main results:

* **Server.** For every byte stream and every way of cutting it into read events, the replies,
  the open/closed outcome and the unconsumed bytes are those of one parse of the whole stream
  (`ChunkingInvariance`), and that parse is the only reading of the stream as answered requests
  followed by an incomplete or a fatal frame (`ParseMeaning`). The packet loop does exactly this
  to its connection (`ConnProcess`, `ConnCallback`), and over every script of events the server,
  its list and its descriptors are a fold of the script (`Run`, `DescriptorsBalance`,
  `ReceivedAreTheChunks`).
* **Distributed run.** For every interleaving of client, kernel and server steps, with arbitrary
  chunking both ways, requests are conserved and no error is counted (`EndToEndConservation`);
  slots and receive buffers are never reused under a pending operation (`SlotsAreSafe`,
  `ReceiveBufferIsSafe`); while anything is outstanding a step can be taken (`Progress`); the
  depth account is exact, and the depth is really outstanding if and only if
  conns * depth <= 8192 (`DepthAccounting`, `FullDepthExactly`).
* **Completions.** What handling one completion does to every counter, from any state and for any
  received bytes (`HandleReceiveCounts`, `HandleSendCounts`, `HandleBehindTheEnd`).
* **Receive buffer.** After any receives on the 4096 bytes the completions are those of the
  stream until a drain runs past the buffer, which happens under an exact condition and never on
  a stream with legal lengths (`AccumulationMeaning`, `OverrunExactly`, `LegalStreamFits`).
* **Blocking rounds.** Exact results of a round on a connection in any state, clean or with
  leftovers of a failed round (`Round`, `CleanRound`, `StaleRound`, `FailedSendLeaves`), and exactly
  what is counted when a write or a read fails (`CountsOfRound`, `ShortRound`, `FailedReadCounts`).
* **Codecs.** Round trips, prefix-freedom, independence of key order, agreement of the codecs, and the
  bytes themselves (`PackPlayerBytes`, `EncodeBytes`, `AnsweredExactly`, `TemplateExchange`).
* **Writer.** It succeeds exactly when the text is strictly shorter than the buffer; pipelined
  responses read back uniquely; every failure has its exact code; the calculated size is enough exactly below 10^9.
* **Start-up.** One worker at a time, OK only when all have listened and signalled once, every
  eventfd closed exactly once on every successful start.

## What the code does not promise

Where a promise is false of the code, the model keeps the code and proves when it holds:

* `drain_packets` (bench/binary_loadgen_uring.c:209) leaves a frame with an illegal length in the
  buffer, so the error count depends on how the stream is cut. It is the same for every cutting
  if and only if the stream without its last byte shows no illegal header, over all sequences of
  receives into the free room of the buffer (`ErrorCountIsChunkingFree`, `TwoReceivesCountTwice`).
* Behind an illegal header the receive buffer can fill up: exactly when 4096 bytes of the stream
  are left unconsumed (`CanFillExactly`). The next receive then goes to offset 0 and `rlen` runs
  past the buffer (bench/binary_loadgen_uring.c:196, 314). While the front stays an illegal length
  the counts stay those of the stream (`AccumulationMeaning`); when a receive puts a legal length
  there, the `memmove` at line 216 runs past the end of `rbuf`. That is the exact condition
  (`OverrunExactly`), 4096 zero bytes and then 0, 1 meet it (`OverrunRun`), and no stream with
  legal lengths does (`LegalStreamFits`).
* A receive that is refused a submission entry (bench/binary_loadgen_uring.c:193) is never submitted
  again, and its connection completes nothing more (`DeafForever`); if none is refused, the client
  never gets stuck (`Progress`).
* `in_flight` is raised even when a submission is given up (bench/binary_loadgen_uring.c:180-184),
  so it bounds the outstanding requests and exceeds them by exactly the submissions given up
  (`DepthAccounting`). While seeding these are max(0, conns * depth - 8192)
  (`SeedingLosesNothingExactly`, `NominalDepth`).
* bench/binary_loadgen_uring.c:181 says that a submission given up is retried on the next
  completion. Nothing retries it (`LossIsForever`, `StarvedForever`).
* A default start does not always start workers: src/infrastructure/server_infrastructure.c:79
  ignores that the worker manager refuses the fall-back of one worker without a CPU list, and
  the parent is told OK with no worker. Every CPU gets its worker if and only if the set is not
  empty and could be queried and copied (`EveryCpuHasItsWorker`, `FallBackStartsNothing`).
* After a failed round the blocking client goes on with the same descriptor
  (bench/binary_loadgen.c:186-198): it counts replies of the failed round as those of the next
  one (`StaleRound`), and a half-written request is completed by the next one's bytes
  (`FailedSendLeaves`, `HalfWrittenRaw`, `HalfWrittenMsgPack`).
* After a failing `eventfd_read` the parent leaves the closed descriptor in its table
  (src/platform/process.c:114-117) and clean-up closes it again; this is the only double close
  (`DoubleCloseExactly`, `DoubleCloseRun`).
* The worker manager takes descriptor 0 for "not set", so a worker whose eventfd is descriptor 0
  never signals, and every other one whose write succeeds does (`SignalsExactly`,
  `DescriptorZeroBlocks`, `DescriptorZeroRun`).

## Assumptions

* TCP is a reliable FIFO of bytes per direction. Sends are executed whole; receives deliver any
  non-empty part of what is there. A submission entry may be unavailable at any time (`got`,
  `gotSqe`, `gotRecv`).
* MessagePack maps have short, non-empty string keys, which the code relies on
  (src/infrastructure/binary_server.c:169-170); MessagePack support is compiled in (Makefile:10).
* Every pipelined client connection sends the same template; the template's player is arbitrary
  in the model (the program uses x = 1, y = 2, hp = 200).
* A date is what `strftime` leaves in a 30-byte buffer: at most 29 characters, and exactly 29
  where a size is computed (IMF-fixdate, section 5.6.7 of RFC 9110).

## Model

| member | source | states |
|---|---|---|
| `Wire.SplitIsExact` | src/infrastructure/binary_server.c:106-123 | cutting a stream into frames loses and invents nothing: the stream is the frames taken followed by a tail that holds no whole frame |
| `Wire.SplitOfFrames` | src/infrastructure/binary_server.c:106-123 | frames followed by an incomplete or illegal rest are read back as exactly those frames: the framing is uniquely decodable |
| `Wire.SplitAppend` | src/infrastructure/binary_server.c:106-123 | splitting a longer stream is splitting its front and then the kept tail with the new bytes |
| `Wire.SplitIllegal` | bench/binary_loadgen_uring.c:207-211 | behind an illegal header nothing is ever taken, however many bytes follow |
| `Wire.LegalTailIsShort` | bench/binary_loadgen_uring.c:207-210 | on a stream with legal lengths at most 1 + limit bytes are left over |
| `MsgPack.PackUint` | src/infrastructure/binary_server.c:187-191 | an unsigned 16-bit number takes one to three bytes, one below 256 at most two |
| `MsgPack.UnpackPackedUint` | src/infrastructure/binary_server.c:170-175 | a packed number reads back over all three widths, leaving the rest alone |
| `MsgPack.UnpackPackedKey` | src/infrastructure/binary_server.c:169-174 | a packed one-character key reads back, leaving the rest alone |
| `PlayerCodec.PackPlayer` | src/infrastructure/binary_server.c:180-191 | an encoded player takes 10 to 15 bytes |
| `PlayerCodec.UnpackPackedMap` | src/infrastructure/binary_server.c:154-176 | a packed map of any entries reads back as those entries |
| `PlayerCodec.FieldLoopLooksUp` | src/infrastructure/binary_server.c:164-176 | the field loop is three independent look-ups of the last integer under the key characters 0x78, 0x79 and 0x68, cut to 16, 16 and 8 bits |
| `PlayerCodec.FieldOrderIrrelevant` | src/infrastructure/binary_server.c:164-176 | two orders of the same distinctly keyed fields give the same player |
| `PlayerCodec.UnpackAnyOrder` | src/infrastructure/binary_server.c:152-177 | the three entries of a player packed in any order decode to that player |
| `PlayerCodec.UnpackPackedPlayers` | src/infrastructure/binary_server.c:152-191 | concatenated encodings of any sequence of players decode to that sequence |
| `PlayerCodec.PackPlayerPrefixFree` | src/infrastructure/binary_server.c:180-191 | no encoding is a prefix of a different one |
| `PlayerCodec.Encode` | src/infrastructure/binary_server.c:142-147 | a payload starts with its codec's tag and has 6 to 16 bytes, so it fits every reply buffer |
| `PlayerCodec.Respond` | src/infrastructure/binary_server.c:124-208 | a reply payload keeps the request's tag and has 6 to 16 bytes, or the connection is dropped |
| `PlayerCodec.DecodeEncoded` | src/infrastructure/binary_server.c:127-177 | decoding an encoded player gives it back, in either codec |
| `PlayerCodec.RawEncodingIsCanonical` | src/infrastructure/binary_server.c:134-146 | a raw payload is the one encoding of the player it decodes to |
| `PlayerCodec.RespondEncoded` | src/infrastructure/binary_server.c:37-42 | the answer to an encoded player is the encoding of the mutated player in the same codec |
| `PlayerCodec.EchoIteration` | src/infrastructure/binary_server.c:124-212 | every reply is a legal request, and n exchanges give x + n, y + n modulo 2^16 and max(0, hp - n), for every n |
| `ServerParse.ParseMeaning` | src/infrastructure/binary_server.c:104-214 | the parse result is the only reading of the stream as answered requests followed by an incomplete frame (open) or a fatal one (closed) |
| `ServerParse.ParseOfFrames` | src/infrastructure/binary_server.c:104-214 | answerable requests at the front of a stream are answered one by one, and parsing goes on behind them |
| `ServerParse.ParseAppend` | src/infrastructure/binary_server.c:104-214 | parsing a longer stream is feeding the new bytes to the state after the shorter one |
| `ServerParse.ChunkingInvariance` | src/infrastructure/binary_server.c:104-214 | for every list of read events the replies, the outcome and the kept bytes are those of the whole stream |
| `ServerParse.RepliesGrow` | src/infrastructure/binary_server.c:104-214 | replies to a prefix are a prefix of the replies, and a closed connection stays as it is |
| `ServerParse.ServerAnswersInOrder` | src/infrastructure/binary_server.c:127-201 | for any mix of codecs the reply stream is the mutated players, in order, each in its request's codec, with nothing kept |
| `ServerParse.CodecAgreement` | src/infrastructure/binary_server.c:127-201 | a client decodes the reply stream to the mutated players whichever codec carried them |
| `WireFormat.FrameBytes` | src/infrastructure/binary_server.c:142-145 | a frame starts with the length of its payload, most significant byte first, and goes on with the payload |
| `WireFormat.PackUintBytes` | src/infrastructure/binary_server.c:187-191 | a number is written as positive fixint up to 0x7f, as 0xcc and a byte up to 0xff, and as 0xcd and two bytes, most significant first, beyond |
| `WireFormat.PackPlayerBytes` | src/infrastructure/binary_server.c:180-191 | a player is 0x83 and the keys `x`, `y` and `h` in this order, each behind 0xa1 and before its number |
| `WireFormat.EncodeBytes` | src/infrastructure/binary_server.c:27-35 | the raw payload is the byte 1, both coordinates with the most significant byte first, and the hit points; the MessagePack payload is the byte 2 and the map |
| `WireFormat.UintForms` | src/infrastructure/binary_server.c:170-175 | the decoder reads positive fixint, uint 8, uint 16 and uint 32, most significant byte first, and leaves the rest alone |
| `WireFormat.WidestUint` | src/infrastructure/binary_server.c:170-175 | it reads uint 64, of which the casts keep the last two bytes or the last |
| `WireFormat.OneByteForms` | src/infrastructure/binary_server.c:164-176 | nil, booleans and negative fixints are read and carry no number |
| `WireFormat.KeyForms` | src/infrastructure/binary_server.c:169-169 | keys of 1 to 31 characters are read whole |
| `WireFormat.FirstCharacterSelects` | src/infrastructure/binary_server.c:164-176 | the first character of a key alone selects x, y or the hit points; too wide numbers lose their high bits; a field without a number is 0 |
| `WireFormat.AnsweredExactly` | src/infrastructure/binary_server.c:124-208 | the server answers a payload if and only if it is six bytes with tag 1, or has tag 2 and starts with a readable map of three entries |
| `WireFormat.RawAnswer` | src/infrastructure/binary_server.c:127-148 | the answer to a raw payload, byte by byte: coordinates one higher modulo 2^16, hit points one lower but not below 0 |
| `WireFormat.LengthLimits` | src/infrastructure/binary_server.c:114-121 | a length of 0 or above 256 drops the connection at once, one from 1 to 256 is waited for |
| `WireFormat.TemplateExchange` | bench/binary_loadgen_uring.c:97-118 | the pipelined client's MessagePack template is 00 0c 02 83 a1 78 01 a1 79 02 a1 68 cc c8, and the server answers it with 00 0c 02 83 a1 78 02 a1 79 03 a1 68 cc c7 |
| `BinaryServer.RawReply` | src/infrastructure/binary_server.c:127-148 | the raw branch writes the frame of the specified reply |
| `BinaryServer.ReadFields` | src/infrastructure/binary_server.c:164-176 | the loop over the map entries computes the specified player |
| `BinaryServer.MsgPackReply` | src/infrastructure/binary_server.c:150-201 | the MessagePack branch answers with the frame of the specified reply, or fails exactly when there is none |
| `BinaryServer.Reply` | src/infrastructure/binary_server.c:124-208 | the dispatch on the tag answers or fails exactly as specified |
| `BinaryServer.EraseElements` | src/infrastructure/binary_server.c:75-82 | erasing a listed connection removes it and nothing else and keeps the list free of duplicates |
| `BinaryServer.EraseKeepsTheOthers` | src/infrastructure/binary_server.c:75-82 | every other connection is listed after the erasure exactly if it was before |
| `BinaryServer.EraseFds` | src/infrastructure/binary_server.c:75-82 | the descriptors of the list lose exactly the erased one's |
| `BinaryServer.Connection.constructor` | src/infrastructure/binary_server.c:70-72 | a new connection is active with nothing received, kept or sent |
| `BinaryServer.Server.constructor` | src/infrastructure/binary_server.c:233-238 | a new server is closed with an empty list |
| `BinaryServer.Server.Open` | src/infrastructure/binary_server.c:245-249 | opening marks the server open and keeps its list in order |
| `BinaryServer.Server.ConnOpen` | src/infrastructure/binary_server.c:62-73 | an accepted descriptor becomes one new connection at the end of the list, or is closed at once when no node can be had |
| `BinaryServer.Server.ConnClose` | src/infrastructure/binary_server.c:75-82 | an active connection is closed and erased once; an inactive one is left alone |
| `BinaryServer.Server.ListenerCallback` | src/infrastructure/binary_server.c:85-97 | the first 32 waiting connections are accepted, the others stay; those with a node are appended in order, active and with nothing received, and exactly the descriptors of those without one are closed |
| `BinaryServer.Server.ConnPacket` | src/infrastructure/binary_server.c:106-213 | one turn either consumes one packet and flushes its reply, or stops because more bytes are needed, or closes and erases |
| `BinaryServer.Server.ConnProcess` | src/infrastructure/binary_server.c:104-214 | the loop sends, keeps and closes exactly what the parse of the input buffer says |
| `BinaryServer.Server.StillValid` | src/infrastructure/binary_server.c:216-229 | if handling one connection left the others unchanged, the list is again in order and the descriptors balance |
| `BinaryServer.Server.ConnCallback` | src/infrastructure/binary_server.c:216-229 | after every read event all bytes ever sent on the connection are the whole-stream parse of all bytes ever received |
| `BinaryServer.Server.Shutdown` | src/infrastructure/binary_server.c:251-268 | shutdown empties the list, closes every live connection once, and then every accepted descriptor has been closed |
| `ServerRuns.DescriptorsBalance` | src/infrastructure/binary_server.c:62-82 | over every run accepted = closed + live descriptors, and once stopped all are closed and none is live |
| `ServerRuns.AcceptedAreTheArrivals` | src/infrastructure/binary_server.c:85-97 | over every run the accepted descriptors are exactly the arrivals an open server took, at most 32 a call, and the connections ever opened are those of them with a node, in order |
| `ServerRuns.ReceivedAreTheChunks` | src/infrastructure/binary_server.c:216-229 | over every run a connection, live or closed, has received exactly the chunks delivered to it and was sent exactly the replies of their parse, and is active if and only if the server runs, the peer has not closed and what was received is answerable |
| `ServerRuns.Reactor.Accept` | src/infrastructure/binary_server.c:85-97 | a ready listener takes the server and all its connections one step of the fold on |
| `ServerRuns.Reactor.Dispatch` | src/infrastructure/binary_server.c:216-229 | an event takes exactly its connection one step on, and the list and the descriptors with it |
| `ServerRuns.Reactor.Halt` | src/infrastructure/binary_server.c:251-268 | the end of the program ends every connection and closes exactly the live descriptors |
| `ServerRuns.Run` | src/infrastructure/binary_server.c:62-97 | for every script of ready listeners, events and stops, server, descriptors and every connection ever opened, with what it received and was sent, are the fold of the script; a connection is listed if and only if it is active |
| `LoadgenCore.Request` | bench/binary_loadgen_uring.c:97-118 | the request template fits a 32-byte send slot |
| `LoadgenCore.TagsDecode` | bench/binary_loadgen_uring.c:139-151 | a tag decodes to the operation, connection and slot it was made from |
| `LoadgenCore.TagsOnWords` | bench/binary_loadgen_uring.c:141-151 | on 64-bit words the shifts, masks and ors of the program are the arithmetic of the model |
| `LoadgenCore.DrainStops` | bench/binary_loadgen_uring.c:205-210 | draining stops, in terms of the tests the program makes on the buffer, on fewer than two bytes or less than the announced reply, and with one error on a length of 0 or above 64 |
| `LoadgenCore.DrainTakes` | bench/binary_loadgen_uring.c:211-218 | otherwise it counts one reply by its first byte, shifts the rest down and goes on |
| `LoadgenCore.DrainSplits` | bench/binary_loadgen_uring.c:202-220 | draining is splitting: the bytes kept are the unconsumed tail, right tags are completions, everything else is an error |
| `LoadgenCore.SubmitSend` | bench/binary_loadgen_uring.c:174-187 | a submission keeps the pool's shape and touches no connection |
| `CompletionCounts.TagNumbers` | bench/binary_loadgen_uring.c:141-151 | the tag of a send is 65536 * slot + 4 * connection, that of a receive one more than 4 * connection |
| `CompletionCounts.ReceiveTarget` | bench/binary_loadgen_uring.c:189-199 | a granted receive is queued last, at `rlen` with room for the rest of the 4096 bytes, or at 0 with room for all when the buffer is full; a refused one changes nothing |
| `CompletionCounts.MatchingAppend` | bench/binary_loadgen_uring.c:212-215 | the replies counted of a stream are the sum of those counted of its parts |
| `CompletionCounts.ReceiveCounts` | bench/binary_loadgen_uring.c:202-220 | for any bytes in the buffer `g_total_completed` and the connection grow by the replies with the right tag, `g_total_errors` by all other frames and by one for an illegal header behind them, `in_flight` falls by the completions, and the bytes kept are the unconsumed tail |
| `CompletionCounts.ReceiveBehindTheEnd` | bench/binary_loadgen_uring.c:209-209 | past the end of the buffer, behind an illegal length, a receive counts one error and keeps everything |
| `CompletionCounts.HandleSendCounts` | bench/binary_loadgen_uring.c:306-310 | handling a send completion takes it off the ring, gives back the slot its tag names while the stack has room among 8192, and changes no counter, connection or slot contents |
| `CompletionCounts.HandleReceiveCounts` | bench/binary_loadgen_uring.c:311-324 | handling a receive completion, for any bytes: one refill per reply with the right tag, both completion counters up by these, the error counter up by every other frame and an illegal header, `in_flight` of the connection unchanged, the rest of the ring in order and the other connections untouched |
| `CompletionCounts.HandleBehindTheEnd` | bench/binary_loadgen_uring.c:311-324 | past the end of the buffer a receive completion counts one error, refills nothing and is submitted again |
| `Accumulation.AccumulationMeaning` | bench/binary_loadgen_uring.c:189-220 | after any receives on the 4096 bytes, as long as no drain has run past them, completions and `rlen` are those of the whole stream; inside the buffer the bytes are exactly its unconsumed suffix; the errors exceed the stream's by one for each receive that finds an illegal header |
| `Accumulation.OverrunExactly` | bench/binary_loadgen_uring.c:216-216 | the drain after a receive the kernel can make runs past the buffer if and only if a whole buffer of the stream is left unconsumed and the receive puts a legal length at the front |
| `Accumulation.OverrunRun` | bench/binary_loadgen_uring.c:196-216 | 4096 zero bytes and then the bytes 0 and 1 reach it |
| `Accumulation.FitsExactly` | bench/binary_loadgen_uring.c:194-198 | the sequences of receives that never wrap to offset 0 are exactly those of which each fits behind the unconsumed suffix |
| `Accumulation.LegalStreamFits` | bench/binary_loadgen_uring.c:194-198 | over any stream with legal lengths no sequence of receives the kernel can make runs past the buffer, `rlen` is at most 65 after each, and the wrap to offset 0 is never taken |
| `Accumulation.ReceivableExactly` | bench/binary_loadgen_uring.c:194-198 | a stream can be received without wrapping if and only if at most 4096 bytes of it are left unconsumed |
| `Accumulation.CanFillExactly` | bench/binary_loadgen_uring.c:196-196 | the buffer can fill up if and only if exactly 4096 bytes are left unconsumed, which needs an illegal header |
| `Accumulation.OneIllegalReceiveAtMost` | bench/binary_loadgen_uring.c:209-209 | if only the last byte can complete an illegal header, every sequence of receives counts it exactly once |
| `Accumulation.ErrorCountIsChunkingFree` | bench/binary_loadgen_uring.c:207-219 | over receives into the free room the error count is independent of the chunking if and only if the stream without its last byte shows no illegal header (or cannot be received that way) |
| `Accumulation.TwoReceivesCountTwice` | bench/binary_loadgen_uring.c:209-209 | otherwise there are two such sequences of receives, the last two bytes apart and together, whose counts differ by one |
| `SendPool.SlotsPartitioned` | bench/binary_loadgen_uring.c:153-172 | free stack and pending sends are duplicate-free and partition all 8192 slots |
| `SendPool.FreshPool` | bench/binary_loadgen_uring.c:158-162 | the initial pool keeps the invariant |
| `SendPool.SubmitKeepsPool` | bench/binary_loadgen_uring.c:174-187 | every submission keeps it, including the give-back when no entry is available |
| `SendPool.CompletionKeepsPool` | bench/binary_loadgen_uring.c:306-310 | the completion of a send keeps it and gives back exactly the slot its tag names |
| `SendPool.HeldSlotIsNotFree` | bench/binary_loadgen_uring.c:153-154 | the slot of a pending send is never on the free stack |
| `UringClient.SlotStack.constructor` | bench/binary_loadgen_uring.c:158-162 | the stack starts with all slots |
| `UringClient.SlotStack.Alloc` | bench/binary_loadgen_uring.c:163-168 | pops the top slot, or answers -1 on an empty stack and changes nothing |
| `UringClient.SlotStack.Release` | bench/binary_loadgen_uring.c:169-172 | pushes the slot if it is a slot and there is room |
| `UringClient.MoveDown` | bench/binary_loadgen_uring.c:216-216 | the overlapping move puts the bytes from `from` on to the front and leaves the rest |
| `UringClient.Connection.DrainPacket` | bench/binary_loadgen_uring.c:205-218 | one turn of the drain loop on the array |
| `UringClient.Connection.DrainPackets` | bench/binary_loadgen_uring.c:202-220 | the in-place loop computes the specified buffer, completions and errors |
| `UringClient.Connection.Receive` | bench/binary_loadgen_uring.c:314-319 | accepting the bytes of one receive equals the function on values |
| `UringClient.Loadgen.constructor` | bench/binary_loadgen_uring.c:253-271 | the client starts with all slots free, an empty ring and zeroed counters |
| `UringClient.Loadgen.FillSlot` | bench/binary_loadgen_uring.c:178-182 | takes the top slot and copies the request into it, or finds none and changes nothing |
| `UringClient.Loadgen.QueueSend` | bench/binary_loadgen_uring.c:174-187 | the submission with its give-back equals the function on values |
| `UringClient.Loadgen.SubmitSend` | bench/binary_loadgen_uring.c:174-187 | equals the submission on values |
| `UringClient.Loadgen.SubmitRecv` | bench/binary_loadgen_uring.c:189-199 | equals the receive submission on values, with the target at `rlen` or, on a full buffer, at 0 |
| `UringClient.Loadgen.SubmitCounted` | bench/binary_loadgen_uring.c:282-282 | a submission and `in_flight++`, whether or not it went through |
| `UringClient.Loadgen.RefillLoop` | bench/binary_loadgen_uring.c:321-321 | equals the refill on values: one submission and one `in_flight` per turn |
| `UringClient.Loadgen.ReceiveBytes` | bench/binary_loadgen_uring.c:314-319 | equals the receive on values, of which `ReceiveCounts` says what it does to every counter |
| `UringClient.Loadgen.HandleCompletion` | bench/binary_loadgen_uring.c:298-324 | one turn of the completion loop equals the step on values and touches nothing else |
| `UringClient.Loadgen.SeedConnection` | bench/binary_loadgen_uring.c:280-284 | seeding one connection equals the step on values |
| `Pipeline.RequestIsAnswered` | src/infrastructure/binary_server.c:124-201 | the server answers the client's template with the reply the client counts |
| `Pipeline.ServeFlow` | src/infrastructure/binary_server.c:104-214 | a server read of any size turns whole requests into as many replies and loses none |
| `Pipeline.LandFlow` | bench/binary_loadgen_uring.c:189-199 | a receive of any size moves reply bytes from the channel behind the accumulated ones and changes no count |
| `Pipeline.DrainFlow` | bench/binary_loadgen_uring.c:202-220 | draining turns exactly the whole replies into completions, without an error |
| `PipelineProof.RefillEffect` | bench/binary_loadgen_uring.c:320-321 | a refill adds one send per turn that does not fail, and nothing else |
| `PipelineProof.SubmitRecvEffect` | bench/binary_loadgen_uring.c:189-199 | while the buffer has room the receive targets its end and the fall-back is not taken |
| `PipelineProof.InitPossible` | bench/binary_loadgen_uring.c:253-271 | every number of connections up to 4096 has an initial state, whatever the depth |
| `PipelineProof.InitInv` | bench/binary_loadgen_uring.c:253-271 | the initial state keeps the invariant |
| `PipelineProof.SeedInv` | bench/binary_loadgen_uring.c:279-285 | seeding a connection keeps the invariant |
| `PipelineProof.TransmitInv` | bench/binary_loadgen_uring.c:185-186 | the kernel executing a pending send keeps the invariant |
| `PipelineProof.ServeInv` | src/infrastructure/binary_server.c:104-214 | a server read of any size keeps the invariant |
| `PipelineProof.LandInv` | bench/binary_loadgen_uring.c:197-198 | the kernel executing a pending receive with any number of bytes keeps the invariant |
| `PipelineProof.CompleteSendInv` | bench/binary_loadgen_uring.c:306-310 | handling a send completion keeps the invariant |
| `PipelineProof.CompleteRecvInv` | bench/binary_loadgen_uring.c:311-324 | handling a receive completion keeps the invariant |
| `PipelineProof.StepInv` | bench/binary_loadgen_uring.c:292-328 | every step of client, kernel and server keeps the invariant |
| `PipelineProof.RunInv` | bench/binary_loadgen_uring.c:279-328 | the invariant holds in every reachable state |
| `PipelineTheorems.EndToEndConservation` | bench/binary_loadgen_uring.c:202-220 | in every reachable state each request sent is before the server, or its reply is on the way, or it is counted; no error is counted and no connection dropped |
| `PipelineTheorems.ReceiveBufferIsSafe` | bench/binary_loadgen_uring.c:189-220 | at most one receive per connection is pending, its target is `rlen`, which is at most 65, so no move shifts bytes under it |
| `PipelineTheorems.SlotsAreSafe` | bench/binary_loadgen_uring.c:153-187 | in every reachable state free stack and pending sends partition the slots, tags name connection and slot, and a send not yet executed finds its request |
| `PipelineTheorems.DepthAccounting` | bench/binary_loadgen_uring.c:279-323 | `in_flight` is the depth on every seeded connection and exceeds the outstanding requests by exactly the submissions given up |
| `PipelineTheorems.CompletionsAreHandled` | bench/binary_loadgen_uring.c:298-324 | whatever completion comes first, its tag names an existing slot, or a connection with room for the bytes |
| `PipelineProgress.Progress` | bench/binary_loadgen_uring.c:292-328 | in every reachable state after seeding, if every receive found a submission entry, a connection with something outstanding has a step of its own that can be taken |
| `PipelineProgress.StepReady` | bench/binary_loadgen_uring.c:292-328 | with receives granted every step leaves no whole frame unconsumed in either buffer and exactly one receive per seeded connection |
| `PipelineProgress.DeafForever` | bench/binary_loadgen_uring.c:193-193 | a connection whose receive was refused an entry is never given another and completes nothing more |
| `PipelineProgress.RefusedReceiveDeafens` | bench/binary_loadgen_uring.c:193-193 | refusing the receive of a connection while it is seeded leads there |
| `PipelineDepth.SeedingLosesNothingExactly` | bench/binary_loadgen_uring.c:247-249 | with entries available exactly max(0, conns * depth - 8192) submissions are given up while seeding, none if and only if conns * depth <= 8192 |
| `PipelineDepth.ReceiveLoss` | bench/binary_loadgen_uring.c:320-321 | handling a receive gives up exactly the refills beyond the slots no send holds |
| `PipelineDepth.ExactDepth` | bench/binary_loadgen_uring.c:247-249 | with conns * depth <= 8192, entries available and sends completed before their replies, nothing is ever given up and exactly `depth` requests are outstanding |
| `PipelineDepth.PoolTooSmall` | bench/binary_loadgen_uring.c:247-249 | with more, one and the same connection has fewer than `depth` requests outstanding at every moment after seeding, although `in_flight` says `depth` |
| `PipelineDepth.FullDepthExactly` | bench/binary_loadgen_uring.c:247-249 | on orderly runs every connection has its depth outstanding if and only if conns * depth <= 8192 |
| `PipelineDepth.DefaultDepth` | bench/binary_loadgen_uring.c:227-227 | with the default of 256 connections and depth 16 nothing is given up on any orderly run, and the whole depth is outstanding after seeding |
| `PipelineDepth.LossIsForever` | bench/binary_loadgen_uring.c:181-181 | a submission given up is never made good: the count never falls |
| `PipelineDepth.StarvedForever` | bench/binary_loadgen_uring.c:181-181 | a connection that has lost its whole depth completes nothing any more |
| `PipelineDepth.NominalDepth` | bench/binary_loadgen_uring.c:279-285 | every set-up with conns * depth > 8192 has a run, seeding alone with every entry available, after which some `in_flight` is the depth with less outstanding |
| `BlockingClient.ReadExactlyDelivers` | bench/binary_loadgen.c:101-116 | for every schedule the bytes stored are the next bytes of the stream, none skipped, n of them on success and fewer on failure |
| `BlockingClient.ReadExactlySucceeds` | bench/binary_loadgen.c:101-116 | with short reads and interruptions only, it succeeds if and only if n bytes arrive |
| `BlockingClient.ReadFrameConsumesOne` | bench/binary_loadgen.c:119-127 | a successful reply read has taken exactly one frame of 1 to 63 bytes off the stream, the one it returns |
| `BlockingClient.ReadFrameOf` | bench/binary_loadgen.c:119-127 | a legal frame at the front is what is read, and the read succeeds for every benign schedule |
| `BlockingClient.Socket.ReadN` | bench/binary_loadgen.c:101-116 | the loop stores what the specification says and nothing behind it |
| `BlockingClient.Socket.ReadReply` | bench/binary_loadgen.c:119-127 | the length and the payload of one frame, or -1 |
| `BlockingClient.BuildRequest` | bench/binary_loadgen.c:67-97 | both builders leave the frame of the encoded player in the 64-byte buffer |
| `BlockingClient.Worker.SendOne` | bench/binary_loadgen.c:175-188 | a write that takes the whole request advances x, any other counts one error, and the server sees exactly the bytes taken |
| `BlockingClient.Worker.constructor` | bench/binary_loadgen.c:157-162 | hp is 200, x and y as given and the depth at least one |
| `BlockingClient.Worker.SendAll` | bench/binary_loadgen.c:173-189 | on a connection in any state the loop writes what the specification of the round says, stops at the first write that is not whole and counts one error then |
| `BlockingClient.Worker.ReceiveAll` | bench/binary_loadgen.c:191-197 | on a connection in any state the loop reads and counts what the specification says, and one error when a read fails or a tag is foreign |
| `BlockingClient.Worker.Round` | bench/binary_loadgen.c:170-198 | a round on a connection in any state, after whatever happened before, equals its specification: x, round trips, errors and what is left on the connection; `CountsOfRound` and `ShortRound` say what these are |
| `BlockingClient.CleanRound` | bench/binary_loadgen.c:170-198 | with nothing outstanding an error-free round adds exactly `depth` round trips and leaves nothing outstanding; over benign reads it is error-free if and only if every write is whole |
| `BlockingClient.StaleRound` | bench/binary_loadgen.c:191-197 | with replies of earlier rounds still to be read a round counts those first and leaves as many of the newest behind |
| `BlockingClient.FailedSendLeaves` | bench/binary_loadgen.c:185-186 | a round that fails at write d leaves the replies to the d requests before it and the part of request d that was taken |
| `RoundCounts.ReadExactlyStores` | bench/binary_loadgen.c:101-116 | for every schedule a read of n bytes stores exactly as many as are wanted, as arrive, and as come before a failure, the end of the file or an interruption after the stop signal |
| `RoundCounts.ReadExactlyFails` | bench/binary_loadgen.c:101-116 | it succeeds if and only if all n bytes arrive and come before such an event |
| `RoundCounts.ReadFrameFails` | bench/binary_loadgen.c:119-127 | a failing reply read has taken an incomplete frame off the stream, or exactly the two bytes of a length that is 0 or above 63 |
| `RoundCounts.ReadsCount` | bench/binary_loadgen.c:191-197 | whatever is on the stream and whatever the reads do, the round trips counted are the frames with the right tag among the bytes taken; a foreign frame is taken, not counted, and ends the round |
| `RoundCounts.CountsOfRound` | bench/binary_loadgen.c:170-198 | a round with whole writes on a connection in any state: x is one higher per request, the server has seen all requests, and the count is that of the bytes taken, also when a read fails |
| `RoundCounts.ShortRound` | bench/binary_loadgen.c:185-186 | a round whose first write that is not whole is number d, on a connection in any state: nothing is counted, x is d higher, and the server has seen d requests and the front of one more |
| `RoundCounts.FailedReadCounts` | bench/binary_loadgen.c:191-197 | on a clean connection the round trips of a round with whole writes are exactly the outstanding and new replies taken whole off the stream, and the round fails if and only if they are fewer than its requests |
| `HalfWritten.HalfWrittenRaw` | bench/binary_loadgen.c:185-186 | the next raw request completes a half-written one: after one or two bytes the server drops the connection, after more it answers the player read across both and goes on inside the new request |
| `HalfWritten.HalfWrittenMsgPack` | bench/binary_loadgen.c:185-186 | a request after a half-written MessagePack one is kept waiting while bytes are missing, answered if and only if the old one was cut inside its hit points, which are then 0, and otherwise gets the connection dropped |
| `HalfWritten.CutFields` | src/infrastructure/binary_server.c:154-176 | a map completed by the start of another frame decodes if and only if the cut is inside its last entry |
| `HttpText.DecRoundTrip` | src/domain/http_response.c:188-190 | a printed number consists of digits and reads back |
| `HttpText.DecLength` | src/domain/http_response.c:90-91 | a number has at most k digits if and only if it is below 10^k |
| `HttpResponse.StatusLineReads` | src/domain/http_response.c:39-43 | the three digits of a status line are its status |
| `HttpResponse.FirstLines` | src/domain/http_response.c:39-43 | the status line of each status, the server line, and the date line if it is wanted, in this order before the two fields |
| `HttpResponse.HeaderFieldsRead` | src/domain/http_response.c:128-211 | content type 0 reads back as text/plain and 1 as application/json, and the length is found, with or without a date |
| `HttpResponse.ResponseRoundTrip` | src/domain/http_response.c:103-233 | a serialised response followed by anything reads back as its status, text/plain or application/json, and its body, and the reader stops at its end |
| `HttpResponse.ResponsesRoundTrip` | src/domain/http_response.c:103-233 | any list of concatenated responses reads back one by one (sections 6.3 of RFC 9112 and 8.6 of RFC 9110) |
| `HttpResponse.ResponsesAreUnambiguous` | src/domain/http_response.c:103-233 | equal bytes mean equal lists of statuses, content types and bodies |
| `HttpResponse.SerialiseIsThePieces` | src/domain/http_response.c:117-229 | the response is the concatenation of the texts the writer copies |
| `HttpResponse.BuildSucceedsExactly` | src/domain/http_response.c:103-233 | a fresh buffer takes a response if and only if the configuration is valid and the text strictly shorter than the buffer; a valid one fails only with overflow |
| `HttpResponse.ValidExactly` | src/domain/http_response.c:33-43 | a configuration is valid if and only if the status is 200, 404 or 500, the content type 0 or 1, and the length has at most 15 digits |
| `HttpResponse.ResponseSize` | src/domain/http_response.c:103-233 | the length of a response as a sum of numbers |
| `HttpResponse.BuildFailsExactly` | src/domain/http_response.c:117-191 | which code an invalid configuration gets: an unknown status is a parameter error at once; an unknown content type or too long a length is one only if everything before it fits, and an overflow otherwise |
| `HttpResponse.PlaintextAnswer` | src/domain/http_server.c:138-143 | the response of the plaintext route, character by character |
| `HttpResponse.SizeIsAdequate` | src/domain/http_response.c:56-101 | a buffer of the calculated size suffices if and only if the body length is below 10^9, one more byte if and only if it is below 10^10; the slack is exactly ten less the digits of the body length |
| `HttpResponse.CalculatedSize` | src/domain/http_response.c:56-101 | the calculated size as a sum of numbers |
| `HttpResponse.CalculatedSizeCanBeTooSmall` | src/include/domain/http_response.h:80-80 | a body of 10^9 characters for which the calculated size is too small |
| `ResponseWriter.CalculateSize` | src/domain/http_response.c:56-101 | 0 for an unknown status or content type, else the length of all texts and the body with ten characters for the digits of the length |
| `ResponseWriter.StampDate` | src/domain/http_response.c:142-148 | the header keeps its prefix and its line is the date just stamped |
| `ResponseWriter.ResponseBuffer.Init` | src/domain/http_response.c:235-248 | size 0 is refused, otherwise an empty buffer over the memory |
| `ResponseWriter.ResponseBuffer.Reset` | src/domain/http_response.c:250-255 | nothing is used any more |
| `ResponseWriter.ResponseBuffer.BuildField` | src/domain/http_response.c:163-211 | a header field is put whole after one check, or the buffer is left alone |
| `ResponseWriter.ResponseBuffer.Build` | src/domain/http_response.c:103-233 | the code is that of the first failing check; on success the text with the header fields `HeaderFieldsRead` finds, its length and the untouched rest; on failure `used` and everything past `size` are unchanged |
| `Startup.StepInv` | src/platform/process.c:85-188 | every step of the parent and of a worker keeps the invariant |
| `Startup.RunInv` | src/platform/process.c:85-188 | the invariant holds over every interleaving |
| `Startup.ForkKeeps` | src/platform/process.c:99-110 | a fork, successful or not, keeps the invariant |
| `Startup.HearKeeps` | src/platform/process.c:112-119 | hearing from the worker, or failing to, keeps the invariant |
| `Startup.SetUpKeeps` | src/platform/process.c:126-153 | a worker setting itself up, pinned or not, keeps its invariant |
| `Startup.SignalKeeps` | src/platform/process.c:162-188 | signalling, with every refusal, keeps the worker's invariant |
| `Startup.CleanKeeps` | src/platform/process.c:62-83 | a worker's clean-up keeps its invariant: it closes what is still open and nothing else |
| `Startup.ParentCleanupKeeps` | src/platform/process.c:62-83 | the parent's clean-up keeps the invariant, whatever the parent returned |
| `Startup.OneWorkerAtATime` | src/platform/process.c:92-124 | at most one worker is forked but not ready, and it is the last one forked |
| `Startup.ForkedInOrder` | src/platform/process.c:112-123 | a worker is forked only when every earlier one has listened and signalled |
| `Startup.OkMeansAllReady` | src/infrastructure/server_infrastructure.c:133-170 | the parent gets OK only when all workers have opened their listener and signalled exactly once, each on its own CPU |
| `Startup.DescriptorZeroBlocks` | src/platform/process.c:173-176 | a worker whose eventfd is descriptor 0 never signals and the parent never gets past it |
| `Startup.SignalsExactly` | src/platform/process.c:173-179 | a listening worker whose write succeeds signals if and only if its eventfd is positive; descriptor 0 gets a parameter error, a failing write an eventfd error |
| `Startup.SignalTwice` | src/platform/process.c:162-188 | the signal answers OK if and only if the eventfd was written, a second one is refused, a parent is always refused, and a refused or failed one changes nothing |
| `Startup.DescriptorZeroRun` | src/platform/process.c:173-176 | a run in which the first eventfd is descriptor 0 ends with the worker in its loop unheard and the parent waiting |
| `Startup.EventfdsAreClosedOnce` | src/platform/process.c:62-188 | after a successful start the parent and every worker have closed each of their eventfds exactly once, and clean-up closes none again |
| `Startup.WorkersCloseOnlyTheirOwn` | src/platform/process.c:126-187 | at every moment a worker has closed nothing but its own eventfd, at most once |
| `Startup.DoubleCloseExactly` | src/platform/process.c:112-119 | the parent closes a descriptor twice if and only if it cleans up after a failed read |
| `Startup.DoubleCloseRun` | src/platform/process.c:112-117 | a run of four steps that reaches the double close |
| `WorkerManagement.ChildInherits` | src/platform/process.c:126-153 | the child of turn n inherits closed entries before n, holds exactly its own eventfd and closes nothing |
| `WorkerManagement.ParentOutcome` | src/platform/process.c:92-159 | the parent gets OK if and only if no turn fails, and has then closed and marked every eventfd in order |
| `WorkerManagement.FirstFailure` | src/platform/process.c:92-153 | the first turn that fails decides: a failing eventfd or read gives an eventfd error, a failing fork a fork error, a child that cannot be pinned a parameter error; exactly the eventfds created so far have been closed, and only a failed read leaves its entry set |
| `WorkerManagement.ParentIsTheLoop` | src/platform/process.c:92-159 | however the workers' steps are interleaved, the parent returns in the state and with the code of the sequential loop |
| `WorkerManagement.WorkerManager.Init` | src/platform/process.c:18-60 | refuses a missing list or a non-positive count unchanged, a failed allocation with the count but no arrays (after the second one with a pointer to freed memory); otherwise a fresh manager over a copy of the list |
| `WorkerManagement.WorkerManager.BecomeWorker` | src/platform/process.c:126-153 | the child's branch on the array equals the function on values |
| `WorkerManagement.WorkerManager.AwaitWorker` | src/platform/process.c:106-123 | the parent's branch on the array equals the function on values |
| `WorkerManagement.WorkerManager.ForkWorkers` | src/platform/process.c:85-160 | the loop on the array equals the function on values |
| `WorkerManagement.WorkerManager.SignalReady` | src/platform/process.c:162-188 | the signal with all its refusals equals the function on values |
| `WorkerManagement.WorkerManager.CleanUp` | src/platform/process.c:62-83 | clean-up closes what is still stored and empties the manager |
| `CpuSet.MembersAreTheSet` | src/platform/system.c:62-72 | the enumeration holds exactly the CPUs of the set, in strictly increasing order |
| `CpuSet.GetCpuInfo` | src/platform/system.c:39-78 | the loop fills the array with the enumeration: exactly the CPUs of the set below 1024, increasing; failures in the source's order |
| `CpuSet.DefaultWorkers` | src/infrastructure/server_infrastructure.c:212-222 | the enumerated CPUs and their number, or the number one without a list, which the worker manager refuses |
| `CpuSet.JoinedReadsBack` | src/platform/system.c:106-125 | a list that was not cut short reads back as the CPUs it was made from |
| `CpuSet.JoinedCommas` | src/platform/system.c:112-117 | plain decimal numbers with one comma and no space before each but the first |
| `CpuSet.JoinedExample` | src/platform/system.c:112-117 | CPUs 0, 2 and 10 are printed as 0,2,10 |
| `CpuSet.Snprintf` | src/platform/system.c:114-117 | what fits and a NUL are stored, the full length is answered |
| `CpuSet.PrintList` | src/platform/system.c:107-125 | a non-empty set and room for a character give the first size - 1 characters of the list and a NUL, the rest of the buffer unchanged; otherwise the buffer is untouched; `written` stays below `size` |
| `CpuSet.AffinityString` | src/platform/system.c:93-132 | the same for the whole function, whose answer is never that the buffer is too small |
| `DefaultStartup.DefaultStart` | src/infrastructure/server_infrastructure.c:78-84 | configuration, manager and fork loop in sequence, for every outcome of the CPU query and the allocations |
| `DefaultStartup.EveryCpuHasItsWorker` | src/infrastructure/server_infrastructure.c:210-239 | a default start that answers OK has exactly one worker on every CPU of the set if and only if the set is not empty and could be queried and copied; otherwise it has no worker |
| `DefaultStartup.FallBackStartsNothing` | src/infrastructure/server_infrastructure.c:216-222 | when the affinity query fails the parent is told OK at once, with no worker |

## Left out

- libreactor (streams, descriptors, lists, event loop): a stream is an input buffer and an output log, the list a sequence of connections, and events go only to live connections. A stream's write failing or blocking is not modelled.
- The kernel side of io_uring and TCP beyond FIFO bytes: partial sends, socket errors (`res <= 0`), timing, and the limit of 512 completions per turn.
- BinaryServer.MsgPackReply: drops maps in forms the library also accepts (map16 and map32, str8 to str32 keys, signed integers, floats, strings, arrays and other values), because the model's decoder covers only the forms the codec writes and skips.
- MessagePack beyond fixmap, fixstr keys and unsigned integers, nil, booleans and negative fixint values: other forms (map16, signed 8 to 64 bit integers, floats, nested values) are refused by the model's decoder.
- Empty and non-string map keys, on which the program reads a character that is not there.
- UringClient.Connection.Receive: requires `rlen` to stay inside the buffer or the first length to be illegal, because after that the program's `memmove` runs past the end of `rbuf`; `OverrunExactly` says when it comes to this, and what the memory then holds is not modelled.
- UringClient.Loadgen.ReceiveBytes: as for `Connection.Receive`.
- UringClient.Loadgen.HandleCompletion: as for `Connection.Receive`.
- WorkerManagement.WorkerManager.ForkWorkers: requires a manager with its arrays, because after a failed allocation in `Init` the program goes over a null pointer; `DefaultStart` names that outcome.
- WorkerManagement.WorkerManager.CleanUp: requires that no freed list is stored, because after the second failed allocation in `Init` the program frees the list again.
- A pool slot's bytes beyond the request in it.
- The blocking client's outer loops over connections and time, its connection set-up and its threads; rounds on one connection are modelled.
- The stop signal of both clients except inside `read_n`.
- `http_response_init` and `http_response_cleanup`, which do nothing, and the null-pointer checks of the response functions.
- Wrap-around of `size_t` for body lengths near 2^64, and the calendar arithmetic inside `gmtime_r` and `strftime`.
- Liveness of start-up: when a worker fails before signalling the parent waits for ever, and the model says nothing about it.
- `worker_manager_wait_workers` and the getters of the worker manager.
- Other descriptors of a process: only eventfds are in a process's table, so reuse of a closed number by something else is not seen.
- src/domain/http_server.c, src/platform/socket.c, src/platform/signals.c, src/platform/log.c, argument parsing, clocks and rate printing: wrappers and easy members.
