# Verified model of the MQTT workspace

This project models the hard core of a Rust MQTT workspace (a packet codec, an asynchronous Tokio client and an embedded
client) in Dafny and proves what the code promises, over every input and every run. Five parts:

- **Packet codec and framing.** Variable byte integers, properties, all fourteen packet kinds under MQTT 3.1.1, 3 and 5,
  the encoders that shift their body in place, the decoders, and the frame iterator. Main results: decoding inverts
  encoding for every well-formed packet (`RoundTrip.DecodeInvertsEncoded`) exactly when its body is within the limit
  (`RoundTrip.RoundTripsIff`), that a frame is accepted as a packet exactly when it spells that packet by the tables of the
  standard (`WireFormat.AcceptedIff`), exactly when a decoder panics (`Totality.DecodePanicsIff`), and that a stream of packets is
  received whatever the reads exactly when none is empty or ends inside a length field (`Framing.StreamDelivers`).
- **Session engine of the Tokio client.** The event loop as a class over its two buffers and its maps, and the QoS 1
  protocol of client, broker and two FIFO links that lose everything when the connection drops (sections 4.3.2 and 4.4 of
  MQTT 3.1.1). Main results: at-least-once delivery in every run (`Session.AtLeastOnce`), bursts
  (`Bursts.BurstCompleteIff`), recovery (`EventLoop.RecoveryDelivers`), that the event loop's operations are steps of the
  protocol (module `Refinement`), and that every run over byte links, with drops, recoveries and reads that end
  anywhere but inside a length field, is a run of the protocol (`ByteSession.RunsRefine`), which carries at-least-once
  delivery over to the bytes (`ByteSession.BytesAtLeastOnce`, `ByteDelivery.ReadsFinish`).
- **Sequenced data streams.** The reordering consumer, the journalling producer, concurrent producers and typed payloads.
  Main results: in order if and only if no id is overtaken by more than the window (`StreamOrder.CompleteInOrderIff`), and
  exactly when a replay recovers (`StreamProducer.ReplayRecoversIff`).
- **Topic router.** The trie with pruning agrees with the plain list of registrations after any history
  (`Router.DispatchAfterAnyHistory`), is canonical (`Router.HistoriesAreCanonical`), and keeps free of empty nodes exactly
  while no used path loses its last registration to a dispatch (`Router.DispatchTidyIff`).
- **Embedded client.** The bounded in-flight table over `swap_remove` as a handshake state machine, batched and streamed
  publishes, and polling.

`dafny verify dfyconfig.toml` checks everything.

## How the model is built

- Loops, cursors and in-place buffers of the source are methods over arrays and fields; each is proved against a function
  of its inputs, and the properties are lemmas about those functions.
- Bytes and words are bounded integers. Bit operations on one byte are written as arithmetic (`b & 127` is `b % 128`).
  Packet identifiers wrap at 65,536 and skip 0. `usize` is unbounded; counts the source truncates are truncated.
- Strings are byte sequences with the UTF-8 validity of Table 3-7 of the Unicode Standard (`Utf8.ValidIff`); topics of the router are
  character sequences. Floats are opaque words of 8 or 4 bytes. `from_utf8_lossy` is a parameter known only to keep valid
  text.
- Sockets are append-only output sequences, and what a transport returns is a parameter. The iteration order of a hash map
  is any order. Channels that are closed at the time of a dispatch are a parameter.
- Three errors are of the model only. `SliceOutOfRange`, and `Panic` in the event loop, mark the places where the source
  slices out of range and panics: a PUBLISH decoder, the last shift of an encoder, and the scratch buffer of streamed
  publishes. `DrainNeverEnds` marks a read on which the receive loop does not come back.
- Encoders take every packet and every slice. A body above 268,435,455 bytes gets a length field that overruns the four
  reserved bytes, and an empty DISCONNECT panics in a slice of 2 to 4 bytes; both are part of the specification
  (`Encoder.Panics`, `Packets.Frame`).
- A transport fills no more than the room it is given, so each read of `EventLoop.EventLoop.Drive` fits behind the bytes
  still buffered.
- The protocol of module `Session` assumes that messages encode and that resending is enabled. Its runs are those in which
  no publish takes an identifier in flight; `Session.YoungIsFresh` shows this holds while no message outlives 65,535
  allocations, and `Session.PublishIsSafeIff` that it is exactly what keeps every continuation free of loss.
- In `ByteSession` callers see to what the protocol assumes (`ByteSession.Possible`): text that is UTF-8, messages within
  the limit, a free identifier, and one channel for each caller. A message that the encoder refuses ends the connection,
  as in the source, unless it stands at the head of a burst; it stays in flight, and so does every QoS 2 message, but the
  guarantees are about the QoS 1 messages that the encoder takes.

## What the proofs turned up

- The frame iterator reports a truncated or overlong length field without advancing, and the event loop skips errors, so
  its drain loop does not end on a read that ends inside a length field (`Framing.DrainEndsIffNotStuck`,
  `Framing.PrefixIsStuckIff`, `Receiving.PacketsPerform`).
- PUBLISH can make the decoder panic on slices longer than one frame, which the connection handshakes and the embedded
  `poll` pass to it (`Totality.DecodePanicsIff`, `Totality.LongerSlicesCanPanic`).
- Packets that arrive in one read with CONNACK are lost (`EventLoop.FirstReadIsCompleteIff`); the embedded client also
  loses any frame cut by a read (`Polling.PollsSeeAllIff`).
- A Topic Alias (0x23) is read as four bytes where table 2-4 of MQTT 5.0 says two, so a CONNECT or PUBLISH that carries one
  as the standard writes it is refused or misread (`Properties.ShapedIff`, `Properties.TopicAliasIsRefused`).
- The decoders ignore the reserved bits of the first byte, take quality 3 for 2, and look at no bytes behind the fields of a
  CONNECT, CONNACK or acknowledgement (`WireFormat.AcceptedIff`).
- A body above the limit is encoded without an error into bytes that no decoder takes (`RoundTrip.TooLargeIsRefused`).
- A burst silently leaves out messages the encoder refuses at its head and counts only the rest (`Bursts.BurstSkips`), and
  fails when a refused one comes later (`Bursts.BurstFailsIff`).
- Identifiers are reused without looking at the in-flight map, and then a message can be lost or falsely acknowledged
  (`Session.OverwritingLoses`, `Session.IdReuseLosesAMessage`); the embedded table mixes the identifiers of both
  directions, and a PUBREL is lost exactly when the client published under its identifier (`Inflight.PubRelFindsIff`).
- A streamed publish with a long topic fails after its fixed header is on the wire, or panics when the packet id or the
  property length falls behind the 256 bytes (`EmbeddedClient.MqttClient.BeginStreamPublish`).
- A dispatch that drops the last registration on a path of nodes leaves empty nodes in the trie (`Router.DispatchTidyIff`,
  `Router.ClosedSenderLeavesEmptyNode`).
- The comment on session recovery promises QoS 1 and 2; QoS 2 messages are resent but never complete, because only PUBACK
  takes a message out of the in-flight map (`Receiving.EntryLeavesIff`, `Receiving.QoS2NeverCompletes`).

## Model

| member | source | states |
|---|---|---|
| `VarInt.ReadInvertsEncoding` | crates/mqtt-packet/src/varint.rs:8-88 | reading inverts writing for a value exactly when it is at most 268,435,455, whatever bytes follow |
| `VarInt.EncodingLength` | crates/mqtt-packet/src/varint.rs:49-88 | written lengths are minimal: one more byte at 128, 16,384 and 2,097,152 |
| `VarInt.AcceptedIsBounded` | crates/mqtt-packet/src/varint.rs:8-46 | every accepted encoding has a value of at most 268,435,455 and is no shorter than the writer's |
| `VarInt.ReadStable` | crates/mqtt-packet/src/varint.rs:8-46 | an accepted integer is read the same when more bytes follow |
| `VarInt.ReadPrefix` | crates/mqtt-packet/src/varint.rs:8-46 | an accepted integer depends on its own bytes only |
| `VarInt.PeekVariableByteInteger` | crates/mqtt-packet/src/varint.rs:29-46 | the loop over value and multiplier reads what the specification reads, errors included, on every buffer |
| `VarInt.ReadVariableByteInteger` | crates/mqtt-packet/src/varint.rs:8-26 | the cursor version agrees with the peeking one on every buffer and advances past the integer |
| `VarInt.WriteVariableByteInteger` | crates/mqtt-packet/src/varint.rs:49-67 | writes the minimal encoding at the cursor and nothing else; fails exactly when it does not fit |
| `VarInt.WriteVariableByteIntegerLen` | crates/mqtt-packet/src/varint.rs:70-88 | the other writer emits the same bytes at the start of its slice |
| `Fields.ParseInvertsBinary` | crates/mqtt-packet/src/varint.rs:124-152 | length-prefixed data of up to 65,535 bytes comes back from wherever it was written |
| `Fields.ParseInvertsString` | crates/mqtt-packet/src/varint.rs:91-121 | the same for valid UTF-8 text |
| `Fields.ReadBinaryData` | crates/mqtt-packet/src/varint.rs:124-136 | cursor reader of length-prefixed data, bounded by the whole buffer |
| `Fields.ReadUtf8String` | crates/mqtt-packet/src/varint.rs:91-104 | cursor reader of text; invalid UTF-8 is an error |
| `Fields.PutPrefixed` | crates/mqtt-packet/src/varint.rs:107-121 | writes length and text at the cursor and touches nothing else; too long or too big is an error |
| `Properties.ParseInvertsBlock` | crates/mqtt-packet/src/properties.rs:16-107 | reading a written block of at most 8 well-shaped properties at any cursor gives the list back and stops at its end |
| `Properties.PropertiesAreWellFormed` | crates/mqtt-packet/src/properties.rs:16-83 | whatever is read has at most 8 properties, each with the data its identifier demands |
| `Properties.ReadProperties` | crates/mqtt-packet/src/properties.rs:16-83 | the reading loop computes the specified list, cursor or error on every buffer |
| `Properties.PropertyDataLength` | crates/mqtt-packet/src/properties.rs:32-69 | the match on the identifier, error cases included; `Properties.ShapedIff` says which data that leaves each identifier |
| `Properties.WriteProperties` | crates/mqtt-packet/src/properties.rs:86-107 | writes the block at the cursor, or fails when it does not fit, and changes nothing outside it |
| `Encoder.Encode` | crates/mqtt-packet/src/codec.rs:28-819 | every encoder, on every packet and slice, returns exactly the specified length, error or panic: it succeeds when prefixes, reserved length and body fit, and otherwise the end of the slice and the first string too long for its prefix decide by which comes first; on success the slice starts with the bytes of the packet, and bytes before the slice are never touched |
| `Encoder.TriedMeans` | crates/mqtt-packet/src/codec.rs:28-819 | the specified result is success exactly when strings and packet fit, and a panic exactly when the last shift leaves the slice |
| `Encoder.Finish` | crates/mqtt-packet/src/codec.rs:126-135 | the in-place shift for any body: the draft behind four reserved length bytes becomes the frame, overrun by a longer length field, and which of panic and error comes when the slice is too short |
| `Encoder.ConnectBody` | crates/mqtt-packet/src/codec.rs:28-127 | CONNECT variable header and payload, will before username before password, and which error comes |
| `Encoder.PublishBody` | crates/mqtt-packet/src/codec.rs:281-325 | PUBLISH topic, packet id for QoS above 0 (1 when missing), properties, payload, and which error comes |
| `Encoder.AckBody` | crates/mqtt-packet/src/codec.rs:388-421 | the four acknowledgements leave out default reason and properties |
| `Encoder.SubscribeBody` | crates/mqtt-packet/src/codec.rs:460-495 | SUBSCRIBE filters with their QoS, and which error comes |
| `Encoder.UnsubscribeBody` | crates/mqtt-packet/src/codec.rs:604-637 | UNSUBSCRIBE topics, and which error comes |
| `Encoder.CodesBody` | crates/mqtt-packet/src/codec.rs:569-601 | SUBACK and UNSUBACK reason codes |
| `Encoder.DisconnectBody` | crates/mqtt-packet/src/codec.rs:795-819 | DISCONNECT reason and properties, left out at their defaults |
| `Encoder.ConnAckBody` | crates/mqtt-packet/src/codec.rs:250-278 | CONNACK flags, code and properties |
| `Decoder.ReadPacket` | crates/mqtt-packet/src/codec.rs:822-850 | the dispatcher with all decoders computes the specified packet or error on every slice and version |
| `Decoder.ReadConnect` | crates/mqtt-packet/src/codec.rs:139-222 | CONNECT: either protocol name, level 5 switches properties on whatever the version |
| `Decoder.ReadPublish` | crates/mqtt-packet/src/codec.rs:335-385 | PUBLISH, with the slice that panics marked as an error of its own |
| `Decoder.ReadSubscribe` | crates/mqtt-packet/src/codec.rs:498-532 | SUBSCRIBE loop, at most 8 filters |
| `Decoder.ReadUnsubscribe` | crates/mqtt-packet/src/codec.rs:640-671 | UNSUBSCRIBE loop, at most 8 topics |
| `Decoder.ReadCodes` | crates/mqtt-packet/src/codec.rs:535-566 | reason-code loop of SUBACK and UNSUBACK, at most 8 |
| `Decoder.ReadAck` | crates/mqtt-packet/src/codec.rs:424-452 | the four acknowledgements |
| `Decoder.ReadDisconnect` | crates/mqtt-packet/src/codec.rs:767-792 | DISCONNECT |
| `Decoder.ReadConnAck` | crates/mqtt-packet/src/codec.rs:225-247 | CONNACK |
| `RoundTrip.DecodeInvertsEncoded` | crates/mqtt-packet/src/codec.rs:28-850 | for every well-formed packet of every kind and version with a body within the limit, decoding the encoder's bytes gives the packet back, whatever follows them |
| `RoundTrip.RoundTripsIff` | crates/mqtt-packet/src/codec.rs:28-850 | a well-formed packet survives encoding and decoding if and only if its body is within 268,435,455 bytes |
| `RoundTrip.TooLargeIsRefused` | crates/mqtt-packet/src/codec.rs:126-135 | what the encoders make of a larger body, which they do not refuse, is refused by the decoder |
| `RoundTrip.ConnectBack` | crates/mqtt-packet/src/codec.rs:28-222 | the CONNECT case: flags, will, username and password all return |
| `RoundTrip.PublishBack` | crates/mqtt-packet/src/codec.rs:281-385 | the PUBLISH case |
| `RoundTrip.SubscribeBack` | crates/mqtt-packet/src/codec.rs:460-532 | the SUBSCRIBE case, for any list of at most 8 filters |
| `Totality.DecodePanicsIff` | crates/mqtt-packet/src/codec.rs:139-850 | on every slice, decoding leaves the slice exactly for a PUBLISH whose header overruns the declared content |
| `Totality.ExactFramesNeverPanic` | crates/mqtt-packet/src/codec.rs:139-850 | on a slice that is exactly one frame, every decoder returns a packet or an error |
| `Totality.LongerSlicesCanPanic` | crates/mqtt-packet/src/codec.rs:373-373 | a five-byte slice on which decoding panics |
| `Totality.AcceptedIsCarried` | crates/mqtt-packet/src/codec.rs:139-850 | every accepted packet is well formed for its version, CONNECT before version 5 excepted |
| `Totality.ReencodingKeepsThePacket` | crates/mqtt-packet/src/codec.rs:28-850 | an accepted packet survives encoding and decoding, however it was first encoded |
| `Framing.FrameIter.Next` | crates/mqtt-packet/src/codec.rs:868-891 | one call yields the frame at the offset and moves past it, or ends, or reports the length error without moving |
| `Framing.DrainEndsIffNotStuck` | crates/mqtt-packet/src/codec.rs:865-891 | the iterator reaches its end exactly when no unreadable length is left behind the whole frames |
| `Framing.FramesAndTail` | crates/mqtt-packet/src/codec.rs:865-891 | the frames and the tail are the buffer, nothing lost or added |
| `Framing.FramesAreExact` | crates/mqtt-packet/src/codec.rs:865-891 | whatever is yielded is exactly one frame |
| `Framing.FramesResume` | crates/mqtt-packet/src/codec.rs:865-891 | cutting can resume from the tail when more bytes arrive |
| `Framing.ReadsDoNotMatter` | crates/mqtt-tokio/src/eventloop.rs:315-372 | a run of reads keeps the receive loop going exactly when no read is empty and none leaves an unreadable length behind, and then the frames and the final tail are those of the whole stream |
| `Framing.FramesOfEncodings` | crates/mqtt-packet/src/codec.rs:852-891 | encoded packets one after another are cut into exactly their encodings |
| `Framing.StreamDelivers` | crates/mqtt-tokio/src/eventloop.rs:315-372 | packets, encoded and cut into reads, leave the receive loop waiting if and only if no read is empty or ends strictly inside a length field, and then they are received as the same packets with nothing left over |
| `Framing.AllFramesIff` | crates/mqtt-tokio/src/eventloop.rs:315-372 | all packets are handed on if and only if no read that begins before the end of the stream is empty or ends strictly inside a length field |
| `Framing.PrefixIsStuckIff` | crates/mqtt-tokio/src/eventloop.rs:334-337 | a stream of packets cut at any position ends in an unreadable length exactly when the position is strictly inside a length field |
| `Framing.CutIsSafeIff` | crates/mqtt-tokio/src/eventloop.rs:334-337 | a read ending inside a frame keeps the drain loop alive exactly when it ends before or behind the length field |
| `Framing.RoomForTheNextRead` | crates/mqtt-tokio/src/eventloop.rs:320-372 | after a drain there is room in the buffer unless the frame under way is larger than it |
| `Framing.PacketsLeaveRoom` | crates/mqtt-tokio/src/eventloop.rs:320-372 | on packets no larger than the buffer every position of a stream leaves room for the next read |
| `Framing.PeerReceives` | crates/mqtt-packet/src/codec.rs:852-891 | a peer that keeps its tail decodes packets cut into any reads to the same packets |
| `PacketIds.AllocationsCount` | crates/mqtt-tokio/src/eventloop.rs:89-96 | the k-th allocation returns 1 + k mod 65,535 |
| `PacketIds.SameIdIff` | crates/mqtt-tokio/src/eventloop.rs:89-96 | two allocations share an identifier exactly when whole cycles lie between them |
| `PacketIds.CycleIsDistinct` | crates/mqtt-tokio/src/eventloop.rs:89-96 | any 65,535 consecutive identifiers are distinct |
| `Session.StepKeepsTransit` | crates/mqtt-tokio/src/eventloop.rs:239-300 | while connected each in-flight id has exactly one PUBLISH or PUBACK under way and no other id has any; every step keeps this |
| `Session.RunsKeepInv` | crates/mqtt-tokio/src/eventloop.rs:239-391 | the full invariant holds in every reachable state |
| `Session.AtLeastOnce` | crates/mqtt-tokio/src/eventloop.rs:239-599 | in every run each accepted message is in flight or received, nothing is invented, and callers are told only of received messages |
| `Session.DeliveriesFinish` | crates/mqtt-tokio/src/eventloop.rs:387-391 | with the connection up, deliveries in any interleaving can go on until there were a computable number of them, and then every accepted message has been received |
| `Session.DuplicatesNeedReconnects` | crates/mqtt-tokio/src/eventloop.rs:239-275 | the broker gets a message at most once more than the connection was restored |
| `Session.YoungIsFresh` | crates/mqtt-tokio/src/eventloop.rs:573-578 | while every outstanding message is younger than 65,535 allocations a publish overwrites nothing |
| `Session.PublishIsSafeIff` | crates/mqtt-tokio/src/eventloop.rs:573-578 | every run after a publish keeps all messages and tells callers only of received ones if and only if the identifier of the publish was not in flight |
| `Session.OverwritingLoses` | crates/mqtt-tokio/src/eventloop.rs:573-578 | whenever a publish takes an identifier in flight, deliveries that can follow lose a message or acknowledge one the broker never got |
| `Session.PublishLosesAtOnceIff` | crates/mqtt-tokio/src/eventloop.rs:573-578 | the publish itself loses a message exactly when it overwrites one the broker does not have |
| `Session.IdReuseLosesAMessage` | crates/mqtt-tokio/src/eventloop.rs:573-578 | a reachable run in which the next publish loses a message at once |
| `Publishing.Append` | crates/mqtt-packet/src/codec.rs:281-332 | encoding behind buffered bytes keeps them and adds exactly the packet, or says which error or panic comes |
| `Publishing.SendableNeverPanics` | crates/mqtt-packet/src/codec.rs:126-135 | within the limit the encoder of a body that is not empty never panics |
| `Publishing.AllFitIsSent` | crates/mqtt-tokio/src/eventloop.rs:602-652 | nothing is skipped when everything fits |
| `Bursts.FittingBurstSends` | crates/mqtt-tokio/src/eventloop.rs:602-652 | a burst of messages that each fit alone puts the concatenation of their encodings on the wire, in order, each under its own identifier, unless an encoder panics |
| `Bursts.BurstCompleteIff` | crates/mqtt-tokio/src/eventloop.rs:602-652 | a burst that does not panic is reported as completely sent exactly when every message fits alone |
| `Bursts.SendableBurstNeverPanics` | crates/mqtt-tokio/src/eventloop.rs:602-652 | with bodies within the limit no burst panics |
| `Bursts.BurstFailsIff` | crates/mqtt-tokio/src/eventloop.rs:627-640 | a burst fails exactly when a message the encoder refuses comes behind one it takes |
| `Bursts.BurstSkips` | crates/mqtt-tokio/src/eventloop.rs:632-640 | refused messages at the head of a burst are left out without notice, though kept in flight |
| `Bursts.BurstDelivers` | crates/mqtt-tokio/src/eventloop.rs:602-652 | a receiver decodes a burst into the messages, whatever the reads |
| `Receiving.ReadsPerform` | crates/mqtt-tokio/src/eventloop.rs:315-410 | reads that survive every boundary have, however they cut a decodable stream, the effects of its frames in order, up to a DISCONNECT |
| `Receiving.FatalReadEnds` | crates/mqtt-tokio/src/eventloop.rs:315-336 | any other run of reads ends the connection or never comes back |
| `Receiving.PacketsPerform` | crates/mqtt-tokio/src/eventloop.rs:315-410 | packets sent to the client have exactly their effects, in order, if and only if no read is empty or ends strictly inside a length field |
| `Receiving.PerformUntilDisconnect` | crates/mqtt-tokio/src/eventloop.rs:315-410 | with a DISCONNECT among them, packets have exactly the effects of their actions up to it if and only if no read, up to the one that completes the first DISCONNECT, is empty or ends strictly inside a length field |
| `Receiving.FramesNeverPanic` | crates/mqtt-tokio/src/eventloop.rs:336-340 | no frame cut out of the buffer makes a decoder panic |
| `Receiving.ActionsOfEncodings` | crates/mqtt-tokio/src/eventloop.rs:338-366 | the frames of encoded packets cause the packets' actions in order; what each packet then does to the books is in the rows below |
| `Receiving.ReceivedAreAcknowledged` | crates/mqtt-tokio/src/eventloop.rs:374-385 | every received QoS 1 message is acknowledged once under its own identifier and every message is sent once to each live subscriber registered for it, in order |
| `Receiving.EntryLeavesIff` | crates/mqtt-tokio/src/eventloop.rs:339-391 | a message of any QoS leaves the in-flight map if and only if a PUBACK of its identifier comes before a DISCONNECT, and otherwise stays as it is |
| `Receiving.QoS2NeverCompletes` | crates/mqtt-tokio/src/eventloop.rs:356-365 | whatever packets come, PUBREC and PUBCOMP among them, a message whose PUBACK does not come, as for QoS 2, stays in flight as it is |
| `EventLoop.EventLoop.constructor` | crates/mqtt-tokio/src/eventloop.rs:63-86 | an event loop starts with empty books, identifier 1 and two buffers of the configured size |
| `EventLoop.EventLoop.GetNextPacketId` | crates/mqtt-tokio/src/eventloop.rs:89-96 | returns the current identifier and moves on, skipping 0 |
| `EventLoop.EventLoop.SendPublishDirect` | crates/mqtt-tokio/src/eventloop.rs:567-599 | books, wire and acknowledgement of one publish, refusal and panic of the encoder included |
| `EventLoop.EventLoop.BurstTurn` | crates/mqtt-tokio/src/eventloop.rs:610-641 | one message of a burst: identifier, in-flight entry, encoding behind the buffered bytes, flush and retry |
| `EventLoop.EventLoop.SendPublishBatchDirect` | crates/mqtt-tokio/src/eventloop.rs:602-652 | the burst loop does what the specification of bursts says, result, wire and books |
| `EventLoop.EventLoop.PerformSessionDataRecovery` | crates/mqtt-tokio/src/eventloop.rs:239-300 | every in-flight message once with DUP under its identifier, in some order, then every active subscription once under new identifiers; fails exactly when an encoder panics on a resent message |
| `EventLoop.RecoveryDelivers` | crates/mqtt-tokio/src/eventloop.rs:239-300 | a broker that keeps its tail decodes a recovery into exactly those packets, whatever the reads |
| `EventLoop.EventLoop.HandleSubscribe` | crates/mqtt-tokio/src/eventloop.rs:478-498 | new identifier, registration with the router, active subscription, SUBSCRIBE on the wire and the waiting caller |
| `EventLoop.EventLoop.HandleUnsubscribe` | crates/mqtt-tokio/src/eventloop.rs:499-518 | new identifier, registrations and active subscription dropped, UNSUBSCRIBE on the wire and the waiting caller |
| `EventLoop.EventLoop.PerformConnectHandshake` | crates/mqtt-tokio/src/eventloop.rs:183-232 | CONNECT goes out and the first packet of the first read decides, a panic of the decoder included; the receive loop starts with nothing buffered |
| `EventLoop.HandshakeIgnoresTheRest` | crates/mqtt-tokio/src/eventloop.rs:208-232 | bytes behind CONNACK in the first read do not change the outcome |
| `EventLoop.FirstReadIsCompleteIff` | crates/mqtt-tokio/src/eventloop.rs:208-232 | wherever the first read ends behind the CONNACK, inside a packet or not, all packets reach the receive loop if and only if it ends with the CONNACK and no later read that begins before the end of the packets is empty or ends strictly inside a length field; the loop then goes on waiting if and only if no read is |
| `EventLoop.EventLoop.TakeFrames` | crates/mqtt-tokio/src/eventloop.rs:330-367 | the drain loop decodes exactly the whole frames and counts their bytes, fails on an undecodable frame, and does not end exactly on an unreadable length behind them |
| `EventLoop.EventLoop.Perform` | crates/mqtt-tokio/src/eventloop.rs:374-410 | one action: acknowledgement of QoS 1 and dispatch through the router, removal of an acknowledged message and its caller, and the others |
| `EventLoop.EventLoop.OnRead` | crates/mqtt-tokio/src/eventloop.rs:315-410 | one read, of any bytes: end of stream, undecodable frame, endless drain, or the effects of its frames with the unread tail shifted to the front of the buffer |
| `EventLoop.EventLoop.Drive` | crates/mqtt-tokio/src/eventloop.rs:311-410 | successive reads do what the specification of runs of reads says, up to the first that ends the connection |
| `Refinement.SendIsPublish` | crates/mqtt-tokio/src/eventloop.rs:567-599 | sending a QoS 1 message is the protocol's publish step, with its packet appended to the wire |
| `Refinement.PubAckIsReceipt` | crates/mqtt-tokio/src/eventloop.rs:387-391 | handling a PUBACK is the protocol's receipt step, and a caller is told only then |
| `Refinement.RecoveryIsReconnect` | crates/mqtt-tokio/src/eventloop.rs:243-270 | session recovery is the protocol's reconnection step, packet by packet |
| `Refinement.BrokerReadsTheFront` | crates/mqtt-tokio/src/eventloop.rs:567-599 | the bytes on the wire are the protocol's queue: the first frame is its first message |
| `ByteSession.RunsRefine` | crates/mqtt-tokio/src/eventloop.rs:183-652 | every run of the event loop and a broker over byte links, with single and burst publishes of any QoS, refused ones included, drops, recoveries and reads that end anywhere but inside a length field, is a run of the protocol with the same QoS 1 messages accepted and received |
| `ByteSession.BytesAtLeastOnce` | crates/mqtt-tokio/src/eventloop.rs:183-652 | after every such run each QoS 1 message the encoder took has been decoded by the broker or is in flight under its identifier, what the broker decoded was accepted, and every caller waiting for a PUBACK who was told has a message the broker decoded |
| `ByteSession.BurstIsItsMessages` | crates/mqtt-tokio/src/eventloop.rs:602-652 | books and bytes of a burst, up to the message at which it fails, are those of its messages sent one after the other |
| `ByteSession.ResendsNeverPanic` | crates/mqtt-tokio/src/eventloop.rs:243-270 | in every such run no encoder panics on a message to be resent |
| `ByteDelivery.SomethingCanBeRead` | crates/mqtt-tokio/src/eventloop.rs:315-391 | in every such run the broker finds a whole packet in what is written to it, and the client can read all that is under way to it |
| `ByteDelivery.AtRestAllIsDelivered` | crates/mqtt-tokio/src/eventloop.rs:315-391 | when no bytes are under way in either direction, the broker has decoded every accepted message, and nothing it would acknowledge is in flight |
| `ByteDelivery.ReadsFinish` | crates/mqtt-tokio/src/eventloop.rs:315-391 | after any such run broker and client can read at most three times per byte under way, in any order and with reads of any size, and when nothing is left to read everything has been delivered |
| `ByteDelivery.OneMessageRuns` | crates/mqtt-tokio/src/eventloop.rs:315-599 | there are such runs: a message that fits is sent, read by the broker and its acknowledgement read by the client |
| `Framing.FramesOfPrefix` | crates/mqtt-tokio/src/eventloop.rs:330-372 | a stream of packets cut anywhere gives the first packets as frames and leaves exactly the bytes of the others |
| `Stream.DataStreamConsumer.RecvOrdered` | crates/mqtt-tokio/src/stream.rs:398-434 | one call returns, buffers, force-pops and drops what the specification says |
| `Stream.OutputsAreCalls` | crates/mqtt-tokio/src/stream.rs:398-434 | the outputs of a run are what successive calls return |
| `Stream.OutputsRise` | crates/mqtt-tokio/src/stream.rs:398-434 | on arbitrary input sequenced outputs strictly rise, buffered ids stay at or above the expected one and the buffer within the window |
| `Stream.ArrivalsAreAccounted` | crates/mqtt-tokio/src/stream.rs:398-434 | every arrival is output, buffered, dropped as stale or overwritten by its duplicate, exactly once |
| `StreamOrder.CompleteInOrderIff` | crates/mqtt-tokio/src/stream.rs:398-434 | for any order of 1..n, receiving to the end yields exactly 1..n in order if and only if no id comes behind more than the window's number of larger ids |
| `StreamOrder.InOrderIffWithin` | crates/mqtt-tokio/src/stream.rs:398-434 | the same from any state in which the expected id is the smallest one missing |
| `StreamProducer.WireBack` | crates/mqtt-tokio/src/stream.rs:198-227 | sequence number, timestamp and payload survive the wire format |
| `StreamProducer.PushKeepsLast` | crates/mqtt-tokio/src/stream.rs:281-287 | the journal is always the last max(capacity, 1) pushes in order |
| `StreamProducer.DataStreamProducer.Send` | crates/mqtt-tokio/src/stream.rs:265-295 | takes the next id, journals the chunk, then publishes it |
| `StreamProducer.DataStreamProducer.ReplayRecoveryJournal` | crates/mqtt-tokio/src/stream.rs:350-370 | publishes the journal again, oldest first, unless the client is closed |
| `StreamProducer.ReplayRecoversIff` | crates/mqtt-tokio/src/stream.rs:350-434 | a replay makes the consumer output exactly the ids it misses, once each in order, if and only if every missing id older than the replay is still buffered |
| `StreamProducer.JournalRecovers` | crates/mqtt-tokio/src/stream.rs:350-434 | a journal reaching back to the expected id recovers everything sent, and a second replay produces nothing |
| `StreamProducer.RunsKeepInv` | crates/mqtt-tokio/src/stream.rs:265-295 | in every interleaving of take-id, journal and publish steps ids are unique and the journal is the latest pushes |
| `StreamProducer.ConcurrentSendsDeliver` | crates/mqtt-tokio/src/stream.rs:265-434 | after any interleaving the link carries 1..k in some order, and the consumer outputs 1..k exactly when no send is overtaken by more than the window |
| `SensorData.RoundTripsIff` | crates/mqtt-tokio/src/stream.rs:46-192 | typed data survives encoding and decoding exactly when its counts fit their two-byte or one-byte fields |
| `SensorData.EncodePayload` | crates/mqtt-tokio/src/stream.rs:56-111 | the encoder writes tag, truncated count and data |
| `SensorData.DecodePayload` | crates/mqtt-tokio/src/stream.rs:114-192 | the decoder, with everything unparsable returned as raw data |
| `SensorData.SeriesBack` | crates/mqtt-tokio/src/stream.rs:66-140 | a longer series comes back cut to its count modulo 65,536 |
| `Topics.ValidateTopicFilter` | crates/mqtt-tokio/src/router.rs:16-47 | accepts a filter exactly when it is non-empty, has no NUL and its wildcards stand alone with # last |
| `Topics.JoinInvertsSplit` | crates/mqtt-tokio/src/router.rs:113-114 | levels determine the filter |
| `Topics.MatchesStep` | crates/mqtt-tokio/src/router.rs:175-215 | matching of section 4.7.1 of MQTT 3.1.1 level by level, a/# matching a |
| `Trie.SendsAreTargets` | crates/mqtt-tokio/src/router.rs:175-215 | a trie that agrees with a list of registrations sends exactly once per matching live registration and to no other |
| `Trie.InsertAgrees` | crates/mqtt-tokio/src/router.rs:107-132 | insertion keeps the agreement |
| `Trie.RemoveAgrees` | crates/mqtt-tokio/src/router.rs:135-167 | removal with pruning keeps the agreement |
| `Trie.SweptAgrees` | crates/mqtt-tokio/src/router.rs:175-215 | a dispatch drops matching registrations of closed senders and nothing else |
| `Trie.Canonical` | crates/mqtt-tokio/src/router.rs:78-85 | two tidy tries with the same senders per filter are the same trie |
| `Trie.InsertThenRemove` | crates/mqtt-tokio/src/router.rs:107-167 | inserting and then removing an unused filter restores the trie exactly |
| `Trie.OpenDispatchChangesNothing` | crates/mqtt-tokio/src/router.rs:175-215 | without closed senders a dispatch leaves the trie as it is |
| `Router.Retain` | crates/mqtt-tokio/src/router.rs:182-190 | keeps and sends to exactly the open senders, in order |
| `Router.RemoveRecursive` | crates/mqtt-tokio/src/router.rs:142-167 | the recursive removal computes the pruned node and whether it is empty |
| `Router.MatchAndDispatch` | crates/mqtt-tokio/src/router.rs:175-215 | the recursive dispatch attempts the specified sends and drops closed senders on the nodes it visits |
| `Router.TopicRouter.Insert` | crates/mqtt-tokio/src/router.rs:107-132 | registers exactly the valid filters and keeps the trie in agreement and tidy |
| `Router.TopicRouter.Remove` | crates/mqtt-tokio/src/router.rs:135-139 | drops all senders of the filter and keeps the trie in agreement and tidy |
| `Router.TopicRouter.Dispatch` | crates/mqtt-tokio/src/router.rs:170-173 | sends exactly once per matching live registration |
| `Router.DispatchAfterAnyHistory` | crates/mqtt-tokio/src/router.rs:107-215 | after any history of insert, remove and dispatch the sends are those of the flat list |
| `Router.HistoriesAreCanonical` | crates/mqtt-tokio/src/router.rs:78-167 | histories without closed senders that leave the same senders per filter leave identical tries |
| `Router.HistoryIsTidy` | crates/mqtt-tokio/src/router.rs:78-167 | without closed senders no empty node is ever left |
| `Router.DispatchTidyIff` | crates/mqtt-tokio/src/router.rs:175-215 | a dispatch leaves a tidy router tidy if and only if every path of nodes used by a registration is still used by one that is left |
| `Trie.SweptTidyIff` | crates/mqtt-tokio/src/router.rs:175-215 | the same of the recursive cleaning, below any node |
| `Router.ClosedSenderLeavesEmptyNode` | crates/mqtt-tokio/src/router.rs:182-190 | a router in which a closed sender leaves an empty node behind |
| `Inflight.InflightQueue.TrackOutboundPacket` | crates/mqtt-embedded/src/inflight.rs:54-77 | the vector does what the table does: new entry, changed status, or full |
| `Inflight.InflightQueue.TrackInboundQoS2` | crates/mqtt-embedded/src/inflight.rs:80-96 | the same for an incoming QoS 2 message |
| `Inflight.InflightQueue.HandlePubAck` | crates/mqtt-embedded/src/inflight.rs:99-110 | removes the QoS 1 entry of that id, found or not |
| `Inflight.InflightQueue.HandlePubRec` | crates/mqtt-embedded/src/inflight.rs:113-124 | moves the QoS 2 entry to its second half |
| `Inflight.InflightQueue.HandlePubRel` | crates/mqtt-embedded/src/inflight.rs:127-138 | removes the inbound entry |
| `Inflight.InflightQueue.HandlePubComp` | crates/mqtt-embedded/src/inflight.rs:141-152 | removes the outbound QoS 2 entry |
| `Inflight.SwapRemovedTable` | crates/mqtt-embedded/src/inflight.rs:105-105 | swap_remove takes exactly one identifier out of the table and keeps identifiers unique |
| `Inflight.NeverOverflows` | crates/mqtt-embedded/src/inflight.rs:54-157 | no run outgrows the bound |
| `Inflight.EntriesAreAccountedFor` | crates/mqtt-embedded/src/inflight.rs:54-157 | between clears, entries made less handshakes completed is the growth of the table |
| `Inflight.EntryStays` | crates/mqtt-embedded/src/inflight.rs:99-152 | without colliding identifiers an entry stays as it is, over every run, until its own acknowledgement comes |
| `Inflight.QoS2NeedsBothSteps` | crates/mqtt-embedded/src/inflight.rs:113-152 | an outbound QoS 2 entry leaves only by PUBREC and then PUBCOMP |
| `Inflight.TrackingDisturbsIff` | crates/mqtt-embedded/src/inflight.rs:65-68 | a tracked message gets an entry of its own, all others unchanged, exactly when its identifier was not in the table; else two handshakes share one entry |
| `Inflight.PubRelFindsIff` | crates/mqtt-embedded/src/inflight.rs:54-138 | over any run between an incoming QoS 2 message and its PUBREL, the PUBREL finds the entry if and only if the client did not publish under the same identifier |
| `Inflight.CollisionLosesTheHandshake` | crates/mqtt-embedded/src/inflight.rs:65-68 | from an empty table: a QoS 2 message comes, the client publishes under its identifier, and its PUBREL finds nothing |
| `StreamWriter.Transport.SendVectored` | crates/mqtt-embedded/src/transport.rs:35-42 | sends the slices in order, skipping empty ones |
| `StreamWriter.MqttStreamWriter.WriteChunk` | crates/mqtt-embedded/src/stream_writer.rs:25-36 | takes a chunk whole or refuses it whole, by the bytes already on the wire |
| `StreamWriter.MqttStreamWriter.WriteDmaVectored` | crates/mqtt-embedded/src/stream_writer.rs:47-59 | the same for the slices together |
| `StreamWriter.MqttStreamWriter.Finish` | crates/mqtt-embedded/src/stream_writer.rs:77-86 | succeeds exactly when the bytes sent since the writer was made are as many as were declared |
| `StreamWriter.MqttStreamWriter.WriteAll` | crates/mqtt-embedded/src/stream_writer.rs:25-86 | any pieces one after another and then finish: what is on the wire, and success exactly when it makes up the declared total |
| `StreamWriter.FittingPiecesAreTaken` | crates/mqtt-embedded/src/stream_writer.rs:25-59 | pieces within the declared total all go out |
| `EmbeddedClient.MqttClient.Connect` | crates/mqtt-embedded/src/client.rs:202-249 | connected exactly when CONNECT fits and a CONNACK with code 0 comes first; every other outcome is the encoder's error or the one the first read calls for; then the table is empty |
| `EmbeddedClient.MqttClient.PublishOne` | crates/mqtt-embedded/src/client.rs:252-283 | identifier, table, wire and error of one publish; a refused message stays in the table |
| `EmbeddedClient.MqttClient.BatchTurn` | crates/mqtt-embedded/src/client.rs:297-331 | one message of a batch: identifier, table entry, encoding behind the pending bytes, flush and retry, each error |
| `EmbeddedClient.MqttClient.PublishBatch` | crates/mqtt-embedded/src/client.rs:286-341 | the batch loop does what the specification of batches says: result, table, identifier counter and wire, after any failure too |
| `EmbeddedClient.BatchCompleteIff` | crates/mqtt-embedded/src/client.rs:286-341 | short of a panic a batch succeeds exactly when every message fits alone and the table has room, and then the concatenation of the encodings is on the wire |
| `EmbeddedClient.BatchSendsAPrefix` | crates/mqtt-embedded/src/client.rs:286-341 | however a batch ends, the encodings of some of its first messages are on the wire and nothing else |
| `EmbeddedClient.RoomIff` | crates/mqtt-embedded/src/client.rs:301-305 | the table has room for a batch exactly when its identifiers and the new ones together are within the bound |
| `EmbeddedClient.MqttClient.BeginStreamPublish` | crates/mqtt-embedded/src/client.rs:344-411 | exact outcome, fixed header and variable header on the wire, table and identifier; a topic too long for the 256-byte scratch buffer fails or panics with the fixed header already sent |
| `EmbeddedClient.MqttClient.BuildStreamHead` | crates/mqtt-embedded/src/client.rs:390-403 | the variable header is built exactly when it has at most 256 bytes, and which error or panic comes otherwise |
| `EmbeddedClient.StreamIsOneShot` | crates/mqtt-embedded/src/client.rs:344-411 | within the limit, header and payload of a streamed publish are the bytes of the one-shot encoder |
| `EmbeddedClient.StreamCompletesIff` | crates/mqtt-embedded/src/stream_writer.rs:25-86 | for any pieces, the bytes are one whole frame exactly when the declared total was written, and then decode to the publish of the pieces put together |
| `EmbeddedClient.MqttClient.HandlePacket` | crates/mqtt-embedded/src/client.rs:577-636 | replies, table and events of one received packet |
| `EmbeddedClient.MqttClient.PollBatch` | crates/mqtt-embedded/src/client.rs:553-644 | a whole read handled frame by frame up to the first error |
| `Polling.ReadHandles` | crates/mqtt-embedded/src/client.rs:572-644 | a read of whole packets has their effects in order and forgets a partial frame behind them |
| `Polling.PollsSeeAllIff` | crates/mqtt-embedded/src/client.rs:562-576 | over successive polls the frames seen are those of the stream of packets if and only if every read ends on a frame boundary |
| `Polling.WholeReadsHandle` | crates/mqtt-embedded/src/client.rs:553-644 | then the polls run the table and answer as if all packets had come at once |
| `Polling.PollRunsTheTable` | crates/mqtt-embedded/src/client.rs:577-636 | polling drives the in-flight table through exactly the operations of the packets |
| `Polling.PollAnswers` | crates/mqtt-embedded/src/client.rs:577-636 | every packet of a read is answered with its own acknowledgement, in order, and the events returned are the packets in order, cut to the capacity of the event vector |
| `VarInt.ReadIff` | crates/mqtt-packet/src/varint.rs:8-46 | exactly the fields of one to four bytes that spell a number, seven bits a byte and lowest first, are accepted; four bytes that all go on are malformed, fewer are incomplete |
| `Bytes.BigEndianIs` | crates/mqtt-packet/src/varint.rs:91-152 | two-byte numbers have their high byte first, written and read |
| `Utf8.ValidIff` | crates/mqtt-packet/src/varint.rs:91-104 | a text passes the check exactly when it is a sequence of Unicode scalar values, each in its shortest form (section 3 of RFC 3629) |
| `Utf8.EveryScalarHasAForm` | crates/mqtt-packet/src/varint.rs:91-104 | no scalar value is refused |
| `Properties.ShapedIff` | crates/mqtt-packet/src/properties.rs:32-69 | which data a property of each identifier has, by table 2-4 of section 2.2.2.2 of MQTT 5.0: two bytes, four bytes, length-prefixed data, a pair of them, a variable byte integer, or one byte; four bytes for 0x23 against the standard |
| `Properties.TopicAliasIsRefused` | crates/mqtt-packet/src/properties.rs:38-38 | a block with a Topic Alias of two bytes, as the standard writes it, is malformed |
| `Properties.BlockIsReadIff` | crates/mqtt-packet/src/properties.rs:16-83 | a written block of shaped properties is read back if and only if there are at most eight, and otherwise refused as too many |
| `Properties.AcceptedBlockIsThere` | crates/mqtt-packet/src/properties.rs:16-83 | an accepted block consists of its length and the bytes of the properties read, and nothing else |
| `WireFormat.AcceptedIff` | crates/mqtt-packet/src/codec.rs:139-850 | a whole frame, with its length in any of its spellings, is accepted as a packet if and only if first byte and content spell that packet by the tables of chapters 2 and 3 of MQTT 5.0: types, flag bits, protocol names, field order, optional parts and list limits, for all fourteen kinds and three versions |
| `WireFormat.ConnectIff` | crates/mqtt-packet/src/codec.rs:139-222 | the CONNECT case: either name, level, flag bits by position, keep-alive, properties, client, will, user name, password |
| `WireFormat.PublishIff` | crates/mqtt-packet/src/codec.rs:335-385 | the PUBLISH case: DUP, quality and RETAIN by position, topic, identifier above quality 0, properties, payload |
| `WireFormat.SubscribeIff` | crates/mqtt-packet/src/codec.rs:498-532 | the SUBSCRIBE case: at most eight filters, each with its options byte |
| `WireFormat.EncodingSpells` | crates/mqtt-packet/src/codec.rs:28-819 | what the encoders write is a frame that spells the packet by the same tables |
| `WireFormat.ReservedBits` | crates/mqtt-packet/src/codec.rs:28-819 | the low half of the first byte is 2 for PUBREL, SUBSCRIBE and UNSUBSCRIBE and 0 for all others but PUBLISH |
| `WireFormat.ConnectOpens` | crates/mqtt-packet/src/codec.rs:36-77 | every CONNECT opens with the length and name "MQTT" and level 5 under version 5, 4 before, and its reserved flag is clear |
| `WireFormat.ShortAcks` | crates/mqtt-packet/src/codec.rs:388-421 | an acknowledgement at its defaults is four bytes in every version |
| `WireFormat.MissingIdIsOne` | crates/mqtt-packet/src/codec.rs:305-311 | a publish above quality 0 without identifier goes out under 1 |
| `WireFormat.OldVersionsDecodeAlike` | crates/mqtt-packet/src/codec.rs:139-850 | the two versions before 5 are decoded alike |
| `WireFaults.TruncatedIsIncomplete` | crates/mqtt-packet/src/codec.rs:139-850 | a frame cut short anywhere behind its first byte is incomplete, the pings excepted, which need only their type |
| `WireFaults.TextFaults` | crates/mqtt-packet/src/varint.rs:91-136 | text and data are incomplete exactly when the length or the announced bytes are missing, and text that is there but not UTF-8 is an error of its own |
| `WireFaults.MissingIsIncomplete` | crates/mqtt-packet/src/codec.rs:139-850 | which errors come for whole frames whose first fields are missing |
| `WireFaults.ConnectFaults` | crates/mqtt-packet/src/codec.rs:139-165 | an unknown protocol name is malformed, and a CONNECT that stops before the end of its keep-alive incomplete |
| `WireFaults.LongListsAreRefused` | crates/mqtt-packet/src/codec.rs:498-671 | more than eight filters, topics or reason codes are refused for their number |
| `WireFaults.LastOptionsAreMissing` | crates/mqtt-packet/src/codec.rs:510-530 | a filter without its options byte is incomplete, however many came before |
| `WireFaults.BlockFaults` | crates/mqtt-packet/src/properties.rs:16-29 | which errors come for the length of a property block |
| `WireFaults.CutNumberIsMalformed` | crates/mqtt-packet/src/properties.rs:71-74 | an integer property that runs past its block is malformed |
| `WireFaults.CutDataIsMalformed` | crates/mqtt-packet/src/properties.rs:40-49 | and so is length-prefixed data |
| `Totality.UnknownTypeIff` | crates/mqtt-packet/src/codec.rs:830-847 | types 0 and 15 and no others are unknown, and every other failure is one of the five errors of the readers or the panic |
| `Encoder.EncodesIff` | crates/mqtt-packet/src/codec.rs:28-819 | a packet within the limit is encoded exactly when the slice has two bytes for a ping and five beside the body for any other, and otherwise the slice is too small |
| `Encoder.LongTopicIsReported` | crates/mqtt-packet/src/codec.rs:281-297 | a PUBLISH with a topic above 65,535 bytes is refused for its size as soon as the slice holds the header |
| `Publishing.FitsIff` | crates/mqtt-packet/src/codec.rs:28-819 | the same of an empty buffer, texts included |
| `Publishing.StampedCarries` | crates/mqtt-tokio/src/eventloop.rs:567-652 | message by message, the packet of a burst has the fields of the message and an identifier exactly above quality 0 |
| `Bursts.BurstIsDecoded` | crates/mqtt-tokio/src/eventloop.rs:602-652 | a broker decodes the i-th packet of a burst into the i-th message, DUP, RETAIN, topic and payload as given |
| `EventLoop.RecoveryIsDecoded` | crates/mqtt-tokio/src/eventloop.rs:239-300 | a broker decoding a recovery finds DUP set on every resent message, each under its identifier with its other fields, and then one SUBSCRIBE for each active filter with its quality |
| `EventLoop.TransmittedIff` | crates/mqtt-tokio/src/eventloop.rs:579-599 | a packet within the limit goes out exactly when its texts and its body fit, and is otherwise refused as malformed |
| `EventLoop.HandshakeOutcome` | crates/mqtt-tokio/src/eventloop.rs:208-232 | connected by a CONNACK of code 0, refused with any other code, and an invalid response for every other packet |
| `Receiving.SubscriberLeavesIff` | crates/mqtt-tokio/src/eventloop.rs:351-396 | a waiting subscribe leaves its map if and only if a SUBACK of its identifier comes before a DISCONNECT, and otherwise stays as it is |
| `Receiving.UnsubscriberLeavesIff` | crates/mqtt-tokio/src/eventloop.rs:354-401 | the same for unsubscribe and UNSUBACK |
| `Receiving.CallersAreTold` | crates/mqtt-tokio/src/eventloop.rs:348-401 | over any packets the callers told are those of the acknowledgements before a DISCONNECT, in order |
| `Receiving.ToldIff` | crates/mqtt-tokio/src/eventloop.rs:348-401 | a caller is told if and only if the acknowledgement of its own request is among them |
| `Receiving.AcknowledgementIs` | crates/mqtt-tokio/src/eventloop.rs:376-384 | a received message calls for the bytes 40 02 and its identifier when it is of QoS 1, and for none otherwise |
| `Receiving.DeliveredAsReceived` | crates/mqtt-tokio/src/eventloop.rs:336-347 | one message is handed on for each PUBLISH, in order, with all its fields |
| `Receiving.DeliveredToAll` | crates/mqtt-tokio/src/eventloop.rs:376-386 | while all receivers are there each message goes to the senders of all registrations that match its topic |
| `Receiving.UndecodableEnds` | crates/mqtt-tokio/src/eventloop.rs:338-366 | an undecodable frame in a read ends the loop as an invalid response before anything of the read has an effect |
| `StreamOrder.UnsequencedPassThrough` | crates/mqtt-tokio/src/stream.rs:408-410 | chunks without a sequence number are returned in order, and leave the outputs of the others and the final state as if they had not come |
| `StreamOrder.MixedInOrderIff` | crates/mqtt-tokio/src/stream.rs:398-434 | 1..n in any order mixed with unsequenced chunks: the sequenced outputs are 1..n in order exactly within the window, and the unsequenced ones are all there in order |
| `StreamOrder.LaterArrivalWins` | crates/mqtt-tokio/src/stream.rs:417-434 | of two chunks buffered under one number the later one is output |
| `StreamProducer.WireIs` | crates/mqtt-tokio/src/stream.rs:198-204 | the wire form: eight bytes of sequence number and eight of timestamp, each highest byte first, then the payload |
| `StreamProducer.ShortDataPassesThrough` | crates/mqtt-tokio/src/stream.rs:207-216 | data of fewer than sixteen bytes is an unsequenced chunk of the whole data, which the consumer returns at once and otherwise ignores |
| `SensorData.HeadersAre` | crates/mqtt-tokio/src/stream.rs:56-111 | tag, count, rate, channel and MIME length of each kind by their places in the bytes |
| `SensorData.UnparsableIsRaw` | crates/mqtt-tokio/src/stream.rs:114-192 | a payload comes back whole as raw data if and only if it is empty, of unknown kind, or too short for its kind |
| `SensorData.ParsedByKind` | crates/mqtt-tokio/src/stream.rs:114-192 | which kind and fields every other payload has |
| `Topics.SplitsAtEverySlash` | crates/mqtt-tokio/src/router.rs:113-113 | no level contains a slash and there is one level more than slashes |
| `Topics.SplitInvertsJoin` | crates/mqtt-tokio/src/router.rs:113-113 | any non-empty list of levels without slashes comes back from the topic they make up |
| `Topics.ValidFilterIff` | crates/mqtt-tokio/src/router.rs:16-47 | the rule on the characters of the filter: not empty, no NUL, + alone in its level, # alone and last (section 4.7.1 of MQTT 3.1.1) |
| `Inflight.QoS1TakesPubAck` | crates/mqtt-embedded/src/inflight.rs:54-110 | a published QoS 1 message leaves the table by its PUBACK and by no other acknowledgement |
| `Inflight.QoS2TakesPubRecAndPubComp` | crates/mqtt-embedded/src/inflight.rs:54-152 | a published QoS 2 message leaves it by PUBREC and then PUBCOMP |
| `Inflight.InboundTakesPubRel` | crates/mqtt-embedded/src/inflight.rs:80-138 | a received QoS 2 message leaves it by PUBREL |
| `Inflight.OthersAreUntouched` | crates/mqtt-embedded/src/inflight.rs:54-152 | no operation touches the entry of another identifier |
| `Inflight.FullIff` | crates/mqtt-embedded/src/inflight.rs:54-77 | tracking fails exactly for a new identifier in a full table |
| `StreamWriter.CodecErrorsAre` | crates/mqtt-embedded/src/error.rs:54-69 | which codec errors the client reports as its own |
| `EmbeddedClient.AnswerMeans` | crates/mqtt-embedded/src/client.rs:224-249 | connected by a CONNACK of code 0 only; other codes, other packets, silence and undecodable bytes each have their error |
| `EmbeddedClient.RefusedBecause` | crates/mqtt-embedded/src/client.rs:297-331 | the error of a refused message of a batch: full table, topic too long, or buffer too small |
| `Polling.QoS1Completes` | crates/mqtt-embedded/src/client.rs:577-636 | PUBACK ends a published QoS 1 message, and a received one is answered with 40 02 and its identifier |
| `Polling.QoS2SenderCompletes` | crates/mqtt-embedded/src/client.rs:577-636 | PUBREC and PUBCOMP end a published QoS 2 message, with 62 02 and its identifier sent in between |
| `Polling.QoS2ReceiverCompletes` | crates/mqtt-embedded/src/client.rs:577-636 | a received QoS 2 message and its PUBREL are answered with PUBREC and PUBCOMP bytes and leave the table as it was |
| `Polling.UnreadableEndsThePoll` | crates/mqtt-embedded/src/client.rs:572-576 | an unreadable length ends the poll with its error, behind the effects of the packets before it |
| `Polling.BadFrameEndsThePoll` | crates/mqtt-embedded/src/client.rs:572-580 | and so does a frame that does not decode |
| `Polling.NoRoomForReplies` | crates/mqtt-embedded/src/client.rs:577-636 | a buffer without room for an acknowledgement fails the poll on exactly the packets that call for one, and what the table is then |

## Left out

- Router.InsertInto: the nodes of the trie are values, so the change of a node in place is a changed node handed back; the
  descending loop of `insert` is written as the recursion it amounts to. Each node has one owner, so no aliasing is lost.
- Router.TopicRouter.Dispatch: a sender is open or closed for a whole dispatch, and a full channel, whose message is
  dropped, is not told apart from one that takes it.
- Totality.ReencodingKeepsThePacket: a CONNECT decoded under an older version is included only when it is well formed for
  that version, because the decoder trusts the protocol level inside the packet.
- Receiving.ReadsPerform: the senders that are closed stay the same over the reads compared.
- ByteSession.RunsRefine: a recovery with resending turned off is no step of a run, and neither is a publish under an
  identifier in flight, nor a message beyond the protocol's limit.
- EventLoop.EventLoop.PerformSessionDataRecovery: the queue of offline messages is empty, since nothing ever fills it.
- Stream.DataStreamConsumer.RecvOrdered: sequence numbers are unbounded, so the overflow at 2^64 - 1 is not modelled.
- Session.AtLeastOnce: QoS 1 only, with a broker that acknowledges in order and without resending of its own.
- Exactly-once delivery of QoS 2: neither client completes or deduplicates it end to end.
- Sockets, TLS, QUIC, named pipes and fallback; write errors of a transport amount to a dropped connection.
- Async scheduling, timers, keep-alive pings, tracing and status channels: only the order of steps is kept.
- Datagram publishes, graceful disconnects, and single-packet `poll` of the embedded client, which decodes its whole read.
- `subscribe` and `unsubscribe` of the embedded client: one encoding and one send each.
- User properties of messages, which no code path encodes.
- The rule for topics that begin with `$` (section 4.7.2 of MQTT 3.1.1): the router does not implement it.
- Reconnect delays, URI parsing, the state table of `mqtt-core` and the storage maps: small and separate.
- Bridges, cryptography and examples: interfaces and user interfaces around the parts above.
