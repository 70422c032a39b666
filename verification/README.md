# MQTT-C client engine and windowed sums: a verified model

This project models two parts of the repository in Dafny and proves what they are for.

**The MQTT-C client engine** (`src/mqtt-c/src/mqtt.c`, `src/mqtt-c/include/mqtt.h`), the client side of MQTT
Version 3.1.1: the queue of outgoing messages in one block of memory, the send and receive state machines, the packet
codec and the generator of packet ids.

**The windowed sums**: the streaming accumulator `HLS/sum_330.cpp` and the batch computation `calc_output` of
`src/axidma_transfer.c`, whose output the test program prints beside the accelerator's.

## How it is built

The model has three layers.

1. *Imperative code in the form of the source.* `MessageQueue` and `MqttClient` are classes over byte arrays whose
   methods pack, move and overwrite memory in place; the packers and the header parser are loops over an array; the
   accumulator reads one stream object and writes another. Every method is proved to compute a function of its old state.
2. *The client as a state machine over values* (`ClientSpec`): a queue that is a sequence of messages, two byte streams,
   and one function per call. `MqttClient.View` relates layer 1 to it: each method's contract says that the view after
   the call, and the returned code, are what this machine gives for the view before it.
3. *Theorems about all runs.* `Effects` breaks every call into single effects (clean, push, one turn of the send loop,
   arrival of bytes, dispatch of a packet); a property kept by every allowed effect holds in every state a client can
   reach from `mqtt_init`, for every interleaving of calls and every behaviour of socket, clock and peer.

| file | what it holds |
|---|---|
| `Bytes.dfy` | bytes, 16-bit integers, writing into memory |
| `FixedHeader.dfy` | remaining length and fixed header: packing, parsing, round trips, stability |
| `Packers.dfy` | the packers, and the packets they write |
| `Unpackers.dfy` | the response parsers, and their relation to the packers |
| `Decoding.dfy` | a decoder for the packets a client sends, written from the standard, and the round trip through it |
| `Responses.dfy` | what the packets a broker sends are taken for, byte by byte |
| `PacketIds.dfy` | the id register: one cycle of 65535 values, end of the rejection loop |
| `MessageQueue.dfy` | the queue in its memory block, as a sequence of messages |
| `ClientSpec.dfy` | the client as a state machine over values |
| `MqttClient.dfy` | the client as an object, proved equal to the state machine |
| `Staging.dfy` | staging a message: all or nothing, and exactly when |
| `Calls.dfy` | what an application call queues, as a broker reads it, and what it reports when it fails |
| `Effects.dfy` | calls as sequences of effects |
| `QueueInvariants.dfy` | id discipline, one QoS 2 message in flight, DUP history, memory bounds |
| `Handling.dfy` | what each received packet does to the client |
| `Sending.dfy` | what each turn of the send loop does, and that a willing socket is given everything |
| `Answering.dfy` | acknowledgements registered are exactly those for the messages delivered |
| `Delivery.dfy` | at-most-once delivery at QoS 2 |
| `IdReuse.dfy` | the PUBREC of a new PUBLISH is never taken for a duplicate |
| `Retention.dfy` | messages that wait for an acknowledgement are kept until it is dispatched |
| `Receiving.dfy` | what is dispatched does not depend on how the stream is cut into reads |
| `WireFraming.dfy` | the bytes sent are the registered packets in order, and what ends that |
| `Transmissions.dfy` | first and repeated transmissions of a message on the wire |
| `Definedness.dfy` | exactly when a call is undefined |
| `PeerView.dfy` | the peer recovers the registered packets from the bytes it is sent |
| `ConcreteRuns.dfy` | short runs of what the source does not promise |
| `WindowSums.dfy` | the accumulator, the batch sums, and their equality |

## Reading the model

- **The environment is an argument.** How many bytes the socket takes or gives, what the clock shows, and what
  uninitialised header fields contain (`Stale`) are parameters of the calls, so every statement holds for all of them.
  `mqtt_pal_sendall` and `mqtt_pal_recvall` are assumed to keep their documented contract
  (`src/mqtt-c/include/mqtt_pal.h:153-191`): at most the bytes offered or asked for, or a negative error.
- **`lost`** marks runs the source gives no meaning to, or that do not return. `Definedness` says exactly when a call sets
  it. A send call does when a turn that its loop reaches sends an unsent message while the send offset that another
  message left behind is beyond the end of its packet; that takes a timeout, an acknowledgement of a half-sent message, or
  a message sent past one that is held back, and never happens on a calm connection. A receive round does when a PUBLISH
  is at the front whose topic and id reach beyond its remaining length. A staging call does when its request fits into the
  room by a declared length that has wrapped around in 32 bits and its packet does not; any other request, of whatever
  size, has a defined result. A call that draws an id does when all 65535 are taken. A run stops there; nothing is assumed
  about it, and all that is proved holds up to that point.
- **`original` and `sent`** of a message, and the histories `registered`, `received`, `dispatched` and `wire` of a
  client, are kept for the proofs; the source has no such fields.
- **Bit operations** on flag bytes are written as arithmetic; the id register is a `bv16` with the source's shifts and masks.
- **Where documentation and code differ, the code is followed**: the packers refuse 8 topics, although 8 is documented as
  the maximum; a PUBLISH with a remaining length below 4, though legal, is refused; a ping response is
  taken out of the buffer without its body, if it has one.
- **Where the code does not keep a promise, the exact condition is proved, and a run from `mqtt_init` shows it.** Looking up
  a message by id ignores its state, so a new QoS 2 message under an id whose PUBCOMP has been sent is dropped while the
  old PUBREC is still queued (`Delivery.ReusedIdIsDroppedIff`, `ConcreteRuns.ReusedIdDropped`). DUP is set at QoS 1 only,
  so a QoS 2 PUBLISH is sent again without the DUP that section 3.3.1.1 of MQTT 3.1.1 asks for
  (`Transmissions.RetransmissionHasDupIff`, `ConcreteRuns.RepeatedWithoutDup`). A string of 65536 bytes or more is declared
  in full and written truncated, so the packet is shorter than it declares and the peer loses its place
  (`PeerView.DelimitedIff`, `ConcreteRuns.TruncatedId`). All messages share one send offset, so a
  response timeout, an acknowledgement of an unsent message and a message sent past one that is held back each end the
  framing of the byte stream, except in the cases that `WireFraming.TimeoutKeepsFramingIff`, `AckKeepsFramingIff` and
  `OvertakingKeepsFramingIff` state (`ConcreteRuns.TornStream`), and can make the client send from beyond the end of a
  packet (`Definedness.TurnLostIff`, `ConcreteRuns.SendBeyondPacket`). Over whole runs framing is proved for those without
  the three.

## Model

| member | source | states |
|---|---|---|
| PacketIds.NextInjective | src/mqtt-c/src/mqtt.c:85-111 | a turn of the id register loses nothing: different values stay different |
| PacketIds.NextNonZero | src/mqtt-c/src/mqtt.c:85-111 | a non-zero register never becomes zero, so 0 is never an id |
| PacketIds.FullTurn | src/mqtt-c/src/mqtt.c:85-111 | 65535 turns bring every register value back |
| PacketIds.NoShorterPeriod | src/mqtt-c/src/mqtt.c:85-111 | no smaller number of turns brings a non-zero value back |
| PacketIds.SingleCycle | src/mqtt-c/src/mqtt.c:85-111 | from any non-zero value every id from 1 to 65535 is reached within 65535 turns |
| PacketIds.LoopEndsIffSomeFree | src/mqtt-c/src/mqtt.c:85-111 | the rejection loop ends if and only if some id from 1 to 65535 is not queued |
| PacketIds.FewLeaveOneFree | src/mqtt-c/src/mqtt.c:85-111 | fewer than 65535 queued ids always leave one free |
| PacketIds.NextIdUnique | src/mqtt-c/src/mqtt.c:85-111 | the id generated is the first unused one on the cycle, and there is only one such |
| PacketIds.NextIdFresh | src/mqtt-c/src/mqtt.c:85-111 | the id generated is non-zero, used by no queued header, and found within one cycle |
| MqttClients.MqttClient.NextPid | src/mqtt-c/src/mqtt.c:85-111 | the loop over register and queue terminates with that id and changes only the register |
| FixedHeaders.LengthRoundTrip | src/mqtt-c/src/mqtt.c:1013-1028 | reading a remaining length back gives the number written and the digits it took, whatever follows |
| FixedHeaders.LengthMinimal | src/mqtt-c/src/mqtt.c:1078-1088 | no digit string that reads as a number is shorter than the one written, and one as short is the one written |
| FixedHeaders.LengthSizes | src/mqtt-c/src/mqtt.c:1078-1088 | one to four digits, with the bounds of section 2.2.3 of MQTT 3.1.1 |
| FixedHeaders.HeaderRoundTrip | src/mqtt-c/src/mqtt.c:966-1101 | a packed header is parsed back to the same type, flags, remaining length and size |
| FixedHeaders.ParsedHeaderIsMinimalIff | src/mqtt-c/src/mqtt.c:991-1047 | the other direction: a received header is byte for byte the packed one if and only if it is as short |
| FixedHeaders.HeaderStable | src/mqtt-c/src/mqtt.c:991-1047 | once the parser has decided, on a length or an error, more bytes never change the answer |
| FixedHeaders.ProperPrefixNeedsMore | src/mqtt-c/src/mqtt.c:991-1047 | every proper prefix of a valid packet is answered by "not yet" |
| FixedHeaders.PackFixedHeader | src/mqtt-c/src/mqtt.c:1049-1101 | the digit loop writes the header bytes at its position, or reports why not, and touches nothing outside its window |
| FixedHeaders.UnpackFixedHeader | src/mqtt-c/src/mqtt.c:991-1047 | the parsing loop returns what the parse of the buffer's contents is |
| Packers.PackStr | src/mqtt-c/src/mqtt.c:1760-1770 | writes the 16-bit length and the characters it counts, and nothing else |
| Packers.PackConnect | src/mqtt-c/src/mqtt.c:1104-1223 | same result, bytes and errors as the CONNECT packet of the request; nothing outside the window changes |
| Packers.PackPublish | src/mqtt-c/src/mqtt.c:1272-1335 | the same for PUBLISH |
| Packers.PackPubxxx | src/mqtt-c/src/mqtt.c:1386-1419 | the same for PUBACK, PUBREC, PUBREL and PUBCOMP |
| Packers.PackSubscribe | src/mqtt-c/src/mqtt.c:1472-1535 | the same for SUBSCRIBE |
| Packers.PackUnsubscribe | src/mqtt-c/src/mqtt.c:1554-1612 | the same for UNSUBSCRIBE |
| Packers.PackBare | src/mqtt-c/src/mqtt.c:1254-1269 | the same for PINGREQ and DISCONNECT |
| Packers.SelfDelimitingIff | src/mqtt-c/src/mqtt.c:1104-1223 | every packer writes at most the length it adds up, and exactly that length if and only if every string fits its 16-bit length |
| Packers.OverflowWraps | src/mqtt-c/src/mqtt.c:1293-1327 | only a length that has wrapped around in 32 bits can make a packer write beyond its buffer |
| Packers.PacketIsSelfDelimiting | src/mqtt-c/src/mqtt.c:1386-1419 | a positive return is header size plus declared length, and the parser recovers that header from the written bytes, whatever follows |
| Packers.PackedIffRoom | src/mqtt-c/src/mqtt.c:1049-1101 | a legal request is packed if and only if the buffer holds its header and declared length |
| Decoding.LegalHeaderIff | src/mqtt-c/src/mqtt.c:903-989 | types 1 to 14 exist; PUBREL, SUBSCRIBE and UNSUBSCRIBE need flags 2, PUBLISH is free, every other type needs 0; the two errors |
| Decoding.RefusedIff | src/mqtt-c/src/mqtt.c:1104-1612 | which requests are refused before anything is packed, and with which error |
| Decoding.MeaningIsPacked | src/mqtt-c/src/mqtt.c:1104-1612 | round trip: the packet of every legal request whose strings fit is read, by a decoder that follows sections 3.1, 3.3, 3.8, 3.10, 3.12 and 3.14 of MQTT 3.1.1, as exactly what was asked for: client id, will, user name, password, clean session, keep-alive; topic, QoS, retain, id and payload; the filters and their QoS and the topics, in order |
| Unpackers.UnpackResponse | src/mqtt-c/src/mqtt.c:1704-1743 | the result is a function of the buffered bytes alone |
| Unpackers.UnpackStable | src/mqtt-c/src/mqtt.c:1704-1743 | once a response is unpacked or refused, later bytes do not change that |
| Unpackers.UnpackedIsPacket | src/mqtt-c/src/mqtt.c:1704-1743 | what is taken from the front of a buffer is a packet in its own right, with the same meaning, if and only if it is not a ping response with a body, whose body stays behind |
| Unpackers.PacketPrefixIncomplete | src/mqtt-c/src/mqtt.c:1704-1743 | a proper prefix of any packet is waited for, never misread |
| Unpackers.PublishRoundTrip | src/mqtt-c/src/mqtt.c:1272-1383 | a packed PUBLISH is unpacked to the same topic, payload, QoS, retain flag and id exactly when its remaining length is at least 4, and is refused otherwise |
| Unpackers.PublishRepack | src/mqtt-c/src/mqtt.c:1342-1383 | the other direction: what was unpacked from a PUBLISH can be packed if and only if its QoS is not 3, and then gives the received bytes but for the DUP bit if and only if the received header was minimal |
| Unpackers.PubxxxRoundTrip | src/mqtt-c/src/mqtt.c:1386-1447 | a packed acknowledgement is unpacked to its type and id |
| Responses.TooLongIff | src/mqtt-c/src/mqtt.c:1013-1028 | a remaining length is refused if and only if four digits announce a fifth |
| Responses.IllegalHeader | src/mqtt-c/src/mqtt.c:966-1047 | a forbidden type or wrong flags are refused once the remaining length is known, before the body is there |
| Responses.ConnackIs | src/mqtt-c/src/mqtt.c:1226-1250 | a CONNACK is its session-present flag and return code, in this order, if it has two bytes, a flag of at most 1 and a code of at most 5, and otherwise the first of the three errors |
| Responses.PubxxxIs | src/mqtt-c/src/mqtt.c:1421-1447 | PUBACK, PUBREC, PUBREL and PUBCOMP are their type and big-endian id, or malformed if not two bytes long |
| Responses.WrongLength | src/mqtt-c/src/mqtt.c:1226-1551 | CONNACK, UNSUBACK and the four publish acknowledgements are malformed at every remaining length other than 2 |
| Responses.SubackIs | src/mqtt-c/src/mqtt.c:1449-1470 | a SUBACK is its big-endian id and its return codes in order, or malformed without a code |
| Responses.LongSubackIs | src/mqtt-c/src/mqtt.c:1449-1470 | the same for a remaining length of any number of digits |
| Responses.UnsubackIs | src/mqtt-c/src/mqtt.c:1538-1551 | an UNSUBACK is its big-endian id, or malformed if not two bytes long |
| Responses.PingrespIs | src/mqtt-c/src/mqtt.c:1734-1735 | a ping response is recognised, whatever follows |
| Responses.PublishIs | src/mqtt-c/src/mqtt.c:1342-1383 | a PUBLISH is its flag bits, topic, id at QoS 1 and above, and the rest as payload, or malformed below four bytes |
| Responses.NotForClients | src/mqtt-c/src/mqtt.c:1736-1737 | packets that only a client sends are refused |
| Messages.DupByteKeeps | src/mqtt-c/src/mqtt.c:604-615 | setting DUP keeps packet type and QoS, and setting it again changes nothing |
| MessageQueues.PacketsTileMemory | src/mqtt-c/include/mqtt.h:970-1005 | the queued packets, concatenated in queue order, are the used bytes of the block |
| MessageQueues.MessageQueue.Layout | src/mqtt-c/include/mqtt.h:1072-1084 | the room reported is exact, packets lie below the end pointer in order, no header reaches into them, and one more header is always set aside |
| MessageQueues.MessageQueue.constructor | src/mqtt-c/src/mqtt.c:1615-1625 | an initialised queue is the empty sequence |
| MessageQueues.MessageQueue.Register | src/mqtt-c/src/mqtt.c:1627-1640 | appends one unsent message with the packed bytes and leaves the others as they were |
| MessageQueues.MessageQueue.Clean | src/mqtt-c/src/mqtt.c:1642-1686 | drops the longest complete prefix; every survivor keeps its bytes, order, state, type and id |
| MessageQueues.MessageQueue.MoveDown | src/mqtt-c/src/mqtt.c:1660-1682 | the two memory moves and the pointer corrections leave each surviving header pointing at its moved packet |
| MessageQueues.MessageQueue.FindMessage | src/mqtt-c/src/mqtt.c:1688-1700 | the first message of the type with the id in any state, or without an id the first incomplete one; none if there is none |
| MessageQueues.MessageQueue.PackRequest | src/mqtt-c/src/mqtt.c:206-229 | packing at the end of the queue leaves every queued message untouched |
| MessageQueues.MessageQueue.MarkSent | src/mqtt-c/src/mqtt.c:576-628 | state, time and DUP bit of exactly one message change after it was sent, others not at all |
| Staging.StagingIsAllOrNothing | src/mqtt-c/src/mqtt.c:206-229 | one unsent message is added behind the queue or behind what cleaning leaves of it, or an error is set and nothing is added, or the packer writes beyond its room; nothing else changes |
| Staging.StagedIff | src/mqtt-c/src/mqtt.c:206-229 | staging succeeds if and only if no error is pending, the request is legal, and header, declared length and packet fit into the room cleaning leaves; the packer writes beyond its room if and only if header and declared length fit and the packet does not |
| Calls.RefusalIs | src/mqtt-c/src/mqtt.c:206-229 | the error of every staging that does not succeed, and whether the queue was cleaned: the pending error, that of an illegal request, that of a length beyond four digits, or "send buffer is full" when cleaning leaves too little room |
| Calls.NothingBeforeConnect | src/mqtt-c/src/mqtt.c:113-149 | a client just initialised has empty queues and refuses to stage anything until mqtt_connect |
| Calls.ConnectQueues | src/mqtt-c/src/mqtt.c:232-267 | mqtt_connect sets the keep-alive interval, forgives only that it had not been called, and on success leaves an unsent last message that a broker reads as the connection asked for |
| Calls.PublishQueues | src/mqtt-c/src/mqtt.c:270-302 | mqtt_publish draws an id that is not zero and not queued, and on success leaves an unsent last message that a broker reads as the topic, payload, QoS and retain flag given under that id, with DUP clear |
| Calls.SubscribeQueues | src/mqtt-c/src/mqtt.c:388-416 | the same for mqtt_subscribe, with the filter and QoS given |
| Calls.UnsubscribeQueues | src/mqtt-c/src/mqtt.c:418-443 | the same for mqtt_unsubscribe, with the topic given |
| Calls.PingAndDisconnectQueue | src/mqtt-c/src/mqtt.c:445-504 | mqtt_ping and mqtt_disconnect queue packets that a broker reads as PINGREQ and DISCONNECT |
| MqttClients.MqttClient.StageRequest | src/mqtt-c/src/mqtt.c:206-229 | the in-place attempt, clean and second attempt do what staging is specified to do |
| MqttClients.MqttClient.constructor | src/mqtt-c/src/mqtt.c:113-149 | a client just initialised is the initial state of the state machine, with whatever keep_alive and time_of_last_send held |
| MqttClients.MqttClient.Connect | src/mqtt-c/src/mqtt.c:232-267 | new state and returned code are those of the state machine |
| MqttClients.MqttClient.Publish | src/mqtt-c/src/mqtt.c:270-302 | new state and returned code are those of the state machine, with the id drawn first |
| MqttClients.MqttClient.Subscribe | src/mqtt-c/src/mqtt.c:388-416 | new state and returned code are those of the state machine, with the id drawn first |
| MqttClients.MqttClient.Unsubscribe | src/mqtt-c/src/mqtt.c:418-443 | new state and returned code are those of the state machine, with the id drawn first |
| MqttClients.MqttClient.Ping | src/mqtt-c/src/mqtt.c:453-471 | new state and returned code are those of the state machine |
| MqttClients.MqttClient.Disconnect | src/mqtt-c/src/mqtt.c:485-504 | new state and returned code are those of the state machine |
| MqttClients.MqttClient.Send | src/mqtt-c/src/mqtt.c:506-646 | the send loop, for every partial write, timeout and socket error, does what the state machine does |
| MqttClients.MqttClient.SendMessage | src/mqtt-c/src/mqtt.c:520-629 | one round of the send loop |
| MqttClients.MqttClient.HoldBack | src/mqtt-c/src/mqtt.c:537-553 | a due message is held back if and only if it is a QoS 2 PUBLISH that is not complete and an earlier one is not either |
| MqttClients.MqttClient.CheckKeepAlive | src/mqtt-c/src/mqtt.c:631-642 | the keep-alive ping that ends a send call |
| MqttClients.MqttClient.Recv | src/mqtt-c/src/mqtt.c:648-891 | the receive loop terminates and does what the state machine does |
| MqttClients.MqttClient.HandleResponse | src/mqtt-c/src/mqtt.c:694-881 | the switch over response types does what the state machine does, including which messages are delivered |
| ClientSpec.RecvProgress | src/mqtt-c/src/mqtt.c:648-692 | unread plus buffered bytes strictly fall in every round that is followed by another |
| Effects.StepPath | src/mqtt-c/src/mqtt.c:232-891 | every call is a sequence of allowed effects, and of calm ones on a calm connection |
| QueueInvariants.EffectKeeps | src/mqtt-c/src/mqtt.c:506-891 | every effect keeps all queue invariants: message histories, distinct ids, one in flight, memory bounds, registration order |
| QueueInvariants.Qos2GoesInOrder | src/mqtt-c/src/mqtt.c:520-553 | in every reachable state every QoS 2 PUBLISH before one that awaits its PUBREC is complete, even with timeouts |
| QueueInvariants.OneQos2PublishInFlight | src/mqtt-c/src/mqtt.c:520-553 | so in every reachable state at most one QoS 2 PUBLISH awaits its PUBREC |
| QueueInvariants.IdsAreDistinct | src/mqtt-c/src/mqtt.c:85-111 | in every reachable state no two messages among the PUBLISH, SUBSCRIBE and UNSUBSCRIBE ones, no two PUBRELs and no two PUBRECs share an id |
| QueueInvariants.AcknowledgementIsUnambiguous | src/mqtt-c/src/mqtt.c:1688-1700 | in every reachable state an acknowledgement that carries an id matches at most one queued message of the type it is for |
| IdReuse.OpenIdsAreNotReleased | src/mqtt-c/src/mqtt.c:85-111 | in every reachable state an incomplete PUBLISH, SUBSCRIBE or UNSUBSCRIBE never shares its id with a queued PUBREL |
| IdReuse.PubrecReachesItsPublish | src/mqtt-c/src/mqtt.c:782-804 | in every reachable state the PUBREC of an incomplete PUBLISH is not taken for a duplicate, finds that PUBLISH and completes it, and its PUBREL is queued if and only if no error is pending and cleaning then leaves four bytes |
| QueueInvariants.DupHistory | src/mqtt-c/src/mqtt.c:604-618 | in every run, of the packets recorded when a PUBLISH was sent to its end, exactly the repeated ones at QoS 1 have DUP set, and no other bit ever changes |
| Transmissions.CompletedTurn | src/mqtt-c/src/mqtt.c:526-574 | what is recorded as a transmission was handed to the socket in that turn from the send offset on, and from the start after a timeout |
| Transmissions.RetransmissionHasDupIff | src/mqtt-c/src/mqtt.c:604-618 | in every state of every run, a timed-out PUBLISH that is sent to its end puts its registered packet on the wire whole, with DUP set if and only if its QoS is 1; section 3.3.1.1 of MQTT 3.1.1 asks for it at QoS 2 as well |
| ConcreteRuns.RepeatedWithoutDup | src/mqtt-c/src/mqtt.c:604-618 | a run from initialisation in which a QoS 2 PUBLISH is sent again without DUP |
| Transmissions.FirstTransmissionIsOriginal | src/mqtt-c/src/mqtt.c:555-574 | in every state of every calm run, the first transmission of a message leaves on the wire the packets registered before it and then its own as registered, for a PUBLISH with DUP clear |
| QueueInvariants.QueueStaysInBlock | src/mqtt-c/include/mqtt.h:970-1005 | in every reachable state packets and headers fit the block together, and the queue holds the latest registered packets in registration order |
| QueueInvariants.NoMalformedRequest | src/mqtt-c/src/mqtt.c:624-628 | the send loop's default branch is never taken from a reachable state |
| Sending.TurnIs | src/mqtt-c/src/mqtt.c:520-629 | a turn of the send loop, on state, type and first byte: which messages are sent, resent or held back; what a socket error, a partial and a full write do to wire and offset; and that a message sent to its end is Complete if it is a PUBACK, PUBCOMP, DISCONNECT or QoS 0 PUBLISH and AwaitingAck otherwise, with DUP set for a next time at QoS 1 only |
| Sending.FinalIsSentOnce | src/mqtt-c/src/mqtt.c:598-607 | in every run a PUBACK, PUBCOMP, DISCONNECT or QoS 0 PUBLISH never awaits an acknowledgement, is sent to its end at most once, and is then complete |
| Sending.WillingSocketTakesAll | src/mqtt-c/src/mqtt.c:506-629 | from a framed state, with nothing overdue and at most one open QoS 2 PUBLISH, the loop on a socket that takes all it is given ends with no message unsent and every registered packet on the wire |
| Sending.EverythingIsSent | src/mqtt-c/src/mqtt.c:506-629 | so after every calm run a send call on such a socket, made under no error but that of a full buffer, puts every registered packet on the wire |
| Sending.SendCallIs | src/mqtt-c/src/mqtt.c:506-646 | a send call does nothing under any other pending error; after a loop without failure it stages a ping if and only if the time since the last send exceeds the keep-alive interval, which succeeds exactly if no error is pending and cleaning leaves two bytes |
| Handling.PublishIsHandled | src/mqtt-c/src/mqtt.c:745-769 | a QoS 0 message is delivered and changes nothing; at QoS 1 one is delivered, and its PUBACK queued as the last message, if and only if no error is pending and cleaning leaves four bytes, and otherwise an error is set; at QoS 2 the same with PUBREC, except that one whose PUBREC is queued is ignored |
| Handling.AcknowledgementIsHandled | src/mqtt-c/src/mqtt.c:721-881 | CONNACK, PUBACK, PUBCOMP, SUBACK, UNSUBACK and PINGRESP complete the first message they settle and change nothing else but for the error of a refused connection or subscription; with no such message they set "acknowledgement of unknown" and complete nothing |
| Handling.SettlesOne | src/mqtt-c/src/mqtt.c:1688-1700 | in every reachable state a response with an id settles at most one queued message |
| Handling.AcknowledgementReachesItsMessage | src/mqtt-c/src/mqtt.c:770-877 | in every reachable state the PUBACK of a queued PUBLISH completes that PUBLISH and nothing else, and so for PUBCOMP, SUBACK and UNSUBACK |
| Handling.ReadTakes | src/mqtt-c/src/mqtt.c:655-671 | a read moves bytes from the stream to the buffer in order, at most those asked for, arrived and fitting |
| Handling.RoundIs | src/mqtt-c/src/mqtt.c:655-891 | every way a round ends: socket and parse errors are set and reported, an incomplete packet is waited for unless the buffer is full, and any other packet leaves the buffer whatever its handling reports |
| Handling.EveryQos0IsDelivered | src/mqtt-c/src/mqtt.c:745-769 | in every run every QoS 0 message taken out of the receive buffer is delivered |
| Answering.AcknowledgedIffDelivered | src/mqtt-c/src/mqtt.c:745-769 | in every run the PUBACKs and PUBRECs registered, read off their bytes, are exactly those for the messages delivered at QoS 1 and 2, in delivery order |
| Answering.HandshakeContinues | src/mqtt-c/src/mqtt.c:782-823 | a PUBREC whose PUBREL is queued changes nothing; one without its PUBLISH, or a PUBREL without its PUBREC, is an error and gets no answer; any other completes its message, and succeeds, with the four bytes of the PUBREL or PUBCOMP queued under the same id, if and only if no error is pending and cleaning then leaves four bytes |
| Delivery.AtMostOnceDelivery | src/mqtt-c/src/mqtt.c:745-823 | in every run a PUBREL with the id was received between any two deliveries of QoS 2 messages with that id (section 4.3.3 of MQTT 3.1.1) |
| Delivery.DeliveredIff | src/mqtt-c/src/mqtt.c:745-769 | a QoS 2 PUBLISH is delivered if and only if no error is pending, no PUBREC with its id is queued in any state, and cleaning leaves four bytes of room |
| Delivery.ReusedIdIsDroppedIff | src/mqtt-c/src/mqtt.c:1688-1700 | after a release, and also after the send loop has then sent the PUBCOMP, a new message with the same id is dropped without an error if and only if an error was pending, there was room for the PUBCOMP without cleaning, or a message before the PUBREC is not complete |
| ConcreteRuns.ReusedIdDropped | src/mqtt-c/src/mqtt.c:1688-1700 | a run from initialisation in which that happens: delivered, acknowledged, released, PUBCOMP sent, and the next message under the id lost, against section 4.3.3 of MQTT 3.1.1 |
| Retention.AcceptedIsHeld | src/mqtt-c/src/mqtt.c:270-302 | a PUBLISH accepted at QoS 1 or 2 is queued with the packet packed for it, under the id drawn |
| Retention.RetainedUntilAcknowledged | src/mqtt-c/src/mqtt.c:770-804 | from then on, through every sequence of calls, it stays queued and incomplete and byte-identical but for the DUP bit, until a PUBACK or PUBREC with its id is dispatched |
| Retention.StagedIsHeld | src/mqtt-c/src/mqtt.c:206-229 | every message staged under an id that waits for an acknowledgement is held, with the packet packed for it |
| Retention.HeldUntilAcknowledged | src/mqtt-c/src/mqtt.c:1642-1686 | every held PUBLISH, PUBREC, PUBREL, SUBSCRIBE and UNSUBSCRIBE stays queued, incomplete and unchanged but for DUP until its acknowledgement is dispatched |
| Retention.ReleaseRetainedUntilCompleted | src/mqtt-c/src/mqtt.c:782-804 | the PUBREL that answers a PUBREC is so held until a PUBCOMP with its id is dispatched |
| Receiving.NothingLostOrReordered | src/mqtt-c/src/mqtt.c:648-692 | in every run the dispatched packets followed by the buffered bytes are the bytes received, which are a prefix of the stream |
| Receiving.ChunkIndependence | src/mqtt-c/src/mqtt.c:648-891 | in every run what was dispatched is a prefix of the one split of the whole stream, and all of the split of what was received once only an incomplete packet is left |
| Receiving.PacketsDispatchedInOrder | src/mqtt-c/src/mqtt.c:648-891 | for a stream of well-formed packets, the packets dispatched are the first ones of the stream, each once and in order |
| Receiving.SplitOfPackets | src/mqtt-c/src/mqtt.c:1704-1743 | the reference split of concatenated well-formed packets is those packets |
| Receiving.TooSmallIff | src/mqtt-c/src/mqtt.c:676-692 | with a full buffer the client reports that the buffer is too small if and only if the packet at its front is longer than the buffer |
| Receiving.TooSmallInRunIff | src/mqtt-c/src/mqtt.c:648-692 | in every run over a stream of well-formed packets, a round finds the buffer too small if and only if it is full after reading and the next packet of the stream is longer than it |
| Receiving.RecvCallIsRun | src/mqtt-c/src/mqtt.c:648-891 | a receive call is a run of rounds, and returns without error only when an incomplete packet, or nothing, is left |
| WireFraming.WireIsFramed | src/mqtt-c/src/mqtt.c:506-629 | in every run without response timeouts, with at most one incomplete QoS 2 PUBLISH queued when sending and only sent packets acknowledged, the bytes handed to the socket are the registered packets, each once and in order, and the first bytes of the next one up to the send offset |
| PeerView.PeerRecoversPackets | src/mqtt-c/src/mqtt.c:506-629 | in every such run whose requests fit the lengths of a packet, cutting those bytes by fixed header and declared length gives exactly the registered packets that were sent |
| PeerView.DelimitedIff | src/mqtt-c/src/mqtt.c:1104-1223 | a packet ends where its header says if and only if its body is as long as declared, which without wrap-around is if and only if every string fits its 16-bit length |
| ConcreteRuns.TruncatedId | src/mqtt-c/src/mqtt.c:1760-1770 | a run from initialisation that accepts a client id of 65536 bytes and registers a packet of 16 bytes of which the peer takes the next 65536 bytes for a part |
| WireFraming.TimeoutKeepsFramingIff | src/mqtt-c/src/mqtt.c:526-535 | from any framed state, the turn of a timed-out message leaves the bytes framed if and only if no other message is half sent, the resend stops short of its end, and the bytes it sends are those the next unsent packet starts with |
| WireFraming.AckKeepsFramingIff | src/mqtt-c/src/mqtt.c:770-779 | from any framed state, acknowledging an incomplete message leaves the bytes framed if and only if the message had been sent |
| WireFraming.OvertakingKeepsFramingIff | src/mqtt-c/src/mqtt.c:537-570 | from any framed state, a turn past an unsent message that is held back is defined and leaves the bytes framed if and only if it sends nothing, or stops inside its packet after bytes that the packet held back has at the same place |
| ConcreteRuns.TornStream | src/mqtt-c/src/mqtt.c:526-535 | a run from initialisation in which a timeout puts one packet on the wire in the middle of another |
| Definedness.TurnLostIff | src/mqtt-c/src/mqtt.c:556-559 | a turn of the send loop sends from beyond the end of a packet if and only if the message is unsent, not held back, and shorter than the send offset |
| Definedness.CalmSendIsDefined | src/mqtt-c/src/mqtt.c:506-646 | in every calm run, no send call does so |
| Definedness.SendLostIff | src/mqtt-c/src/mqtt.c:506-646 | a send call is undefined if and only if its loop runs and reaches such a turn |
| Definedness.CallLostIff | src/mqtt-c/src/mqtt.c:206-229 | every other call is undefined if and only if its request fits by a wrapped declared length and its packet does not, it draws an id with none free, or it receives a PUBLISH that overruns its remaining length |
| Definedness.OverrunIff | src/mqtt-c/src/mqtt.c:1342-1383 | unpacking runs beyond the packet if and only if the topic and id of a PUBLISH of remaining length 4 or more do |
| ConcreteRuns.SendBeyondPacket | src/mqtt-c/src/mqtt.c:555-570 | a run from initialisation, without a timeout, in which the client sends from beyond the end of a packet |
| WindowSums.SumBuffer | src/axidma_transfer.c:43-51 | the sum of the whole words between two byte offsets, modulo 2^32 |
| WindowSums.CalcOutput | src/axidma_transfer.c:53-66 | prints the window sums of the whole words, and a zero more exactly when the size ends one to three bytes after a window boundary |
| WindowSums.SumsAt | src/axidma_transfer.c:53-66 | the k-th number printed is the sum, modulo 2^32, of the words of the k-th window |
| WindowSums.Sum330 | HLS/sum_330.cpp:10-43 | reads exactly the words up to the first one flagged last, and sends one word for each window of that packet |
| WindowSums.AccumulatedIsEmitted | HLS/sum_330.cpp:10-43 | adding up word by word with a counter is the same as cutting the packet into windows first |
| WindowSums.HardwareEqualsSoftware | src/axidma_transfer.c:43-66 | the words the accumulator sends for a packet are, in order and modulo 2^32, the numbers printed for a buffer with the same words |
| WindowSums.EmittedShape | HLS/sum_330.cpp:13-43 | one word for each started window, last set on the final word and no other, also for full windows, and the sums add up to the input modulo 2^32 |
| WindowSums.EmittedSideChannels | HLS/sum_330.cpp:20-41 | each word sent carries the side channels of its window's last word, with keep all ones on the final one |

## Left out

- WireFraming.WireIsFramed: runs with a response timeout, with two incomplete QoS 2 PUBLISHes when sending, or with an acknowledgement of an unsent packet are excluded; TimeoutKeepsFramingIff, OvertakingKeepsFramingIff and AckKeepsFramingIff give the exact condition for each.
- Transmissions.FirstTransmissionIsOriginal: calm runs only, for the same reason.
- Packers.PackConnect: required is that the packer does not write beyond its buffer; OverflowWraps and Staging.StagedIff say when it would.
- Packers.PackPublish: the same.
- Packers.PackSubscribe: the same.
- Packers.PackUnsubscribe: the same.
- Decoding.MeaningIsPacked: strings below 65536 bytes and lengths of at most four digits; PeerView.DelimitedIff and Packers.PackedIffRoom say what happens to others.
- Calls.ConnectQueues: what a broker reads is stated for such requests only.
- Calls.PublishQueues: the same, and required is a free id, without which the source loops for ever.
- Calls.SubscribeQueues: the same.
- Calls.UnsubscribeQueues: the same.
- Sending.EverythingIsSent: calm runs, nothing overdue and at most one open QoS 2 PUBLISH; Sending.TurnIs says what a turn does otherwise.
- Responses.NotForClients: stated for bodies of less than 128 bytes.
- MessageQueues.MessageQueue.PackRequest: where the packer would write beyond the room, only its result is given and memory stays as it was; the client is then marked as lost.
- MqttClients.MqttClient.Publish: required is a free id, without which the source loops for ever.
- MqttClients.MqttClient.Subscribe: the same, and one filter for each call, as the source passes it; the packers take lists.
- MqttClients.MqttClient.Unsubscribe: the same as for Publish.
- MqttClients.MqttClient.NextPid: required is a free id, without which the source's loop does not end, as LoopEndsIffSomeFree shows.
- MqttClients.MqttClient.Send: after a send from beyond the end of a packet nothing is said; the source reads beyond the packet. Definedness.SendLostIff says when.
- MqttClients.MqttClient.SendMessage: the same.
- MqttClients.MqttClient.Recv: after a PUBLISH that overruns its remaining length nothing is said; the source reads beyond the packet. Definedness.OverrunIff says when.
- Unpackers.UnpackResponse: such a PUBLISH is only reported as an overrun.
- WindowSums.Sum330: required is a word flagged last, without which the source waits for input for ever.
- WindowSums.CalcOutput: required is a buffer that holds the whole words of the size given, which the source takes on trust.
- MessageQueues.MessageQueue: header records are kept in an array of their own and their addresses in the block are computed with a symbolic size; the bytes of the records and pointer overflow are not modelled.
- ClientSpec.Initial: the response timeout is fixed for a run; assigning it between calls is not modelled.
- Packers.PackStr: a string ends where its sequence ends; embedded zero characters are not modelled.
- NULL arguments other than topic, will, user name and password are not modelled; the source dereferences them unchecked.
- Mutexes and concurrent calls: calls are atomic and follow one another.
- `mqtt_sync`, `mqtt_reconnect`, `mqtt_reinit`, `mqtt_init_reconnect` and the inspector: what they do depends on user callbacks; a reinitialised client is the start of a new run.
- Sockets and TLS (`mqtt_pal.c` and the templates): their documented contract is assumed.
- `typical_response_time`, a floating-point average that decides nothing, and `mqtt_error_str`.
- The clock: a parameter of each call, as integers without wrap-around.
- `print_buffer`, `extract_val`, `fill_tx_buffer` and `fill_buffers`: output, or results the code does not determine.
- The printing of `calc_output`: the numbers printed are its result; negative sizes are not modelled.
- Signed overflow in the sums, undefined in C, is taken as two's complement wrap-around, as in the accelerator.
- The DMA driver, `libaxidma.c`, the device programs, the benchmark and the build files: device and configuration code.
