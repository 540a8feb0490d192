# StriderMqtt core, modelled in Dafny

StriderMqtt is a C# client for MQTT 3.1 and 3.1.1. This project models three
parts of it and proves their properties:

- **The packet codec.** This covers:
  - the protocol constants and header bit masks;
  - PUBLISH and its four acknowledgements (PUBACK, PUBREC, PUBREL, PUBCOMP);
  - SUBSCRIBE, SUBACK, UNSUBSCRIBE and UNSUBACK;
  - the packet factory that maps a type code to a packet class.
- **The connection engine** (`MqttConnection`). This covers:
  - the packet-identifier allocator and the keepalive expiry tests;
  - the CONNACK check and the reply each received packet triggers;
  - the `Loop` that polls, receives, pings and times out.
- **The client-side QoS bookkeeping**. This covers the sample client's
  publish, redelivery and duplicate-suppression rules, and the in-memory
  store of the numbers test.

Bytes on the wire are `Byte` (0..255). The first byte of a packet is a
`bv8`, so that header masks are bit operations. A packet on the wire is a
`Frame`: its first byte plus its body, whose length is the remaining
length.

The writer and reader primitives (`PacketWriter`, `PacketReader`) are not
part of this model. `framing.dfy` stands in for them, following the MQTT
3.1.1 standard:
- the fixed-header byte `type << 4 | flags` (sections 2.2.1 and 2.2.2);
- the two-byte big-endian integer (section 1.5.2);
- the length-prefixed text field (section 1.5.3);
- the base-128 remaining length (section 2.2.3).

The transport, the clock and the event handlers are explicit inputs:
- `closed` is the transport's `IsClosed`;
- `now` is `Environment.TickCount`;
- a `Tick` is one loop iteration's clock reading, transport state, poll
  result, decoded packet and handler outcome.

Errors are values of `Result`. An exception class becomes an `MqttError`
constructor (`ArgumentError`, `ProtocolError`, `ClientError`,
`ConnectError(code)`, `TimeoutError`, `HandlerError`, `NullReference`).
`MalformedPacket` stands for a reader that runs past the end of a packet.

Files:
- `constants.dfy`: module `Constants`.
- `outcomes.dfy`: module `Outcomes`.
- `framing.dfy`: module `Framing`.
- `packets.dfy`: module `Packets`.
- `packet_factory.dfy`: module `PacketFactory`.
- `publish_packets.dfy`: module `PublishPackets`.
- `subscription_packets.dfy`: module `SubscriptionPackets`.
- `codec.dfy`: module `Codec`, the per-class `Serialize`/`Deserialize` dispatch.
- `mqtt_connection.dfy`: module `MqttConnection`, class `Connection`.
- `mqtt_client.dfy`: module `SampleClient`, class `MqttClient`.
- `message_queue.dfy`: module `MessageQueue`, removal by identifier from a queue of outgoing messages, shared by both stores.
- `in_memory_persistence.dfy`: module `InMemory`, class `InMemoryPersistence`.

## Model

| member | source | states |
|---|---|---|
| Constants.ProtocolLevels | StriderMqtt/Constants.cs:8-19 | Version 3.1 has protocol level 3 and 3.1.1 has level 4; the levels are distinct |
| Constants.NamedQosLevels | StriderMqtt/Constants.cs:24-40 | The named QoS levels are exactly 0, 1 and 2 |
| Constants.HeaderMasksPartitionByte | StriderMqtt/Constants.cs:42-58 | The type mask 0xF0 is the flag mask 0x0F shifted by the type offset, and the two split the byte. DUP, QoS and RETAIN masks are pairwise disjoint, equal their bit shifted by its offset, and together make 0x0F. `Qos1HeaderFlagBits` is QoS 1 shifted by the QoS offset |
| Constants.ConnackCodes | StriderMqtt/Constants.cs:68-76 | Accepted is 0, every CONNACK code is at most 5, and the codes are distinct |
| Constants.SubackCodes | StriderMqtt/Constants.cs:78-84 | The granted codes equal QoS 0, 1 and 2, failure is 0x80, and the codes are distinct |
| Framing.FixedHeaderRoundTrip | StriderMqtt/Constants.cs:44-45 | Reading the type nibble and the flag nibble back from a fixed-header byte gives the type and flags it was built from |
| Framing.PublishFlagsRoundTrip | StriderMqtt/Constants.cs:47-54 | DUP, QoS and RETAIN packed into a header byte are read back unchanged by the masks |
| Framing.ReadIntegerField | StriderMqtt/PublishPackets.cs:93-96 | Reading an identifier succeeds exactly when two bytes remain, and consumes those two |
| Framing.IntegerFieldRoundTrip | StriderMqtt/PublishPackets.cs:57-60 | Reading back a written identifier gives the identifier and leaves the rest |
| Framing.TextFieldRoundTrip | StriderMqtt/PublishPackets.cs:55 | Reading back a written text field of at most 65535 bytes gives the text and leaves the rest |
| Framing.EncodeRemainingLength | StriderMqtt/Constants.cs:60 | A remaining length can be encoded exactly when it is at most 268435455, and then in 1 to 4 digits |
| Framing.DigitsLength | StriderMqtt/Constants.cs:60 | A length fits in k base-128 digits exactly when it is below 128^k |
| Framing.MaxRemainingLengthIsFourDigits | StriderMqtt/Constants.cs:60 | 268435455 is 128^4 − 1, takes four digits, and one more cannot be encoded |
| Framing.DecodeDigitsRoundTrip | StriderMqtt/Constants.cs:60 | Decoding the digits of n within the digit budget gives n and the number of digits read |
| Framing.RemainingLengthRoundTrip | StriderMqtt/Constants.cs:60 | Decoding an encoded remaining length gives it back |
| Framing.DecodedRemainingLengthBounded | StriderMqtt/Constants.cs:60 | Whatever is decoded as a remaining length is at most 268435455 |
| Framing.RemainingLengthBoundaries | StriderMqtt/Constants.cs:60 | 127, 16383 and 2097151 are the largest lengths of one, two and three digits |
| Framing.EncodeFrame | StriderMqtt/Constants.cs:60 | A packet can be written exactly when its body is at most 268435455 bytes; it starts with the header byte and ends with the body |
| Framing.FrameRoundTrip | StriderMqtt/Constants.cs:60 | Parsing a written packet gives back its header byte and body, and leaves the bytes after it |
| Packets.PacketTypeOf | StriderMqtt/PacketFactory.cs:43-75 | A code names a packet class exactly when some class has that code, and then the class has it |
| Packets.TypeCodesDistinct | StriderMqtt/PacketFactory.cs:43-75 | Packet type codes are 1..14 and distinct |
| PacketFactory.GetInstance | StriderMqtt/PacketFactory.cs:7-37 | A code is accepted exactly when it is the code of a class the broker may send, and the result has that code; any other code is a protocol error |
| PacketFactory.ClientToBrokerCodesRefused | StriderMqtt/PacketFactory.cs:9-35 | CONNECT, SUBSCRIBE, UNSUBSCRIBE, PINGREQ, DISCONNECT, 0 and 15 are refused with a protocol error |
| PacketFactory.PacketTypeNames | StriderMqtt/PacketFactory.cs:39-80 | The name is "???" exactly for codes of no class, and the 14 classes have distinct names, "PINREQ" included |
| PacketFactory.AcceptedCodesAreNamed | StriderMqtt/PacketFactory.cs:9-35 | Every code the factory accepts has a name other than "???" |
| PublishPackets.ValidateTopic | StriderMqtt/PublishPackets.cs:65-83 | A topic passes exactly when it has no '#' or '+' and is 1 to 65535 long; otherwise it is an argument error |
| PublishPackets.SerializePublish | StriderMqtt/PublishPackets.cs:42-63 | Under 3.1.1 a QoS 0 packet with a nonzero identifier is an argument error. So is a topic too long for a text field, or a body over the maximum. Otherwise the packet is the header with DUP/QoS/RETAIN, then the topic, the identifier only above QoS 0, then the raw payload |
| PublishPackets.SerializeSkipsValidate | StriderMqtt/PublishPackets.cs:42-83 | A topic that `Validate` refuses ('#') is still serialised |
| PublishPackets.DeserializePublishAsWritten | StriderMqtt/PublishPackets.cs:85-99 | As written, the QoS of the result is the header's QoS bits, 3 included |
| PublishPackets.ReservedQosAcceptedAsWritten | StriderMqtt/PublishPackets.cs:85-99 | A PUBLISH frame with QoS bits 11 is read as written into a packet of QoS 3, and the corrected reader refuses it with a protocol error |
| PublishPackets.DeserializePublish | StriderMqtt/PublishPackets.cs:85-99 | A header with QoS bits 11 is a protocol error; any other PUBLISH is read exactly as the code does, and the result always has a named QoS |
| PublishPackets.PublishHeaderFields | StriderMqtt/PublishPackets.cs:52 | A PUBLISH header carries the PUBLISH type code and its DUP, QoS and RETAIN read back unchanged |
| PublishPackets.PublishFrameDecodes | StriderMqtt/PublishPackets.cs:85-99 | The reader turns the header and body a PUBLISH is written as back into its DUP, QoS, RETAIN, topic and payload, with the identifier above QoS 0 and 0 otherwise |
| PublishPackets.PublishDecodeOfEncode | StriderMqtt/PublishPackets.cs:42-99 | Decoding a serialised PUBLISH gives its DUP, QoS, RETAIN, topic and payload, with the identifier when QoS is above 0 and 0 otherwise |
| PublishPackets.PublishRoundTrip | StriderMqtt/PublishPackets.cs:42-99 | A PUBLISH with a named QoS and no identifier at QoS 0 decodes to itself |
| PublishPackets.Qos0IdentifierByVersion | StriderMqtt/PublishPackets.cs:44-50 | A QoS 0 PUBLISH with an identifier is refused under 3.1.1; under 3.1 it is written without the identifier, and reading it back gives identifier 0 |
| PublishPackets.AckPacket | StriderMqtt/PublishPackets.cs:103-248 | The acknowledgement built for a class has that class and the identifier |
| PublishPackets.SerializeAck | StriderMqtt/PublishPackets.cs:112-116 | An acknowledgement is its type code with PUBREL's flags 0010 under 3.1.1 (0000 otherwise), then the two-byte identifier |
| PublishPackets.DeserializeAck | StriderMqtt/PublishPackets.cs:118-133 | Reading succeeds exactly when the remaining length is 2 and, under 3.1.1, the flags are PUBREL's 0010 or 0000 for the others; the identifier is the body. Failures are protocol errors |
| PublishPackets.AckHeader | StriderMqtt/PublishPackets.cs:182-194 | An acknowledgement header carries its type code and the version's flags, and the factory accepts that code |
| PublishPackets.AckFrameParses | StriderMqtt/PublishPackets.cs:112-116 | The bytes of an acknowledgement parse as one frame of its header byte and two identifier bytes, leaving what follows unread |
| PublishPackets.AckRoundTrip | StriderMqtt/PublishPackets.cs:103-248 | A serialised acknowledgement reads back as the same class and identifier, under either version |
| PublishPackets.PubrelFlagsByVersion | StriderMqtt/PublishPackets.cs:182-204 | PUBREL is written with flags 0000 under 3.1 and 0010 under 3.1.1 |
| SubscriptionPackets.ValidateSubscribe | StriderMqtt/SubscriptionPackets.cs:52-66 | A SUBSCRIBE passes exactly when there are as many QoS levels as topics and every topic is 1 to 65535 long; otherwise it is an argument error |
| SubscriptionPackets.SubscriptionEntriesAppend | StriderMqtt/SubscriptionPackets.cs:45-49 | Appending one topic and level adds its text field and one QoS byte at the end |
| SubscriptionPackets.SubscriptionEntriesPrefix | StriderMqtt/SubscriptionPackets.cs:43-49 | After i entries, the loop's next pass adds exactly the i-th topic's text field and QoS byte |
| SubscriptionPackets.SerializeSubscribe | StriderMqtt/SubscriptionPackets.cs:30-50 | An invalid SUBSCRIBE is an argument error before anything is written. Otherwise the loop writes the header (flags 0010 under 3.1.1), the identifier, and each topic followed by its QoS in order |
| SubscriptionPackets.ReadSubscriptionEntriesStep | StriderMqtt/SubscriptionPackets.cs:43-49 | Reading one text field and one QoS byte, then the remaining entries, gives that topic and level in front of the rest |
| SubscriptionPackets.SubscriptionEntriesRoundTrip | StriderMqtt/SubscriptionPackets.cs:43-49 | Reading back the topic and QoS entries gives the topics and levels in order |
| SubscriptionPackets.SubscribeRoundTrip | StriderMqtt/SubscriptionPackets.cs:30-50 | A serialised SUBSCRIBE parses to the SUBSCRIBE type, the version's flags, the identifier, topics and levels |
| SubscriptionPackets.UnsubscribeEntriesAppend | StriderMqtt/SubscriptionPackets.cs:148-151 | Appending one topic adds its text field at the end, with no QoS byte |
| SubscriptionPackets.SerializeUnsubscribe | StriderMqtt/SubscriptionPackets.cs:135-152 | The loop writes the header (flags 0010 under 3.1.1), the identifier and each topic in order; a topic too long for a text field is an argument error |
| SubscriptionPackets.UnsubscribeEntriesRoundTrip | StriderMqtt/SubscriptionPackets.cs:146-151 | Reading back the topic entries gives the topics in order |
| SubscriptionPackets.UnsubscribeRoundTrip | StriderMqtt/SubscriptionPackets.cs:135-152 | A serialised UNSUBSCRIBE parses to the UNSUBSCRIBE type, the version's flags, the identifier and topics |
| SubscriptionPackets.SubackReturnCodeOf | StriderMqtt/SubscriptionPackets.cs:113-118 | A byte is a return code exactly when it is 0, 1, 2 or 0x80, and the code has that value |
| SubscriptionPackets.SubackReturnCodeRoundTrip | StriderMqtt/Constants.cs:78-84 | Every return code is read back from its own value |
| SubscriptionPackets.DeserializeSuback | StriderMqtt/SubscriptionPackets.cs:96-120 | Reading succeeds exactly when the flags are zero under 3.1.1, the identifier is there and every remaining byte is a return code (`SubackFrameValid`). There is one code per remaining byte, equal to it, and no length check (`SubackReadFrom`). A bad flag or byte is a protocol error |
| SubscriptionPackets.DeserializeUnsuback | StriderMqtt/SubscriptionPackets.cs:175-191 | Reading succeeds exactly when the remaining length is 2 and, under 3.1.1, the flags are zero; failures are protocol errors |
| Codec.Serialize | StriderMqtt/SubscriptionPackets.cs:91-94 | SUBACK and UNSUBACK refuse to be written with a protocol error; PUBLISH, acknowledgements and requests are written by their class; the first byte names the packet's class |
| Codec.Deserialize | StriderMqtt/SubscriptionPackets.cs:68-71 | SUBSCRIBE and UNSUBSCRIBE refuse to be read with a protocol error. Acknowledgements and UNSUBACK read as their class does. SUBACK is read exactly when its flags, identifier and return codes are valid, and then carries one code per byte. PUBLISH is read by the corrected reader of the second finding, which refuses QoS bits 11 that the class as written accepts. A packet read has the chosen class |
| MqttConnection.KeepaliveMillis | StriderMqtt/MqttConnection.cs:101-108 | A keepalive is accepted exactly when it lies in 0..65535 seconds and is then kept in milliseconds; otherwise it is an argument error |
| MqttConnection.NextPacketId | StriderMqtt/MqttConnection.cs:226-230 | The next identifier lies in 1..65535 and differs from the last one |
| MqttConnection.NextPacketIdsWithinCycle | StriderMqtt/MqttConnection.cs:226-230 | k allocations from last give last + k, wrapping from 65535 to 1 |
| MqttConnection.PacketIdsDistinct | StriderMqtt/MqttConnection.cs:226-230 | Fewer than 65535 successive allocations give distinct identifiers; 65535 come back to the start, and 0 is followed by 1 |
| MqttConnection.KeepaliveChecks | StriderMqtt/MqttConnection.cs:70-98 | Keepalive 0 disables both expiry tests; when the last write is no later than the last read, read expiry implies write expiry |
| MqttConnection.Reply | StriderMqtt/MqttConnection.cs:310-410 | PUBLISH, acknowledgements, SUBACK, UNSUBACK and PINGRESP are accepted and any other packet is a protocol error. A reply is sent exactly for PUBLISH at QoS 1 or 2, PUBREC and PUBREL, and it is an acknowledgement with the same identifier |
| MqttConnection.ReplyFlows | StriderMqtt/MqttConnection.cs:342-394 | QoS 0 gets no reply, QoS 1 gets PUBACK, QoS 2 gets PUBREC, PUBREC gets PUBREL and PUBREL gets PUBCOMP, all with the same identifier |
| MqttConnection.ConnackOutcomeAsWritten | StriderMqtt/MqttConnection.cs:158-166 | As written, any first packet other than CONNACK fails with a null reference |
| MqttConnection.ConnackOutcome | StriderMqtt/MqttConnection.cs:153-171 | A connection is accepted exactly when the first packet is a CONNACK with code Accepted, and then the session-present flag is taken from it. A refused code is a connect error with the code. Any other packet is a protocol error |
| MqttConnection.ConnackNullCheckOnWrongVariable | StriderMqtt/MqttConnection.cs:158-166 | As written, a non-CONNACK first packet fails on a null reference instead of the protocol error; the two differ exactly for non-CONNACK packets |
| MqttConnection.OnlyPingsAndAcksAddedTransitive | StriderMqtt/MqttConnection.cs:254-272 | Growing the sent log by PINGREQs and acknowledgements only is transitive |
| MqttConnection.Receive | StriderMqtt/MqttConnection.cs:302-358 | A receive updates the last read time. It stops exactly on a read error, a packet a client may not receive, or a throwing handler, with that read error, `ProtocolError` or `HandlerError`. A returning handler that sets the flag sets `interruptLoop`, and nothing else does. An accepted reply is appended with the last write time set to now. A packet without a reply leaves the log and the last write time alone. Only acknowledgements are ever sent, never PINGREQ |
| MqttConnection.Step | StriderMqtt/MqttConnection.cs:256-271 | One pass ends with `false` exactly when the transport is closed, and then changes nothing. It sends PINGREQ exactly when no data is ready and the write wait has expired, whether or not the read wait has. It times out exactly when neither data nor a PINGREQ is due and the read wait has expired. With keepalive 0 it neither pings nor times out. It sends only PINGREQs and acknowledgements |
| MqttConnection.RunSendsOnlyPingsAndAcks | StriderMqtt/MqttConnection.cs:242-275 | A whole `Loop` adds only PINGREQs and acknowledgements to what was sent |
| MqttConnection.KeepaliveZeroNeverPingsNorTimesOut | StriderMqtt/MqttConnection.cs:242-275 | With keepalive 0 a `Loop` never sends PINGREQ and never times out |
| MqttConnection.InterruptEndsLoop | StriderMqtt/MqttConnection.cs:252-274 | An iteration that sets the interrupt flag ends the loop, which returns whether the transport is open |
| MqttConnection.ClosedEndsLoop | StriderMqtt/MqttConnection.cs:256-261 | A pass that finds the transport closed ends the loop with `false` before anything else, and the loop reports `false` only if some pass found it closed |
| MqttConnection.PingBeforeTimeout | StriderMqtt/MqttConnection.cs:262-270 | With no data ready and the write wait expired, the pass sends PINGREQ and the loop continues, even when the read wait has expired as well |
| MqttConnection.Connection.Init | StriderMqtt/MqttConnection.cs:101-108 | A new connection keeps its keepalive, has sent nothing, last identifier 0, no session and no interrupt |
| MqttConnection.Connection.Open | StriderMqtt/MqttConnection.cs:101-113 | A bad keepalive is an argument error and a closed transport a client error. Otherwise CONNECT is sent and the CONNACK decides: the connection opens exactly when `ConnackOutcome` accepts the packet read, and a failure is the read error or `ConnackOutcome`'s error. This is the corrected CONNACK check of the first finding: a non-CONNACK first packet is a protocol error, where the code as written fails on a null reference |
| MqttConnection.Connection.ReceiveConnack | StriderMqtt/MqttConnection.cs:153-171 | The read time is recorded; the result and the session-present flag follow `ConnackOutcome`, the corrected check of the first finding; nothing else changes |
| MqttConnection.Connection.Send | StriderMqtt/MqttConnection.cs:215-224 | A closed transport is a client error and changes nothing; otherwise the packet is appended to the log and the last write time is now |
| MqttConnection.Connection.GetNextPacketId | StriderMqtt/MqttConnection.cs:226-230 | Reads the next identifier after the last one used, changing nothing |
| MqttConnection.Connection.Publish | StriderMqtt/MqttConnection.cs:179-187 | Above QoS 0 the packet's identifier becomes the last one used, even when the send fails; then the packet is sent as `Send` does |
| MqttConnection.Connection.Pubrel | StriderMqtt/MqttConnection.cs:198-201 | Sends PUBREL with the identifier, as `Send` does |
| MqttConnection.Connection.Subscribe | StriderMqtt/MqttConnection.cs:204-207 | Sends the SUBSCRIBE and leaves the last identifier unchanged |
| MqttConnection.Connection.Unsubscribe | StriderMqtt/MqttConnection.cs:209-212 | Sends the UNSUBSCRIBE and leaves the last identifier unchanged |
| MqttConnection.Connection.Disconnect | StriderMqtt/MqttConnection.cs:412-415 | Sends DISCONNECT, as `Send` does |
| MqttConnection.Connection.FireHandler | StriderMqtt/MqttConnection.cs:342-347 | A throwing handler is a handler error and changes nothing; a returning one may only set the interrupt flag |
| MqttConnection.Connection.HandleReceivedPacket | StriderMqtt/MqttConnection.cs:310-410 | The handler fires first, then the reply is sent, and the new state is `Receive`'s |
| MqttConnection.Connection.ReceivePacket | StriderMqtt/MqttConnection.cs:302-308 | Reads one packet, records the read time and handles it; the new state is `Receive`'s |
| MqttConnection.Connection.Loop | StriderMqtt/MqttConnection.cs:242-275 | A negative limit is an argument error. Otherwise the flag is reset, and the loop's result and final state are those of the iteration order closed → receive → PINGREQ → timeout over the trace |
| MessageQueue.RemoveWithId | SqlitePersistenceSample/SqlitePersistence.cs:167-175 | Removal by identifier, as the SQLite `DELETE` and the in-memory `RemoveAll` (NumbersTest/InMemoryPersistence.cs:114) do it: no message with the identifier is left, and an unknown identifier changes nothing |
| MessageQueue.RemoveWithIdAppend | NumbersTest/InMemoryPersistence.cs:114 | Removal distributes over two queues placed end to end, and a single message is dropped exactly when it has the identifier, so the survivors keep their order |
| MessageQueue.RemoveWithIdKeepsOthers | SqlitePersistenceSample/SqlitePersistence.cs:167-175 | Every message with another identifier is kept, as many times as it occurred |
| MessageQueue.FirstKeptIsFirstOther | SqlitePersistenceSample/SqlitePersistence.cs:167-175 | The oldest message left is the first message with another identifier, and none is left exactly when every message had the identifier |
| SampleClient.MarkReceived | SqlitePersistenceSample/SqlitePersistence.cs:154-165 | Marks every message with the identifier received and leaves the rest as they were |
| SampleClient.Redelivery | SqlitePersistenceSample/MqttClient.cs:136-157 | Something is resent exactly for QoS 1 and 2 messages; a resent PUBLISH has DUP set |
| SampleClient.ResendOnConnect | SqlitePersistenceSample/MqttClient.cs:69-87 | Something is resent on reconnection exactly when a session is present and the oldest message in flight has QoS 1 or 2; it is a PUBLISH or a PUBREL with that message's identifier |
| SampleClient.RedeliveryResumesFlow | SqlitePersistenceSample/MqttClient.cs:136-157 | A resent PUBLISH keeps the identifier, topic, QoS and payload and draws the original's reply; a received QoS 2 message resumes with the PUBREL a PUBREC calls for |
| SampleClient.PubrecSwitchesRedeliveryToPubrel | SqlitePersistenceSample/MqttClient.cs:244-251 | After PUBREC marks a QoS 2 message received, its redelivery is PUBREL |
| SampleClient.AcknowledgedIsNotRedelivered | SqlitePersistenceSample/MqttClient.cs:136-157 | After PUBACK or PUBCOMP for an identifier, the next message to redeliver is the oldest one in flight under another identifier; none is left exactly when every message had that identifier |
| SampleClient.OnIncomingPublish | SqlitePersistenceSample/MqttClient.cs:195-221 | A message is skipped exactly when it is QoS 2 and its identifier is registered. Otherwise it is processed, and a throw is a handler error. Only a successful QoS 2 delivery registers its identifier |
| SampleClient.ExactlyOnceSuppressesDuplicates | SqlitePersistenceSample/MqttClient.cs:195-228 | After a QoS 2 message is processed, copies with its identifier are skipped until PUBREL releases it, and processed again after |
| SampleClient.FailedProcessingIsRetried | SqlitePersistenceSample/MqttClient.cs:205-216 | A throwing processor leaves the identifier unregistered, so a resend is processed |
| SampleClient.LowerQosAlwaysProcessed | SqlitePersistenceSample/MqttClient.cs:197-205 | QoS 0 and 1 messages are always processed and register nothing |
| SampleClient.MqttClient.Publish | SqlitePersistenceSample/MqttClient.cs:107-132 | QoS 0 takes no identifier and stores nothing. Above QoS 0 the next identifier is taken, becomes the connection's last identifier, and the message is stored before it is sent |
| SampleClient.MqttClient.Redeliver | SqlitePersistenceSample/MqttClient.cs:136-157 | Sends what `Redelivery` says and sets the publishing flag only when the send went through |
| SampleClient.MqttClient.Subscribe | SqlitePersistenceSample/MqttClient.cs:159-167 | Sends SUBSCRIBE with the next identifier, which stays the next one for the following publish: the last identifier, the session flag, the read time and the interrupt flag are unchanged; when closed it is a client error and nothing is sent or timed |
| SampleClient.MqttClient.OnConnect | SqlitePersistenceSample/MqttClient.cs:69-87 | Sends what `ResendOnConnect` says. When nothing is due, nothing changes. A closed transport is a client error with nothing sent and the publishing flag unchanged. A send that goes through sets the publishing flag and the last write time. A resent PUBLISH makes its identifier the last one used. The store is unchanged |
| SampleClient.MqttClient.HandlePublishReceived | SqlitePersistenceSample/MqttClient.cs:195-221 | The outcome and the new incoming set are those of `OnIncomingPublish` |
| SampleClient.MqttClient.HandlePubrelReceived | SqlitePersistenceSample/MqttClient.cs:223-228 | The identifier is released |
| SampleClient.MqttClient.HandlePubrecReceived | SqlitePersistenceSample/MqttClient.cs:244-251 | The outgoing message is marked received |
| SampleClient.MqttClient.HandlePubackReceived | SqlitePersistenceSample/MqttClient.cs:234-242 | The message is removed, publishing ends and the loop is interrupted; nothing is sent, and the connection's identifier, times and session flag are unchanged |
| SampleClient.MqttClient.HandlePubcompReceived | SqlitePersistenceSample/MqttClient.cs:253-261 | The message is removed, publishing ends and the loop is interrupted; nothing is sent, and the connection's identifier, times and session flag are unchanged |
| SampleClient.MqttClient.FinishOutgoingFlow | SqlitePersistenceSample/MqttClient.cs:234-261 | The common end of both flows: every message with the identifier is removed, publishing ends, the interrupt flag is set, and nothing is sent; the connection's identifier, times and session flag are unchanged |
| SampleClient.MqttClient.constructor | SqlitePersistenceSample/MqttClient.cs:26-33 | A new client is not publishing and works against the given store and connection |
| InMemory.IndexOfFirst | NumbersTest/InMemoryPersistence.cs:41-47 | The position found holds the identifier and no earlier position does |
| InMemory.RemoveFirst | NumbersTest/InMemoryPersistence.cs:41-47 | Removes the first occurrence and keeps the rest in order; an absent identifier changes nothing |
| InMemory.RemoveFirstTakesOneCopy | NumbersTest/InMemoryPersistence.cs:41-52 | Releasing takes one copy away, so an identifier stored twice stays registered |
| InMemory.FirstWithId | NumbersTest/InMemoryPersistence.cs:97-115 | Finds the first message with the identifier, or none exactly when no message has it |
| InMemory.InMemoryPersistence.constructor | NumbersTest/InMemoryPersistence.cs:10-19 | A new store is empty |
| InMemory.InMemoryPersistence.StoreIncomingMessage | NumbersTest/InMemoryPersistence.cs:21-39 | Only QoS 2 registers the identifier, after which it is registered; the number is always appended to its topic's list |
| InMemory.InMemoryPersistence.RegisterReceivedNumber | NumbersTest/InMemoryPersistence.cs:31-39 | Appends the number to the topic's list, creating it if missing, and changes nothing else |
| InMemory.InMemoryPersistence.ReleaseIncomingPacketId | NumbersTest/InMemoryPersistence.cs:41-47 | Removes the first occurrence of the identifier and changes nothing else |
| InMemory.InMemoryPersistence.GetLastReceived | NumbersTest/InMemoryPersistence.cs:55-66 | The last number received on the topic, or 0 when there is none |
| InMemory.InMemoryPersistence.IsDoneReceiving | NumbersTest/InMemoryPersistence.cs:68-79 | Holds exactly when every known topic's list is non-empty and ends at or above the maximum; holds with no topics |
| InMemory.InMemoryPersistence.RegisterOutgoingMessage | NumbersTest/InMemoryPersistence.cs:82-85 | Appends the message and changes nothing else |
| InMemory.InMemoryPersistence.GetLastNumberSent | NumbersTest/InMemoryPersistence.cs:87-90 | Returns the stored field, which only `Dispose` assigns |
| InMemory.InMemoryPersistence.LastNumberSent | NumbersTest/SqlitePersistence.cs:247-271 | The largest number in flight, else the largest published, else 0 |
| InMemory.InMemoryPersistence.GetPendingOutgoingMessage | NumbersTest/InMemoryPersistence.cs:92-95 | The oldest message, or none exactly when the list is empty |
| InMemory.InMemoryPersistence.SetOutgoingMessageReceived | NumbersTest/InMemoryPersistence.cs:97-104 | Marks only the first message with the identifier; an unknown identifier changes nothing |
| InMemory.InMemoryPersistence.SetOutgoingMessageAcknowledged | NumbersTest/InMemoryPersistence.cs:106-115 | Publishes the first match's number and removes every message with the identifier |
| InMemory.InMemoryPersistence.RegisterPublishedNumber | NumbersTest/InMemoryPersistence.cs:117-120 | Appends the number and changes nothing else |
| InMemory.InMemoryPersistence.Dispose | NumbersTest/InMemoryPersistence.cs:122-130 | Empties every collection and resets the last number sent to 0 |
| InMemory.LastNumberSentNeverUpdated | NumbersTest/InMemoryPersistence.cs:87-90 | A store that published 5 with nothing in flight answers 0 as written, and 5 by the corrected definition |

## Left out

- Transport: TCP, TLS and `Socket.Poll` are not modelled. `closed`, the poll result and the decoded packet are inputs of each loop iteration. Each iteration reads `closed` once, so a transport that closes between a receive and its reply is not modelled.
- Clock: `Environment.TickCount` is an unbounded `now` parameter. Its 32-bit wrap-around is not modelled.
- Read expiry: `Keepalive * 1.5` is a floating-point product. It becomes the exact integer test `2 * (now - lastRead) > 3 * keepalive`.
- Event handlers: multicast delegates are not modelled. A handler either returns, possibly setting the interrupt flag, or throws.
- CONNECT, CONNACK, PINGREQ, PINGRESP and DISCONNECT have no serialisers or deserialisers in this model, because their classes are not part of it. `Codec.Serialize` and `Codec.Deserialize` require a modelled class.
- `PacketWriter` and `PacketReader` are not part of this model. A text field over 65535 bytes is an `ArgumentError` in the writer. Reading past the end of a packet is `MalformedPacket`.
- Topics are byte sequences. `String.Length` counts UTF-16 units, not UTF-8 bytes; that difference is not modelled, nor is a null topic or topic array.
- Only the header bits of QoS exist: a `Qos` value above 3, produced by casting an integer to the C# enum, is not modelled.
- MqttConnection.Connection.Send: does not model a serialisation failure of the written packet, because the writer is not part of this model; every packet given to it is written.
- SQLite persistence is not modelled. The sample client works against an abstract `ClientStore`: a set of incoming identifiers and a queue of outgoing messages. That store gives back each outgoing message exactly as it was registered, which is what the persistence interface promises. The sample's own SQLite store does not do this as written: its INSERT (SqlitePersistenceSample/SqlitePersistence.cs:108-113) names `@topic` and `@qos` but never binds them, so the topic and QoS of a stored message are not kept. `SampleClient.RedeliveryResumesFlow` therefore holds for the interface, not for that store.
- OutgoingMessage aliasing: the SQLite store's and the in-memory store's messages are objects, and a caller holding one sees `Received` change. In this model they are values, so that is not captured.
- `SampleClient.MqttClient.Run` and the client's virtual `Loop` are not modelled. `Run` drives `conn.Loop` with a wall-clock limit, and the virtual `Loop` is an empty placeholder. `ProcessIncomingPublish` is an input saying whether it throws.
- The demo drivers, their `Program.cs` files and the Python test utilities are not part of this model.
- `Codec.Deserialize`, `MqttConnection.Connection.Open` and `MqttConnection.Connection.ReceiveConnack` use the corrected readers of the first two findings. The code as written (a QoS 3 PUBLISH accepted, a null reference for a non-CONNACK first packet) is modelled only by the as-written members named there.
- PublishPackets.DeserializePublishAsWritten: states only the class and QoS of its result, because its equality with the corrected reader on named QoS levels carries the rest.

## Findings

| source | as written | input that shows it | evidently intended | confidence | as-written member | corrected member |
|---|---|---|---|---|---|---|
| StriderMqtt/MqttConnection.cs:158-166 | The null check tests `packet` instead of `connack`, so a first packet other than CONNACK reaches `connack.ReturnCode` and fails with a null reference | A PINGRESP as the first packet | A protocol error saying the first packet should be CONNACK | high, not executed | MqttConnection.ConnackOutcomeAsWritten | MqttConnection.ConnackOutcome |
| StriderMqtt/PublishPackets.cs:85-99 | A PUBLISH whose QoS bits are 11 is accepted and given QoS 3. Section 3.3.1.2 of MQTT 3.1.1 makes such a packet malformed | The frame 0x36, 0x05, 0x00, 0x01, 0x74, 0x00, 0x01 | A protocol error | medium, not executed | PublishPackets.ReservedQosAcceptedAsWritten | PublishPackets.DeserializePublish |
| NumbersTest/InMemoryPersistence.cs:87-90 | `GetLastNumberSent` returns a field that only `Dispose` assigns, so it is always 0 | Publish 5, then ask: the answer is 0 | The largest number in flight, else the largest published, as the SQLite store of the same interface computes it | medium, not executed | InMemory.LastNumberSentNeverUpdated | InMemory.InMemoryPersistence.LastNumberSent |
