/** PUBLISH and its four acknowledgements, PUBACK, PUBREC, PUBREL and PUBCOMP
    (sections 3.3 to 3.7 of MQTT 3.1.1): how the client writes them, how it
    reads them, and the checks it makes on the way. */
module PublishPackets {
  import opened Constants
  import opened Outcomes
  import opened Framing
  import opened Packets
  import opened PacketFactory

  /** '#' and '+', the wildcards a topic filter may hold and a topic name may not. */
  const MultiLevelWildcard: Byte := 0x23
  const SingleLevelWildcard: Byte := 0x2B

  // ---------------------------------------------------------------------------
  // PUBLISH

  /** The topic check of `Validate`: no wildcard, and 1 to 65535 long. */
  function ValidateTopic(topic: Text): (r: Result<()>)
    ensures r.Ok? <==> MultiLevelWildcard !in topic && SingleLevelWildcard !in topic
                       && MinTopicLength <= |topic| <= MaxTopicLength
    ensures r.Err? ==> r.error == ArgumentError
  {
    if MultiLevelWildcard in topic || SingleLevelWildcard in topic then Err(ArgumentError)
    else if |topic| < MinTopicLength || |topic| > MaxTopicLength then Err(ArgumentError)
    else Ok(())
  }

  /** The variable header and payload: the topic, the packet identifier only
      when QoS is above 0, then the message with no length prefix. */
  function PublishBody(p: Packet): seq<Byte>
    requires p.Publish? && |p.topic| <= MaxTextLength
  {
    TextFieldBytes(p.topic) + (if p.qos > AtMostOnce then IntegerField(p.packetId) else []) + p.message
  }

  function PublishHeader(p: Packet): bv8
    requires p.Publish?
  {
    FixedHeader(PublishType.Code(), PublishFlags(p.dup, p.qos, p.retain))
  }

  /** `Serialize`: under 3.1.1 a QoS 0 packet may not carry an identifier; the
      topic is written without `Validate` being called. */
  function SerializePublish(p: Packet, v: ProtocolVersion): (r: Result<seq<Byte>>)
    requires p.Publish?
    ensures r.Err? <==> (v == V3_1_1 && p.qos == AtMostOnce && p.packetId > 0)
                        || |p.topic| > MaxTextLength
                        || |PublishBody(p)| > MaxRemainingLength
    ensures r.Ok? ==> r == EncodeFrame(PublishHeader(p), PublishBody(p))
  {
    if v == V3_1_1 && p.qos == AtMostOnce && p.packetId > 0 then Err(ArgumentError)
    else
      var topic :- TextField(p.topic);
      EncodeFrame(PublishHeader(p), topic + (if p.qos > AtMostOnce then IntegerField(p.packetId) else []) + p.message)
  }

  /** `Deserialize` as the client has it: DUP, QoS and RETAIN come from the
      header as they are, the topic is read, the identifier only when QoS is
      above 0, and the rest of the packet is the message. */
  function DeserializePublishAsWritten(f: Frame): (r: Result<Packet>)
    ensures r.Ok? ==> r.value.Publish? && r.value.qos == QosOf(f.first)
  {
    var t :- ReadTextField(f.body);
    var topic, rest := t.0, t.1;
    if QosOf(f.first) > AtMostOnce then
      var i :- ReadIntegerField(rest);
      Ok(Publish(DupOf(f.first), QosOf(f.first), RetainOf(f.first), topic, i.0, i.1))
    else
      Ok(Publish(DupOf(f.first), QosOf(f.first), RetainOf(f.first), topic, 0, rest))
  }

  /** `Deserialize` with the reserved QoS bit pattern 11 refused, as section
      3.3.1.2 of MQTT 3.1.1 requires; otherwise as written. */
  function DeserializePublish(f: Frame): (r: Result<Packet>)
    ensures r.Ok? ==> r.value.Publish? && IsNamedQos(r.value.qos)
    ensures QosOf(f.first) == 3 ==> r == Err(ProtocolError)
    ensures QosOf(f.first) != 3 ==> r == DeserializePublishAsWritten(f)
  {
    if QosOf(f.first) == 3 then Err(ProtocolError) else DeserializePublishAsWritten(f)
  }

  /** The header byte of a PUBLISH carries its type code, DUP, QoS and RETAIN. */
  lemma PublishHeaderFields(p: Packet)
    requires p.Publish?
    ensures GetInstance(TypeCodeOf(PublishHeader(p))) == Ok(PublishType)
    ensures DupOf(PublishHeader(p)) == p.dup && QosOf(PublishHeader(p)) == p.qos
    ensures RetainOf(PublishHeader(p)) == p.retain
  {
    FixedHeaderRoundTrip(PublishType.Code(), PublishFlags(p.dup, p.qos, p.retain));
    PublishFlagsRoundTrip(PublishType.Code(), p.dup, p.qos, p.retain);
  }

  /** The body of a PUBLISH reads back as its fields, except that a QoS 0
      packet comes back without its identifier. */
  lemma PublishFrameDecodes(p: Packet)
    requires p.Publish? && IsNamedQos(p.qos) && |p.topic| <= MaxTextLength
    ensures DeserializePublish(Frame(PublishHeader(p), PublishBody(p)))
      == Ok(Publish(p.dup, p.qos, p.retain, p.topic, if p.qos == AtMostOnce then 0 else p.packetId, p.message))
  {
    PublishHeaderFields(p);
    var f := Frame(PublishHeader(p), PublishBody(p));
    var tail := (if p.qos > AtMostOnce then IntegerField(p.packetId) else []) + p.message;
    assert f.body == TextFieldBytes(p.topic) + tail;
    TextFieldRoundTrip(p.topic, tail);
    assert ReadTextField(f.body) == Ok((p.topic, tail));
    if p.qos > AtMostOnce {
      IntegerFieldRoundTrip(p.packetId, p.message);
      assert ReadIntegerField(tail) == Ok((p.packetId, p.message));
    } else {
      assert tail == p.message;
    }
  }

  /** What reading back a written PUBLISH gives: every field, except that a
      QoS 0 packet comes back without its identifier. */
  lemma PublishDecodeOfEncode(p: Packet, v: ProtocolVersion, rest: seq<Byte>)
    requires p.Publish? && IsNamedQos(p.qos) && SerializePublish(p, v).Ok?
    ensures var parsed := ParseFrame(SerializePublish(p, v).value + rest);
      && parsed.Ok? && parsed.value.1 == rest
      && GetInstance(TypeCodeOf(parsed.value.0.first)) == Ok(PublishType)
      && DeserializePublish(parsed.value.0) == Ok(Publish(p.dup, p.qos, p.retain, p.topic, if p.qos == AtMostOnce then 0 else p.packetId, p.message))
  {
    var first, body := PublishHeader(p), PublishBody(p);
    FrameRoundTrip(first, body, rest);
    assert ParseFrame(SerializePublish(p, v).value + rest) == Ok((Frame(first, body), rest));
    PublishHeaderFields(p);
    PublishFrameDecodes(p);
  }

  /** A valid PUBLISH (named QoS, no identifier at QoS 0) round-trips. */
  lemma PublishRoundTrip(p: Packet, v: ProtocolVersion, rest: seq<Byte>)
    requires p.Publish? && IsNamedQos(p.qos) && (p.qos == AtMostOnce ==> p.packetId == 0)
    requires SerializePublish(p, v).Ok?
    ensures var parsed := ParseFrame(SerializePublish(p, v).value + rest);
      parsed.Ok? && parsed.value.1 == rest && DeserializePublish(parsed.value.0) == Ok(p)
  {
    PublishDecodeOfEncode(p, v, rest);
  }

  /** Under 3.1 a QoS 0 PUBLISH with an identifier is written, and the
      identifier is lost on the way back; under 3.1.1 it is refused. */
  lemma Qos0IdentifierByVersion(p: Packet, rest: seq<Byte>)
    requires p.Publish? && p.qos == AtMostOnce && p.packetId > 0
    requires |p.topic| <= MaxTextLength && |PublishBody(p)| <= MaxRemainingLength
    ensures SerializePublish(p, V3_1_1) == Err(ArgumentError)
    ensures SerializePublish(p, V3_1).Ok?
    ensures var parsed := ParseFrame(SerializePublish(p, V3_1).value + rest);
      parsed.Ok? && DeserializePublish(parsed.value.0) == Ok(Publish(p.dup, p.qos, p.retain, p.topic, 0, p.message))
  {
    PublishDecodeOfEncode(p, V3_1, rest);
  }

  /** `Serialize` does not call `Validate`: a topic holding a wildcard is
      written although `Validate` refuses it. */
  lemma SerializeSkipsValidate()
    ensures var p := Publish(false, AtMostOnce, false, [MultiLevelWildcard], 0, []);
      ValidateTopic(p.topic).Err? && SerializePublish(p, V3_1_1).Ok?
  {
  }

  /** The reserved QoS pattern: the header 0x36 (PUBLISH, QoS bits 11) with
      topic "t" and identifier 1 is accepted as written, and refused once the
      QoS bits are checked. */
  lemma ReservedQosAcceptedAsWritten()
    ensures var f := Frame(0x36, [0, 1, 0x74, 0, 1]);
      && QosOf(f.first) == 3
      && DeserializePublishAsWritten(f) == Ok(Publish(false, 3, false, [0x74], 1, []))
      && DeserializePublish(f) == Err(ProtocolError)
  {
    var f := Frame(0x36, [0, 1, 0x74, 0, 1]);
    assert QosOf(f.first) == 3;
    assert f.body == TextFieldBytes([0x74]) + [0, 1];
    TextFieldRoundTrip([0x74], [0, 1]);
    assert [0, 1] == IntegerField(1) + [];
    IntegerFieldRoundTrip(1, []);
  }

  // ---------------------------------------------------------------------------
  // PUBACK, PUBREC, PUBREL, PUBCOMP

  predicate IsAckType(t: PacketType) {
    t == PubackType || t == PubrecType || t == PubrelType || t == PubcompType
  }

  /** The flag nibble an acknowledgement is written with: 0010 for PUBREL under
      3.1.1, 0000 otherwise. Under 3.1.1 a reader demands the same nibble. */
  function AckFlags(t: PacketType, v: ProtocolVersion): bv8 {
    if t == PubrelType && v == V3_1_1 then Qos1HeaderFlagBits else ZeroedHeaderFlagBits
  }

  function AckPacket(t: PacketType, id: PacketId): (p: Packet)
    requires IsAckType(t)
    ensures p.IsAck() && p.Type() == t && p.packetId == id
  {
    match t
    case PubackType => Puback(id)
    case PubrecType => Pubrec(id)
    case PubrelType => Pubrel(id)
    case PubcompType => Pubcomp(id)
  }

  /** `Serialize` of the four acknowledgements: the header, then the identifier. */
  function SerializeAck(p: Packet, v: ProtocolVersion): (r: seq<Byte>)
    requires p.IsAck()
    ensures EncodeFrame(FixedHeader(p.Type().Code(), AckFlags(p.Type(), v)), IntegerField(p.packetId)) == Ok(r)
  {
    var first := FixedHeader(p.Type().Code(), AckFlags(p.Type(), v));
    assert EncodeFrame(first, IntegerField(p.packetId)).Ok?;
    EncodeFrame(first, IntegerField(p.packetId)).value
  }

  /** `Deserialize` of the four acknowledgements: under 3.1.1 the flags must
      be the expected ones, and the remaining length must be 2. */
  function DeserializeAck(t: PacketType, f: Frame, v: ProtocolVersion): (r: Result<Packet>)
    requires IsAckType(t)
    ensures r.Ok? <==> (v == V3_1_1 ==> FlagsOf(f.first) == AckFlags(t, V3_1_1)) && |f.body| == 2
    ensures r.Ok? ==> r.value.Type() == t && IntegerField(r.value.packetId) == f.body
    ensures r.Err? ==> r.error == ProtocolError
  {
    if v == V3_1_1 && FlagsOf(f.first) != AckFlags(t, V3_1_1) then Err(ProtocolError)
    else if |f.body| != 2 then Err(ProtocolError)
    else
      var i := ReadIntegerField(f.body).value;
      Ok(AckPacket(t, i.0))
  }

  /** The header byte of an acknowledgement carries its type code and flags. */
  lemma AckHeader(t: PacketType, v: ProtocolVersion)
    requires IsAckType(t)
    ensures TypeCodeOf(FixedHeader(t.Code(), AckFlags(t, v))) == t.Code()
    ensures FlagsOf(FixedHeader(t.Code(), AckFlags(t, v))) == AckFlags(t, v)
    ensures GetInstance(t.Code()) == Ok(t)
  {
    FixedHeaderRoundTrip(t.Code(), AckFlags(t, v));
  }

  /** An acknowledgement's bytes parse back as one frame: its header byte and
      the two identifier bytes, with whatever follows left unread. */
  lemma AckFrameParses(p: Packet, v: ProtocolVersion, rest: seq<Byte>)
    requires p.IsAck()
    ensures ParseFrame(SerializeAck(p, v) + rest)
         == Ok((Frame(FixedHeader(p.Type().Code(), AckFlags(p.Type(), v)), IntegerField(p.packetId)), rest))
  {
    FrameRoundTrip(FixedHeader(p.Type().Code(), AckFlags(p.Type(), v)), IntegerField(p.packetId), rest);
  }

  /** The frame of an acknowledgement decodes, under the version it was
      written for, to that acknowledgement. */
  lemma AckFrameDecodes(p: Packet, v: ProtocolVersion)
    requires p.IsAck()
    ensures DeserializeAck(p.Type(), Frame(FixedHeader(p.Type().Code(), AckFlags(p.Type(), v)), IntegerField(p.packetId)), v) == Ok(p)
  {
    AckHeader(p.Type(), v);
    IntegerFieldRoundTrip(p.packetId, []);
    assert IntegerField(p.packetId) + [] == IntegerField(p.packetId);
    match p
    case Puback(_) =>
    case Pubrec(_) =>
    case Pubrel(_) =>
    case Pubcomp(_) =>
  }

  /** An acknowledgement written under one version is read back, under the
      same version, as the same packet. */
  lemma AckRoundTrip(p: Packet, v: ProtocolVersion, rest: seq<Byte>)
    requires p.IsAck()
    ensures var parsed := ParseFrame(SerializeAck(p, v) + rest);
      && parsed.Ok? && parsed.value.1 == rest
      && GetInstance(TypeCodeOf(parsed.value.0.first)) == Ok(p.Type())
      && DeserializeAck(p.Type(), parsed.value.0, v) == Ok(p)
  {
    AckFrameParses(p, v, rest);
    AckHeader(p.Type(), v);
    AckFrameDecodes(p, v);
  }

  /** PUBREL is written with flags 0010 under 3.1.1 and 0000 under 3.1, so one
      written under 3.1 is a protocol error to a 3.1.1 reader, while a 3.1
      reader takes either. */
  lemma PubrelFlagsByVersion(id: PacketId)
    ensures var parsed := ParseFrame(SerializeAck(Pubrel(id), V3_1));
      && parsed.Ok? && FlagsOf(parsed.value.0.first) == 0x00
      && DeserializeAck(PubrelType, parsed.value.0, V3_1_1) == Err(ProtocolError)
    ensures var parsed := ParseFrame(SerializeAck(Pubrel(id), V3_1_1));
      && parsed.Ok? && FlagsOf(parsed.value.0.first) == 0x02
      && DeserializeAck(PubrelType, parsed.value.0, V3_1) == Ok(Pubrel(id))
  {
    var old31, new311 := SerializeAck(Pubrel(id), V3_1), SerializeAck(Pubrel(id), V3_1_1);
    var f31 := Frame(FixedHeader(PubrelType.Code(), ZeroedHeaderFlagBits), IntegerField(id));
    var f311 := Frame(FixedHeader(PubrelType.Code(), Qos1HeaderFlagBits), IntegerField(id));
    assert ParseFrame(old31) == Ok((f31, [])) by {
      AckFrameParses(Pubrel(id), V3_1, []);
      assert old31 + [] == old31;
    }
    assert ParseFrame(new311) == Ok((f311, [])) by {
      AckFrameParses(Pubrel(id), V3_1_1, []);
      assert new311 + [] == new311;
    }
    assert FlagsOf(f31.first) == 0x00 by {
      FixedHeaderRoundTrip(PubrelType.Code(), ZeroedHeaderFlagBits);
    }
    assert FlagsOf(f311.first) == 0x02 by {
      FixedHeaderRoundTrip(PubrelType.Code(), Qos1HeaderFlagBits);
    }
    assert DeserializeAck(PubrelType, f311, V3_1) == Ok(Pubrel(id)) by {
      IntegerFieldRoundTrip(id, []);
      assert IntegerField(id) + [] == IntegerField(id);
    }
  }
}
