/** SUBSCRIBE, SUBACK, UNSUBSCRIBE and UNSUBACK (sections 3.8 to 3.11 of
    MQTT 3.1.1). The client writes the requests and reads the replies; the
    reverse directions are refused by `Codec`. */
module SubscriptionPackets {
  import opened Constants
  import opened Outcomes
  import opened Framing
  import opened Packets

  /** The flag nibble of SUBSCRIBE and UNSUBSCRIBE: 0010 under 3.1.1, 0000 under 3.1. */
  function RequestFlags(v: ProtocolVersion): (flags: bv8)
    ensures flags < 16
  {
    if v == V3_1_1 then Qos1HeaderFlagBits else ZeroedHeaderFlagBits
  }

  predicate TopicLengthValid(topic: Text) {
    MinTopicLength <= |topic| <= MaxTopicLength
  }

  /** Every topic fits the 2-byte length prefix of a text field. */
  predicate AllFitTextField(topics: seq<Text>) {
    forall i :: 0 <= i < |topics| ==> |topics[i]| <= MaxTextLength
  }

  // ---------------------------------------------------------------------------
  // SUBSCRIBE

  /** `SubscribePacket.Validate`: as many QoS levels as topics, and every
      topic 1 to 65535 long. */
  function ValidateSubscribe(topics: seq<Text>, qosLevels: seq<Qos>): (r: Result<()>)
    ensures r.Ok? <==> |topics| == |qosLevels| && forall i :: 0 <= i < |topics| ==> TopicLengthValid(topics[i])
    ensures r.Ok? ==> AllFitTextField(topics)
    ensures r.Err? ==> r.error == ArgumentError
  {
    if |topics| != |qosLevels| then Err(ArgumentError)
    else if exists i :: 0 <= i < |topics| && !TopicLengthValid(topics[i]) then Err(ArgumentError)
    else Ok(())
  }

  /** The payload of a SUBSCRIBE: for each topic in order its text field and
      one requested-QoS byte. The byte is `qos & 0x03`, which is the QoS
      itself for every two-bit value. */
  function SubscriptionEntries(topics: seq<Text>, qosLevels: seq<Qos>): seq<Byte>
    requires |topics| == |qosLevels| && AllFitTextField(topics)
  {
    if |topics| == 0 then []
    else TextFieldBytes(topics[0]) + [qosLevels[0]] + SubscriptionEntries(topics[1..], qosLevels[1..])
  }

  /** Appending one subscription appends its entry to the payload. */
  lemma {:induction false} SubscriptionEntriesAppend(topics: seq<Text>, qosLevels: seq<Qos>, t: Text, q: Qos)
    requires |topics| == |qosLevels| && AllFitTextField(topics) && |t| <= MaxTextLength
    ensures AllFitTextField(topics + [t])
    ensures SubscriptionEntries(topics + [t], qosLevels + [q])
         == SubscriptionEntries(topics, qosLevels) + TextFieldBytes(t) + [q]
  {
    var ts, qs := topics + [t], qosLevels + [q];
    assert AllFitTextField(ts) by {
      assert forall i :: 0 <= i < |topics| ==> ts[i] == topics[i];
    }
    if |topics| == 0 {
      assert ts == [t] && qs == [q];
    } else {
      assert AllFitTextField(topics[1..]) by {
        assert forall i :: 0 <= i < |topics| - 1 ==> topics[1..][i] == topics[i + 1];
      }
      var rest := SubscriptionEntries(topics[1..], qosLevels[1..]);
      SubscriptionEntriesAppend(topics[1..], qosLevels[1..], t, q);
      calc {
        SubscriptionEntries(ts, qs);
        TextFieldBytes(topics[0]) + [qosLevels[0]] + SubscriptionEntries(ts[1..], qs[1..]);
        { assert ts[1..] == topics[1..] + [t] && qs[1..] == qosLevels[1..] + [q]; }
        TextFieldBytes(topics[0]) + [qosLevels[0]] + (rest + TextFieldBytes(t) + [q]);
        (TextFieldBytes(topics[0]) + [qosLevels[0]] + rest) + TextFieldBytes(t) + [q];
      }
    }
  }

  /** Taking one more subscription of a list appends its entry to the payload. */
  lemma SubscriptionEntriesPrefix(topics: seq<Text>, qosLevels: seq<Qos>, i: nat)
    requires |topics| == |qosLevels| && AllFitTextField(topics) && i < |topics|
    ensures AllFitTextField(topics[..i]) && AllFitTextField(topics[..i + 1])
    ensures SubscriptionEntries(topics[..i + 1], qosLevels[..i + 1])
         == SubscriptionEntries(topics[..i], qosLevels[..i]) + TextFieldBytes(topics[i]) + [qosLevels[i]]
  {
    assert AllFitTextField(topics[..i]) by {
      assert forall j :: 0 <= j < i ==> topics[..i][j] == topics[j];
    }
    SubscriptionEntriesAppend(topics[..i], qosLevels[..i], topics[i], qosLevels[i]);
    assert topics[..i + 1] == topics[..i] + [topics[i]];
    assert qosLevels[..i + 1] == qosLevels[..i] + [qosLevels[i]];
  }

  function SubscribeBody(p: Packet): seq<Byte>
    requires p.Subscribe? && ValidateSubscribe(p.topics, p.qosLevels).Ok?
  {
    IntegerField(p.packetId) + SubscriptionEntries(p.topics, p.qosLevels)
  }

  /** `SubscribePacket.Serialize`: validate first, then the header, the packet
      identifier and one entry per topic, appended in a loop. */
  method SerializeSubscribe(p: Packet, v: ProtocolVersion) returns (r: Result<seq<Byte>>)
    requires p.Subscribe?
    ensures ValidateSubscribe(p.topics, p.qosLevels).Err? ==> r == Err(ArgumentError)
    ensures ValidateSubscribe(p.topics, p.qosLevels).Ok? ==>
      r == EncodeFrame(FixedHeader(SubscribeType.Code(), RequestFlags(v)), SubscribeBody(p))
  {
    var valid := ValidateSubscribe(p.topics, p.qosLevels);
    if valid.Err? {
      return Err(ArgumentError);
    }
    var body := IntegerField(p.packetId);
    for i := 0 to |p.topics|
      invariant AllFitTextField(p.topics[..i])
      invariant body == IntegerField(p.packetId) + SubscriptionEntries(p.topics[..i], p.qosLevels[..i])
    {
      SubscriptionEntriesPrefix(p.topics, p.qosLevels, i);
      body := body + TextFieldBytes(p.topics[i]) + [p.qosLevels[i]];
    }
    assert p.topics[..|p.topics|] == p.topics && p.qosLevels[..|p.qosLevels|] == p.qosLevels;
    r := EncodeFrame(FixedHeader(SubscribeType.Code(), RequestFlags(v)), body);
  }

  /** How a broker reads the SUBSCRIBE payload: text field, QoS byte, until
      the packet ends. A reference reader, independent of the writer. */
  function ReadSubscriptionEntries(bytes: seq<Byte>): (r: Result<(seq<Text>, seq<Qos>)>)
    ensures r.Ok? ==> |r.value.0| == |r.value.1|
    decreases |bytes|
  {
    if |bytes| == 0 then Ok(([], []))
    else
      var t :- ReadTextField(bytes);
      var topic, rest := t.0, t.1;
      if |rest| == 0 then Err(MalformedPacket)
      else if rest[0] > 3 then Err(ProtocolError)
      else
        var more :- ReadSubscriptionEntries(rest[1..]);
        Ok(([topic] + more.0, [rest[0] as Qos] + more.1))
  }

  /** One step of the reference reader: a text field, then a QoS byte, then
      the entries that follow. */
  lemma {:induction false} ReadSubscriptionEntriesStep(bytes: seq<Byte>, topic: Text, q: Qos, tail: seq<Byte>, topics: seq<Text>, qosLevels: seq<Qos>)
    requires ReadTextField(bytes) == Ok((topic, [q] + tail))
    requires ReadSubscriptionEntries(tail) == Ok((topics, qosLevels))
    ensures ReadSubscriptionEntries(bytes) == Ok(([topic] + topics, [q] + qosLevels))
  {
    assert |bytes| > 0;
    assert ([q] + tail)[1..] == tail;
  }

  /** The payload of a non-empty list is its first topic's text field, its
      first QoS byte, and the payload of the rest. */
  lemma {:induction false} SubscriptionEntriesCons(topics: seq<Text>, qosLevels: seq<Qos>)
    requires |topics| == |qosLevels| > 0 && AllFitTextField(topics)
    ensures AllFitTextField(topics[1..]) && |topics[0]| <= MaxTextLength
    ensures SubscriptionEntries(topics, qosLevels)
         == TextFieldBytes(topics[0]) + ([qosLevels[0]] + SubscriptionEntries(topics[1..], qosLevels[1..]))
  {
    assert AllFitTextField(topics[1..]) by {
      assert forall i :: 0 <= i < |topics| - 1 ==> topics[1..][i] == topics[i + 1];
    }
    var head, tail := TextFieldBytes(topics[0]), SubscriptionEntries(topics[1..], qosLevels[1..]);
    assert SubscriptionEntries(topics, qosLevels) == head + [qosLevels[0]] + tail;
    assert head + [qosLevels[0]] + tail == head + ([qosLevels[0]] + tail);
  }

  /** A non-empty sequence is its first element followed by the rest. */
  lemma HeadAndRest<T>(xs: seq<T>)
    requires |xs| > 0
    ensures [xs[0]] + xs[1..] == xs
  {
    assert ([xs[0]] + xs[1..])[0] == xs[0];
  }

  /** The reference reader recovers every topic and QoS, in order. */
  lemma {:induction false} SubscriptionEntriesRoundTrip(topics: seq<Text>, qosLevels: seq<Qos>)
    requires |topics| == |qosLevels| && AllFitTextField(topics)
    ensures ReadSubscriptionEntries(SubscriptionEntries(topics, qosLevels)) == Ok((topics, qosLevels))
  {
    if |topics| > 0 {
      SubscriptionEntriesCons(topics, qosLevels);
      var tail := SubscriptionEntries(topics[1..], qosLevels[1..]);
      TextFieldRoundTrip(topics[0], [qosLevels[0]] + tail);
      SubscriptionEntriesRoundTrip(topics[1..], qosLevels[1..]);
      ReadSubscriptionEntriesStep(SubscriptionEntries(topics, qosLevels), topics[0], qosLevels[0], tail, topics[1..], qosLevels[1..]);
      HeadAndRest(topics);
      HeadAndRest(qosLevels);
    }
  }

  /** A SUBSCRIBE the client writes is read back by a broker as the same
      identifier, topics and QoS levels, with the header the version asks for. */
  lemma SubscribeRoundTrip(p: Packet, v: ProtocolVersion, rest: seq<Byte>)
    requires p.Subscribe? && ValidateSubscribe(p.topics, p.qosLevels).Ok?
    requires EncodeFrame(FixedHeader(SubscribeType.Code(), RequestFlags(v)), SubscribeBody(p)).Ok?
    ensures var parsed := ParseFrame(EncodeFrame(FixedHeader(SubscribeType.Code(), RequestFlags(v)), SubscribeBody(p)).value + rest);
      && parsed.Ok? && parsed.value.1 == rest
      && TypeCodeOf(parsed.value.0.first) == SubscribeType.Code()
      && FlagsOf(parsed.value.0.first) == RequestFlags(v)
      && ReadIntegerField(parsed.value.0.body).Ok?
      && ReadIntegerField(parsed.value.0.body).value.0 == p.packetId
      && ReadSubscriptionEntries(ReadIntegerField(parsed.value.0.body).value.1) == Ok((p.topics, p.qosLevels))
  {
    var first := FixedHeader(SubscribeType.Code(), RequestFlags(v));
    FrameRoundTrip(first, SubscribeBody(p), rest);
    FixedHeaderRoundTrip(SubscribeType.Code(), RequestFlags(v));
    IntegerFieldRoundTrip(p.packetId, SubscriptionEntries(p.topics, p.qosLevels));
    SubscriptionEntriesRoundTrip(p.topics, p.qosLevels);
  }

  // ---------------------------------------------------------------------------
  // UNSUBSCRIBE

  /** The payload of an UNSUBSCRIBE: each topic's text field, in order. */
  function UnsubscribeEntries(topics: seq<Text>): seq<Byte>
    requires AllFitTextField(topics)
  {
    if |topics| == 0 then [] else TextFieldBytes(topics[0]) + UnsubscribeEntries(topics[1..])
  }

  lemma {:induction false} UnsubscribeEntriesAppend(topics: seq<Text>, t: Text)
    requires AllFitTextField(topics) && |t| <= MaxTextLength
    ensures AllFitTextField(topics + [t])
    ensures UnsubscribeEntries(topics + [t]) == UnsubscribeEntries(topics) + TextFieldBytes(t)
  {
    assert forall i :: 0 <= i < |topics| ==> (topics + [t])[i] == topics[i];
    if |topics| == 0 {
      assert topics + [t] == [t];
      assert UnsubscribeEntries([t]) == TextFieldBytes(t) + UnsubscribeEntries([]);
    } else {
      assert (topics + [t])[1..] == topics[1..] + [t];
      UnsubscribeEntriesAppend(topics[1..], t);
    }
  }

  function UnsubscribeBody(p: Packet): seq<Byte>
    requires p.Unsubscribe? && AllFitTextField(p.topics)
  {
    IntegerField(p.packetId) + UnsubscribeEntries(p.topics)
  }

  /** `UnsubscribePacket.Serialize`: the header, the packet identifier and one
      text field per topic, appended in a loop. The topics are not validated;
      only a topic too long for its length prefix stops the writer. */
  method SerializeUnsubscribe(p: Packet, v: ProtocolVersion) returns (r: Result<seq<Byte>>)
    requires p.Unsubscribe?
    ensures !AllFitTextField(p.topics) ==> r == Err(ArgumentError)
    ensures AllFitTextField(p.topics) ==>
      r == EncodeFrame(FixedHeader(UnsubscribeType.Code(), RequestFlags(v)), UnsubscribeBody(p))
  {
    var body := IntegerField(p.packetId);
    for i := 0 to |p.topics|
      invariant AllFitTextField(p.topics[..i])
      invariant body == IntegerField(p.packetId) + UnsubscribeEntries(p.topics[..i])
    {
      var field := TextField(p.topics[i]);
      if field.Err? {
        return Err(ArgumentError);
      }
      UnsubscribeEntriesAppend(p.topics[..i], p.topics[i]);
      assert p.topics[..i + 1] == p.topics[..i] + [p.topics[i]];
      body := body + field.value;
    }
    assert p.topics[..|p.topics|] == p.topics;
    r := EncodeFrame(FixedHeader(UnsubscribeType.Code(), RequestFlags(v)), body);
  }

  /** How a broker reads the UNSUBSCRIBE payload: text fields until the packet ends. */
  function ReadUnsubscribeEntries(bytes: seq<Byte>): (r: Result<seq<Text>>)
    decreases |bytes|
  {
    if |bytes| == 0 then Ok([])
    else
      var t :- ReadTextField(bytes);
      var more :- ReadUnsubscribeEntries(t.1);
      Ok([t.0] + more)
  }

  lemma {:induction false} UnsubscribeEntriesRoundTrip(topics: seq<Text>)
    requires AllFitTextField(topics)
    ensures ReadUnsubscribeEntries(UnsubscribeEntries(topics)) == Ok(topics)
  {
    if |topics| > 0 {
      var tail := UnsubscribeEntries(topics[1..]);
      TextFieldRoundTrip(topics[0], tail);
      UnsubscribeEntriesRoundTrip(topics[1..]);
      assert [topics[0]] + topics[1..] == topics;
    }
  }

  /** An UNSUBSCRIBE the client writes is read back by a broker as the same
      identifier and topics, with no QoS bytes between them. */
  lemma UnsubscribeRoundTrip(p: Packet, v: ProtocolVersion, rest: seq<Byte>)
    requires p.Unsubscribe? && AllFitTextField(p.topics)
    requires EncodeFrame(FixedHeader(UnsubscribeType.Code(), RequestFlags(v)), UnsubscribeBody(p)).Ok?
    ensures var parsed := ParseFrame(EncodeFrame(FixedHeader(UnsubscribeType.Code(), RequestFlags(v)), UnsubscribeBody(p)).value + rest);
      && parsed.Ok? && parsed.value.1 == rest
      && TypeCodeOf(parsed.value.0.first) == UnsubscribeType.Code()
      && FlagsOf(parsed.value.0.first) == RequestFlags(v)
      && ReadIntegerField(parsed.value.0.body).Ok?
      && ReadIntegerField(parsed.value.0.body).value.0 == p.packetId
      && ReadUnsubscribeEntries(ReadIntegerField(parsed.value.0.body).value.1) == Ok(p.topics)
  {
    var first := FixedHeader(UnsubscribeType.Code(), RequestFlags(v));
    FrameRoundTrip(first, UnsubscribeBody(p), rest);
    FixedHeaderRoundTrip(UnsubscribeType.Code(), RequestFlags(v));
    IntegerFieldRoundTrip(p.packetId, UnsubscribeEntries(p.topics));
    UnsubscribeEntriesRoundTrip(p.topics);
  }

  // ---------------------------------------------------------------------------
  // SUBACK

  /** The return code a byte stands for: 0, 1, 2 and 0x80 only. */
  function SubackReturnCodeOf(b: Byte): (r: Option<SubackReturnCode>)
    ensures r.Some? <==> b <= 2 || b == 0x80
    ensures r.Some? ==> r.value.Value() == b
  {
    if b == 0 then Some(AtMostOnceGranted)
    else if b == 1 then Some(AtLeastOnceGranted)
    else if b == 2 then Some(ExactlyOnceGranted)
    else if b == 0x80 then Some(SubscriptionFailed)
    else None
  }

  /** Every return code is read back from its own byte. */
  lemma SubackReturnCodeRoundTrip(c: SubackReturnCode)
    ensures SubackReturnCodeOf(c.Value()) == Some(c)
  {
  }

  /** A SUBACK frame a reader accepts: zero flags under 3.1.1, an
      identifier, and a return code in every remaining byte. */
  predicate SubackFrameValid(f: Frame, v: ProtocolVersion) {
    && (v == V3_1_1 ==> FlagsOf(f.first) == ZeroedHeaderFlagBits)
    && |f.body| >= 2
    && forall i :: 2 <= i < |f.body| ==> SubackReturnCodeOf(f.body[i]).Some?
  }

  /** `p` is the SUBACK the frame carries: its identifier is the first two
      bytes, and there is one return code per remaining byte, equal to it. */
  predicate SubackReadFrom(p: Packet, f: Frame) {
    && p.Suback? && |f.body| >= 2
    && IntegerField(p.packetId) == f.body[..2]
    && |p.grantedQosLevels| == |f.body| - 2
    && forall i :: 0 <= i < |p.grantedQosLevels| ==> p.grantedQosLevels[i].Value() == f.body[i + 2]
  }

  /** `SubackPacket.Deserialize`: flags checked under 3.1.1, the identifier,
      then one return code per remaining byte, collected into an array. */
  method DeserializeSuback(f: Frame, v: ProtocolVersion) returns (r: Result<Packet>)
    ensures r.Ok? <==> SubackFrameValid(f, v)
    ensures r.Ok? ==> SubackReadFrom(r.value, f)
    ensures r.Err? && |f.body| >= 2 ==> r.error == ProtocolError
  {
    if v == V3_1_1 && FlagsOf(f.first) != ZeroedHeaderFlagBits {
      return Err(ProtocolError);
    }
    var id := ReadIntegerField(f.body);
    if id.Err? {
      return Err(id.error);
    }
    var packetId, bytes := id.value.0, id.value.1;
    var codes := new SubackReturnCode[|bytes|](_ => AtMostOnceGranted);
    for i := 0 to |bytes|
      invariant forall j :: 0 <= j < i ==> SubackReturnCodeOf(bytes[j]) == Some(codes[j])
    {
      var code := SubackReturnCodeOf(bytes[i]);
      if code.None? {
        assert f.body[i + 2] == bytes[i];
        return Err(ProtocolError);
      }
      codes[i] := code.value;
    }
    assert forall i :: 2 <= i < |f.body| ==> f.body[i] == bytes[i - 2];
    return Ok(Suback(packetId, codes[..]));
  }

  // ---------------------------------------------------------------------------
  // UNSUBACK

  /** `UnsubackPacket.Deserialize`: flags checked under 3.1.1, remaining length 2. */
  function DeserializeUnsuback(f: Frame, v: ProtocolVersion): (r: Result<Packet>)
    ensures r.Ok? <==> (v == V3_1_1 ==> FlagsOf(f.first) == ZeroedHeaderFlagBits) && |f.body| == 2
    ensures r.Ok? ==> r.value.Unsuback? && IntegerField(r.value.packetId) == f.body
    ensures r.Err? ==> r.error == ProtocolError
  {
    if v == V3_1_1 && FlagsOf(f.first) != ZeroedHeaderFlagBits then Err(ProtocolError)
    else if |f.body| != 2 then Err(ProtocolError)
    else Ok(Unsuback(ReadIntegerField(f.body).value.0))
  }
}
