/** The virtual `Serialize` / `Deserialize` pair of every modelled packet
    class, dispatched on the packet's class. A class the client only sends
    refuses to be read, and one it only receives refuses to be written. */
module Codec {
  import opened Constants
  import opened Outcomes
  import opened Framing
  import opened Packets
  import opened PublishPackets
  import opened SubscriptionPackets

  /** The packet classes whose `Serialize` and `Deserialize` are modelled. */
  predicate IsModelledType(t: PacketType) {
    t == PublishType || IsAckType(t)
    || t == SubscribeType || t == SubackType || t == UnsubscribeType || t == UnsubackType
  }

  /** `Serialize` of the packet's own class. */
  method Serialize(p: Packet, v: ProtocolVersion) returns (r: Result<seq<Byte>>)
    requires IsModelledType(p.Type())
    ensures p.Suback? || p.Unsuback? ==> r == Err(ProtocolError)
    ensures p.Publish? ==> r == SerializePublish(p, v)
    ensures p.IsAck() ==> r == Ok(SerializeAck(p, v))
    ensures r.Ok? ==> |r.value| >= 2 && TypeCodeOf(r.value[0] as bv8) == p.Type().Code()
  {
    match p
    case Publish(_, _, _, _, _, _) =>
      r := SerializePublish(p, v);
      if r.Ok? {
        FixedHeaderRoundTrip(PublishType.Code(), PublishFlags(p.dup, p.qos, p.retain));
      }
    case Puback(_) =>
      r := Ok(SerializeAck(p, v));
      AckHeader(p.Type(), v);
    case Pubrec(_) =>
      r := Ok(SerializeAck(p, v));
      AckHeader(p.Type(), v);
    case Pubrel(_) =>
      r := Ok(SerializeAck(p, v));
      AckHeader(p.Type(), v);
    case Pubcomp(_) =>
      r := Ok(SerializeAck(p, v));
      AckHeader(p.Type(), v);
    case Subscribe(_, _, _) =>
      r := SerializeSubscribe(p, v);
      FixedHeaderRoundTrip(SubscribeType.Code(), RequestFlags(v));
    case Unsubscribe(_, _) =>
      r := SerializeUnsubscribe(p, v);
      FixedHeaderRoundTrip(UnsubscribeType.Code(), RequestFlags(v));
    case Suback(_, _) =>
      r := Err(ProtocolError);
    case Unsuback(_) =>
      r := Err(ProtocolError);
  }

  /** `Deserialize` of the class `t` that `GetInstance` chose for the frame.
      PUBLISH is read by the corrected reader, which refuses QoS bits 11. */
  method Deserialize(t: PacketType, f: Frame, v: ProtocolVersion) returns (r: Result<Packet>)
    requires IsModelledType(t)
    ensures t == SubscribeType || t == UnsubscribeType ==> r == Err(ProtocolError)
    ensures t == PublishType ==> r == DeserializePublish(f)
    ensures IsAckType(t) ==> r == DeserializeAck(t, f, v)
    ensures t == SubackType ==> (r.Ok? <==> SubackFrameValid(f, v)) && (r.Ok? ==> SubackReadFrom(r.value, f))
    ensures t == UnsubackType ==> r == DeserializeUnsuback(f, v)
    ensures r.Ok? ==> r.value.Type() == t
  {
    if t == PublishType {
      r := DeserializePublish(f);
    } else if IsAckType(t) {
      r := DeserializeAck(t, f, v);
    } else if t == SubackType {
      r := DeserializeSuback(f, v);
    } else if t == UnsubackType {
      r := DeserializeUnsuback(f, v);
    } else {
      r := Err(ProtocolError);
    }
  }
}
