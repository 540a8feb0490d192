/** The packets of MQTT 3.1 / 3.1.1 as one tagged union, with the numeric type
    code each packet class declares. The packet classes and their common base
    class become the variants of `Packet`. */
module Packets {
  import opened Constants
  import opened Outcomes

  /** The fourteen packet classes, each with its `PacketTypeCode`. */
  datatype PacketType =
    | ConnectType | ConnackType
    | PublishType | PubackType | PubrecType | PubrelType | PubcompType
    | SubscribeType | SubackType | UnsubscribeType | UnsubackType
    | PingreqType | PingrespType
    | DisconnectType
  {
    function Code(): bv8 {
      match this
      case ConnectType => 0x01
      case ConnackType => 0x02
      case PublishType => 0x03
      case PubackType => 0x04
      case PubrecType => 0x05
      case PubrelType => 0x06
      case PubcompType => 0x07
      case SubscribeType => 0x08
      case SubackType => 0x09
      case UnsubscribeType => 0x0A
      case UnsubackType => 0x0B
      case PingreqType => 0x0C
      case PingrespType => 0x0D
      case DisconnectType => 0x0E
    }

    /** The packets a broker may send to a client, after the direction column of
        the table in section 2.2.1 of MQTT 3.1.1. */
    predicate BrokerMaySend() {
      !(ConnectType? || SubscribeType? || UnsubscribeType? || PingreqType? || DisconnectType?)
    }
  }

  /** The packet class with this type code, if there is one. */
  function PacketTypeOf(code: bv8): (r: Option<PacketType>)
    ensures r.Some? <==> exists t: PacketType :: t.Code() == code
    ensures r.Some? ==> r.value.Code() == code
  {
    match code
    case 0x01 => Some(ConnectType)
    case 0x02 => Some(ConnackType)
    case 0x03 => Some(PublishType)
    case 0x04 => Some(PubackType)
    case 0x05 => Some(PubrecType)
    case 0x06 => Some(PubrelType)
    case 0x07 => Some(PubcompType)
    case 0x08 => Some(SubscribeType)
    case 0x09 => Some(SubackType)
    case 0x0A => Some(UnsubscribeType)
    case 0x0B => Some(UnsubackType)
    case 0x0C => Some(PingreqType)
    case 0x0D => Some(PingrespType)
    case 0x0E => Some(DisconnectType)
    case _ => None
  }

  /** Type codes are 1 to 14 and no two classes share one. */
  lemma TypeCodesDistinct()
    ensures forall t: PacketType :: 1 <= t.Code() <= 14
    ensures forall t: PacketType, u: PacketType :: t.Code() == u.Code() ==> t == u
  {
  }

  /** Text as the UTF-8 bytes it is sent as. */
  type Text = seq<Byte>

  datatype Packet =
    /** The fields of CONNECT are not part of this model. */
    | Connect
    | Connack(sessionPresent: bool, returnCode: ConnackReturnCode)
    | Publish(dup: bool, qos: Qos, retain: bool, topic: Text, packetId: PacketId, message: seq<Byte>)
    | Puback(packetId: PacketId)
    | Pubrec(packetId: PacketId)
    | Pubrel(packetId: PacketId)
    | Pubcomp(packetId: PacketId)
    | Subscribe(packetId: PacketId, topics: seq<Text>, qosLevels: seq<Qos>)
    | Suback(packetId: PacketId, grantedQosLevels: seq<SubackReturnCode>)
    | Unsubscribe(packetId: PacketId, topics: seq<Text>)
    | Unsuback(packetId: PacketId)
    | Pingreq
    | Pingresp
    | Disconnect
  {
    function Type(): PacketType {
      match this
      case Connect => ConnectType
      case Connack(_, _) => ConnackType
      case Publish(_, _, _, _, _, _) => PublishType
      case Puback(_) => PubackType
      case Pubrec(_) => PubrecType
      case Pubrel(_) => PubrelType
      case Pubcomp(_) => PubcompType
      case Subscribe(_, _, _) => SubscribeType
      case Suback(_, _) => SubackType
      case Unsubscribe(_, _) => UnsubscribeType
      case Unsuback(_) => UnsubackType
      case Pingreq => PingreqType
      case Pingresp => PingrespType
      case Disconnect => DisconnectType
    }

    /** PUBACK, PUBREC, PUBREL and PUBCOMP: a packet identifier and nothing else. */
    predicate IsAck() {
      Puback? || Pubrec? || Pubrel? || Pubcomp?
    }
  }
}
