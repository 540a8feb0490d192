/** Maps a received type code to the packet class that reads it, and any code
    to a display name. */
module PacketFactory {
  import opened Constants
  import opened Outcomes
  import opened Packets

  /** The class whose `Deserialize` reads a packet with this type code. Only the
      types a broker may send are accepted; any other code is a protocol error. */
  function GetInstance(packetTypeCode: bv8): (r: Result<PacketType>)
    ensures r.Ok? <==> exists t: PacketType :: t.Code() == packetTypeCode && t.BrokerMaySend()
    ensures r.Ok? ==> r.value.Code() == packetTypeCode
    ensures r.Err? ==> r.error == ProtocolError
  {
    match packetTypeCode
    case 0x02 => Ok(ConnackType)
    case 0x03 => Ok(PublishType)
    case 0x04 => Ok(PubackType)
    case 0x05 => Ok(PubrecType)
    case 0x06 => Ok(PubrelType)
    case 0x07 => Ok(PubcompType)
    case 0x09 => Ok(SubackType)
    case 0x0B => Ok(UnsubackType)
    case 0x0D => Ok(PingrespType)
    case _ =>
      assert forall t: PacketType :: t.Code() == packetTypeCode ==> !t.BrokerMaySend();
      Err(ProtocolError)
  }

  /** The name used in messages; the spelling "PINREQ" is the client's own. */
  function GetPacketTypeName(packetTypeCode: bv8): string {
    match packetTypeCode
    case 0x01 => "CONNECT"
    case 0x02 => "CONNACK"
    case 0x03 => "PUBLISH"
    case 0x04 => "PUBACK"
    case 0x05 => "PUBREC"
    case 0x06 => "PUBREL"
    case 0x07 => "PUBCOMP"
    case 0x08 => "SUBSCRIBE"
    case 0x09 => "SUBACK"
    case 0x0A => "UNSUBSCRIBE"
    case 0x0B => "UNSUBACK"
    case 0x0C => "PINREQ"
    case 0x0D => "PINGRESP"
    case 0x0E => "DISCONNECT"
    case _ => "???"
  }

  /** The name is "???" exactly for the codes no packet class has; the
      fourteen known codes have pairwise distinct names. */
  lemma PacketTypeNames(code: bv8)
    ensures GetPacketTypeName(code) == "???" <==> !exists t: PacketType :: t.Code() == code
    ensures forall t: PacketType, u: PacketType :: t != u ==> GetPacketTypeName(t.Code()) != GetPacketTypeName(u.Code())
  {
    if GetPacketTypeName(code) == "???" {
      forall t: PacketType ensures t.Code() != code {
        assert GetPacketTypeName(t.Code()) != "???";
      }
    } else {
      assert PacketTypeOf(code).Some?;
    }
  }

  /** Every code `GetInstance` accepts has a proper name. */
  lemma AcceptedCodesAreNamed(code: bv8)
    requires GetInstance(code).Ok?
    ensures GetPacketTypeName(code) != "???"
  {
    PacketTypeNames(code);
  }

  /** The client-to-broker types, and the codes 0 and 15, are refused. */
  lemma ClientToBrokerCodesRefused()
    ensures GetInstance(ConnectType.Code()) == Err(ProtocolError)
    ensures GetInstance(SubscribeType.Code()) == Err(ProtocolError)
    ensures GetInstance(UnsubscribeType.Code()) == Err(ProtocolError)
    ensures GetInstance(PingreqType.Code()) == Err(ProtocolError)
    ensures GetInstance(DisconnectType.Code()) == Err(ProtocolError)
    ensures GetInstance(0x00) == Err(ProtocolError) && GetInstance(0x0F) == Err(ProtocolError)
  {
  }
}
