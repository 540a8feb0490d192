/** Protocol constants of the MQTT 3.1 / 3.1.1 client: protocol levels, QoS
    levels, the bit layout of the fixed header, size limits and the return
    codes a broker may send. */
module Constants {

  /** One byte of a packet as it travels on the wire. */
  type Byte = b: int | 0 <= b < 256

  /** A 16-bit packet identifier (`ushort`); 0 means "no identifier". */
  type PacketId = x: int | 0 <= x <= 65535

  datatype ProtocolVersion = V3_1 | V3_1_1 {
    /** The protocol level byte that identifies the version on the wire. */
    function Level(): Byte {
      match this
      case V3_1 => 0x03
      case V3_1_1 => 0x04
    }
  }

  /** The two QoS bits of a header. The named levels are 0, 1 and 2; the bit
      pattern 3 is reserved by the standard but can still arrive on the wire. */
  type Qos = q: int | 0 <= q <= 3

  const AtMostOnce: Qos := 0
  const AtLeastOnce: Qos := 1
  const ExactlyOnce: Qos := 2

  /** The values the `MqttQos` enumeration names. */
  predicate IsNamedQos(q: Qos) {
    q == AtMostOnce || q == AtLeastOnce || q == ExactlyOnce
  }

  // Bit layout of the first byte of the fixed header (sections 2.2.1 and 2.2.2
  // of MQTT 3.1.1): the packet type in the high nibble, the flags in the low one.
  const PacketTypeOffset := 4
  const PacketTypeMask: bv8 := 0xF0

  const DupFlagOffset := 3
  const DupFlagMask: bv8 := 0x08

  const RetainFlagOffset := 0
  const RetainFlagMask: bv8 := 0x01

  const QosLevelOffset := 1
  const QosLevelMask: bv8 := 0x06

  const PacketFlagsBitMask: bv8 := 0x0F
  const ZeroedHeaderFlagBits: bv8 := 0x00
  const Qos1HeaderFlagBits: bv8 := 0x02

  const MaxRemainingLength := 268435455

  const MaxPacketId := 65535

  const MinTopicLength := 1
  const MaxTopicLength := 65535

  datatype ConnackReturnCode =
    | Accepted
    | UnacceptableProtocol
    | IdentifierRejected
    | BrokerUnavailable
    | BadUsernameOrPassword
    | NotAuthorized
  {
    function Value(): Byte {
      match this
      case Accepted => 0x00
      case UnacceptableProtocol => 0x01
      case IdentifierRejected => 0x02
      case BrokerUnavailable => 0x03
      case BadUsernameOrPassword => 0x04
      case NotAuthorized => 0x05
    }
  }

  datatype SubackReturnCode =
    | AtMostOnceGranted
    | AtLeastOnceGranted
    | ExactlyOnceGranted
    | SubscriptionFailed
  {
    function Value(): Byte {
      match this
      case AtMostOnceGranted => 0x00
      case AtLeastOnceGranted => 0x01
      case ExactlyOnceGranted => 0x02
      case SubscriptionFailed => 0x80
    }
  }

  /** The two versions are told apart by their level bytes 3 and 4. */
  lemma ProtocolLevels()
    ensures V3_1.Level() == 3 && V3_1_1.Level() == 4
    ensures forall v: ProtocolVersion, w: ProtocolVersion :: v.Level() == w.Level() ==> v == w
  {
  }

  /** The named QoS levels are exactly 0, 1 and 2. */
  lemma NamedQosLevels(q: Qos)
    ensures IsNamedQos(q) <==> q in {0, 1, 2}
  {
  }

  /** The type nibble and the flag nibble split the header byte; DUP, QoS and
      RETAIN are disjoint masks at their offsets that together fill the flag
      nibble, and `Qos1HeaderFlagBits` is QoS 1 moved to the QoS offset. */
  lemma HeaderMasksPartitionByte()
    ensures PacketTypeMask & PacketFlagsBitMask == 0 && PacketTypeMask | PacketFlagsBitMask == 0xFF
    ensures PacketTypeMask == 0x0F << PacketTypeOffset
    ensures DupFlagMask == 1 << DupFlagOffset
    ensures RetainFlagMask == 1 << RetainFlagOffset
    ensures QosLevelMask == 3 << QosLevelOffset
    ensures DupFlagMask & QosLevelMask == 0 && DupFlagMask & RetainFlagMask == 0 && QosLevelMask & RetainFlagMask == 0
    ensures DupFlagMask | QosLevelMask | RetainFlagMask == PacketFlagsBitMask
    ensures Qos1HeaderFlagBits == 1 << QosLevelOffset
  {
  }

  /** CONNACK codes are 0 to 5, distinct, with Accepted as 0. */
  lemma ConnackCodes()
    ensures Accepted.Value() == 0
    ensures forall c: ConnackReturnCode :: c.Value() <= 5
    ensures forall c: ConnackReturnCode, d: ConnackReturnCode :: c.Value() == d.Value() ==> c == d
  {
  }

  /** SUBACK codes are 0, 1, 2 and 0x80, and the three granted codes carry the
      values of the QoS level they grant. */
  lemma SubackCodes()
    ensures AtMostOnceGranted.Value() == AtMostOnce
    ensures AtLeastOnceGranted.Value() == AtLeastOnce
    ensures ExactlyOnceGranted.Value() == ExactlyOnce
    ensures SubscriptionFailed.Value() == 0x80
    ensures forall c: SubackReturnCode, d: SubackReturnCode :: c.Value() == d.Value() ==> c == d
  {
  }
}
