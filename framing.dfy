/** The framing primitives every packet is built from, as sections 1.5 and 2.2
    of MQTT 3.1.1 define them: the first header byte (`type << 4 | flags`),
    the remaining length as a base-128 number of one to four digits, the
    2-byte big-endian integer and the length-prefixed text field. The packet
    writer and reader of the client are not part of this model; these
    functions stand for their primitives. */
module Framing {
  import opened Constants
  import opened Outcomes

  // ---------------------------------------------------------------------------
  // The first byte of the fixed header

  /** `type << 4 | flags`. */
  function FixedHeader(typeCode: bv8, flags: bv8): bv8
    requires typeCode < 16 && flags < 16
  {
    (typeCode << PacketTypeOffset) | flags
  }

  function QosBits(q: Qos): (b: bv8)
    ensures b < 4
  {
    if q == 0 then 0 else if q == 1 then 1 else if q == 2 then 2 else 3
  }

  function QosOfBits(b: bv8): Qos
    requires b < 4
  {
    if b == 0 then 0 else if b == 1 then 1 else if b == 2 then 2 else 3
  }

  /** The flag nibble of a PUBLISH: DUP in bit 3, QoS in bits 1-2, RETAIN in bit 0. */
  function PublishFlags(dup: bool, qos: Qos, retain: bool): (flags: bv8)
    ensures flags < 16
  {
    (if dup then DupFlagMask else 0) | (QosBits(qos) << QosLevelOffset) | (if retain then RetainFlagMask else 0)
  }

  function TypeCodeOf(first: bv8): bv8 {
    (first & PacketTypeMask) >> PacketTypeOffset
  }

  function FlagsOf(first: bv8): bv8 {
    first & PacketFlagsBitMask
  }

  predicate DupOf(first: bv8) {
    first & DupFlagMask != 0
  }

  function QosOf(first: bv8): Qos {
    QosOfBits((first & QosLevelMask) >> QosLevelOffset)
  }

  predicate RetainOf(first: bv8) {
    first & RetainFlagMask != 0
  }

  /** The type and the flags written into a header byte are read back unchanged. */
  lemma FixedHeaderRoundTrip(typeCode: bv8, flags: bv8)
    requires typeCode < 16 && flags < 16
    ensures TypeCodeOf(FixedHeader(typeCode, flags)) == typeCode
    ensures FlagsOf(FixedHeader(typeCode, flags)) == flags
  {
  }

  /** DUP, QoS and RETAIN written into a PUBLISH header are read back unchanged. */
  lemma PublishFlagsRoundTrip(typeCode: bv8, dup: bool, qos: Qos, retain: bool)
    requires typeCode < 16
    ensures PublishFlags(dup, qos, retain) < 16
    ensures var first := FixedHeader(typeCode, PublishFlags(dup, qos, retain));
      DupOf(first) == dup && QosOf(first) == qos && RetainOf(first) == retain
  {
    var b := QosBits(qos);
    assert QosOfBits(b) == qos;
    var flags := PublishFlags(dup, qos, retain);
    var first := FixedHeader(typeCode, flags);
    assert (first & QosLevelMask) >> QosLevelOffset == b;
  }

  // ---------------------------------------------------------------------------
  // 2-byte big-endian integer (section 1.5.2)

  function IntegerField(x: PacketId): seq<Byte> {
    [x / 256, x % 256]
  }

  /** Reads a 2-byte integer; the rest of the input is returned beside it. */
  function ReadIntegerField(bytes: seq<Byte>): (r: Result<(PacketId, seq<Byte>)>)
    ensures r.Ok? <==> |bytes| >= 2
    ensures r.Ok? ==> r.value.1 == bytes[2..]
  {
    if |bytes| < 2 then Err(MalformedPacket)
    else
      var x: PacketId := (bytes[0] as int) * 256 + bytes[1];
      Ok((x, bytes[2..]))
  }

  lemma IntegerFieldRoundTrip(x: PacketId, rest: seq<Byte>)
    ensures ReadIntegerField(IntegerField(x) + rest) == Ok((x, rest))
  {
    assert (IntegerField(x) + rest)[2..] == rest;
  }

  // ---------------------------------------------------------------------------
  // Length-prefixed text field (section 1.5.3)

  /** The longest text a 2-byte length prefix can announce. */
  const MaxTextLength := 65535

  function TextFieldBytes(s: seq<Byte>): seq<Byte>
    requires |s| <= MaxTextLength
  {
    IntegerField(|s|) + s
  }

  /** A text field; text too long for its length prefix is refused. */
  function TextField(s: seq<Byte>): (r: Result<seq<Byte>>)
    ensures r.Ok? <==> |s| <= MaxTextLength
  {
    if |s| > MaxTextLength then Err(ArgumentError) else Ok(TextFieldBytes(s))
  }

  /** Reads a text field; the rest of the input is returned beside it. */
  function ReadTextField(bytes: seq<Byte>): (r: Result<(seq<Byte>, seq<Byte>)>)
    ensures r.Ok? ==> |r.value.0| <= MaxTextLength && bytes == TextFieldBytes(r.value.0) + r.value.1
  {
    var p :- ReadIntegerField(bytes);
    var n, rest := p.0, p.1;
    if |rest| < n then Err(MalformedPacket)
    else
      assert bytes == IntegerField(n) + rest[..n] + rest[n..];
      Ok((rest[..n], rest[n..]))
  }

  lemma TextFieldRoundTrip(s: seq<Byte>, rest: seq<Byte>)
    requires |s| <= MaxTextLength
    ensures ReadTextField(TextFieldBytes(s) + rest) == Ok((s, rest))
  {
    var bytes := TextFieldBytes(s) + rest;
    assert bytes == IntegerField(|s|) + (s + rest);
    IntegerFieldRoundTrip(|s|, s + rest);
    assert (s + rest)[..|s|] == s && (s + rest)[|s|..] == rest;
  }

  // ---------------------------------------------------------------------------
  // Remaining length (section 2.2.3): base 128, least significant digit first,
  // bit 7 of a digit set when another digit follows, at most four digits

  const MaxRemainingLengthDigits := 4

  function Pow128(k: nat): (r: nat)
    ensures r >= 1
  {
    if k == 0 then 1 else 128 * Pow128(k - 1)
  }

  function RemainingLengthDigits(n: nat): (r: seq<Byte>)
    ensures |r| >= 1
  {
    if n < 128 then [n] else [n % 128 + 128] + RemainingLengthDigits(n / 128)
  }

  /** The encoded remaining length; a value needing a fifth digit is refused. */
  function EncodeRemainingLength(n: nat): (r: Result<seq<Byte>>)
    ensures r.Ok? <==> n <= MaxRemainingLength
    ensures r.Ok? ==> 1 <= |r.value| <= MaxRemainingLengthDigits && r.value == RemainingLengthDigits(n)
  {
    if n > MaxRemainingLength then Err(ArgumentError)
    else
      DigitsLength(n, MaxRemainingLengthDigits);
      Ok(RemainingLengthDigits(n))
  }

  /** Reads at most `budget` digits; returns the value and the number of bytes used. */
  function DecodeDigits(bytes: seq<Byte>, budget: nat): (r: Result<(nat, nat)>)
    ensures r.Ok? ==> 1 <= r.value.1 <= |bytes| && r.value.1 <= budget && r.value.0 < Pow128(r.value.1)
  {
    if budget == 0 then Err(ProtocolError)
    else if |bytes| == 0 then Err(MalformedPacket)
    else if bytes[0] < 128 then Ok((bytes[0], 1))
    else
      var p :- DecodeDigits(bytes[1..], budget - 1);
      Ok((bytes[0] - 128 + 128 * p.0, p.1 + 1))
  }

  /** Reads the remaining length that follows the first header byte. */
  function DecodeRemainingLength(bytes: seq<Byte>): Result<(nat, nat)> {
    DecodeDigits(bytes, MaxRemainingLengthDigits)
  }

  /** A value fits in k digits exactly when it is below 128^k. */
  lemma {:induction false} DigitsLength(n: nat, k: nat)
    requires k >= 1
    ensures |RemainingLengthDigits(n)| <= k <==> n < Pow128(k)
  {
    if n >= 128 {
      if k == 1 {
        assert |RemainingLengthDigits(n)| >= 2 by {
          assert RemainingLengthDigits(n) == [n % 128 + 128] + RemainingLengthDigits(n / 128);
        }
      } else {
        DigitsLength(n / 128, k - 1);
        assert |RemainingLengthDigits(n)| == 1 + |RemainingLengthDigits(n / 128)|;
        assert n < Pow128(k) <==> n / 128 < Pow128(k - 1);
      }
    } else {
      assert Pow128(k) >= 128 by { assert Pow128(k) == 128 * Pow128(k - 1); }
    }
  }

  /** The largest remaining length is the largest four-digit value, 128^4 - 1. */
  lemma MaxRemainingLengthIsFourDigits()
    ensures MaxRemainingLength == Pow128(MaxRemainingLengthDigits) - 1
    ensures |RemainingLengthDigits(MaxRemainingLength)| == 4
    ensures EncodeRemainingLength(MaxRemainingLength + 1).Err?
  {
    DigitsLength(MaxRemainingLength, 3);
    DigitsLength(MaxRemainingLength, 4);
  }

  /** Decoding the digits of n, followed by anything, gives n back. */
  lemma {:induction false} DecodeDigitsRoundTrip(n: nat, rest: seq<Byte>, budget: nat)
    requires |RemainingLengthDigits(n)| <= budget
    ensures DecodeDigits(RemainingLengthDigits(n) + rest, budget) == Ok((n, |RemainingLengthDigits(n)|))
  {
    var bytes := RemainingLengthDigits(n) + rest;
    if n >= 128 {
      var tail := RemainingLengthDigits(n / 128);
      assert bytes[0] == n % 128 + 128;
      assert bytes[1..] == tail + rest;
      DecodeDigitsRoundTrip(n / 128, rest, budget - 1);
    }
  }

  /** The remaining length round-trips for every value the encoder accepts. */
  lemma RemainingLengthRoundTrip(n: nat, rest: seq<Byte>)
    requires EncodeRemainingLength(n).Ok?
    ensures var digits := EncodeRemainingLength(n).value;
      DecodeRemainingLength(digits + rest) == Ok((n, |digits|))
  {
    DecodeDigitsRoundTrip(n, rest, MaxRemainingLengthDigits);
  }

  /** No input decodes to a remaining length above the maximum. */
  lemma DecodedRemainingLengthBounded(bytes: seq<Byte>)
    requires DecodeRemainingLength(bytes).Ok?
    ensures DecodeRemainingLength(bytes).value.0 <= MaxRemainingLength
  {
    var k := DecodeRemainingLength(bytes).value.1;
    assert Pow128(k) <= Pow128(4) by {
      assert k <= 4;
      if k < 4 { assert Pow128(k) <= Pow128(3) by { if k < 3 { assert Pow128(k) <= Pow128(2); } } }
    }
  }

  /** The boundary values of each digit count. */
  lemma RemainingLengthBoundaries()
    ensures |RemainingLengthDigits(0)| == 1 && |RemainingLengthDigits(127)| == 1
    ensures |RemainingLengthDigits(128)| == 2 && |RemainingLengthDigits(16383)| == 2
    ensures |RemainingLengthDigits(16384)| == 3 && |RemainingLengthDigits(2097151)| == 3
    ensures |RemainingLengthDigits(2097152)| == 4 && |RemainingLengthDigits(268435455)| == 4
  {
    DigitsLength(127, 1);
    DigitsLength(128, 1); DigitsLength(128, 2);
    DigitsLength(16383, 1); DigitsLength(16383, 2);
    DigitsLength(16384, 2); DigitsLength(16384, 3);
    DigitsLength(2097151, 2); DigitsLength(2097151, 3);
    DigitsLength(2097152, 3); DigitsLength(2097152, 4);
    DigitsLength(268435455, 3); DigitsLength(268435455, 4);
  }

  // ---------------------------------------------------------------------------
  // Whole packets

  /** A packet as the reader sees it: the first header byte and the
      `remaining length` bytes that follow the length field. */
  datatype Frame = Frame(first: bv8, body: seq<Byte>)

  /** The packet on the wire: header byte, remaining length, body. */
  function EncodeFrame(first: bv8, body: seq<Byte>): (r: Result<seq<Byte>>)
    ensures r.Ok? <==> |body| <= MaxRemainingLength
    ensures r.Ok? ==> |r.value| > |body| && r.value[0] == first as int && r.value[|r.value| - |body|..] == body
  {
    var digits :- EncodeRemainingLength(|body|);
    var bytes := [first as int] + digits + body;
    assert bytes[|bytes| - |body|..] == body;
    Ok(bytes)
  }

  /** Reads one packet from the front of the input; the rest is returned beside it. */
  function ParseFrame(bytes: seq<Byte>): (r: Result<(Frame, seq<Byte>)>)
    ensures r.Ok? ==> |r.value.0.body| <= MaxRemainingLength && |r.value.1| < |bytes|
  {
    if |bytes| == 0 then Err(MalformedPacket)
    else
      var p :- DecodeRemainingLength(bytes[1..]);
      var length, used := p.0, p.1;
      DecodedRemainingLengthBounded(bytes[1..]);
      if |bytes| - 1 - used < length then Err(MalformedPacket)
      else Ok((Frame(bytes[0] as bv8, bytes[1 + used..1 + used + length]), bytes[1 + used + length..]))
  }

  /** A packet written by `EncodeFrame` is read back by `ParseFrame`, whatever follows it. */
  lemma FrameRoundTrip(first: bv8, body: seq<Byte>, rest: seq<Byte>)
    requires EncodeFrame(first, body).Ok?
    ensures ParseFrame(EncodeFrame(first, body).value + rest) == Ok((Frame(first, body), rest))
  {
    var digits := EncodeRemainingLength(|body|).value;
    var bytes := [first as int] + digits + body + rest;
    assert EncodeFrame(first, body).value + rest == bytes;
    assert bytes[1..] == digits + (body + rest);
    RemainingLengthRoundTrip(|body|, body + rest);
    var used := |digits|;
    assert bytes[1 + used..1 + used + |body|] == body;
    assert bytes[1 + used + |body|..] == rest;
    assert (bytes[0] as bv8) == first;
  }
}
