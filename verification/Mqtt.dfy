/** The MQTT CONNECT packet of the broker check, with a reader that follows MQTT 3.1.1. */
module Mqtt {
  import opened Bits
  import opened Leb128

  const MAX_REMAINING := 268_435_455

  /** Big-endian 16-bit number; a larger value wraps as in the source. */
  function U16(v: nat): (bs: seq<Byte>)
    ensures |bs| == 2
  {
    [(v / 256) % 256, v % 256]
  }

  function FromU16(bs: seq<Byte>): nat
    requires |bs| >= 2
  {
    256 * bs[0] as int + bs[1] as int
  }

  method EncodeRemainingLength(remaining: nat) returns (encoded: seq<Byte>)
    ensures encoded == ULeb(remaining)
  {
    encoded := [];
    var length := remaining;
    while true
      invariant encoded + ULeb(length) == ULeb(remaining)
      decreases length
    {
      ghost var before := length;
      var b: int := length % 128;
      length := length / 128;
      if length > 0 {
        b := Flagged(b);
      }
      encoded := encoded + [b];
      if length == 0 {
        break;
      }
      assert ULeb(before) == [b] + ULeb(length);
    }
  }

  /** The decoding loop of section 2.2.3: a fifth byte is an error. */
  function DecodeRemainingLength(bs: seq<Byte>, multiplier: nat): Decoded {
    if bs == [] || multiplier > 128 * 128 * 128 then Malformed
    else
      var digit := (bs[0] as int % 128) * multiplier;
      if bs[0] < 128 then Value(digit, 1)
      else match DecodeRemainingLength(bs[1..], multiplier * 128)
        case Malformed => Malformed
        case Value(m, used) => Value(digit + m, used + 1)
  }

  /** The multiplier of each of the four bytes, with the bound on what is still to come. */
  predicate Scale(m: nat, bound: nat) {
    || (m == 1 && bound == MAX_REMAINING + 1)
    || (m == 128 && bound == 2_097_152)
    || (m == 16384 && bound == 16384)
    || (m == 2_097_152 && bound == 128)
  }

  lemma {:induction false} DecodeDigits(v: nat, rest: seq<Byte>, m: nat, bound: nat)
    requires Scale(m, bound)
    ensures DecodeRemainingLength(ULeb(v) + rest, m) == if v < bound then Value(v * m, |ULeb(v)|) else Malformed
    decreases bound
  {
    if v >= 128 {
      assert (ULeb(v) + rest)[1..] == ULeb(v / 128) + rest;
      if bound > 128 {
        DecodeDigits(v / 128, rest, m * 128, bound / 128);
        Recombine(v, m);
      }
    }
  }

  lemma {:induction false} Recombine(v: nat, m: nat)
    ensures (v % 128) * m + (v / 128) * (m * 128) == v * m
  {
    calc {
      (v % 128) * m + (v / 128) * (m * 128);
      (v % 128 + (v / 128) * 128) * m;
    }
  }

  /** The standard's reader gets every length back up to the protocol's maximum, and no other. */
  lemma {:induction false} RemainingLengthRoundTrip(v: nat, rest: seq<Byte>)
    ensures v <= MAX_REMAINING ==> DecodeRemainingLength(ULeb(v) + rest, 1) == Value(v, |ULeb(v)|)
    ensures v > MAX_REMAINING ==> DecodeRemainingLength(ULeb(v) + rest, 1) == Malformed
    ensures v <= MAX_REMAINING <==> |ULeb(v)| <= 4
  {
    DecodeDigits(v, rest, 1, MAX_REMAINING + 1);
    Pow2Sum(14, 14);
    UnsignedLength(v, 3);
  }

  /** Division and shifting write the same bytes for every 32-bit value. */
  method SameBytes(v: U32) returns (byDivision: seq<Byte>, byShift: seq<Byte>)
    ensures byDivision == byShift
    ensures UDecode(32, byShift) == Value(v, |byDivision|)
  {
    byDivision := EncodeRemainingLength(v);
    byShift := Uleb128(v);
    Pow2Sizes();
    UnsignedRoundTrip(32, v, []);
    assert byShift + [] == byShift;
  }

  // ----- The CONNECT packet

  function MqttString(s: seq<Byte>): (b: seq<Byte>) {
    U16(|s|) + s
  }

  method EncodeMqttString(s: seq<Byte>) returns (r: seq<Byte>)
    ensures r == MqttString(s)
    ensures |r| == 2 + |s| && r[2..] == s && 256 * r[0] as int + r[1] as int == |s| % 65536
  {
    var b := new Byte[2 + |s|](i => 0);
    b[0] := (|s| / 256) % 256;
    b[1] := |s| % 256;
    forall i | 0 <= i < |s| {
      b[2 + i] := s[i];
    }
    r := b[..];
  }

  const PROTOCOL: seq<Byte> := [0x4D, 0x51, 0x54, 0x54]          // "MQTT"
  const DEFAULT_ID: seq<Byte> := [0x73, 0x6D, 0x6F, 0x6B, 0x65, 0x73, 0x69, 0x67]  // "smokesig"

  function EffectiveId(clientId: seq<Byte>): seq<Byte> {
    if clientId == [] then DEFAULT_ID else clientId
  }

  function ConnectBody(clientId: seq<Byte>): seq<Byte> {
    MqttString(PROTOCOL) + [0x04, 0x02] + U16(60) + MqttString(EffectiveId(clientId))
  }

  lemma {:induction false} ConnectBytes(clientId: seq<Byte>)
    ensures var id := if |clientId| == 0 then [115, 109, 111, 107, 101, 115, 105, 103] else clientId;
      ConnectBody(clientId) == [0, 4, 77, 81, 84, 84, 4, 2, 0, 60] + [|id| / 256 % 256, |id| % 256] + id
  {
    assert MqttString(PROTOCOL) == [0, 4, 77, 81, 84, 84];
    assert U16(60) == [0, 60];
  }

  method ConnectPacket(clientId: seq<Byte>) returns (packet: seq<Byte>)
    ensures packet == [0x10] + ULeb(|ConnectBody(clientId)|) + ConnectBody(clientId)
    // the name "MQTT", level 4, clean session, 60 seconds, and the identifier, "smokesig" if there is none
    ensures var id := if |clientId| == 0 then [115, 109, 111, 107, 101, 115, 105, 103] else clientId;
      packet == [0x10] + ULeb(12 + |id|)
        + ([0, 4, 77, 81, 84, 84, 4, 2, 0, 60] + [|id| / 256 % 256, |id| % 256] + id)
  {
    ConnectBytes(clientId);
    var id := clientId;
    if id == [] {
      id := DEFAULT_ID;
    }
    var protoName := EncodeMqttString(PROTOCOL);
    var protocolLevel: seq<Byte> := [0x04];
    var connectFlags: seq<Byte> := [0x02];
    var keepAlive := U16(60);
    var varHeader := protoName + protocolLevel + connectFlags + keepAlive;
    var payload := EncodeMqttString(id);
    var remaining := |varHeader| + |payload|;
    assert varHeader + payload == ConnectBody(clientId);
    var length := EncodeRemainingLength(remaining);
    var fixedHeader: seq<Byte> := [0x10] + length;
    packet := fixedHeader + varHeader + payload;
    assert packet == [0x10] + ULeb(|ConnectBody(clientId)|) + ConnectBody(clientId);
  }

  datatype Connect = BadPacket | Connect(level: Byte, flags: Byte, keepAlive: nat, clientId: seq<Byte>)

  /** A length-prefixed string at the head of `bs` (section 1.5.3), with what follows it. */
  function ReadString(bs: seq<Byte>): (r: (bool, seq<Byte>, seq<Byte>))
    ensures r.0 ==> |r.1| <= 65535
  {
    if |bs| >= 2 && |bs| >= 2 + FromU16(bs) then (true, bs[2..2 + FromU16(bs)], bs[2 + FromU16(bs)..])
    else (false, [], [])
  }

  /** A CONNECT packet without will, user name or password (section 3.1); nothing may be left over. */
  function ReadConnect(packet: seq<Byte>): (c: Connect)
    ensures c.Connect? ==> |c.clientId| <= 65535
  {
    if packet == [] || packet[0] != 0x10 then BadPacket
    else match DecodeRemainingLength(packet[1..], 1)
      case Malformed => BadPacket
      case Value(remaining, used) =>
        if used < |packet| && |packet| - 1 - used == remaining then ReadBody(packet[1 + used..]) else BadPacket
  }

  function ReadBody(body: seq<Byte>): (c: Connect)
    ensures c.Connect? ==> |c.clientId| <= 65535
  {
    var (okName, protocol, fields) := ReadString(body);
    if !okName || protocol != PROTOCOL || |fields| < 4 then BadPacket
    else
      var (okId, id, rest) := ReadString(fields[4..]);
      if okId && rest == [] then Connect(fields[0], fields[1], FromU16(fields[2..]), id) else BadPacket
  }

  lemma {:induction false} ReadMqttString(s: seq<Byte>, rest: seq<Byte>)
    requires |s| <= 65535
    ensures ReadString(MqttString(s) + rest) == (true, s, rest)
  {
    var bs := MqttString(s) + rest;
    assert bs[2..2 + |s|] == s && bs[2 + |s|..] == rest;
  }

  /** Reading the packet is reading its body: the remaining length is right. */
  lemma {:induction false} ReadHeader(clientId: seq<Byte>, packet: seq<Byte>)
    requires packet == [0x10] + ULeb(|ConnectBody(clientId)|) + ConnectBody(clientId)
    ensures |ConnectBody(clientId)| <= MAX_REMAINING ==> ReadConnect(packet) == ReadBody(ConnectBody(clientId))
  {
    var body := ConnectBody(clientId);
    HeaderLayout(ULeb(|body|), body);
    RemainingLengthRoundTrip(|body|, body);
  }

  lemma {:induction false} HeaderLayout(length: seq<Byte>, body: seq<Byte>)
    ensures ([0x10] + length + body)[1..] == length + body
    ensures ([0x10] + length + body)[1 + |length|..] == body
  {}

  lemma {:induction false} ReadBodyBack(id: seq<Byte>)
    requires |id| <= 65535
    ensures ReadBody(MqttString(PROTOCOL) + [0x04, 0x02] + U16(60) + MqttString(id)) == Connect(4, 2, 60, id)
  {
    var fields := [0x04, 0x02] + U16(60) + MqttString(id);
    assert MqttString(PROTOCOL) + [0x04, 0x02] + U16(60) + MqttString(id) == MqttString(PROTOCOL) + fields;
    ReadMqttString(PROTOCOL, fields);
    assert fields[4..] == MqttString(id) + [];
    assert fields[2..][..2] == U16(60);
    ReadMqttString(id, []);
  }

  /** The broker reads the packet as intended exactly when the identifier fits the 16-bit prefix. */
  lemma {:induction false} ConnectRoundTrip(clientId: seq<Byte>, packet: seq<Byte>)
    requires packet == [0x10] + ULeb(|ConnectBody(clientId)|) + ConnectBody(clientId)
    ensures ReadConnect(packet) == Connect(4, 2, 60, EffectiveId(clientId)) <==> |clientId| <= 65535
  {
    if |clientId| <= 65535 {
      ReadHeader(clientId, packet);
      ReadBodyBack(EffectiveId(clientId));
    }
  }
}
