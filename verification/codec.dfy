/** The CONNECT encoder and the CONNACK check, which both clients carry in
    identical form (MQTT 3.1.1 sections 3.1 and 3.2). */
module Codec {
  import opened Io
  import opened RemainingLength

  /** Bytes 2 to 11 of CONNECT: the protocol name "MQTT" with its 2-byte
      length, protocol level 4, connect flags 0x02 (clean session only) and
      a keep-alive of 60 seconds. */
  const ConnectVariableHeader: seq<Byte> :=
    [0, 4, 'M' as int, 'Q' as int, 'T' as int, 'T' as int, 4, 2, 0, 60]

  /** The CONNECT packet as the clients lay it out: the second byte is the
      packet length minus two, truncated to eight bits, and the client id
      follows its length, truncated to sixteen bits, in big-endian order. */
  function ConnectLayout(clientId: seq<Byte>): seq<Byte>
  {
    [0x10, (12 + |clientId|) % 256] + ConnectVariableHeader
      + [(|clientId| / 256) % 256, |clientId| % 256] + clientId
  }

  /** `connect_packet`: the fixed 12-byte template, the id length and the id
      appended, then byte 1 overwritten in place with `(len - 2) as u8`. */
  method ConnectPacket(clientId: seq<Byte>) returns (packet: seq<Byte>)
    ensures packet == ConnectLayout(clientId)
    ensures |packet| == 14 + |clientId| && packet[14..] == clientId
  {
    packet := [0x10, 0] + ConnectVariableHeader;
    packet := packet + [(|clientId| / 256) % 256];  // (len >> 8) as u8
    packet := packet + [|clientId| % 256];          // (len & 0xFF) as u8
    packet := packet + clientId;
    packet := packet[1 := (|packet| - 2) % 256];    // (packet.len() - 2) as u8
  }

  /** The packet is 14 bytes longer than the id: the fixed header and the
      10-byte variable header, then the id length modulo 65536 in two
      big-endian bytes, then exactly the id. */
  lemma ConnectShape(clientId: seq<Byte>)
    ensures var p := ConnectLayout(clientId);
      && |p| == 14 + |clientId|
      && p[..12] == [0x10, (12 + |clientId|) % 256] + ConnectVariableHeader
      && p[12] as int * 256 + p[13] == |clientId| % 0x1_0000
      && p[14..] == clientId
  {
    var n := |clientId|;
    var q, r := n / 0x1_0000, n % 0x1_0000;
    assert n == 0x1_0000 * q + r;
    assert n / 256 == 256 * q + r / 256;
    assert (n / 256) % 256 == r / 256;
    assert n % 256 == r % 256;
  }

  /** Byte 1 equals the packet length minus two exactly while the id is at
      most 243 bytes long; beyond that the 8-bit truncation loses it. */
  lemma ConnectLengthByte(clientId: seq<Byte>)
    ensures var p := ConnectLayout(clientId); p[1] == |p| - 2 <==> |clientId| <= 243
  {
  }

  /** A remaining-length field whose second byte is 0 denotes less than
      128: either the first byte ends it, or the zero ends it and adds
      nothing. */
  lemma FieldBeforeZero(input: seq<Event>, start: nat)
    requires EventAt(input, start).Data? && EventAt(input, start + 1) == Data(0)
    ensures LengthField(input, start).0.Ok? && LengthField(input, start).0.value < 128
  {
    var b := EventAt(input, start).b;
    var f := FieldBytes(input, start, 2);
    assert f[0] == ByteOf(EventAt(input, start)) == b;
    assert f[1] == ByteOf(EventAt(input, start + 1)) == 0;
    if b < 128 {
      assert FieldBytes(input, start, 1) == [b];
      assert Value([b]) == b % 128 + 128 * Value([]);
    } else {
      assert f == [b, 0];
      assert Value(f) == b % 128 + 128 * Value([0]);
    }
  }

  /** Byte 1 is the correct single-byte remaining-length field, and a reader
      decodes from it the number of bytes that follow, exactly while the id
      is at most 115 bytes long. */
  lemma {:induction false} ConnectRemainingLength(clientId: seq<Byte>, input: seq<Event>, pos: nat)
    requires Carries(input, pos, ConnectLayout(clientId))
    ensures var p := ConnectLayout(clientId); [p[1]] == Encoding(|p| - 2) <==> |clientId| <= 115
    ensures var p := ConnectLayout(clientId);
      LengthField(input, pos + 1).0 == Ok(|p| - 2) <==> |clientId| <= 115
    ensures |clientId| <= 115 ==> LengthField(input, pos + 1).1 == pos + 2
  {
    var p := ConnectLayout(clientId);
    var n := |p| - 2;
    assert EventAt(input, pos + 1) == Data(p[1]);
    assert EventAt(input, pos + 2) == Data(p[2]);
    EncodingSize(n);
    if |clientId| <= 115 {
      assert Encoding(n) == [p[1]];
      RoundTrip(input, pos + 1, n);
    } else {
      assert p[2] == ConnectVariableHeader[0] == 0;
      FieldBeforeZero(input, pos + 1);
    }
  }

  /** What the 4-byte CONNACK read yields. */
  datatype Handshake = Accepted(next: nat) | Rejected(code: Byte) | ReadFailed(kind: ErrorKind)

  /** Read the 4-byte CONNACK at `pos` and refuse the connection when its
      return code, the fourth byte, is not zero. */
  function AwaitConnAck(input: seq<Event>, pos: nat): (h: Handshake)
    ensures h.ReadFailed? <==> !AllData(input, pos, 4)
    ensures h.ReadFailed? ==> h.kind == ReadExact(input, pos, 4).0.kind
    ensures h.Rejected? <==> AllData(input, pos, 4) && EventAt(input, pos + 3).b != 0
    ensures h.Rejected? ==> h.code == EventAt(input, pos + 3).b
    ensures h.Accepted? ==> EventAt(input, pos + 3) == Data(0) && h.next == pos + 4
  {
    var (connack, next) := ReadExact(input, pos, 4);
    if connack.Err? then ReadFailed(connack.kind)
    else
      assert EventAt(input, pos + 3) == Data(connack.value[3]);
      if connack.value[3] != 0 then Rejected(connack.value[3])
      else Accepted(next)
  }
}
