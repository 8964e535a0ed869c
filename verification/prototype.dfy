/** The top-level binary's own copy of the CONNECT encoder. It writes the
    client id length with `to_be_bytes` instead of a shift and a mask. */
module Prototype {
  import opened Io
  import Codec

  /** `u16::to_be_bytes`: most significant byte first. */
  function ToBeBytes(x: U16): (b: seq<Byte>)
    ensures |b| == 2 && b[0] as int * 256 + b[1] == x
  {
    [x / 256, x % 256]
  }

  /** Truncating the length to 16 bits and splitting it big-endian gives
      the same two bytes as the shift-and-mask pair of the clients' copy. */
  lemma ToBeBytesOfLength(n: nat)
    ensures ToBeBytes(n % 0x1_0000) == [(n / 256) % 256, n % 256]
  {
    var q, r := n / 0x1_0000, n % 0x1_0000;
    assert n == 0x1_0000 * q + r;
    assert n / 256 == 256 * q + r / 256;
  }

  /** `connect_packet` of the top-level binary: the template, the id length
      as `(len as u16).to_be_bytes()`, the id, then byte 1 patched with
      `(len - 2) as u8`. It builds the same packet as the clients' copy for
      every id. */
  method ConnectPacket(clientId: seq<Byte>) returns (packet: seq<Byte>)
    ensures packet == Codec.ConnectLayout(clientId)
  {
    packet := [16, 0] + [0, 4, 'M' as int, 'Q' as int, 'T' as int, 'T' as int, 4, 2, 0, 60];
    ToBeBytesOfLength(|clientId|);
    packet := packet + ToBeBytes(|clientId| % 0x1_0000);
    packet := packet + clientId;
    packet := packet[1 := (|packet| - 2) % 256];
  }

  /** For the id "abc": the packet ends in 00 03 'a' 'b' 'c' and its byte 1
      is its length minus two. */
  lemma ConnectAbc()
    ensures var p := Codec.ConnectLayout(['a' as int, 'b' as int, 'c' as int]);
      && p[|p| - 5..] == [0, 3, 'a' as int, 'b' as int, 'c' as int]
      && p[1] == |p| - 2 == 15
  {
  }
}
