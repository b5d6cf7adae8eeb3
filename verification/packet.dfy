/** The two packets `get_mc_status` sends. */
module Packet {
  import opened Wrappers
  import opened Varint

  /** The status request that follows the handshake: length 1, packet id 0. */
  const StatusRequest: seq<byte> := [0x01, 0x00]

  /** The handshake packet built from the encoded host name and the port, or
      `None` when one of its three `struct.pack` calls raises. Both length
      prefixes are packed as a single unsigned byte (`"!B"`), not as the
      protocol's varint. */
  function Handshake(host: seq<byte>, port: int): (r: Option<seq<byte>>)
    ensures r.Some? <==> |host| <= 249 && 0 <= port < 0x1_0000
    ensures r.Some? ==>
      var p := r.value;
      && |p| == 7 + |host|
      && p[0] == |p| - 1
      && p[1] == 0x00 && p[2] == 0x00
      && p[3] == |host| && p[4..4 + |host|] == host
      && p[4 + |host|] as int * 256 + p[5 + |host|] == port
      && p[6 + |host|] == 0x01
  {
    if |host| > 255 then None
    else if !(0 <= port < 0x1_0000) then None
    else
      var data: seq<byte> := [0x00, 0x00] + [|host|] + host + [port / 256, port % 256] + [0x01];
      if |data| > 255 then None else Some([|data|] + data)
  }

  /** Reads a handshake back the way it was framed: a one-byte length, packet
      id 0, protocol version 0, a one-byte host length, the host, a big-endian
      port and next state 1. */
  function ParseHandshake(p: seq<byte>): (r: Option<(seq<byte>, int)>)
    ensures r.Some? ==> |r.value.0| + 7 == |p| && 0 <= r.value.1 < 0x1_0000
  {
    if |p| < 7 || p[0] != |p| - 1 || p[1] != 0 || p[2] != 0 || p[3] != |p| - 7 || p[|p| - 1] != 1 then None
    else Some((p[4..|p| - 3], p[|p| - 3] as int * 256 + p[|p| - 2]))
  }

  /** The handshake is exactly `[6+|h|, 0, 0, |h|] + h + [port >> 8, port & 0xFF, 1]`. */
  lemma HandshakeLayout(host: seq<byte>, port: int)
    requires |host| <= 249 && 0 <= port < 0x1_0000
    ensures Handshake(host, port) == Some([6 + |host|, 0x00, 0x00, |host|] + host + [port / 256, port % 256, 0x01])
  {
    var data: seq<byte> := [0x00, 0x00] + [|host|] + host + [port / 256, port % 256] + [0x01];
    assert [|data|] + data == [6 + |host|, 0x00, 0x00, |host|] + host + [port / 256, port % 256, 0x01];
  }

  /** A byte sequence is the handshake for `host` and `port` exactly when it
      parses back to them. */
  lemma HandshakeRoundTrip(host: seq<byte>, port: int, p: seq<byte>)
    ensures Handshake(host, port) == Some(p) <==> ParseHandshake(p) == Some((host, port))
  {
    if Handshake(host, port) == Some(p) {
      assert p[4..|p| - 3] == host;
    }
    if ParseHandshake(p) == Some((host, port)) {
      var q: seq<byte> := [|p| - 1, 0x00, 0x00, |host|] + host + [port / 256, port % 256, 0x01];
      assert p == q by {
        assert |q| == |p|;
        forall i | 0 <= i < |p| ensures p[i] == q[i] {
          if 4 <= i < |p| - 3 {
            assert host[i - 4] == p[i];
          }
        }
      }
      HandshakeLayout(host, port);
    }
  }

  /** A reader that frames packets with the protocol's varint sees the
      handshake's length byte as the body length exactly when the host is at
      most 121 bytes; from 122 bytes on the length byte has its top bit set
      and the varint reader takes it for the first of two groups. */
  lemma HandshakeFramingIsVarint(host: seq<byte>, port: int, p: seq<byte>)
    requires Handshake(host, port) == Some(p)
    ensures ReadVarint(Stream(p, true)) == Some(Decoded(|p| - 1, Stream(p[1..], true))) <==> |host| <= 121
  {
    if |host| <= 121 {
      ReadVarintSingle(Stream(p, true));
    } else {
      assert Terminates(p, 1);
      ReadVarintDecodes(Stream(p, true), 1);
      assert |p[2..]| < |p[1..]|;
    }
  }
}
