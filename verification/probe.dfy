/** `get_mc_status`: one connection, the handshake and status request out,
    the status response in, every exception turned into `None`. */
module Probe {
  import opened Wrappers
  import opened Varint
  import opened Packet
  import opened Response
  import opened Json
  import Utf8

  /** What happens when the client connects to one port: the connection is
      refused or times out, or the peer accepts and later sends `reply`. */
  datatype Peer = Unreachable | Accepts(reply: Stream)

  /** The bytes written to the socket: the handshake, then the status
      request; `None` when building the handshake raises. */
  function Outbound(host: string, port: int): (r: Option<seq<byte>>)
    ensures r.Some? <==> |Utf8.Encode(host)| <= 249 && 0 <= port < 0x1_0000
    ensures r.Some? ==> |r.value| == 9 + |Utf8.Encode(host)| && r.value[|r.value| - 2..] == StatusRequest
    ensures r.Some? ==> Handshake(Utf8.Encode(host), port) == Some(r.value[..|r.value| - 2])
  {
    match Handshake(Utf8.Encode(host), port)
    case None => None
    case Some(p) =>
      assert (p + StatusRequest)[..|p|] == p;
      Some(p + StatusRequest)
  }

  /** The status object `get_mc_status` returns, or `None`. A port outside
      0..65535 makes `connect` (and the `"!H"` pack) raise. */
  function GetStatus(host: string, port: int, peer: Peer, loads: seq<byte> -> Option<Value>): (r: Option<Value>)
    ensures !(0 <= port < 0x1_0000) || peer.Unreachable? || |Utf8.Encode(host)| > 249 ==> r.None?
    ensures peer.Accepts? && ParseResponse(peer.reply).None? ==> r.None?
    ensures r.Some? <==>
      && Outbound(host, port).Some? && peer.Accepts?
      && ParseResponse(peer.reply).Some? && loads(ParseResponse(peer.reply).value).Some?
    ensures r.Some? ==> r == loads(ParseResponse(peer.reply).value)
  {
    if peer.Unreachable? || Outbound(host, port).None? then None
    else
      match ParseResponse(peer.reply)
      case None => None
      case Some(payload) => loads(payload)
  }

  /** The exchange step by step, with the payload read in the segments
      `chunk` chooses: it writes the handshake and the status request (or
      nothing when the connection or the handshake fails), and returns what
      `GetStatus` says, however the reply is split. */
  method Exchange(host: string, port: int, peer: Peer, loads: seq<byte> -> Option<Value>, chunk: nat -> nat)
    returns (sent: seq<byte>, status: Option<Value>)
    ensures status == GetStatus(host, port, peer, loads)
    ensures sent == [] <==> peer.Unreachable? || Outbound(host, port).None?
    ensures sent != [] ==> Outbound(host, port) == Some(sent)
  {
    sent := [];
    if peer.Unreachable? {
      return [], None;
    }
    var packet := Handshake(Utf8.Encode(host), port);
    if packet.None? {
      return [], None;
    }
    sent := packet.value + StatusRequest;
    assert Outbound(host, port) == Some(sent);
    var reply := peer.reply;
    var outer := ReadVarint(reply);
    if outer.None? {
      assert ParseResponse(reply).None?;
      return sent, None;
    }
    var id := ReadVarint(outer.value.rest);
    if id.None? || id.value.value != 0 {
      assert ParseResponse(reply).None?;
      return sent, None;
    }
    var len := ReadVarint(id.value.rest);
    if len.None? {
      assert ParseResponse(reply).None?;
      return sent, None;
    }
    assert ParseResponse(reply) == Payload(len.value.rest, len.value.value);
    var payload := ReadPayload(len.value.rest, len.value.value, chunk);
    assert payload == Payload(len.value.rest, len.value.value);
    if payload.None? {
      return sent, None;
    }
    status := loads(payload.value);
  }

  /** A reply framed as the protocol says hands its payload to the JSON
      decoder, whatever the outer length claims and whatever follows. */
  lemma WellFormedReply(host: string, port: int, outer: nat, payload: seq<byte>, tail: seq<byte>, closes: bool,
                        loads: seq<byte> -> Option<Value>)
    requires Outbound(host, port).Some? && |payload| <= SsizeMax
    ensures var reply := EncodeVarint(outer) + EncodeVarint(0) + EncodeVarint(|payload|) + payload + tail;
      GetStatus(host, port, Accepts(Stream(reply, closes)), loads) == loads(payload)
  {
    ParseWellFormed(outer, payload, tail, closes);
  }

  /** A closed connection right after the outer length still passes the
      packet-id check: the JSON decoder is handed an empty payload. */
  lemma EofAfterOuterLengthReachesDecoder(host: string, port: int, outer: nat, loads: seq<byte> -> Option<Value>)
    requires Outbound(host, port).Some?
    ensures GetStatus(host, port, Accepts(Stream(EncodeVarint(outer), true)), loads) == loads([])
  {
    EofAfterOuterLength(outer);
  }

  /** A payload cut short by a closing peer reaches the JSON decoder as it is. */
  lemma TruncatedPayloadReachesDecoder(host: string, port: int, outer: nat, n: nat, partial: seq<byte>,
                                       loads: seq<byte> -> Option<Value>)
    requires Outbound(host, port).Some? && |partial| < n <= SsizeMax
    ensures GetStatus(host, port, Accepts(Stream(EncodeVarint(outer) + EncodeVarint(0) + EncodeVarint(n) + partial, true)), loads)
         == loads(partial)
  {
    TruncatedPayload(outer, n, partial, true);
  }

  /** A response length of 2^63 or more reaches `recv`, which raises, so the
      probe returns `None` even when the payload that follows is complete. */
  lemma OverlongLengthGivesNone(host: string, port: int, outer: nat, n: nat, rest: seq<byte>, closes: bool,
                                loads: seq<byte> -> Option<Value>)
    requires n > SsizeMax
    ensures GetStatus(host, port, Accepts(Stream(EncodeVarint(outer) + EncodeVarint(0) + EncodeVarint(n) + rest, closes)), loads)
         == None
  {
    OverlongLengthRaises(outer, n, rest, closes);
  }
}
