/** The reply side of `get_mc_status`: three varints, then the JSON payload. */
module Response {
  import opened Wrappers
  import opened Varint

  function Min(a: int, b: int): int {
    if a <= b then a else b
  }

  /** The largest `Py_ssize_t`: `recv` raises `OverflowError` when asked for
      a larger buffer. */
  const SsizeMax: nat := 0x7FFF_FFFF_FFFF_FFFF

  /** What the payload loop collects when `response_length` is `n`: the first
      `n` bytes when the peer sent that many, everything it sent when it closed
      early, and `None` (a `recv` raised) when it went silent early or when
      the first `recv(n)` overflows. */
  function Payload(s: Stream, n: nat): (r: Option<seq<byte>>)
    ensures r.None? <==> n > SsizeMax || (|s.bytes| < n && !s.closes)
    ensures r.Some? ==> |r.value| == Min(n, |s.bytes|) && r.value == s.bytes[..|r.value|]
  {
    if n > SsizeMax then None
    else if n <= |s.bytes| then Some(s.bytes[..n])
    else if s.closes then Some(s.bytes)
    else None
  }

  /** How many bytes the peer hands over to a `recv(want)` when `avail` are
      waiting: its own choice `offer`, but at least one and at most `want`
      and `avail`. */
  function Granted(offer: nat, want: nat, avail: nat): (k: nat)
    requires 1 <= want && 1 <= avail
    ensures 1 <= k <= want && k <= avail
  {
    if offer < 1 then 1 else Min(offer, Min(want, avail))
  }

  /** The `while len(data) < response_length` loop. The c-th `recv` is given
      `chunk(c)` bytes (clamped as `Granted` says), so every way the peer can
      split the payload into segments is covered. */
  method ReadPayload(s: Stream, n: nat, chunk: nat -> nat) returns (r: Option<seq<byte>>)
    ensures r.None? <==> n > SsizeMax || (|s.bytes| < n && !s.closes)
    ensures r.Some? ==> |r.value| == Min(n, |s.bytes|)
    ensures r.Some? ==> r.value == s.bytes[..|r.value|]
  {
    var data: seq<byte> := [];
    var rest := s.bytes;
    var calls := 0;
    while |data| < n
      invariant |data| <= n
      invariant data + rest == s.bytes
      invariant n > SsizeMax ==> data == []
      decreases n - |data|
    {
      if n - |data| > SsizeMax {
        return None;
      }
      if rest == [] {
        if s.closes {
          break;
        }
        return None;
      }
      var k := Granted(chunk(calls), n - |data|, |rest|);
      assert (data + rest[..k]) + rest[k..] == data + rest;
      data := data + rest[..k];
      rest := rest[k..];
      calls := calls + 1;
    }
    assert |data| == n || (rest == [] && s.closes);
    assert s.bytes[..|data|] == data;
    return Some(data);
  }

  /** Parses the reply: the outer packet length (read and discarded), the
      packet id, which must be 0, and the response length; then the payload.
      `None` when the id is not 0 or a `recv` raised. */
  function ParseResponse(s: Stream): (r: Option<seq<byte>>)
    ensures r.Some? ==> |r.value| < |s.bytes| || r.value == []
  {
    match ReadVarint(s)
    case None => None
    case Some(outer) =>
      match ReadVarint(outer.rest)
      case None => None
      case Some(id) =>
        if id.value != 0 then None
        else
          match ReadVarint(id.rest)
          case None => None
          case Some(len) => Payload(len.rest, len.value)
  }

  /** A reply framed as the protocol says yields its payload, whatever the
      outer length claims and whatever follows. */
  lemma ParseWellFormed(outer: nat, payload: seq<byte>, tail: seq<byte>, closes: bool)
    requires |payload| <= SsizeMax
    ensures ParseResponse(Stream(EncodeVarint(outer) + EncodeVarint(0) + EncodeVarint(|payload|) + payload + tail, closes))
         == Some(payload)
  {
    var framing := EncodeVarint(outer) + EncodeVarint(0) + EncodeVarint(|payload|);
    var body := payload + tail;
    assert framing + payload + tail == framing + body;
    ParseFramed(outer, |payload|, body, closes);
    assert body[..|payload|] == payload;
  }

  /** A packet id other than 0 makes the probe fail. */
  lemma NonzeroIdRejected(outer: nat, id: nat, tail: seq<byte>, closes: bool)
    requires id != 0
    ensures ParseResponse(Stream(EncodeVarint(outer) + EncodeVarint(id) + tail, closes)) == None
  {
    var e0, e1 := EncodeVarint(outer), EncodeVarint(id);
    assert e0 + e1 + tail == e0 + (e1 + tail);
    ReadVarintRoundTrip(outer, e1 + tail, closes);
    ReadVarintRoundTrip(id, tail, closes);
  }

  /** When the peer closes right after the outer length, the id is read at
      end of stream as 0 and passes the check, the response length reads as 0
      too, and the empty payload goes on to the JSON decoder. */
  lemma EofAfterOuterLength(outer: nat)
    ensures ParseResponse(Stream(EncodeVarint(outer), true)) == Some([])
  {
    assert EncodeVarint(outer) + [] == EncodeVarint(outer);
    ReadVarintRoundTrip(outer, [], true);
    ReadVarintAtEof(Stream([], true));
  }

  /** A payload cut short by a closing peer is handed on as it is; cut short
      by a silent peer, the read raises. */
  lemma TruncatedPayload(outer: nat, n: nat, partial: seq<byte>, closes: bool)
    requires |partial| < n <= SsizeMax
    ensures ParseResponse(Stream(EncodeVarint(outer) + EncodeVarint(0) + EncodeVarint(n) + partial, closes))
         == if closes then Some(partial) else None
  {
    ParseFramed(outer, n, partial, closes);
    assert partial[..|partial|] == partial;
  }

  /** With id 0 and response length `n` framed canonically, what the parser
      returns is what the payload loop collects from the bytes after them. */
  lemma ParseFramed(outer: nat, n: nat, rest: seq<byte>, closes: bool)
    ensures ParseResponse(Stream(EncodeVarint(outer) + EncodeVarint(0) + EncodeVarint(n) + rest, closes))
         == Payload(Stream(rest, closes), n)
  {
    var e0, e1, e2 := EncodeVarint(outer), EncodeVarint(0), EncodeVarint(n);
    assert e0 + e1 + e2 + rest == e0 + (e1 + (e2 + rest));
    ReadVarintRoundTrip(outer, e1 + (e2 + rest), closes);
    ReadVarintRoundTrip(0, e2 + rest, closes);
    ReadVarintRoundTrip(n, rest, closes);
  }

  /** A response length above `SsizeMax` makes the first `recv` raise, so the
      probe fails whatever the peer sends after it. */
  lemma OverlongLengthRaises(outer: nat, n: nat, rest: seq<byte>, closes: bool)
    requires n > SsizeMax
    ensures ParseResponse(Stream(EncodeVarint(outer) + EncodeVarint(0) + EncodeVarint(n) + rest, closes)) == None
  {
    ParseFramed(outer, n, rest, closes);
  }
}
