/** The protocol's variable-length integers as the client reads them with
    `read_varint`: seven payload bits per byte, least significant group first,
    bit 7 set on every byte but the last. */
module Varint {
  import opened Wrappers

  /** An octet as received from or sent to a socket. */
  type byte = x: int | 0 <= x < 256

  /** The payload bits of a group, `b & 0x7F`. */
  function Low7(b: byte): (r: nat)
    ensures r < 128
  {
    b % 128
  }

  /** The continuation flag of a group, `b & 0x80 != 0`. */
  predicate More(b: byte) {
    b >= 128
  }

  function Pow2(n: nat): (r: nat)
    ensures r >= 1
  {
    if n == 0 then 1 else 2 * Pow2(n - 1)
  }

  lemma {:induction false} Pow2Add(a: nat, b: nat)
    ensures Pow2(a + b) == Pow2(a) * Pow2(b)
    decreases a
  {
    if a > 0 {
      Pow2Add(a - 1, b);
    }
  }

  lemma Pow2Seven(j: nat)
    ensures Pow2(7 * (j + 1)) == 128 * Pow2(7 * j)
  {
    Pow2Add(7 * j, 7);
    assert Pow2(7) == 128;
  }

  /** What is left to receive on a connected socket: the bytes the peer has
      sent, and what `recv` does once they are used up. When `closes` holds
      the peer has closed the connection and `recv` returns `b""` from then
      on; otherwise the peer stays silent and `recv` raises (the socket's
      timeout). */
  datatype Stream = Stream(bytes: seq<byte>, closes: bool)

  /** A value read from a stream together with the rest of the stream. */
  datatype Decoded = Decoded(value: nat, rest: Stream)

  /** `k` is the index of the first byte of `bs` whose continuation bit is clear. */
  ghost predicate Terminates(bs: seq<byte>, k: int) {
    && 0 <= k < |bs|
    && !More(bs[k])
    && forall i :: 0 <= i < k ==> More(bs[i])
  }

  /** Every byte of `bs` asks for one more. */
  ghost predicate Unterminated(bs: seq<byte>) {
    forall i :: 0 <= i < |bs| ==> More(bs[i])
  }

  /** The number a sequence of groups stands for, least significant group
      first: the sum of `Low7(bs[i]) * 2^(7*i)`. */
  function GroupsValue(bs: seq<byte>): nat {
    if bs == [] then 0 else Low7(bs[0]) + 128 * GroupsValue(bs[1..])
  }

  /** The loop of `read_varint` from the state where `acc` (the source's `i`)
      holds the groups read so far and `j` counts them. Because `acc` stays
      below `2^(7*j)`, the source's `i |= (byte & 0x7F) << 7*j` adds. */
  function ReadGroups(s: Stream, acc: nat, j: nat): (r: Option<Decoded>)
    ensures r.None? <==> !s.closes && Unterminated(s.bytes)
    ensures r.Some? ==> r.value.rest.closes == s.closes
    ensures r.Some? ==> |r.value.rest.bytes| <= |s.bytes|
    ensures r.Some? ==> r.value.rest.bytes == s.bytes[|s.bytes| - |r.value.rest.bytes|..]
    ensures r.Some? && s.bytes != [] ==> |r.value.rest.bytes| < |s.bytes|
    decreases |s.bytes|
  {
    if |s.bytes| == 0 then
      if s.closes then Some(Decoded(0, s)) else None
    else
      var b := s.bytes[0];
      var acc' := acc + Low7(b) * Pow2(7 * j);
      var rest := Stream(s.bytes[1..], s.closes);
      if More(b) then ReadGroups(rest, acc', j + 1) else Some(Decoded(acc', rest))
  }

  /** `read_varint(sock)`: `None` when a `recv` raises, otherwise the value
      and the stream after the bytes consumed. */
  function ReadVarint(s: Stream): (r: Option<Decoded>)
    ensures r.None? <==> !s.closes && Unterminated(s.bytes)
    ensures r.Some? ==> r.value.rest.closes == s.closes
    ensures r.Some? ==> |r.value.rest.bytes| <= |s.bytes|
    ensures r.Some? ==> r.value.rest.bytes == s.bytes[|s.bytes| - |r.value.rest.bytes|..]
    ensures r.Some? && s.bytes != [] ==> |r.value.rest.bytes| < |s.bytes|
  {
    ReadGroups(s, 0, 0)
  }

  lemma ReadGroupsLast(s: Stream, acc: nat, j: nat)
    requires |s.bytes| > 0 && !More(s.bytes[0])
    ensures ReadGroups(s, acc, j)
         == Some(Decoded(acc + Pow2(7 * j) * GroupsValue(s.bytes[..1]), Stream(s.bytes[1..], s.closes)))
  {
    var b := s.bytes[0];
    assert s.bytes[..1] == [b];
    assert GroupsValue([b]) == Low7(b) + 128 * GroupsValue([]);
    assert Low7(b) * Pow2(7 * j) == Pow2(7 * j) * GroupsValue(s.bytes[..1]);
  }

  /** One group with the continuation bit: the loop goes on with the group
      added to the accumulator. */
  lemma ReadGroupsStep(s: Stream, acc: nat, j: nat, r: Option<Decoded>)
    requires |s.bytes| > 0 && More(s.bytes[0])
    requires ReadGroups(Stream(s.bytes[1..], s.closes), acc + Low7(s.bytes[0]) * Pow2(7 * j), j + 1) == r
    ensures ReadGroups(s, acc, j) == r
  {
  }

  /** Adding one more group to the accumulator. */
  lemma StepValue(bs: seq<byte>, acc: nat, j: nat, k: nat)
    requires 0 < k < |bs|
    ensures acc + Low7(bs[0]) * Pow2(7 * j) + Pow2(7 * (j + 1)) * GroupsValue(bs[1..][..k])
         == acc + Pow2(7 * j) * GroupsValue(bs[..k + 1])
  {
    var b, tail := bs[0], bs[1..][..k];
    assert bs[..k + 1] == [b] + tail;
    assert ([b] + tail)[1..] == tail;
    var p, q := Pow2(7 * j), Pow2(7 * (j + 1));
    var g, whole := GroupsValue(tail), GroupsValue([b] + tail);
    Pow2Seven(j);
    assert whole == Low7(b) + 128 * g;
    Regroup(acc, Low7(b), p, q, g, whole);
  }

  lemma {:induction false} ReadGroupsDecodes(s: Stream, acc: nat, j: nat, k: nat)
    requires Terminates(s.bytes, k)
    ensures ReadGroups(s, acc, j)
         == Some(Decoded(acc + Pow2(7 * j) * GroupsValue(s.bytes[..k + 1]), Stream(s.bytes[k + 1..], s.closes)))
    decreases k
  {
    if k == 0 {
      ReadGroupsLast(s, acc, j);
    } else {
      var tail := s.bytes[1..];
      assert Terminates(tail, k - 1) by {
        assert tail[k - 1] == s.bytes[k];
        forall i | 0 <= i < k - 1 ensures More(tail[i]) {
          assert tail[i] == s.bytes[i + 1];
        }
      }
      var acc' := acc + Low7(s.bytes[0]) * Pow2(7 * j);
      ReadGroupsDecodes(Stream(tail, s.closes), acc', j + 1, k - 1);
      assert k - 1 + 1 == k;
      assert tail[k..] == s.bytes[k + 1..];
      StepValue(s.bytes, acc, j, k);
      ReadGroupsStep(s, acc, j, Some(Decoded(acc + Pow2(7 * j) * GroupsValue(s.bytes[..k + 1]), Stream(s.bytes[k + 1..], s.closes))));
    }
  }

  lemma Regroup(acc: int, low: int, p: int, q: int, g: int, whole: int)
    requires q == 128 * p && whole == low + 128 * g
    ensures acc + low * p + q * g == acc + p * whole
  {
  }

  /** On bytes b0..bk where bk is the first without the continuation bit,
      `read_varint` returns the sum of `(bi & 0x7F) * 2^(7*i)` and consumes
      exactly k+1 bytes. */
  lemma ReadVarintDecodes(s: Stream, k: nat)
    requires Terminates(s.bytes, k)
    ensures ReadVarint(s) == Some(Decoded(GroupsValue(s.bytes[..k + 1]), Stream(s.bytes[k + 1..], s.closes)))
  {
    ReadGroupsDecodes(s, 0, 0, k);
  }

  /** A byte without the continuation bit is a whole varint on its own. */
  lemma ReadVarintSingle(s: Stream)
    requires |s.bytes| > 0 && !More(s.bytes[0])
    ensures ReadVarint(s) == Some(Decoded(s.bytes[0], Stream(s.bytes[1..], s.closes)))
  {
    assert Pow2(0) == 1;
  }

  lemma {:induction false} ReadGroupsAtEof(s: Stream, acc: nat, j: nat)
    requires s.closes && Unterminated(s.bytes)
    ensures ReadGroups(s, acc, j) == Some(Decoded(0, Stream([], true)))
    decreases |s.bytes|
  {
    if |s.bytes| > 0 {
      var b := s.bytes[0];
      assert More(b);
      ReadGroupsAtEof(Stream(s.bytes[1..], s.closes), acc + Low7(b) * Pow2(7 * j), j + 1);
    }
  }

  /** When the peer closes before a terminating byte, `read_varint` returns 0,
      throwing away the partial value, and the stream is used up. An empty
      closed stream gives 0 as well. */
  lemma ReadVarintAtEof(s: Stream)
    requires s.closes && Unterminated(s.bytes)
    ensures ReadVarint(s) == Some(Decoded(0, Stream([], true)))
  {
    ReadGroupsAtEof(s, 0, 0);
  }

  /** The canonical encoding of `n`: the fewest groups, least significant first. */
  function EncodeVarint(n: nat): (r: seq<byte>)
    ensures Terminates(r, |r| - 1)
    ensures GroupsValue(r) == n
    decreases n
  {
    if n < 128 then [n] else [n % 128 + 128] + EncodeVarint(n / 128)
  }

  /** The canonical encoding of a number below 2^(7*k) takes at most k bytes;
      in particular a 32-bit value takes at most 5. */
  lemma {:induction false} EncodeVarintLength(n: nat, k: nat)
    requires 1 <= k && n < Pow2(7 * k)
    ensures |EncodeVarint(n)| <= k
    decreases k
  {
    assert Pow2(7) == 128;
    if n >= 128 {
      Pow2Seven(k - 1);
      EncodeVarintLength(n / 128, k - 1);
    }
  }

  /** Reading back the canonical encoding of any `n` gives `n` and leaves the
      bytes after it untouched. */
  lemma ReadVarintRoundTrip(n: nat, tail: seq<byte>, closes: bool)
    ensures ReadVarint(Stream(EncodeVarint(n) + tail, closes)) == Some(Decoded(n, Stream(tail, closes)))
  {
    var e := EncodeVarint(n);
    var bs := e + tail;
    assert Terminates(bs, |e| - 1) by {
      forall i | 0 <= i <= |e| - 1 ensures bs[i] == e[i] { }
    }
    ReadVarintDecodes(Stream(bs, closes), |e| - 1);
    assert bs[..|e|] == e;
    assert bs[|e|..] == tail;
  }
}
