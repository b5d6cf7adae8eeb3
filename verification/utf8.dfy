/** `str.encode("utf-8")` for the host name that goes into the handshake,
    and a strict decoder that serves as its inverse. */
module Utf8 {
  import opened Wrappers
  import opened Varint

  /** How many bytes UTF-8 spends on the code point `n`. */
  function Width(n: int): nat {
    if n < 0x80 then 1 else if n < 0x800 then 2 else if n < 0x1_0000 then 3 else 4
  }

  /** A continuation byte, `10xxxxxx`. */
  predicate IsCont(b: byte) {
    0x80 <= b < 0xC0
  }

  /** The UTF-8 form of one Unicode scalar value: a lead byte whose high bits
      give the width, then continuation bytes. */
  function EncodeChar(c: char): (r: seq<byte>)
    ensures |r| == Width(c as int)
    ensures |r| == 1 ==> r[0] == c as int
    ensures |r| == 2 ==> 0xC0 <= r[0] < 0xE0
    ensures |r| == 3 ==> 0xE0 <= r[0] < 0xF0
    ensures |r| == 4 ==> 0xF0 <= r[0] < 0xF8
    ensures forall i :: 1 <= i < |r| ==> IsCont(r[i])
  {
    var n := c as int;
    if n < 0x80 then [n]
    else if n < 0x800 then [0xC0 + n / 0x40, 0x80 + n % 0x40]
    else if n < 0x1_0000 then [0xE0 + n / 0x1000, 0x80 + n / 0x40 % 0x40, 0x80 + n % 0x40]
    else [0xF0 + n / 0x4_0000, 0x80 + n / 0x1000 % 0x40, 0x80 + n / 0x40 % 0x40, 0x80 + n % 0x40]
  }

  function Encode(s: string): (r: seq<byte>)
    ensures |s| <= |r| <= 4 * |s|
  {
    if s == [] then [] else EncodeChar(s[0]) + Encode(s[1..])
  }

  /** The character `k` bytes of UTF-8 carrying the bits `v` stand for, and
      `k`; `None` for an overlong form, a surrogate or a value past
      U+10FFFF, which a strict decoder refuses. */
  function Scalar(v: int, k: nat): Option<(char, nat)> {
    if 0 <= v && Width(v) == k && (v < 0xD800 || 0xE000 <= v < 0x11_0000) then Some((v as char, k)) else None
  }

  /** The first character of `bs` and the number of bytes it takes. */
  function DecodeChar(bs: seq<byte>): (r: Option<(char, nat)>)
    ensures r.Some? ==> 1 <= r.value.1 <= |bs| && r.value.1 == Width(r.value.0 as int)
  {
    if bs == [] then None
    else if bs[0] < 0x80 then Some((bs[0] as char, 1))
    else if 0xC0 <= bs[0] < 0xE0 && |bs| >= 2 && IsCont(bs[1]) then
      Scalar((bs[0] as int - 0xC0) * 0x40 + (bs[1] as int - 0x80), 2)
    else if 0xE0 <= bs[0] < 0xF0 && |bs| >= 3 && IsCont(bs[1]) && IsCont(bs[2]) then
      Scalar(((bs[0] as int - 0xE0) * 0x40 + (bs[1] as int - 0x80)) * 0x40 + (bs[2] as int - 0x80), 3)
    else if 0xF0 <= bs[0] < 0xF8 && |bs| >= 4 && IsCont(bs[1]) && IsCont(bs[2]) && IsCont(bs[3]) then
      Scalar((((bs[0] as int - 0xF0) * 0x40 + (bs[1] as int - 0x80)) * 0x40 + (bs[2] as int - 0x80)) * 0x40 + (bs[3] as int - 0x80), 4)
    else None
  }

  /** Strict UTF-8 decoding, as `bytes.decode("utf-8")` does it. */
  function Decode(bs: seq<byte>): (r: Option<string>)
    ensures r.Some? ==> |r.value| <= |bs|
    decreases |bs|
  {
    if bs == [] then Some([])
    else
      match DecodeChar(bs)
      case None => None
      case Some((c, k)) =>
        match Decode(bs[k..])
        case None => None
        case Some(s) => Some([c] + s)
  }

  /** The number of characters of `s` at or above `bound`. */
  function CountFrom(s: string, bound: int): nat {
    if s == [] then 0 else (if s[0] as int >= bound then 1 else 0) + CountFrom(s[1..], bound)
  }

  lemma Split64(n: nat)
    ensures n / 0x1000 == n / 0x40 / 0x40
    ensures n / 0x4_0000 == n / 0x1000 / 0x40
  {
    var q, r := n / 0x40, n % 0x40;
    var q2, r2 := q / 0x40, q % 0x40;
    assert n == 0x1000 * q2 + (0x40 * r2 + r);
    var q3, r3 := q2 / 0x40, q2 % 0x40;
    assert n == 0x4_0000 * q3 + (0x1000 * r3 + 0x40 * r2 + r);
  }

  /** The decoder reads one encoded character back, whatever follows it. */
  lemma DecodeCharEncode(c: char, rest: seq<byte>)
    ensures DecodeChar(EncodeChar(c) + rest) == Some((c, Width(c as int)))
  {
    var n := c as int;
    var e := EncodeChar(c);
    var bs := e + rest;
    assert bs[..|e|] == e;
    Split64(n);
    if n < 0x80 {
    } else if n < 0x800 {
      assert bs[0] == 0xC0 + n / 0x40 && bs[1] == 0x80 + n % 0x40;
      assert (bs[0] as int - 0xC0) * 0x40 + (bs[1] as int - 0x80) == n;
    } else if n < 0x1_0000 {
      assert bs[0] == 0xE0 + n / 0x1000 && bs[1] == 0x80 + n / 0x40 % 0x40 && bs[2] == 0x80 + n % 0x40;
      assert ((bs[0] as int - 0xE0) * 0x40 + (bs[1] as int - 0x80)) * 0x40 + (bs[2] as int - 0x80) == n;
    } else {
      assert bs[0] == 0xF0 + n / 0x4_0000 && bs[1] == 0x80 + n / 0x1000 % 0x40;
      assert bs[2] == 0x80 + n / 0x40 % 0x40 && bs[3] == 0x80 + n % 0x40;
      assert (((bs[0] as int - 0xF0) * 0x40 + (bs[1] as int - 0x80)) * 0x40 + (bs[2] as int - 0x80)) * 0x40 + (bs[3] as int - 0x80) == n;
    }
  }

  /** Decoding the UTF-8 form of any string gives the string back. */
  lemma {:induction false} DecodeEncode(s: string)
    ensures Decode(Encode(s)) == Some(s)
  {
    if s != [] {
      var e, tail := EncodeChar(s[0]), Encode(s[1..]);
      assert Encode(s) == e + tail;
      DecodeCharEncode(s[0], tail);
      assert (e + tail)[|e|..] == tail;
      DecodeEncode(s[1..]);
      assert [s[0]] + s[1..] == s;
    }
  }

  /** Encoding works character by character: the form of a concatenation is
      the concatenation of the forms. */
  lemma {:induction false} EncodeConcat(a: string, b: string)
    ensures Encode(a + b) == Encode(a) + Encode(b)
  {
    if a == [] {
      assert a + b == b;
    } else {
      assert (a + b)[0] == a[0] && (a + b)[1..] == a[1..] + b;
      EncodeConcat(a[1..], b);
      calc {
        Encode(a + b);
        EncodeChar(a[0]) + Encode(a[1..] + b);
        EncodeChar(a[0]) + (Encode(a[1..]) + Encode(b));
        (EncodeChar(a[0]) + Encode(a[1..])) + Encode(b);
      }
    }
  }

  /** The byte length that the handshake's 249-byte limit applies to: one byte
      per character, plus one for each at or above U+0080, U+0800 and
      U+10000. */
  lemma {:induction false} EncodeLength(s: string)
    ensures |Encode(s)| == |s| + CountFrom(s, 0x80) + CountFrom(s, 0x800) + CountFrom(s, 0x1_0000)
  {
    if s != [] {
      EncodeLength(s[1..]);
    }
  }

  ghost predicate IsAscii(s: string) {
    forall i :: 0 <= i < |s| ==> s[i] as int < 0x80
  }

  /** An ASCII host name encodes to its own code points, one byte each, so
      the length limits of the handshake count characters. */
  lemma {:induction false} EncodeAscii(s: string)
    requires IsAscii(s)
    ensures |Encode(s)| == |s|
    ensures forall i :: 0 <= i < |s| ==> Encode(s)[i] == s[i] as int
  {
    if s != [] {
      assert IsAscii(s[1..]) by {
        forall i | 0 <= i < |s[1..]| ensures s[1..][i] as int < 0x80 {
          assert s[1..][i] == s[i + 1];
        }
      }
      EncodeAscii(s[1..]);
      var e := Encode(s);
      assert e == EncodeChar(s[0]) + Encode(s[1..]);
      forall i | 0 <= i < |s| ensures e[i] == s[i] as int {
        if i > 0 {
          assert e[i] == Encode(s[1..])[i - 1];
          assert s[1..][i - 1] == s[i];
        }
      }
    }
  }
}
