/**
 * Bytes and the view of a Rust `&str` as bytes.  A `str` is stored as UTF-8
 * (RFC 3629, section 3), and `as_bytes` exposes exactly that encoding; it is
 * what the password cypher feeds to the hash primitive.
 */
module Bytes {

  /** Rust's `u8`. */
  type byte = x: int | 0 <= x < 0x100

  /** Marker bits every continuation byte carries: `10xxxxxx`. */
  predicate IsContinuation(b: byte) {
    0x80 <= b < 0xC0
  }

  /** How many bytes a sequence starting with lead byte `b` occupies. */
  function LeadWidth(b: byte): (w: nat)
    ensures 1 <= w <= 4
  {
    if b < 0x80 then 1 else if b < 0xE0 then 2 else if b < 0xF0 then 3 else 4
  }

  /** The scalar value spelled by one encoded character. */
  function DecodeScalar(bs: seq<byte>): int
    requires 1 <= |bs| <= 4
  {
    var b := seq(|bs|, i requires 0 <= i < |bs| => bs[i] as int);
    if |b| == 1 then b[0]
    else if |b| == 2 then (b[0] - 0xC0) * 0x40 + (b[1] - 0x80)
    else if |b| == 3 then (b[0] - 0xE0) * 0x1000 + (b[1] - 0x80) * 0x40 + (b[2] - 0x80)
    else (b[0] - 0xF0) * 0x4_0000 + (b[1] - 0x80) * 0x1000 + (b[2] - 0x80) * 0x40 + (b[3] - 0x80)
  }

  /** The UTF-8 encoding of one character. */
  function EncodeScalar(c: char): (r: seq<byte>)
    ensures 1 <= |r| <= 4
    ensures LeadWidth(r[0]) == |r|
    ensures forall i :: 1 <= i < |r| ==> IsContinuation(r[i])
  {
    var n := c as int;
    if n < 0x80 then
      [n]
    else if n < 0x800 then
      [0xC0 + n / 0x40, 0x80 + n % 0x40]
    else if n < 0x1_0000 then
      [0xE0 + n / 0x1000, 0x80 + (n / 0x40) % 0x40, 0x80 + n % 0x40]
    else
      [0xF0 + n / 0x4_0000, 0x80 + (n / 0x1000) % 0x40, 0x80 + (n / 0x40) % 0x40, 0x80 + n % 0x40]
  }

  /** Decoding one encoded character gives back its scalar value. */
  lemma ScalarRoundTrip(c: char)
    ensures DecodeScalar(EncodeScalar(c)) == c as int
  {
    var n := c as int;
    var q1, r1 := n / 0x40, n % 0x40;
    var q2, r2 := q1 / 0x40, q1 % 0x40;
    var q3, r3 := q2 / 0x40, q2 % 0x40;
    assert n == q1 * 0x40 + r1;
    assert q1 == q2 * 0x40 + r2;
    assert q2 == q3 * 0x40 + r3;
    if n < 0x80 {
    } else if n < 0x800 {
      assert EncodeScalar(c) == [0xC0 + q1, 0x80 + r1];
    } else if n < 0x1_0000 {
      assert n / 0x1000 == q2;
      assert EncodeScalar(c) == [0xE0 + q2, 0x80 + r2, 0x80 + r1];
    } else {
      assert n / 0x1000 == q2;
      assert n / 0x4_0000 == q3;
      assert (n / 0x1000) % 0x40 == r3;
      assert EncodeScalar(c) == [0xF0 + q3, 0x80 + r3, 0x80 + r2, 0x80 + r1];
    }
  }

  /** `str::as_bytes`: the UTF-8 bytes of a string, character after character. */
  function AsBytes(s: string): (r: seq<byte>)
    ensures |s| <= |r| <= 4 * |s|
  {
    if s == [] then [] else EncodeScalar(s[0]) + AsBytes(s[1..])
  }

  /** Two strings with the same bytes are the same string. */
  lemma {:induction false} AsBytesInjective(s: string, t: string)
    requires AsBytes(s) == AsBytes(t)
    ensures s == t
  {
    if s != [] {
      var a, b := EncodeScalar(s[0]), EncodeScalar(t[0]);
      assert AsBytes(s) == a + AsBytes(s[1..]);
      assert AsBytes(t) == b + AsBytes(t[1..]);
      assert a[0] == AsBytes(s)[0] == b[0];
      assert a == AsBytes(s)[..|a|] == b;
      ScalarRoundTrip(s[0]);
      ScalarRoundTrip(t[0]);
      assert s[0] as int == DecodeScalar(a) == t[0] as int;
      assert AsBytes(s[1..]) == AsBytes(s)[|a|..] == AsBytes(t[1..]);
      AsBytesInjective(s[1..], t[1..]);
      assert s == [s[0]] + s[1..];
      assert t == [t[0]] + t[1..];
    }
  }
}
