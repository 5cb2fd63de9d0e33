/** Byte strings, hexadecimal text, and the numbers they write. */
module Bytes {
  type Byte = x: int | 0 <= x < 256

  type ByteString = seq<Byte>

  predicate IsHex(c: char) {
    '0' <= c <= '9' || 'a' <= c <= 'f' || 'A' <= c <= 'F'
  }

  function HexDigit(c: char): (d: nat)
    requires IsHex(c)
    ensures d < 16
  {
    if '0' <= c <= '9' then (c - '0') as nat
    else if 'a' <= c <= 'f' then (c - 'a') as nat + 10
    else (c - 'A') as nat + 10
  }

  predicate AllHex(s: string) {
    forall i :: 0 <= i < |s| ==> IsHex(s[i])
  }

  function HexValue(s: string): nat
    requires AllHex(s)
  {
    if s == [] then 0 else 16 * HexValue(s[..|s| - 1]) + HexDigit(s[|s| - 1])
  }

  /** Buffer.from(s, 'hex'): pairs of digits, up to the first pair that is not one. */
  function FromHex(s: string): ByteString {
    if |s| < 2 || !IsHex(s[0]) || !IsHex(s[1]) then []
    else [16 * HexDigit(s[0]) + HexDigit(s[1])] + FromHex(s[2..])
  }

  function HexChar(d: nat): (c: char)
    requires d < 16
    ensures IsHex(c) && HexDigit(c) == d
  {
    if d < 10 then '0' + d as char else 'a' + (d - 10) as char
  }

  /** toString('hex'). */
  function ToHex(b: ByteString): string {
    if b == [] then [] else [HexChar(b[0] / 16), HexChar(b[0] % 16)] + ToHex(b[1..])
  }

  function BigEndian(b: ByteString): nat {
    if b == [] then 0 else 256 * BigEndian(b[..|b| - 1]) + b[|b| - 1]
  }

  function Zeros(n: nat): ByteString {
    seq(n, _ => 0)
  }

  /** Hex digits are read by their place in the alphabet of digits, in either case. */
  lemma HexDigitValues(d: nat)
    requires d < 16
    ensures var lower, upper := "0123456789abcdef"[d], "0123456789ABCDEF"[d];
            IsHex(lower) && IsHex(upper) && HexDigit(lower) == d && HexDigit(upper) == d && HexChar(d) == lower
  {}

  /** Reading stops at the first pair that is not two hex digits, and drops a last odd digit. */
  lemma FromHexStops(s: string, t: string)
    requires AllHex(s) && |s| % 2 == 0 && (|t| < 2 || !IsHex(t[0]) || !IsHex(t[1]))
    ensures FromHex(s + t) == FromHex(s)
  {
    FromHexConcat(s, t);
    assert FromHex(s) + [] == FromHex(s);
  }

  lemma {:induction false} HexRoundTrip(b: ByteString)
    ensures FromHex(ToHex(b)) == b
  {
    if b != [] {
      HexRoundTrip(b[1..]);
      assert ToHex(b)[2..] == ToHex(b[1..]);
    }
  }

  lemma HexIsFaithful(a: ByteString, b: ByteString)
    ensures ToHex(a) == ToHex(b) <==> a == b
  {
    HexRoundTrip(a);
    HexRoundTrip(b);
  }

  lemma {:induction false} FromHexConcat(s: string, t: string)
    requires AllHex(s) && |s| % 2 == 0
    ensures FromHex(s + t) == FromHex(s) + FromHex(t)
    decreases |s|
  {
    if s == [] {
      assert s + t == t;
    } else {
      FromHexConcat(s[2..], t);
      assert (s + t)[2..] == s[2..] + t;
    }
  }

  /** The bytes that hex digits encode write the number the digits write. */
  lemma {:induction false} HexBytesValue(s: string)
    requires AllHex(s) && |s| % 2 == 0
    ensures |FromHex(s)| == |s| / 2 && BigEndian(FromHex(s)) == HexValue(s)
    decreases |s|
  {
    if s != [] {
      var rest, tail := s[..|s| - 2], s[|s| - 2..];
      HexBytesValue(rest);
      FromHexConcat(rest, tail);
      assert s == rest + tail && tail[2..] == [];
      var last: Byte := 16 * HexDigit(tail[0]) + HexDigit(tail[1]);
      assert FromHex(tail) == [last];
      assert (FromHex(rest) + [last])[..|FromHex(rest)|] == FromHex(rest);
      assert s[..|s| - 1][..|s| - 2] == rest;
    }
  }

  lemma {:induction false} BigEndianFaithful(a: ByteString, b: ByteString)
    requires |a| == |b| && BigEndian(a) == BigEndian(b)
    ensures a == b
    decreases |a|
  {
    if a != [] {
      BigEndianFaithful(a[..|a| - 1], b[..|b| - 1]);
      assert a == a[..|a| - 1] + [a[|a| - 1]] && b == b[..|b| - 1] + [b[|b| - 1]];
    }
  }

  /** Leading zeros do not change the number. */
  lemma {:induction false} PaddedValue(zeros: string, s: string)
    requires AllHex(s) && forall i :: 0 <= i < |zeros| ==> zeros[i] == '0'
    ensures AllHex(zeros + s) && HexValue(zeros + s) == HexValue(s)
    decreases |s|, |zeros|
  {
    assert AllHex(zeros + s);
    if s != [] {
      PaddedValue(zeros, s[..|s| - 1]);
      assert (zeros + s)[..|zeros + s| - 1] == zeros + s[..|s| - 1];
    } else if zeros != [] {
      PaddedValue(zeros[..|zeros| - 1], s);
      assert (zeros + s)[..|zeros + s| - 1] == zeros[..|zeros| - 1] + s;
    }
  }
}
