/**
 * Lower-case hexadecimal encoding of bytes, as `hex.EncodeToString` does it
 * for the refresh token in utils/jwt.go, with its inverse as a reference.
 */
module Hex {
  import opened Wrappers

  type byte = x: int | 0 <= x < 256

  /** The hex digit of a nibble: 0-9 then a-f. */
  function HexDigit(d: int): (c: char)
    requires 0 <= d < 16
    ensures IsHexDigit(c)
  {
    if d < 10 then ('0' as int + d) as char else ('a' as int + d - 10) as char
  }

  /** One of the sixteen characters `0123456789abcdef`. */
  predicate IsHexDigit(c: char) {
    ('0' <= c <= '9') || ('a' <= c <= 'f')
  }

  /** Every character of `s` is a lower-case hex digit. */
  predicate IsLowerHex(s: string) {
    forall i :: 0 <= i < |s| ==> IsHexDigit(s[i])
  }

  /** The two characters of one byte, high nibble first. */
  function HexPair(b: byte): string {
    [HexDigit(b / 16), HexDigit(b % 16)]
  }

  /** The encoding: each byte in order becomes its two digits. */
  function HexOf(bs: seq<byte>): string {
    if bs == [] then [] else HexPair(bs[0]) + HexOf(bs[1..])
  }

  /** The value of a lower-case hex digit. */
  function DigitValue(c: char): (v: Option<int>)
    ensures v.Some? <==> IsHexDigit(c)
    ensures v.Some? ==> 0 <= v.value < 16 && HexDigit(v.value) == c
  {
    if '0' <= c <= '9' then Some(c as int - '0' as int)
    else if 'a' <= c <= 'f' then Some(c as int - 'a' as int + 10)
    else None
  }

  /** Decoding, two digits per byte; `None` on odd length or a non-digit. */
  function Unhex(s: string): Option<seq<byte>>
    decreases |s|
  {
    if |s| == 0 then Some([])
    else if |s| == 1 then None
    else
      match (DigitValue(s[0]), DigitValue(s[1]), Unhex(s[2..]))
      case (Some(hi), Some(lo), Some(rest)) => Some([hi * 16 + lo] + rest)
      case _ => None
  }

  /** The digit of a nibble decodes back to that nibble. */
  lemma DigitRoundTrip(d: int)
    requires 0 <= d < 16
    ensures DigitValue(HexDigit(d)) == Some(d)
  {
  }

  /** The encoding is twice as long as the input and uses only lower-case hex digits. */
  lemma {:induction false} HexOfShape(bs: seq<byte>)
    ensures |HexOf(bs)| == 2 * |bs|
    ensures IsLowerHex(HexOf(bs))
  {
    if bs != [] {
      HexOfShape(bs[1..]);
    }
  }

  /** Byte `i` sits at characters `2i` and `2i+1`. */
  lemma {:induction false} HexOfAt(bs: seq<byte>, i: nat)
    requires i < |bs|
    ensures |HexOf(bs)| == 2 * |bs|
    ensures HexOf(bs)[2 * i] == HexDigit(bs[i] / 16)
    ensures HexOf(bs)[2 * i + 1] == HexDigit(bs[i] % 16)
  {
    HexOfShape(bs);
    if i > 0 {
      HexOfAt(bs[1..], i - 1);
      HexOfShape(bs[1..]);
    }
  }

  /** Encoding one more byte appends its two digits. */
  lemma {:induction false} HexOfAppend(bs: seq<byte>, b: byte)
    ensures HexOf(bs + [b]) == HexOf(bs) + HexPair(b)
  {
    if bs == [] {
      assert bs + [b] == [b];
    } else {
      assert (bs + [b])[1..] == bs[1..] + [b];
      HexOfAppend(bs[1..], b);
    }
  }

  /** Decoding undoes encoding. */
  lemma {:induction false} UnhexOfHex(bs: seq<byte>)
    ensures Unhex(HexOf(bs)) == Some(bs)
  {
    if bs != [] {
      var s := HexOf(bs);
      assert s == HexPair(bs[0]) + HexOf(bs[1..]);
      assert s[2..] == HexOf(bs[1..]);
      DigitRoundTrip(bs[0] / 16);
      DigitRoundTrip(bs[0] % 16);
      UnhexOfHex(bs[1..]);
      assert [bs[0]] + bs[1..] == bs;
    }
  }

  /** Distinct byte strings give distinct encodings. */
  lemma HexOfInjective(a: seq<byte>, b: seq<byte>)
    requires HexOf(a) == HexOf(b)
    ensures a == b
  {
    UnhexOfHex(a);
    UnhexOfHex(b);
  }

  /** `hex.EncodeToString`: two digits per byte, written in order. */
  method EncodeToString(buf: array<byte>) returns (s: string)
    ensures s == HexOf(buf[..])
    ensures |s| == 2 * buf.Length && IsLowerHex(s)
  {
    s := [];
    var i := 0;
    while i < buf.Length
      invariant 0 <= i <= buf.Length
      invariant s == HexOf(buf[..i])
    {
      HexOfAppend(buf[..i], buf[i]);
      assert buf[..i + 1] == buf[..i] + [buf[i]];
      s := s + HexPair(buf[i]);
      i := i + 1;
    }
    assert buf[..i] == buf[..];
    HexOfShape(buf[..]);
  }
}
