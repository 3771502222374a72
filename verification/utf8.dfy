/**
 * UTF-8 as the URL Standard uses it: the encoder that turns a string into
 * bytes before percent-encoding, and a strict decoder for the way back.
 * A Dafny `char` is a Unicode scalar value, so every string is encodable.
 */
module Utf8 {
  import opened Wrappers

  type Byte = b: int | 0 <= b < 256

  /** Bytes 0x80-0xBF, which carry six payload bits after a lead byte. */
  predicate IsContinuation(b: Byte)
  {
    0x80 <= b < 0xC0
  }

  /** The number of bytes UTF-8 spends on code point `n`. */
  function Width(n: int): nat
  {
    if n < 0x80 then 1 else if n < 0x800 then 2 else if n < 0x1_0000 then 3 else 4
  }

  /** The UTF-8 encoding of one character: the shortest form, as RFC 3629 requires. */
  function EncodeChar(c: char): (r: seq<Byte>)
    ensures |r| == Width(c as int)
    ensures |r| == 1 <==> c as int < 0x80
    ensures |r| == 1 ==> r[0] == c as int
    ensures |r| == 2 ==> 0xC2 <= r[0] < 0xE0
    ensures |r| == 3 ==> 0xE0 <= r[0] < 0xF0
    ensures |r| == 4 ==> 0xF0 <= r[0] < 0xF5
    ensures forall i :: 1 <= i < |r| ==> IsContinuation(r[i])
  {
    var n := c as int;
    if n < 0x80 then [n]
    else if n < 0x800 then [0xC0 + n / 64, 0x80 + n % 64]
    else if n < 0x1_0000 then [0xE0 + n / 4096, 0x80 + (n / 64) % 64, 0x80 + n % 64]
    else [0xF0 + n / 262144, 0x80 + (n / 4096) % 64, 0x80 + (n / 64) % 64, 0x80 + n % 64]
  }

  /** The UTF-8 encoding of a string: its characters' encodings in order. */
  function Encode(s: string): (r: seq<Byte>)
    ensures |r| >= |s|
    decreases |s|
  {
    if |s| == 0 then [] else EncodeChar(s[0]) + Encode(s[1..])
  }

  /**
   * Decodes the character at the front of `bs`, with the number of bytes it
   * took. Truncated sequences, stray continuation bytes, overlong forms,
   * surrogates and values past U+10FFFF are rejected; `DecodeCharSound`
   * shows that whatever is accepted is exactly the encoding of the character
   * returned.
   */
  function DecodeChar(bs: seq<Byte>): (r: Option<(char, nat)>)
    ensures r.Some? ==> 1 <= r.value.1 <= |bs| && r.value.1 == Width(r.value.0 as int)
  {
    if |bs| == 0 then None
    else
      var b0: int := bs[0];
      if b0 < 0x80 then
        Some((b0 as char, 1))
      else if 0xC2 <= b0 < 0xE0 then
        if |bs| < 2 || !IsContinuation(bs[1]) then None
        else
          var v: int := (b0 - 0xC0) * 64 + (bs[1] as int - 0x80);
          Some((v as char, 2))
      else if 0xE0 <= b0 < 0xF0 then
        if |bs| < 3 || !IsContinuation(bs[1]) || !IsContinuation(bs[2]) then None
        else
          var v: int := (b0 - 0xE0) * 4096 + (bs[1] as int - 0x80) * 64 + (bs[2] as int - 0x80);
          if v < 0x800 || (0xD800 <= v < 0xE000) then None
          else Some((v as char, 3))
      else if 0xF0 <= b0 < 0xF5 then
        if |bs| < 4 || !IsContinuation(bs[1]) || !IsContinuation(bs[2]) || !IsContinuation(bs[3]) then None
        else
          var v: int := (b0 - 0xF0) * 262144 + (bs[1] as int - 0x80) * 4096 + (bs[2] as int - 0x80) * 64 + (bs[3] as int - 0x80);
          if v < 0x1_0000 || v >= 0x11_0000 then None
          else Some((v as char, 4))
      else
        None
  }

  /** Decodes a whole byte sequence, failing if any character is malformed. */
  function Decode(bs: seq<Byte>): (r: Option<string>)
    decreases |bs|
  {
    if |bs| == 0 then Some("")
    else
      match DecodeChar(bs)
      case None => None
      case Some((c, n)) =>
        match Decode(bs[n..])
        case None => None
        case Some(s) => Some([c] + s)
  }

  lemma DivTwo(v: int, a: int, b: int)
    requires 0 <= b < 64
    requires v == a * 64 + b
    ensures v / 64 == a && v % 64 == b
  {
  }

  lemma DivThree(v: int, a: int, b: int, c: int)
    requires 0 <= a && 0 <= b < 64 && 0 <= c < 64
    requires v == a * 4096 + b * 64 + c
    ensures v / 4096 == a && (v / 64) % 64 == b && v % 64 == c
  {
    DivTwo(v, a * 64 + b, c);
    DivTwo(a * 64 + b, a, b);
    assert v == a * 4096 + (b * 64 + c);
  }

  lemma DivFour(v: int, a: int, b: int, c: int, d: int)
    requires 0 <= a && 0 <= b < 64 && 0 <= c < 64 && 0 <= d < 64
    requires v == a * 262144 + b * 4096 + c * 64 + d
    ensures v / 262144 == a && (v / 4096) % 64 == b && (v / 64) % 64 == c && v % 64 == d
  {
    DivThree(v, a * 64 + b, c, d);
    DivTwo(a * 64 + b, a, b);
    assert v == a * 262144 + (b * 4096 + c * 64 + d);
  }

  /** The decoder accepts a character only in its shortest encoding. */
  lemma DecodeCharSound(bs: seq<Byte>)
    requires DecodeChar(bs).Some?
    ensures EncodeChar(DecodeChar(bs).value.0) == bs[..DecodeChar(bs).value.1]
  {
    var b0: int := bs[0];
    if b0 < 0x80 {
    } else if b0 < 0xE0 {
      SoundTwo(bs);
    } else if b0 < 0xF0 {
      SoundThree(bs);
    } else {
      SoundFour(bs);
    }
  }

  lemma SoundTwo(bs: seq<Byte>)
    requires DecodeChar(bs).Some? && 0x80 <= bs[0] < 0xE0
    ensures EncodeChar(DecodeChar(bs).value.0) == bs[..2]
  {
    var v: int := (bs[0] as int - 0xC0) * 64 + (bs[1] as int - 0x80);
    DivTwo(v, bs[0] as int - 0xC0, bs[1] as int - 0x80);
    assert EncodeChar(v as char) == [0xC0 + v / 64, 0x80 + v % 64];
  }

  lemma SoundThree(bs: seq<Byte>)
    requires DecodeChar(bs).Some? && 0xE0 <= bs[0] < 0xF0
    ensures EncodeChar(DecodeChar(bs).value.0) == bs[..3]
  {
    var v: int := (bs[0] as int - 0xE0) * 4096 + (bs[1] as int - 0x80) * 64 + (bs[2] as int - 0x80);
    DivThree(v, bs[0] as int - 0xE0, bs[1] as int - 0x80, bs[2] as int - 0x80);
    assert EncodeChar(v as char) == [0xE0 + v / 4096, 0x80 + (v / 64) % 64, 0x80 + v % 64];
  }

  lemma SoundFour(bs: seq<Byte>)
    requires DecodeChar(bs).Some? && 0xF0 <= bs[0]
    ensures EncodeChar(DecodeChar(bs).value.0) == bs[..4]
  {
    var v: int := (bs[0] as int - 0xF0) * 262144 + (bs[1] as int - 0x80) * 4096 + (bs[2] as int - 0x80) * 64 + (bs[3] as int - 0x80);
    DivFour(v, bs[0] as int - 0xF0, bs[1] as int - 0x80, bs[2] as int - 0x80, bs[3] as int - 0x80);
    assert EncodeChar(v as char) == [0xF0 + v / 262144, 0x80 + (v / 4096) % 64, 0x80 + (v / 64) % 64, 0x80 + v % 64];
  }

  /** Six-bit groups of a code point, most significant first, put back together. */
  lemma Digits(n: int)
    requires 0 <= n
    ensures n == (n / 64) * 64 + n % 64
    ensures n == (n / 4096) * 4096 + ((n / 64) % 64) * 64 + n % 64
    ensures n == (n / 262144) * 262144 + ((n / 4096) % 64) * 4096 + ((n / 64) % 64) * 64 + n % 64
  {
    var q := n / 64;
    DivTwo(n, q, n % 64);
    DivThree(n, q / 64, q % 64, n % 64);
    DivFour(n, q / 4096, (q / 64) % 64, q % 64, n % 64);
  }

  /** Decoding the front of an encoded character gives the character back. */
  lemma DecodeCharOfEncode(c: char, rest: seq<Byte>)
    ensures DecodeChar(EncodeChar(c) + rest) == Some((c, |EncodeChar(c)|))
  {
    var n := c as int;
    if n < 0x80 {
    } else if n < 0x800 {
      DecodeTwo(c, rest);
    } else if n < 0x1_0000 {
      DecodeThree(c, rest);
    } else {
      DecodeFour(c, rest);
    }
  }

  lemma DecodeTwo(c: char, rest: seq<Byte>)
    requires 0x80 <= c as int < 0x800
    ensures DecodeChar(EncodeChar(c) + rest) == Some((c, 2))
  {
    var n := c as int;
    var bs := EncodeChar(c) + rest;
    assert bs[0] == 0xC0 + n / 64 && bs[1] == 0x80 + n % 64;
    DivTwo(n, n / 64, n % 64);
    assert (bs[0] as int - 0xC0) * 64 + (bs[1] as int - 0x80) == n;
  }

  lemma DecodeThree(c: char, rest: seq<Byte>)
    requires 0x800 <= c as int < 0x1_0000
    ensures DecodeChar(EncodeChar(c) + rest) == Some((c, 3))
  {
    var n := c as int;
    var bs := EncodeChar(c) + rest;
    assert bs[0] == 0xE0 + n / 4096 && bs[1] == 0x80 + (n / 64) % 64 && bs[2] == 0x80 + n % 64;
    DivThree(n, n / 4096, (n / 64) % 64, n % 64);
    assert (bs[0] as int - 0xE0) * 4096 + (bs[1] as int - 0x80) * 64 + (bs[2] as int - 0x80) == n;
  }

  lemma DecodeFour(c: char, rest: seq<Byte>)
    requires 0x1_0000 <= c as int
    ensures DecodeChar(EncodeChar(c) + rest) == Some((c, 4))
  {
    var n := c as int;
    var bs := EncodeChar(c) + rest;
    FourBytes(c, rest);
    Digits(n);
    AcceptFour(bs, n);
  }

  lemma FourBytes(c: char, rest: seq<Byte>)
    requires 0x1_0000 <= c as int
    ensures var n, bs := c as int, EncodeChar(c) + rest;
      |bs| >= 4 && bs[0] == 0xF0 + n / 262144 && bs[1] == 0x80 + (n / 4096) % 64 &&
      bs[2] == 0x80 + (n / 64) % 64 && bs[3] == 0x80 + n % 64
  {
  }

  /** The four-byte branch of the decoder accepts a well-formed sequence. */
  lemma AcceptFour(bs: seq<Byte>, n: int)
    requires |bs| >= 4 && 0xF0 <= bs[0] < 0xF5
    requires IsContinuation(bs[1]) && IsContinuation(bs[2]) && IsContinuation(bs[3])
    requires n == (bs[0] as int - 0xF0) * 262144 + (bs[1] as int - 0x80) * 4096 + (bs[2] as int - 0x80) * 64 + (bs[3] as int - 0x80)
    requires 0x1_0000 <= n < 0x11_0000
    ensures DecodeChar(bs) == Some((n as char, 4))
  {
  }

  /** Decoding undoes encoding: every string survives a UTF-8 round trip. */
  lemma {:induction false} DecodeEncode(s: string)
    ensures Decode(Encode(s)) == Some(s)
    decreases |s|
  {
    if |s| > 0 {
      var e := EncodeChar(s[0]);
      DecodeCharOfEncode(s[0], Encode(s[1..]));
      assert Encode(s)[|e|..] == Encode(s[1..]);
      DecodeEncode(s[1..]);
      assert [s[0]] + s[1..] == s;
    }
  }

  /**
   * A successful decode of a non-empty sequence is a character whose
   * encoding is the front of the sequence, followed by the decode of the rest.
   */
  lemma DecodeCons(bs: seq<Byte>) returns (c: char, n: nat, t: string)
    requires |bs| > 0 && Decode(bs).Some?
    ensures 1 <= n <= |bs| && bs[..n] + bs[n..] == bs
    ensures Decode(bs[n..]) == Some(t) && Decode(bs) == Some([c] + t)
    ensures Encode([c] + t) == bs[..n] + Encode(t)
  {
    c, n := DecodeChar(bs).value.0, DecodeChar(bs).value.1;
    t := Decode(bs[n..]).value;
    DecodeCharSound(bs);
    assert ([c] + t)[1..] == t;
  }

  /** Encoding undoes decoding: the decoder accepts only well-formed UTF-8. */
  lemma {:induction false} EncodeDecode(bs: seq<Byte>)
    requires Decode(bs).Some?
    ensures Encode(Decode(bs).value) == bs
    decreases |bs|
  {
    if |bs| > 0 {
      var c, n, t := DecodeCons(bs);
      EncodeDecode(bs[n..]);
    }
  }

  /** A string of ASCII characters encodes to its own code points. */
  lemma {:induction false} EncodeAscii(s: string)
    requires forall i :: 0 <= i < |s| ==> s[i] as int < 0x80
    ensures |Encode(s)| == |s|
    ensures forall i :: 0 <= i < |s| ==> Encode(s)[i] == s[i] as int
    decreases |s|
  {
    if |s| > 0 {
      EncodeAscii(s[1..]);
    }
  }
}
