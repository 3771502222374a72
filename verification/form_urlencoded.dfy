/**
 * The application/x-www-form-urlencoded format of section 5 of the WHATWG
 * URL Standard, which `URLSearchParams.toString()` produces: the serializer
 * (section 5.2) and, as its partner, a strict form of the parser (section 5.1).
 */
module FormUrlEncoded {
  import opened Wrappers
  import Text
  import Utf8

  type Byte = Utf8.Byte

  /** A name-value list, the state of a `URLSearchParams` object. */
  type Params = seq<(string, string)>

  /**
   * Bytes left as they are by the serializer: ASCII alphanumerics and
   * `*`, `-`, `.`, `_`. Every other byte is outside the
   * application/x-www-form-urlencoded percent-encode set's complement.
   */
  predicate IsUnreserved(b: Byte)
  {
    b == 0x2A || b == 0x2D || b == 0x2E || b == 0x5F
    || (0x30 <= b <= 0x39) || (0x41 <= b <= 0x5A) || (0x61 <= b <= 0x7A)
  }

  /** Upper-case hexadecimal digit for `d`, as percent-encoding writes it. */
  function HexDigit(d: int): (r: Byte)
    requires 0 <= d < 16
    ensures IsUnreserved(r)
  {
    if d < 10 then 0x30 + d else 0x41 + (d - 10)
  }

  /** The value of a hexadecimal digit of either case, if `b` is one. */
  function HexValue(b: Byte): (r: Option<int>)
    ensures r.Some? ==> 0 <= r.value < 16
    ensures forall d :: 0 <= d < 16 ==> (b == HexDigit(d) ==> r == Some(d))
  {
    if 0x30 <= b <= 0x39 then Some(b - 0x30)
    else if 0x41 <= b <= 0x46 then Some(b - 0x41 + 10)
    else if 0x61 <= b <= 0x66 then Some(b - 0x61 + 10)
    else None
  }

  /** True iff `b` may appear in serialized output: ASCII, and neither `&` nor `=`. */
  predicate IsSafeOutput(b: Byte)
  {
    b < 0x80 && b != 0x26 && b != 0x3D
  }

  /** Serializes one byte: space becomes `+`, unreserved bytes stay, the rest become `%XX`. */
  function EncodeByte(b: Byte): (r: seq<Byte>)
    ensures 1 <= |r| <= 3
    ensures forall i :: 0 <= i < |r| ==> IsSafeOutput(r[i])
    ensures b != 0x20 ==> 0x2B !in r
  {
    if b == 0x20 then [0x2B]
    else if IsUnreserved(b) then [b]
    else [0x25, HexDigit(b / 16), HexDigit(b % 16)]
  }

  /** Serializes a byte sequence, byte by byte. */
  function EncodeBytes(bs: seq<Byte>): (r: seq<Byte>)
    ensures forall i :: 0 <= i < |r| ==> IsSafeOutput(r[i])
    decreases |bs|
  {
    if |bs| == 0 then [] else EncodeByte(bs[0]) + EncodeBytes(bs[1..])
  }

  /** Reads ASCII bytes as the string of the same characters. */
  function AsciiString(bs: seq<Byte>): (r: string)
    requires forall i :: 0 <= i < |bs| ==> bs[i] < 0x80
    ensures |r| == |bs|
    ensures forall i :: 0 <= i < |bs| ==> r[i] as int == bs[i]
  {
    seq(|bs|, i requires 0 <= i < |bs| => bs[i] as char)
  }

  /**
   * Serializes one string the way the urlencoded serializer treats a name or
   * a value: UTF-8 encode, then encode each byte. The result never holds the
   * two delimiters of the format.
   */
  function Encode(s: string): (r: string)
    ensures '&' !in r && '=' !in r
    ensures forall i :: 0 <= i < |r| ==> r[i] as int < 0x80
  {
    var r := AsciiString(EncodeBytes(Utf8.Encode(s)));
    assert forall i :: 0 <= i < |r| ==> IsSafeOutput(r[i] as int);
    r
  }

  /** The urlencoded serializer: `name=value` for each pair, joined with `&`. */
  function Serialize(ps: Params): string
  {
    Text.Join(seq(|ps|, i requires 0 <= i < |ps| => Encode(ps[i].0) + "=" + Encode(ps[i].1)), '&')
  }

  /** Replaces every `+` byte with a space byte. */
  function PlusToSpace(bs: seq<Byte>): (r: seq<Byte>)
    ensures |r| == |bs|
    ensures forall i :: 0 <= i < |bs| ==> r[i] == (if bs[i] == 0x2B then 0x20 else bs[i])
  {
    seq(|bs|, i requires 0 <= i < |bs| => if bs[i] == 0x2B then 0x20 else bs[i])
  }

  /**
   * Percent-decoding: `%` with two hexadecimal digits becomes the byte they
   * spell; any other byte, a lone `%` included, is kept.
   */
  function PercentDecode(bs: seq<Byte>): seq<Byte>
    decreases |bs|
  {
    if |bs| == 0 then []
    else if bs[0] == 0x25 && |bs| >= 3 && HexValue(bs[1]).Some? && HexValue(bs[2]).Some? then
      [HexValue(bs[1]).value * 16 + HexValue(bs[2]).value] + PercentDecode(bs[3..])
    else
      [bs[0]] + PercentDecode(bs[1..])
  }

  /**
   * Decodes a name or a value: `+` to space, percent-decode, UTF-8 decode.
   * Malformed UTF-8 makes it fail where the Standard substitutes U+FFFD.
   */
  function Decode(s: string): Option<string>
  {
    Utf8.Decode(PercentDecode(PlusToSpace(Utf8.Encode(s))))
  }

  /**
   * The urlencoded parser: split on `&`, skip empty pieces, split each piece
   * at its first `=` (no `=` means an empty value), decode both halves.
   */
  function Parse(q: string): Option<Params>
  {
    ParsePieces(Text.SplitOn(q, '&'))
  }

  function ParsePieces(pieces: seq<string>): Option<Params>
    decreases |pieces|
  {
    if |pieces| == 0 then Some([])
    else if pieces[0] == "" then ParsePieces(pieces[1..])
    else
      var (n, v) := Text.SplitAtFirst(pieces[0], '=');
      match (Decode(n), Decode(v), ParsePieces(pieces[1..]))
      case (Some(name), Some(value), Some(rest)) => Some([(name, value)] + rest)
      case _ => None
  }

  lemma PlusToSpaceAppend(a: seq<Byte>, b: seq<Byte>)
    ensures PlusToSpace(a + b) == PlusToSpace(a) + PlusToSpace(b)
  {
  }

  /** Percent-decoding reads one serialized byte back and continues after it. */
  lemma DecodeOneByte(b: Byte, rest: seq<Byte>)
    ensures PercentDecode(PlusToSpace(EncodeByte(b)) + rest) == [b] + PercentDecode(rest)
  {
    var e := PlusToSpace(EncodeByte(b));
    if b == 0x20 {
      assert e == [0x20];
      assert (e + rest)[1..] == rest;
    } else if IsUnreserved(b) {
      assert e == [b];
      assert (e + rest)[1..] == rest;
    } else {
      var hi, lo := b / 16, b % 16;
      assert e == [0x25, HexDigit(hi), HexDigit(lo)];
      assert HexValue(HexDigit(hi)) == Some(hi);
      assert HexValue(HexDigit(lo)) == Some(lo);
      assert (e + rest)[3..] == rest;
    }
  }

  /** Percent-decoding after `+`-to-space undoes the byte serializer. */
  lemma {:induction false} DecodeEncodeBytes(bs: seq<Byte>)
    ensures PercentDecode(PlusToSpace(EncodeBytes(bs))) == bs
    decreases |bs|
  {
    if |bs| > 0 {
      PlusToSpaceAppend(EncodeByte(bs[0]), EncodeBytes(bs[1..]));
      DecodeOneByte(bs[0], PlusToSpace(EncodeBytes(bs[1..])));
      DecodeEncodeBytes(bs[1..]);
      assert [bs[0]] + bs[1..] == bs;
    }
  }

  /** Every string comes back from its serialized form. */
  lemma DecodeEncode(s: string)
    ensures Decode(Encode(s)) == Some(s)
  {
    var bytes := EncodeBytes(Utf8.Encode(s));
    var e := Encode(s);
    Utf8.EncodeAscii(e);
    assert Utf8.Encode(e) == bytes;
    DecodeEncodeBytes(Utf8.Encode(s));
    Utf8.DecodeEncode(s);
  }

  /** Parsing a serialized list gives back the same pairs in the same order. */
  lemma ParseSerialize(ps: Params)
    ensures Parse(Serialize(ps)) == Some(ps)
  {
    var parts := seq(|ps|, i requires 0 <= i < |ps| => Encode(ps[i].0) + "=" + Encode(ps[i].1));
    if |ps| == 0 {
      assert Serialize(ps) == "";
    } else {
      forall i | 0 <= i < |parts|
        ensures '&' !in parts[i]
      {
        assert '&' !in Encode(ps[i].0) && '&' !in Encode(ps[i].1);
      }
      Text.SplitJoin(parts, '&');
      ParsePiecesSerialized(ps, parts);
    }
  }

  lemma {:induction false} ParsePiecesSerialized(ps: Params, parts: seq<string>)
    requires |parts| == |ps|
    requires forall i :: 0 <= i < |ps| ==> parts[i] == Encode(ps[i].0) + "=" + Encode(ps[i].1)
    ensures ParsePieces(parts) == Some(ps)
    decreases |ps|
  {
    if |ps| > 0 {
      ParseFirstPiece(parts, ps[0].0, ps[0].1);
      ParsePiecesSerialized(ps[1..], parts[1..]);
      assert [ps[0]] + ps[1..] == ps;
    }
  }

  /** A serialized pair at the front parses back to that pair. */
  lemma ParseFirstPiece(parts: seq<string>, k: string, v: string)
    requires |parts| > 0 && parts[0] == Encode(k) + "=" + Encode(v)
    ensures ParsePieces(parts) ==
      if ParsePieces(parts[1..]).Some? then Some([(k, v)] + ParsePieces(parts[1..]).value) else None
  {
    assert parts[0] == Encode(k) + ['='] + Encode(v);
    assert parts[0] != "";
    Text.SplitAtFirstCons(Encode(k), '=', Encode(v));
    DecodeEncode(k);
    DecodeEncode(v);
  }
}
