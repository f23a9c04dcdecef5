/**
 Hexadecimal text as ASCII bytes: hexEncodeHash (bridge/validator_network.go) writes it, hexDecode
 (abi/type.go) reads it.
 */
module Hex {
  import opened ByteStrings
  import opened Results

  /** ASCII of 0-9 and a-f. */
  function HexDigit(d: nat): byte
    requires d < 16
  {
    if d < 10 then 48 + d else 87 + d
  }

  function HexEncode(h: seq<byte>): seq<byte> {
    if h == [] then [] else [HexDigit(h[0] / 16), HexDigit(h[0] % 16)] + HexEncode(h[1..])
  }

  /** The value of a digit, in either case. */
  function DigitValue(c: byte): (r: Option<nat>)
    ensures r.Some? ==> r.value < 16
  {
    if 48 <= c <= 57 then Some(c - 48)
    else if 97 <= c <= 102 then Some(c - 87)
    else if 65 <= c <= 70 then Some(c - 55)
    else None
  }

  /** strconv.ParseUint of two characters in base 16. */
  function PairValue(a: byte, b: byte): Option<byte> {
    if DigitValue(a).None? || DigitValue(b).None? then None
    else Some(16 * DigitValue(a).value + DigitValue(b).value)
  }

  /** None for an odd length or a character that is no digit. */
  function HexDecode(s: seq<byte>): Option<seq<byte>> {
    if s == [] then Some([])
    else if |s| == 1 then None
    else
      var rest := HexDecode(s[2..]);
      var first := PairValue(s[0], s[1]);
      if first.None? || rest.None? then None else Some([first.value] + rest.value)
  }

  lemma {:induction false} HexDecodeLength(s: seq<byte>)
    ensures HexDecode(s).Some? ==> 2 * |HexDecode(s).value| == |s|
  {
    if |s| >= 2 {
      HexDecodeLength(s[2..]);
    }
  }

  /** Decoding undoes encoding, so different bytes have different texts. */
  lemma {:induction false} HexDecodesBack(h: seq<byte>)
    ensures HexDecode(HexEncode(h)) == Some(h) && |HexEncode(h)| == 2 * |h|
  {
    if h != [] {
      HexDecodesBack(h[1..]);
      var x := HexEncode(h);
      assert x[2..] == HexEncode(h[1..]);
      DigitsReadBack(h[0]);
      assert h == [h[0]] + h[1..];
    }
  }

  lemma DigitsReadBack(x: byte)
    ensures PairValue(HexDigit(x / 16), HexDigit(x % 16)) == Some(x)
  {
    assert x == 16 * (x / 16) + x % 16;
  }

  /** The text with A-F written as a-f. */
  function Lower(s: seq<byte>): (r: seq<byte>)
    ensures |r| == |s|
  {
    seq(|s|, i requires 0 <= i < |s| => if 65 <= s[i] <= 70 then (s[i] + 32) as byte else s[i])
  }

  lemma PairIsExact(a: byte, b: byte, x: byte)
    ensures PairValue(a, b) == Some(x) <==> Lower([a, b]) == [HexDigit(x / 16), HexDigit(x % 16)]
  {
    var l := Lower([a, b]);
    var d := [HexDigit(x / 16), HexDigit(x % 16)];
    assert x == 16 * (x / 16) + x % 16;
    assert l == d <==> l[0] == d[0] && l[1] == d[1];
  }

  /** Exactly the hex forms of the bytes, in either case, decode to them. */
  lemma {:induction false} DecodeIsExact(s: seq<byte>, h: seq<byte>)
    ensures HexDecode(s) == Some(h) <==> Lower(s) == HexEncode(h)
  {
    HexDecodeLength(s);
    HexDecodesBack(h);
    if |s| == 2 * |h| && s != [] {
      DecodeIsExact(s[2..], h[1..]);
      PairIsExact(s[0], s[1], h[0]);
      assert Lower(s) == Lower([s[0], s[1]]) + Lower(s[2..]);
      assert h == [h[0]] + h[1..];
      var l, e := Lower(s), HexEncode(h);
      assert l == e <==> l[..2] == e[..2] && l[2..] == e[2..] by {
        assert l == l[..2] + l[2..] && e == e[..2] + e[2..];
      }
    }
  }

  lemma HexIsInjective(a: seq<byte>, b: seq<byte>)
    requires HexEncode(a) == HexEncode(b)
    ensures a == b
  {
    hide HexEncode, HexDecode;
    HexDecodesBack(a);
    HexDecodesBack(b);
  }
}
