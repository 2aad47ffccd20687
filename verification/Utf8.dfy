/** Text as TextEncoder and TextDecoder transform it: UTF-16 to UTF-8 (RFC 3629, section 3) and back. */
module Utf8 {
  import opened JsStrings
  import opened JsonText

  type Byte = b: int | 0 <= b < 0x100

  type Scalar = c: int | 0 <= c < 0x110000 && !(0xD800 <= c < 0xE000)

  // ---------------------------------------------------------------- UTF-16 and scalar values

  function PairValue(high: CodeUnit, low: CodeUnit): Scalar
    requires IsHigh(high) && IsLow(low)
  {
    0x10000 + (high - 0xD800) * 0x400 + (low - 0xDC00)
  }

  /** The scalar value at the front of a text; a lone surrogate counts as U+FFFD. */
  function FirstScalar(t: Text): Scalar
    requires t != []
  {
    if Width(t) == 2 then PairValue(t[0], t[1])
    else if IsHigh(t[0]) || IsLow(t[0]) then REPLACEMENT
    else t[0]
  }

  function Scalars(t: Text): seq<Scalar>
    decreases |t|
  {
    if t == [] then [] else [FirstScalar(t)] + Scalars(t[Width(t)..])
  }

  function Units(c: Scalar): (u: Text)
    ensures u != []
  {
    if c < 0x10000 then [c] else [0xD800 + (c - 0x10000) / 0x400, 0xDC00 + (c - 0x10000) % 0x400]
  }

  function Utf16(cs: seq<Scalar>): Text {
    if cs == [] then [] else Units(cs[0]) + Utf16(cs[1..])
  }

  /** Every surrogate of the text belongs to a pair. */
  predicate WellFormed(t: Text)
    decreases |t|
  {
    t == [] || ((Width(t) == 2 || !(IsHigh(t[0]) || IsLow(t[0]))) && WellFormed(t[Width(t)..]))
  }

  lemma UnitsOfFirst(t: Text)
    requires t != []
    ensures Units(FirstScalar(t)) == t[..Width(t)] <==> Width(t) == 2 || !(IsHigh(t[0]) || IsLow(t[0]))
    ensures |Units(FirstScalar(t))| == Width(t)
  {
  }

  /** Going through scalar values keeps a text exactly when it is well formed. */
  lemma {:induction false} Utf16Scalars(t: Text)
    ensures Utf16(Scalars(t)) == t <==> WellFormed(t)
    ensures |Utf16(Scalars(t))| == |t|
    decreases |t|
  {
    if t == [] {
    } else {
      var n, tail := Width(t), t[Width(t)..];
      var head := Units(FirstScalar(t));
      UnitsOfFirst(t);
      Utf16Scalars(tail);
      assert Scalars(t)[1..] == Scalars(tail);
      var whole := head + Utf16(Scalars(tail));
      assert Utf16(Scalars(t)) == whole;
      assert whole[..n] == head && whole[n..] == Utf16(Scalars(tail));
      assert t == t[..n] + tail;
    }
  }

  // ---------------------------------------------------------------- scalar values and UTF-8

  function Bytes(c: Scalar): (b: seq<Byte>)
    ensures 1 <= |b| <= 4
  {
    if c < 0x80 then [c]
    else if c < 0x800 then [0xC0 + c / 0x40, 0x80 + c % 0x40]
    else if c < 0x10000 then [0xE0 + c / 0x1000, 0x80 + c / 0x40 % 0x40, 0x80 + c % 0x40]
    else [0xF0 + c / 0x40000, 0x80 + c / 0x1000 % 0x40, 0x80 + c / 0x40 % 0x40, 0x80 + c % 0x40]
  }

  function EncodeUtf8(cs: seq<Scalar>): seq<Byte> {
    if cs == [] then [] else Bytes(cs[0]) + EncodeUtf8(cs[1..])
  }

  /** The bounds the decoder of the Encoding Standard sets for the byte behind a lead byte. */
  function LowerBound(lead: Byte): Byte {
    if lead == 0xE0 then 0xA0 else if lead == 0xF0 then 0x90 else 0x80
  }

  function UpperBound(lead: Byte): Byte {
    if lead == 0xED then 0x9F else if lead == 0xF4 then 0x8F else 0xBF
  }

  function Needed(lead: Byte): nat {
    if 0xC2 <= lead <= 0xDF then 1
    else if 0xE0 <= lead <= 0xEF then 2
    else if 0xF0 <= lead <= 0xF4 then 3
    else 0
  }

  /** How many continuation bytes behind the lead byte are in order, up to the number needed. */
  function InOrder(b: seq<Byte>): (n: nat)
    requires b != []
    ensures n <= Needed(b[0]) && n < |b|
  {
    var needed := Needed(b[0]);
    if needed == 0 || |b| < 2 || !(LowerBound(b[0]) <= b[1] <= UpperBound(b[0])) then 0
    else if needed == 1 || |b| < 3 || !(0x80 <= b[2] <= 0xBF) then 1
    else if needed == 2 || |b| < 4 || !(0x80 <= b[3] <= 0xBF) then 2
    else 3
  }

  /** The payload of a byte that carries the given mark. */
  function Bits(b: Byte, mark: Byte): int {
    b - mark
  }

  /** The first scalar value of a byte string and the bytes it takes; U+FFFD for what is malformed. */
  function DecodeFirst(b: seq<Byte>): (r: (Scalar, nat))
    requires b != []
    ensures 1 <= r.1 <= |b|
  {
    var n := InOrder(b);
    if b[0] < 0x80 then (b[0], 1)
    else if Needed(b[0]) == 0 || n < Needed(b[0]) then (REPLACEMENT, 1 + n)
    else if n == 1 then (Bits(b[0], 0xC0) * 0x40 + Bits(b[1], 0x80), 2)
    else if n == 2 then (Bits(b[0], 0xE0) * 0x1000 + Bits(b[1], 0x80) * 0x40 + Bits(b[2], 0x80), 3)
    else (Bits(b[0], 0xF0) * 0x40000 + Bits(b[1], 0x80) * 0x1000 + Bits(b[2], 0x80) * 0x40 + Bits(b[3], 0x80), 4)
  }

  function DecodeUtf8(b: seq<Byte>): seq<Scalar>
    decreases |b|
  {
    if b == [] then []
    else
      var (c, n) := DecodeFirst(b);
      [c] + DecodeUtf8(b[n..])
  }

  lemma SplitTwo(c: int)
    requires 0 <= c
    ensures c == c / 0x40 * 0x40 + c % 0x40
    ensures c / 0x40 == c / 0x1000 * 0x40 + c / 0x40 % 0x40
    ensures c / 0x1000 == c / 0x40000 * 0x40 + c / 0x1000 % 0x40
  {
  }

  /** The bytes of a scalar value decode to it, whatever follows them. */
  lemma DecodeFirstBytes(c: Scalar, rest: seq<Byte>)
    ensures DecodeFirst(Bytes(c) + rest) == (c, |Bytes(c)|)
  {
    var b := Bytes(c) + rest;
    assert forall k :: 0 <= k < |Bytes(c)| ==> b[k] == Bytes(c)[k];
    SplitTwo(c);
  }

  lemma {:induction false} DecodeEncoded(cs: seq<Scalar>)
    ensures DecodeUtf8(EncodeUtf8(cs)) == cs
  {
    hide Bytes, DecodeFirst;
    if cs == [] {
    } else {
      var rest := EncodeUtf8(cs[1..]);
      var b := Bytes(cs[0]) + rest;
      DecodeFirstBytes(cs[0], rest);
      assert b[|Bytes(cs[0])|..] == rest;
      DecodeEncoded(cs[1..]);
    }
  }

  // ---------------------------------------------------------------- TextEncoder and TextDecoder

  const UTF8_BOM: seq<Byte> := [0xEF, 0xBB, 0xBF]

  /** new TextEncoder().encode(t) */
  function Encode(t: Text): seq<Byte> {
    EncodeUtf8(Scalars(t))
  }

  /** new TextDecoder().decode(b), which drops a leading byte order mark */
  function Decode(b: seq<Byte>): Text {
    Utf16(DecodeUtf8(if UTF8_BOM <= b then b[3..] else b))
  }

  lemma BomBytes(cs: seq<Scalar>)
    ensures UTF8_BOM <= EncodeUtf8(cs) <==> cs != [] && cs[0] == BOM
    ensures cs != [] && cs[0] == BOM ==> EncodeUtf8(cs)[3..] == EncodeUtf8(cs[1..])
  {
    if cs != [] {
      var b := EncodeUtf8(cs);
      assert forall k :: 0 <= k < |Bytes(cs[0])| ==> b[k] == Bytes(cs[0])[k];
      assert Bytes(BOM) == UTF8_BOM;
      if UTF8_BOM <= b {
        assert b[0] == 0xEF && b[1] == 0xBB && b[2] == 0xBF;
        SplitTwo(cs[0]);
      }
    }
  }

  /** Encoding and decoding keeps a text but for two things: it loses a leading U+FEFF, and its lone
      surrogates become U+FFFD. */
  lemma DecodeEncode(t: Text)
    ensures Decode(Encode(t)) == Utf16(Scalars(StripBom(t)))
  {
    BomBytes(Scalars(t));
    if t != [] {
      assert (Scalars(t)[0] == BOM) <==> t[0] == BOM;
      if t[0] == BOM { assert Scalars(t)[1..] == Scalars(t[1..]); }
    }
    DecodeEncoded(Scalars(StripBom(t)));
  }

  lemma DecodeEncodeIdentity(t: Text)
    ensures Decode(Encode(t)) == t <==> WellFormed(t) && !(t != [] && t[0] == BOM)
  {
    DecodeEncode(t);
    Utf16Scalars(StripBom(t));
  }
}
