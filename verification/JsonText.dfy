/** JSON.stringify on strings, as ECMA-262 defines QuoteJSONString (the escapes of RFC 8259, section 7). */
module JsonText {
  import opened Options
  import opened JsStrings

  const BACKSLASH: CodeUnit := 0x5C

  predicate IsHigh(u: CodeUnit) { 0xD800 <= u < 0xDC00 }

  predicate IsLow(u: CodeUnit) { 0xDC00 <= u < 0xE000 }

  function HexDigit(d: int): CodeUnit
    requires 0 <= d < 16
  {
    if d < 10 then 0x30 + d else 0x57 + d
  }

  /** \uXXXX in lower case. */
  function UnicodeEscape(u: CodeUnit): (t: Text)
    ensures |t| == 6 && t[0] == BACKSLASH && t[1] == 0x75
  {
    [BACKSLASH, 0x75, HexDigit(u / 0x1000), HexDigit(u / 0x100 % 0x10), HexDigit(u / 0x10 % 0x10), HexDigit(u % 0x10)]
  }

  /** The two-character escapes: the letter behind the backslash. */
  function ShortEscape(u: CodeUnit): Option<CodeUnit> {
    if u == QUOTE || u == BACKSLASH then Some(u)
    else if u == 0x08 then Some(0x62)
    else if u == 0x0C then Some(0x66)
    else if u == 0x0A then Some(0x6E)
    else if u == 0x0D then Some(0x72)
    else if u == 0x09 then Some(0x74)
    else None
  }

  /** How many code units of a non-empty text are printed together: a surrogate pair, or one unit. */
  function Width(s: Text): (n: nat)
    requires s != []
    ensures 1 <= n <= |s|
  {
    if |s| > 1 && IsHigh(s[0]) && IsLow(s[1]) then 2 else 1
  }

  /** The print of the first Width(s) units; a lone surrogate is escaped. */
  function Chunk(s: Text): (t: Text)
    requires s != []
    ensures t != [] && t[0] != QUOTE
  {
    var u := s[0];
    if Width(s) == 2 then s[..2]
    else if ShortEscape(u).Some? then [BACKSLASH, ShortEscape(u).value]
    else if u < 0x20 || IsHigh(u) || IsLow(u) then UnicodeEscape(u)
    else [u]
  }

  function Escaped(s: Text): Text
    decreases |s|
  {
    if s == [] then [] else Chunk(s) + Escaped(s[Width(s)..])
  }

  function Quoted(s: Text): Text {
    [QUOTE] + Escaped(s) + [QUOTE]
  }

  lemma DigitsOf(u: CodeUnit)
    ensures u == 0x1000 * (u / 0x1000) + 0x100 * (u / 0x100 % 0x10) + 0x10 * (u / 0x10 % 0x10) + u % 0x10
  {
    assert u == 0x10 * (u / 0x10) + u % 0x10;
    assert u / 0x10 == 0x10 * (u / 0x100) + u / 0x10 % 0x10;
    assert u / 0x100 == 0x10 * (u / 0x1000) + u / 0x100 % 0x10;
  }

  lemma HexInjective(u: CodeUnit, w: CodeUnit)
    requires UnicodeEscape(u) == UnicodeEscape(w)
    ensures u == w
  {
    var a, b := UnicodeEscape(u), UnicodeEscape(w);
    DigitsOf(u);
    DigitsOf(w);
    assert a[2] == b[2] && a[3] == b[3] && a[4] == b[4] && a[5] == b[5];
  }

  /** The chunks form a prefix code: equal texts start with equal chunks of equal characters. */
  lemma ChunkDecodes(a: Text, b: Text, r: Text, q: Text)
    requires a != [] && b != [] && Chunk(a) + r == Chunk(b) + q
    ensures Width(a) == Width(b) && a[..Width(a)] == b[..Width(b)] && r == q
  {
    var x, y := Chunk(a) + r, Chunk(b) + q;
    assert x[0] == Chunk(a)[0] && y[0] == Chunk(b)[0];
    if x[0] == BACKSLASH {
      assert x[1] == Chunk(a)[1] && y[1] == Chunk(b)[1];
      if x[1] == 0x75 {
        assert x[..6] == Chunk(a) && y[..6] == Chunk(b);
        HexInjective(a[0], b[0]);
      }
    } else if IsHigh(x[0]) {
      assert x[1] == Chunk(a)[1] && y[1] == Chunk(b)[1];
    }
    assert |Chunk(a)| == |Chunk(b)|;
    assert x[|Chunk(a)|..] == r && y[|Chunk(b)|..] == q;
  }

  lemma EscapedStart(a: Text, r: Text)
    ensures (Escaped(a) + [QUOTE] + r)[0] == QUOTE <==> a == []
  {
    if a != [] { assert (Escaped(a) + [QUOTE] + r)[0] == Chunk(a)[0]; }
  }

  lemma EscapedUnfold(a: Text, r: Text)
    requires a != []
    ensures Escaped(a) + [QUOTE] + r == Chunk(a) + (Escaped(a[Width(a)..]) + [QUOTE] + r)
    ensures a == a[..Width(a)] + a[Width(a)..]
  {
  }

  /** A quoted string can be read back from the front of any text. */
  lemma {:induction false} EscapedDecodes(a: Text, b: Text, r: Text, q: Text)
    requires Escaped(a) + [QUOTE] + r == Escaped(b) + [QUOTE] + q
    ensures a == b && r == q
    decreases |a|
  {
    EscapedStart(a, r);
    EscapedStart(b, q);
    if a == [] {
      assert r == ([QUOTE] + r)[1..] && q == ([QUOTE] + q)[1..];
      assert Escaped(a) + [QUOTE] + r == [QUOTE] + r && Escaped(b) + [QUOTE] + q == [QUOTE] + q;
    } else {
      hide Chunk, Width, Escaped;
      EscapedUnfold(a, r);
      EscapedUnfold(b, q);
      ChunkDecodes(a, b, Escaped(a[Width(a)..]) + [QUOTE] + r, Escaped(b[Width(b)..]) + [QUOTE] + q);
      EscapedDecodes(a[Width(a)..], b[Width(b)..], r, q);
    }
  }

  lemma QuotedDecodes(a: Text, b: Text, r: Text, q: Text)
    requires Quoted(a) + r == Quoted(b) + q
    ensures a == b && r == q
  {
    assert Escaped(a) + [QUOTE] + r == (Quoted(a) + r)[1..];
    assert Escaped(b) + [QUOTE] + q == (Quoted(b) + q)[1..];
    EscapedDecodes(a, b, r, q);
  }
}
