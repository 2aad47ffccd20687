/** The text codec of the hub context, bit by bit: base64url as section 5 of RFC 4648 has it, and UTF-8 as
    section 3 of RFC 3629 and the Encoding Standard do. */
module TextRules {
  import opened Options
  import opened JsStrings
  import opened Utf8
  import opened HubContext

  // ---------------------------------------------------------------- the alphabet

  function Range(from: CodeUnit, n: nat): (t: Text)
    requires from + n <= 0x10000
    ensures |t| == n && forall k :: 0 <= k < n ==> t[k] == from + k
  {
    seq(n, k requires 0 <= k < n => from + k)
  }

  /** A to Z, a to z, 0 to 9, minus and underscore. */
  const ALPHABET: Text := Range('A' as int, 26) + Range('a' as int, 26) + Range('0' as int, 10) + Lit("-_")

  lemma AlphabetIs(i: Sextet)
    ensures |ALPHABET| == 64 && ToUrl([Letter(i)]) == [ALPHABET[i]]
  {
    var a, b, c, d := Range('A' as int, 26), Range('a' as int, 26), Range('0' as int, 10), Lit("-_");
    assert d[0] == '-' as int && d[1] == '_' as int;
    assert ALPHABET == a + b + c + d;
    var u := Letter(i);
    assert ALPHABET[i] == (if u == PLUS then MINUS else if u == SLASH then UNDERSCORE else u);
  }

  // ---------------------------------------------------------------- bits

  /** The byte at a position, zero behind the end. */
  function ByteAt(b: seq<Byte>, i: nat): Byte {
    if i < |b| then b[i] else 0
  }

  function Shift(n: nat, size: nat): (p: nat)
    requires size > 0
    ensures p > 0
  {
    if n == 0 then 1 else size * Shift(n - 1, size)
  }

  /** The k-th group of six bits. */
  function SextetAt(b: seq<Byte>, k: nat): (s: int)
    ensures 0 <= s < 64
  {
    var g := k / 4 * 3;
    (ByteAt(b, g) * 0x10000 + ByteAt(b, g + 1) * 0x100 + ByteAt(b, g + 2)) / Shift(3 - k % 4, 64) % 64
  }

  lemma Shifts()
    ensures Shift(0, 64) == 1 && Shift(1, 64) == 64 && Shift(2, 64) == 4096 && Shift(3, 64) == 262144
    ensures Shift(0, 256) == 1 && Shift(1, 256) == 256 && Shift(2, 256) == 65536
  {
    assert Shift(2, 64) == 64 * Shift(1, 64);
  }

  lemma Divides(n: int, q: int, m: int, r: int)
    requires m > 0 && 0 <= r < m && n == q * m + r
    ensures n / m == q && n % m == r
  {
    var d := n / m - q;
    assert n == n / m * m + n % m;
    assert d * m == r - n % m by { assert (q + d) * m == q * m + d * m; }
    if d >= 1 {
      Grows(d, m);
    } else if d <= -1 {
      Grows(-d, m);
    }
  }

  lemma Grows(d: int, m: int)
    requires d >= 1 && m > 0
    ensures d * m >= m
  {
  }

  lemma SixBits(x: Byte, y: Byte, z: Byte)
    ensures var n := x * 0x10000 + y * 0x100 + z;
      && n / 262144 % 64 == First(x) && n / 4096 % 64 == Second(x, y) && n / 64 % 64 == Third(y, z)
      && n / 1 % 64 == Fourth(z)
  {
    var n := x * 0x10000 + y * 0x100 + z;
    Divides(n, x / 4, 262144, x % 4 * 0x10000 + y * 0x100 + z);
    Divides(n, x * 16 + y / 16, 4096, y % 16 * 0x100 + z);
    Divides(x * 16 + y / 16, x / 4, 64, x % 4 * 16 + y / 16);
    Divides(n, x * 1024 + y * 4 + z / 64, 64, z % 64);
    Divides(x * 1024 + y * 4 + z / 64, x * 16 + y / 16, 64, y % 16 * 4 + z / 64);
  }

  lemma {:induction false} LettersAt(b: seq<Byte>, k: nat)
    requires k < |Letters(b)|
    ensures Letters(b)[k] == Letter(SextetAt(b, k))
    decreases |b|
  {
    hide Letter, SextetAt;
    if k < 4 {
      FirstGroup(b, k);
    } else {
      LettersLength(b);
      assert |b| >= 3;
      LettersAt(b[3..], k - 4);
      NextGroup(b, k);
    }
  }

  lemma FirstGroup(b: seq<Byte>, k: nat)
    requires k < 4 && k < |Letters(b)|
    ensures Letters(b)[k] == Letter(SextetAt(b, k))
  {
    hide Letter, First, Second, Third, Fourth, SextetAt;
    FirstSextet(b, k);
  }

  lemma FirstSextet(b: seq<Byte>, k: nat)
    requires k < 4
    ensures SextetAt(b, k) == (if k == 0 then First(ByteAt(b, 0)) else if k == 1 then Second(ByteAt(b, 0), ByteAt(b, 1))
                               else if k == 2 then Third(ByteAt(b, 1), ByteAt(b, 2)) else Fourth(ByteAt(b, 2)))
  {
    hide ByteAt, First, Second, Third, Fourth, Shift;
    Shifts();
    SixBits(ByteAt(b, 0), ByteAt(b, 1), ByteAt(b, 2));
    assert k / 4 == 0 && k % 4 == k;
  }

  lemma NextGroup(b: seq<Byte>, k: nat)
    requires |b| >= 3 && k >= 4
    ensures SextetAt(b[3..], k - 4) == SextetAt(b, k)
  {
    var g := k / 4 * 3;
    assert (k - 4) / 4 * 3 == g - 3 && (k - 4) % 4 == k % 4;
    assert ByteAt(b[3..], g - 3) == ByteAt(b, g) && ByteAt(b[3..], g - 2) == ByteAt(b, g + 1)
        && ByteAt(b[3..], g - 1) == ByteAt(b, g + 2);
  }

  /** The encoding: one character of the alphabet for every six bits of the UTF-8 text, the last group filled up
      with zeros, and nothing behind. */
  lemma EncodedExactly(jsonText: Text)
    ensures var b, t := Encode(jsonText), ToBase64Url(jsonText);
      && |t| == (8 * |b| + 5) / 6
      && forall k :: 0 <= k < |t| ==> t[k] == ALPHABET[SextetAt(b, k)]
  {
    hide Letters, Letter, Encode, SextetAt;
    var b, t := Encode(jsonText), ToBase64Url(jsonText);
    UrlLetters(b);
    LettersLength(b);
    LengthIs(|b|);
    assert t == ToUrl(Letters(b));
    forall k | 0 <= k < |t| ensures t[k] == ALPHABET[SextetAt(b, k)] {
      LettersAt(b, k);
      AlphabetIs(SextetAt(b, k));
      assert ToUrl([Letters(b)[k]])[0] == t[k];
    }
  }

  lemma LengthIs(n: nat)
    ensures n / 3 * 4 + (if n % 3 == 0 then 0 else n % 3 + 1) == (8 * n + 5) / 6
  {
    assert n == n / 3 * 3 + n % 3;
  }

  lemma UrlLetters(b: seq<Byte>)
    ensures StripPadding(ReplaceAll(ReplaceAll(Btoa(b), PLUS, MINUS), SLASH, UNDERSCORE)) == ToUrl(Letters(b))
  {
    var letters, padding := Letters(b), |Btoa(b)| - |Letters(b)|;
    LettersOnly(b);
    PaddingRestored(b);
    hide Letters, Letter;
    assert ToUrl(Btoa(b)) == ToUrl(letters) + Padding(padding);
    assert forall u :: u in letters ==> IsLetter(u);
    assert PAD !in ToUrl(letters);
    StripAllPadding(ToUrl(letters), padding);
  }

  // ---------------------------------------------------------------- decoding

  /** The value of a letter; zero behind the end. */
  function ValueAt(t: Text, i: nat): Sextet {
    if i < |t| && Index(t[i]).Some? then Index(t[i]).value else 0
  }

  /** The i-th group of eight bits. */
  function OctetAt(t: Text, i: nat): (o: int)
    ensures 0 <= o < 256
  {
    var g := i / 3 * 4;
    (ValueAt(t, g) * 262144 + ValueAt(t, g + 1) * 4096 + ValueAt(t, g + 2) * 64 + ValueAt(t, g + 3))
    / Shift(2 - i % 3, 256) % 256
  }

  lemma EightBits(p: Sextet, q: Sextet, r: Sextet, s: Sextet)
    ensures var n := p * 262144 + q * 4096 + r * 64 + s;
      && n / 65536 % 256 == Byte0(p, q) && n / 256 % 256 == Byte1(q, r) && n / 1 % 256 == Byte2(r, s)
  {
    var n := p * 262144 + q * 4096 + r * 64 + s;
    Divides(n, p * 4 + q / 16, 65536, q % 16 * 4096 + r * 64 + s);
    Divides(n, p * 1024 + q * 16 + r / 4, 256, r % 4 * 64 + s);
    Divides(p * 1024 + q * 16 + r / 4, p * 4 + q / 16, 256, q % 16 * 16 + r / 4);
    Divides(n, p * 1024 + q * 16 + r / 4, 256, r % 4 * 64 + s);
  }

  lemma FirstOctet(t: Text, i: nat)
    requires i < 3
    ensures OctetAt(t, i) == (if i == 0 then Byte0(ValueAt(t, 0), ValueAt(t, 1)) else if i == 1 then Byte1(ValueAt(t, 1), ValueAt(t, 2))
                              else Byte2(ValueAt(t, 2), ValueAt(t, 3)))
  {
    hide ValueAt, Byte0, Byte1, Byte2, Shift;
    Shifts();
    EightBits(ValueAt(t, 0), ValueAt(t, 1), ValueAt(t, 2), ValueAt(t, 3));
    assert i / 3 == 0 && i % 3 == i;
  }

  lemma NextOctet(t: Text, i: nat)
    requires |t| >= 4 && i >= 3
    ensures OctetAt(t[4..], i - 3) == OctetAt(t, i)
  {
    hide Index;
    var g := i / 3 * 4;
    assert (i - 3) / 3 * 4 == g - 4 && (i - 3) % 3 == i % 3;
    assert ValueAt(t[4..], g - 4) == ValueAt(t, g) && ValueAt(t[4..], g - 3) == ValueAt(t, g + 1)
        && ValueAt(t[4..], g - 2) == ValueAt(t, g + 2) && ValueAt(t[4..], g - 1) == ValueAt(t, g + 3);
  }

  /** Letters decode unless one is left over or some character is none; each byte is eight bits of theirs. */
  lemma {:induction false} LettersDecodeExactly(t: Text)
    ensures FromLetters(t).Some? <==> |t| % 4 != 1 && AllLetters(t)
    ensures FromLetters(t).Some? ==>
      && |FromLetters(t).value| == |t| * 6 / 8
      && forall i :: 0 <= i < |FromLetters(t).value| ==> FromLetters(t).value[i] == OctetAt(t, i)
    decreases |t|
  {
    hide Index, OctetAt, FromLetters, IsLetter;
    if |t| < 4 {
      FewLetters(t);
    } else {
      LettersDecodeExactly(t[4..]);
      FourLetters(t);
      if FromLetters(t).Some? { GroupOctets(t); }
    }
  }

  lemma FewLetters(t: Text)
    requires |t| < 4
    ensures FromLetters(t).Some? <==> |t| != 1 && AllLetters(t)
    ensures FromLetters(t).Some? ==>
      && |FromLetters(t).value| == |t| * 6 / 8
      && forall i :: 0 <= i < |FromLetters(t).value| ==> FromLetters(t).value[i] == OctetAt(t, i)
  {
    hide Index, OctetAt, Byte0, Byte1, Byte2;
    FirstOctet(t, 0);
    FirstOctet(t, 1);
    FirstOctet(t, 2);
  }

  predicate AllLetters(t: Text) {
    forall k :: 0 <= k < |t| ==> IsLetter(t[k])
  }

  lemma FourLetters(t: Text)
    requires |t| >= 4
    ensures FromLetters(t).Some?
       <==> IsLetter(t[0]) && IsLetter(t[1]) && IsLetter(t[2]) && IsLetter(t[3]) && FromLetters(t[4..]).Some?
    ensures FromLetters(t).Some? ==> |FromLetters(t).value| == |FromLetters(t[4..]).value| + 3
    ensures AllLetters(t) <==> IsLetter(t[0]) && IsLetter(t[1]) && IsLetter(t[2]) && IsLetter(t[3]) && AllLetters(t[4..])
    ensures |t[4..]| % 4 == |t| % 4 && |t| * 6 / 8 == |t[4..]| * 6 / 8 + 3
  {
    hide Index, Byte0, Byte1, Byte2, AllLetters;
    LettersSplit(t);
  }

  lemma LettersSplit(t: Text)
    requires |t| >= 4
    ensures AllLetters(t) <==> IsLetter(t[0]) && IsLetter(t[1]) && IsLetter(t[2]) && IsLetter(t[3]) && AllLetters(t[4..])
  {
    hide IsLetter;
    assert forall k :: 4 <= k < |t| ==> t[k] == t[4..][k - 4];
  }

  lemma GroupOctets(t: Text)
    requires |t| >= 4 && FromLetters(t).Some?
    requires FromLetters(t[4..]).Some? ==>
      forall i :: 0 <= i < |FromLetters(t[4..]).value| ==> FromLetters(t[4..]).value[i] == OctetAt(t[4..], i)
    ensures forall i :: 0 <= i < |FromLetters(t).value| ==> FromLetters(t).value[i] == OctetAt(t, i)
  {
    hide Index, OctetAt, Byte0, Byte1, Byte2;
    var r := FromLetters(t).value;
    forall i | 0 <= i < |r| ensures r[i] == OctetAt(t, i) {
      if i < 3 {
        FirstOctet(t, i);
      } else {
        NextOctet(t, i);
        assert r[i] == FromLetters(t[4..]).value[i - 3];
      }
    }
  }

  /** A character of either alphabet. */
  predicate Encodes(u: CodeUnit) {
    u in ALPHABET || u == PLUS || u == SLASH
  }

  lemma EncodesExactly(u: CodeUnit)
    ensures Encodes(u) <==> IsLetter(if u == MINUS then PLUS else if u == UNDERSCORE then SLASH else u)
  {
    var v: CodeUnit := if u == MINUS then PLUS else if u == UNDERSCORE then SLASH else u;
    if IsLetter(v) {
      AlphabetIs(Index(v).value);
      assert ALPHABET[Index(v).value] in ALPHABET;
    }
    if u in ALPHABET {
      var i :| 0 <= i < |ALPHABET| && ALPHABET[i] == u;
      AlphabetSize();
      AlphabetIs(i);
      IndexLetter(i);
      assert ToUrl([Letter(i)])[0] == u;
    }
  }

  lemma AlphabetSize()
    ensures |ALPHABET| == 64
  {
    AlphabetIs(0);
  }

  /** Without white space and padding signs, a text is decoded unless one character is left over or some
      character is of neither alphabet. */
  lemma DecodedExactly(value: Text)
    requires forall k :: 0 <= k < |value| ==> !IsAsciiSpace(value[k]) && value[k] != PAD
    ensures FromBase64Url(value).Some? <==> |value| % 4 != 1 && forall k :: 0 <= k < |value| ==> Encodes(value[k])
    ensures FromBase64Url(value).Some? ==>
      FromBase64Url(value) == Some(Decode(Octets(FromUrl(value))))
  {
    hide FromLetters, Decode, Index, Letter, OctetAt, Encodes;
    var t := FromUrl(value);
    forall k | 0 <= k < |value| ensures Encodes(value[k]) <==> IsLetter(t[k]) {
      EncodesExactly(value[k]);
    }
    PaddedDecodes(t);
    LettersDecodeExactly(t);
    if FromLetters(t).Some? {
      assert FromLetters(t).value == Octets(t);
    }
  }

  lemma PaddedDecodes(t: Text)
    requires forall k :: 0 <= k < |t| ==> !IsAsciiSpace(t[k]) && t[k] != PAD
    ensures |t| % 4 != 1 ==> Atob(t + Padding(Missing(|t|))) == FromLetters(t)
    ensures |t| % 4 == 1 ==> Atob(t + Padding(Missing(|t|))) == None
  {
    hide FromLetters, DropSpace, IsAsciiSpace, Atob;
    var s, m := t + Padding(Missing(|t|)), Missing(|t|);
    forall k | 0 <= k < |s| ensures !IsAsciiSpace(s[k]) {
      PadIsNoSpace();
      assert s[k] == if k < |t| then t[k] else PAD;
    }
    NoSpace(s);
    assert |s| == |t| + m && (|t| + m) % 4 == 0;
    if m == 0 {
      assert s == t;
      NoPads(s, s);
    } else if m == 1 {
      assert s[..|s| - 1] == t && s[|s| - 2] == t[|t| - 1];
      OnePad(s, s);
    } else if m == 2 {
      assert s[..|s| - 2] == t;
      TwoPads(s, s);
    } else {
      assert s[..|s| - 2] == t + [PAD];
      TwoPads(s, s);
      LoosePad(t);
    }
  }

  lemma NoPads(s: Text, d: Text)
    requires DropSpace(s) == d && (d == [] || d[|d| - 1] != PAD)
    ensures Atob(s) == FromLetters(d)
  {
    hide FromLetters, DropSpace;
    if |d| >= 2 { assert d[|d| - 2..][1] == d[|d| - 1]; }
  }

  lemma OnePad(s: Text, d: Text)
    requires DropSpace(s) == d && |d| % 4 == 0 && |d| >= 2 && d[|d| - 1] == PAD && d[|d| - 2] != PAD
    ensures Atob(s) == FromLetters(d[..|d| - 1])
  {
    hide FromLetters, DropSpace;
    assert d[|d| - 2..][0] == d[|d| - 2];
  }

  lemma TwoPads(s: Text, d: Text)
    requires DropSpace(s) == d && |d| % 4 == 0 && |d| >= 2 && d[|d| - 1] == d[|d| - 2] == PAD
    ensures Atob(s) == FromLetters(d[..|d| - 2])
  {
    hide FromLetters, DropSpace;
    assert d[|d| - 2..] == [PAD, PAD];
  }

  lemma PadIsNoSpace()
    ensures !IsAsciiSpace(PAD)
  {
  }

  lemma LoosePad(t: Text)
    requires |t| % 4 == 1
    ensures FromLetters(t + [PAD]) == None
  {
    hide FromLetters, OctetAt;
    LettersDecodeExactly(t + [PAD]);
    assert (t + [PAD])[|t|] == PAD && !IsLetter(PAD);
  }

  // ---------------------------------------------------------------- atob on any text

  const SPACES: set<CodeUnit> := {0x09, 0x0A, 0x0C, 0x0D, 0x20}

  /** White space goes wherever it stands, and nothing else does. */
  lemma {:induction false} DropExactly(a: Text, u: CodeUnit, b: Text)
    ensures DropSpace(a + [u] + b) == DropSpace(a) + (if u in SPACES then [] else [u]) + DropSpace(b)
    ensures DropSpace([]) == []
    decreases |a|
  {
    var t := a + [u] + b;
    if a == [] {
      assert t[0] == u && t[1..] == b;
    } else {
      assert t[0] == a[0] && t[1..] == a[1..] + [u] + b;
      DropExactly(a[1..], u, b);
    }
  }

  /** Without its white space the text is these letters, not one too many, and this many padding signs, with
      which the letters make whole groups of four. */
  predicate Spells(s: Text, t: Text, p: nat) {
    && p <= 2 && DropSpace(s) == t + Padding(p) && (p > 0 ==> (|t| + p) % 4 == 0)
    && |t| % 4 != 1 && AllLetters(t)
  }

  function Octets(t: Text): seq<Byte> {
    seq(|t| * 6 / 8, i requires 0 <= i < |t| * 6 / 8 => OctetAt(t, i))
  }

  lemma LettersToOctets(t: Text)
    ensures FromLetters(t) == if |t| % 4 != 1 && AllLetters(t) then Some(Octets(t)) else None
  {
    hide FromLetters, OctetAt, AllLetters;
    LettersDecodeExactly(t);
    if FromLetters(t).Some? { assert FromLetters(t).value == Octets(t); }
  }

  /** Which texts the forgiving decoder takes, and which bytes it returns. */
  lemma AtobExactly(s: Text)
    ensures Atob(s).Some? <==> exists t, p :: Spells(s, t, p)
    ensures forall t, p :: Spells(s, t, p) ==> Atob(s) == Some(Octets(t))
  {
    hide Atob, Octets, Spells;
    forall t, p | Spells(s, t, p) ensures Atob(s) == Some(Octets(t)) {
      SpelledDecodes(s, t, p);
    }
    if Atob(s).Some? {
      var t, p := DecodedSpells(s);
      assert Spells(s, t, p);
    }
  }

  lemma LastIsNoPad(t: Text)
    requires AllLetters(t)
    ensures t == [] || t[|t| - 1] != PAD
  {
    if t != [] { assert IsLetter(t[|t| - 1]) && !IsLetter(PAD); }
  }

  lemma SpelledDecodes(s: Text, t: Text, p: nat)
    requires Spells(s, t, p)
    ensures Atob(s) == Some(Octets(t))
  {
    hide Atob, DropSpace, FromLetters, Octets, AllLetters;
    var d := t + Padding(p);
    LettersToOctets(t);
    LastIsNoPad(t);
    if p == 0 {
      assert d == t;
      NoPads(s, d);
    } else if p == 1 {
      assert d[..|d| - 1] == t && d[|d| - 2] == t[|t| - 1];
      OnePad(s, d);
    } else {
      assert d[..|d| - 2] == t;
      TwoPads(s, d);
    }
  }

  lemma DecodedSpells(s: Text) returns (t: Text, p: nat)
    requires Atob(s).Some?
    ensures Spells(s, t, p)
  {
    hide DropSpace, FromLetters, Octets, AllLetters;
    var d := DropSpace(s);
    if |d| % 4 == 0 && |d| >= 2 && d[|d| - 2..] == [PAD, PAD] {
      t, p := d[..|d| - 2], 2;
      assert d == t + d[|d| - 2..];
    } else if |d| % 4 == 0 && |d| >= 1 && d[|d| - 1] == PAD {
      t, p := d[..|d| - 1], 1;
      assert d == t + d[|d| - 1..];
    } else {
      t, p := d, 0;
    }
    LettersToOctets(t);
    assert d == t + Padding(p);
  }

  // ---------------------------------------------------------------- UTF-8

  /** How many bytes a scalar value takes, and what marks the first of them. */
  function Size(c: Scalar): nat {
    if c <= 0x7F then 1 else if c <= 0x7FF then 2 else if c <= 0xFFFF then 3 else 4
  }

  function Mark(size: nat): int {
    if size == 1 then 0x00 else if size == 2 then 0xC0 else if size == 3 then 0xE0 else 0xF0
  }

  /** The bits of a scalar value, six to a byte from the end, behind the marks of RFC 3629. */
  lemma BytesExactly(c: Scalar)
    ensures var b, n := Bytes(c), Size(c);
      && |b| == n && b[0] == Mark(n) + c / Shift(n - 1, 64)
      && forall k :: 1 <= k < n ==> b[k] == 0x80 + c / Shift(n - 1 - k, 64) % 64
  {
    Shifts();
  }

  /** The first n bytes begin the bytes of some scalar value. */
  ghost predicate Begins(b: seq<Byte>, n: nat) {
    n <= |b| && exists c: Scalar :: n <= |Bytes(c)| && Bytes(c)[..n] == b[..n]
  }

  /** The bytes of a scalar value are in order for the decoder, as far as they go. */
  lemma BytesInOrder(c: Scalar, b: seq<Byte>, n: nat)
    requires c >= 0x80 && 1 <= n <= |Bytes(c)| && n <= |b| && Bytes(c)[..n] == b[..n]
    ensures Needed(b[0]) == |Bytes(c)| - 1 && InOrder(b) >= n - 1
  {
    var x := Bytes(c);
    assert forall k :: 0 <= k < n ==> b[k] == x[..n][k] == x[k];
    Leads(c);
  }

  lemma Leads(c: Scalar)
    requires c >= 0x80
    ensures var x := Bytes(c);
      && Needed(x[0]) == |x| - 1 && LowerBound(x[0]) <= x[1] <= UpperBound(x[0])
      && forall k :: 2 <= k < |x| ==> 0x80 <= x[k] <= 0xBF
  {
  }

  /** Whatever is in order begins a scalar value. */
  lemma InOrderBegins(b: seq<Byte>) returns (c: Scalar)
    requires b != [] && Needed(b[0]) > 0
    ensures var n := InOrder(b) + 1;
      n <= |b| && n <= |Bytes(c)| && Bytes(c)[..n] == b[..n]
  {
    var n := InOrder(b);
    var x: int, p: int, q: int, r: int := b[0], Tail(b, 1, n), Tail(b, 2, n), Tail(b, 3, n);
    if Needed(b[0]) == 1 {
      Two(x, p);
      c := (x - 0xC0) * 64 + (p - 0x80);
    } else if Needed(b[0]) == 2 {
      Three(x, p, q);
      c := (x - 0xE0) * 4096 + (p - 0x80) * 64 + (q - 0x80);
    } else {
      Four(x, p, q, r);
      c := (x - 0xF0) * 262144 + (p - 0x80) * 4096 + (q - 0x80) * 64 + (r - 0x80);
    }
  }

  /** The byte read at a place, or one that would do. */
  function Tail(b: seq<Byte>, k: nat, n: nat): Byte
    requires b != [] && n < |b|
  {
    if k <= n then b[k] else if k == 1 then LowerBound(b[0]) else 0x80
  }

  lemma Two(x: Byte, p: Byte)
    requires 0xC2 <= x <= 0xDF && 0x80 <= p <= 0xBF
    ensures Bytes((x - 0xC0) * 64 + (p - 0x80)) == [x, p]
  {
    Divides((x - 0xC0) * 64 + (p - 0x80), x - 0xC0, 64, p - 0x80);
  }

  lemma Three(x: Byte, p: Byte, q: Byte)
    requires 0xE0 <= x <= 0xEF && LowerBound(x) <= p <= UpperBound(x) && 0x80 <= q <= 0xBF
    ensures var c := (x - 0xE0) * 4096 + (p - 0x80) * 64 + (q - 0x80);
      0x800 <= c < 0x10000 && !(0xD800 <= c < 0xE000) && Bytes(c) == [x, p, q]
  {
    var c := (x - 0xE0) * 4096 + (p - 0x80) * 64 + (q - 0x80);
    Divides(c, (x - 0xE0) * 64 + (p - 0x80), 64, q - 0x80);
    Divides((x - 0xE0) * 64 + (p - 0x80), x - 0xE0, 64, p - 0x80);
    Divides(c, x - 0xE0, 4096, (p - 0x80) * 64 + (q - 0x80));
  }

  lemma Four(x: Byte, p: Byte, q: Byte, r: Byte)
    requires 0xF0 <= x <= 0xF4 && LowerBound(x) <= p <= UpperBound(x) && 0x80 <= q <= 0xBF && 0x80 <= r <= 0xBF
    ensures var c := (x - 0xF0) * 262144 + (p - 0x80) * 4096 + (q - 0x80) * 64 + (r - 0x80);
      0x10000 <= c < 0x110000 && Bytes(c) == [x, p, q, r]
  {
    var c := (x - 0xF0) * 262144 + (p - 0x80) * 4096 + (q - 0x80) * 64 + (r - 0x80);
    var d := (x - 0xF0) * 4096 + (p - 0x80) * 64 + (q - 0x80);
    Divides(c, d, 64, r - 0x80);
    Divides(d, (x - 0xF0) * 64 + (p - 0x80), 64, q - 0x80);
    Divides(c, (x - 0xF0) * 64 + (p - 0x80), 4096, (q - 0x80) * 64 + (r - 0x80));
    Divides((x - 0xF0) * 64 + (p - 0x80), x - 0xF0, 64, p - 0x80);
    Divides(c, x - 0xF0, 262144, (p - 0x80) * 4096 + (q - 0x80) * 64 + (r - 0x80));
  }

  /** The decoder reads a scalar value whose bytes stand in front; else it replaces the longest beginning of one,
      or a single byte that begins none, by U+FFFD. */
  lemma DecodesExactly(b: seq<Byte>)
    requires b != []
    ensures forall c: Scalar :: Bytes(c) <= b ==> DecodeFirst(b) == (c, |Bytes(c)|)
    ensures (forall c: Scalar :: !(Bytes(c) <= b)) ==>
      var (u, n) := DecodeFirst(b);
      u == REPLACEMENT && (n == 1 || Begins(b, n)) && forall m :: m > n ==> !Begins(b, m)
  {
    hide Bytes, InOrder, DecodeFirst;
    forall c: Scalar | Bytes(c) <= b ensures DecodeFirst(b) == (c, |Bytes(c)|) {
      DecodeFirstBytes(c, b[|Bytes(c)|..]);
      assert Bytes(c) + b[|Bytes(c)|..] == b;
    }
    if forall c: Scalar :: !(Bytes(c) <= b) {
      Malformed(b);
    }
  }

  lemma Malformed(b: seq<Byte>)
    requires b != [] && forall c: Scalar :: !(Bytes(c) <= b)
    ensures var (u, n) := DecodeFirst(b);
      u == REPLACEMENT && (n == 1 || Begins(b, n)) && forall m :: m > n ==> !Begins(b, m)
  {
    hide Bytes, InOrder;
    NotAscii(b);
    var n := InOrder(b);
    if Needed(b[0]) > 0 {
      var c := InOrderBegins(b);
      assert Begins(b, n + 1);
      if n == Needed(b[0]) {
        WholeBytes(b, c, n);
      }
    }
    forall m | m > n + 1 ensures !Begins(b, m) {
      if Begins(b, m) {
        var c: Scalar :| m <= |Bytes(c)| && Bytes(c)[..m] == b[..m];
        ManyBytes(c);
        BytesInOrder(c, b, m);
      }
    }
    NeededNone(b);
  }

  lemma NotAscii(b: seq<Byte>)
    requires b != [] && forall c: Scalar :: !(Bytes(c) <= b)
    ensures b[0] >= 0x80
  {
    hide Bytes;
    assert [b[0]] <= b;
    if b[0] < 0x80 { OneByte(b[0]); }
  }

  lemma NeededNone(b: seq<Byte>)
    requires b != []
    ensures Needed(b[0]) == 0 ==> InOrder(b) == 0
  {
  }

  lemma ManyBytes(c: Scalar)
    ensures |Bytes(c)| > 1 ==> c >= 0x80
  {
  }

  lemma OneByte(c: Byte)
    requires c < 0x80
    ensures Bytes(c) == [c]
  {
  }

  lemma WholeBytes(b: seq<Byte>, c: Scalar, n: nat)
    requires n + 1 <= |b| && n + 1 <= |Bytes(c)| && Bytes(c)[..n + 1] == b[..n + 1] && n == Needed(b[0]) > 0
    ensures Bytes(c) <= b
  {
    hide InOrder;
    ManyBytes(c);
    BytesInOrder(c, b, n + 1);
    assert Bytes(c)[..n + 1] == Bytes(c);
  }
}
