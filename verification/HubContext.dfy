/** The base64url text codec of hub-context.js (RFC 4648, sections 4 and 5). */
module HubContext {
  import opened Options
  import opened JsStrings
  import opened Utf8

  type Sextet = i: int | 0 <= i < 64

  const PAD: CodeUnit := 0x3D
  const PLUS: CodeUnit := 0x2B
  const SLASH: CodeUnit := 0x2F
  const MINUS: CodeUnit := 0x2D
  const UNDERSCORE: CodeUnit := 0x5F

  function Letter(i: Sextet): (u: CodeUnit)
    ensures u != PAD && u != MINUS && u != UNDERSCORE
  {
    if i < 26 then 0x41 + i
    else if i < 52 then 0x61 + (i - 26)
    else if i < 62 then 0x30 + (i - 52)
    else if i == 62 then PLUS else SLASH
  }

  function Index(u: CodeUnit): (r: Option<Sextet>)
    ensures r.Some? ==> Letter(r.value) == u
  {
    if 0x41 <= u <= 0x5A then Some(u - 0x41)
    else if 0x61 <= u <= 0x7A then Some(u - 0x61 + 26)
    else if 0x30 <= u <= 0x39 then Some(u - 0x30 + 52)
    else if u == PLUS then Some(62)
    else if u == SLASH then Some(63)
    else None
  }

  // Three bytes x, y, z and their four sextets.
  function First(x: Byte): Sextet { x / 4 }
  function Second(x: Byte, y: Byte): Sextet { x % 4 * 16 + y / 16 }
  function Third(y: Byte, z: Byte): Sextet { y % 16 * 4 + z / 64 }
  function Fourth(z: Byte): Sextet { z % 64 }

  // Four sextets p, q, r, s and their three bytes.
  function Byte0(p: Sextet, q: Sextet): Byte { p * 4 + q / 16 }
  function Byte1(q: Sextet, r: Sextet): Byte { q % 16 * 16 + r / 4 }
  function Byte2(r: Sextet, s: Sextet): Byte { r % 4 * 64 + s }

  /** The letters of a byte string, without padding; missing bits of the last group are zero. */
  function Letters(b: seq<Byte>): Text {
    if b == [] then []
    else if |b| == 1 then [Letter(First(b[0])), Letter(Second(b[0], 0))]
    else if |b| == 2 then [Letter(First(b[0])), Letter(Second(b[0], b[1])), Letter(Third(b[1], 0))]
    else Group(b[0], b[1], b[2]) + Letters(b[3..])
  }

  function Group(x: Byte, y: Byte, z: Byte): (t: Text)
    ensures |t| == 4
  {
    [Letter(First(x)), Letter(Second(x, y)), Letter(Third(y, z)), Letter(Fourth(z))]
  }

  function Padding(n: nat): (r: Text)
    ensures |r| == n
    ensures forall k :: 0 <= k < n ==> r[k] == PAD
  {
    seq(n, _ => PAD)
  }

  /** btoa: groups of three bytes, the last one padded. */
  function Btoa(binary: seq<Byte>): Text {
    Letters(binary) + Padding(if |binary| % 3 == 0 then 0 else 3 - |binary| % 3)
  }

  /** String.prototype.replace of every occurrence of one character. */
  function ReplaceAll(t: Text, from: CodeUnit, to: CodeUnit): (r: Text)
    ensures |r| == |t|
    ensures forall k :: 0 <= k < |t| ==> r[k] == if t[k] == from then to else t[k]
  {
    seq(|t|, k requires 0 <= k < |t| => if t[k] == from then to else t[k])
  }

  function StripPadding(t: Text): Text {
    if t != [] && t[|t| - 1] == PAD then StripPadding(t[..|t| - 1]) else t
  }

  predicate IsAsciiSpace(u: CodeUnit) {
    u == 0x09 || u == 0x0A || u == 0x0C || u == 0x0D || u == 0x20
  }

  function DropSpace(t: Text): Text {
    if t == [] then [] else (if IsAsciiSpace(t[0]) then [] else [t[0]]) + DropSpace(t[1..])
  }

  /** The bytes of unpadded letters; a final group of two or three letters drops its spare bits. */
  function FromLetters(t: Text): (r: Option<seq<Byte>>)
    decreases |t|
  {
    if t == [] then Some([])
    else if |t| == 1 || Index(t[0]).None? || Index(t[1]).None? then None
    else
      var p, q := Index(t[0]).value, Index(t[1]).value;
      if |t| == 2 then Some([Byte0(p, q)])
      else if Index(t[2]).None? then None
      else
        var r := Index(t[2]).value;
        if |t| == 3 then Some([Byte0(p, q), Byte1(q, r)])
        else if Index(t[3]).None? then None
        else match FromLetters(t[4..])
          case None => None
          case Some(rest) => Some([Byte0(p, q), Byte1(q, r), Byte2(r, Index(t[3]).value)] + rest)
  }

  /** atob: the forgiving decoder of the Infra Standard; None stands for its exception. */
  function Atob(t: Text): Option<seq<Byte>> {
    var s := DropSpace(t);
    if |s| % 4 == 0 && |s| >= 2 && s[|s| - 2..] == [PAD, PAD] then FromLetters(s[..|s| - 2])
    else if |s| % 4 == 0 && |s| >= 1 && s[|s| - 1] == PAD then FromLetters(s[..|s| - 1])
    else FromLetters(s)
  }

  function ToBase64Url(jsonText: Text): Text {
    StripPadding(ReplaceAll(ReplaceAll(Btoa(Encode(jsonText)), PLUS, MINUS), SLASH, UNDERSCORE))
  }

  /** The padding restored behind n characters. */
  function Missing(n: nat): nat {
    (4 - n % 4) % 4
  }

  function FromBase64Url(value: Text): Option<Text> {
    var normalized := ReplaceAll(ReplaceAll(value, MINUS, PLUS), UNDERSCORE, SLASH);
    match Atob(normalized + Padding(Missing(|normalized|)))
    case None => None
    case Some(bytes) => Some(Decode(bytes))
  }

  function AsBytes(binary: Text): (r: seq<Byte>)
    requires forall k :: 0 <= k < |binary| ==> binary[k] <= 0xFF
    ensures |r| == |binary|
    ensures forall k :: 0 <= k < |r| ==> r[k] == binary[k]
  {
    seq(|binary|, k requires 0 <= k < |binary| => binary[k])
  }

  /** btoa on a string of characters, one per byte; None stands for its exception on any other character. */
  function BtoaText(binary: Text): Option<Text> {
    if forall k :: 0 <= k < |binary| ==> binary[k] <= 0xFF then Some(Btoa(AsBytes(binary))) else None
  }

  /** The encoder: its loop builds a string with one character per byte, on which btoa cannot fail. */
  method EncodeText(jsonText: Text) returns (r: Text)
    ensures r == ToBase64Url(jsonText)
  {
    hide Encode, Btoa, StripPadding;
    var bytes := Encode(jsonText);
    var binary: Text := [];
    for k := 0 to |bytes|
      invariant |binary| == k && forall j :: 0 <= j < k ==> binary[j] == bytes[j]
    {
      binary := binary + [bytes[k]];
    }
    var encoded := BtoaText(binary);
    assert AsBytes(binary) == bytes;
    r := StripPadding(ReplaceAll(ReplaceAll(encoded.value, PLUS, MINUS), SLASH, UNDERSCORE));
  }

  // ---------------------------------------------------------------- letters

  predicate IsLetter(u: CodeUnit) {
    Index(u).Some?
  }

  lemma IndexLetter(i: Sextet)
    ensures Index(Letter(i)) == Some(i)
  {
  }

  /** Every byte string gives letters only, and as many as its length asks for. */
  lemma {:induction false} LettersLength(b: seq<Byte>)
    ensures |Letters(b)| == |b| / 3 * 4 + (if |b| % 3 == 0 then 0 else |b| % 3 + 1)
    decreases |b|
  {
    hide Letter;
    if |b| >= 3 { LettersLength(b[3..]); }
  }

  lemma {:induction false} LettersOnly(b: seq<Byte>)
    ensures forall k :: 0 <= k < |Letters(b)| ==> IsLetter(Letters(b)[k])
    decreases |b|
  {
    hide Index, Letter;
    forall i: Sextet ensures IsLetter(Letter(i)) { IndexLetter(i); }
    if |b| >= 3 {
      LettersOnly(b[3..]);
      var t, rest := Letters(b), Letters(b[3..]);
      forall k | 0 <= k < |t| ensures IsLetter(t[k]) {
        if k >= 4 { assert t[k] == rest[k - 4]; }
      }
    }
  }

  /** Three bytes regrouped into four sextets and back. */
  lemma Regroup(x: Byte, y: Byte, z: Byte)
    ensures Byte0(First(x), Second(x, y)) == x
    ensures Byte1(Second(x, y), Third(y, z)) == y
    ensures Byte2(Third(y, z), Fourth(z)) == z
  {
  }

  lemma ShortDecodes(b: seq<Byte>)
    requires |b| < 3
    ensures FromLetters(Letters(b)) == Some(b)
  {
    hide Index, Letter, First, Second, Third, Byte0, Byte1;
    if |b| == 2 {
      TwoDecode(b[0], b[1]);
      assert b == [b[0], b[1]];
    } else if |b| == 1 {
      OneDecodes(b[0], 0);
      assert b == [b[0]];
    }
  }

  lemma OneDecodes(x: Byte, none: Byte)
    ensures FromLetters([Letter(First(x)), Letter(Second(x, none))]) == Some([x])
  {
    hide Index, Letter, First, Second, Byte0;
    IndexLetter(First(x));
    IndexLetter(Second(x, none));
    Regroup(x, none, none);
  }

  lemma TwoDecode(x: Byte, y: Byte)
    ensures FromLetters([Letter(First(x)), Letter(Second(x, y)), Letter(Third(y, 0))]) == Some([x, y])
  {
    hide Index, Letter, First, Second, Third, Byte0, Byte1;
    IndexLetter(First(x));
    IndexLetter(Second(x, y));
    IndexLetter(Third(y, 0));
    Regroup(x, y, 0);
  }

  lemma GroupDecodes(x: Byte, y: Byte, z: Byte, rest: Text)
    requires FromLetters(rest).Some?
    ensures FromLetters(Group(x, y, z) + rest) == Some([x, y, z] + FromLetters(rest).value)
  {
    hide Index, Letter, First, Second, Third, Fourth, Byte0, Byte1, Byte2;
    forall i: Sextet ensures Index(Letter(i)) == Some(i) { IndexLetter(i); }
    Regroup(x, y, z);
    assert (Group(x, y, z) + rest)[4..] == rest;
  }

  lemma {:induction false} LettersDecode(b: seq<Byte>)
    ensures FromLetters(Letters(b)) == Some(b)
    decreases |b|
  {
    if |b| < 3 {
      ShortDecodes(b);
    } else {
      hide FromLetters, Group;
      LettersDecode(b[3..]);
      GroupDecodes(b[0], b[1], b[2], Letters(b[3..]));
      assert b == [b[0], b[1], b[2]] + b[3..];
    }
  }

  // ---------------------------------------------------------------- the URL alphabet and the padding

  function ToUrl(t: Text): Text {
    ReplaceAll(ReplaceAll(t, PLUS, MINUS), SLASH, UNDERSCORE)
  }

  function FromUrl(t: Text): Text {
    ReplaceAll(ReplaceAll(t, MINUS, PLUS), UNDERSCORE, SLASH)
  }

  lemma UrlRoundTrip(t: Text)
    requires MINUS !in t && UNDERSCORE !in t
    ensures FromUrl(ToUrl(t)) == t
  {
  }

  lemma {:induction false} StripAllPadding(t: Text, n: nat)
    requires PAD !in t
    ensures StripPadding(t + Padding(n)) == t
    decreases n
  {
    var s := t + Padding(n);
    if n > 0 {
      assert s[..|s| - 1] == t + Padding(n - 1);
      StripAllPadding(t, n - 1);
    }
  }

  lemma {:induction false} NoSpace(t: Text)
    requires forall k :: 0 <= k < |t| ==> !IsAsciiSpace(t[k])
    ensures DropSpace(t) == t
  {
    if t == [] {
    } else {
      NoSpace(t[1..]);
    }
  }

  /** For every length, the decoder restores exactly the padding the encoder stripped. */
  lemma PaddingRestored(b: seq<Byte>)
    ensures Missing(|Letters(b)|) == |Btoa(b)| - |Letters(b)|
    ensures |Btoa(b)| % 4 == 0
  {
    LettersLength(b);
    hide Letters;
  }

  lemma AtobBtoa(b: seq<Byte>)
    ensures Atob(Btoa(b)) == Some(b)
  {
    LettersLength(b);
    LettersOnly(b);
    LettersDecode(b);
    PaddingRestored(b);
    hide Letters, FromLetters;
    var t, letters := Btoa(b), Letters(b);
    forall k | 0 <= k < |t| ensures !IsAsciiSpace(t[k]) {
      assert k < |letters| ==> t[k] == letters[k];
    }
    NoSpace(t);
    var m := |letters|;
    assert t[..m] == letters;
    assert m > 0 ==> IsLetter(letters[m - 1]) && t[m - 1] == letters[m - 1] != PAD;
    if |t| == m {
      assert t == letters && (m >= 2 ==> t[m - 2..][1] == t[m - 1]);
    } else if |t| == m + 1 {
      assert t[|t| - 2..][0] == t[m - 1];
    } else if |t| == m + 2 {
      assert t[|t| - 2..] == [PAD, PAD];
    }
  }

  /** The text codec of the hub context loses nothing but a leading U+FEFF and lone surrogates. */
  lemma RoundTrip(jsonText: Text)
    ensures FromBase64Url(ToBase64Url(jsonText)) == Some(Utf16(Scalars(StripBom(jsonText))))
  {
    var b := Encode(jsonText);
    var letters, padding := Letters(b), |Btoa(b)| - |Letters(b)|;
    LettersOnly(b);
    PaddingRestored(b);
    assert forall u :: u in letters ==> IsLetter(u);
    assert ToUrl(Btoa(b)) == ToUrl(letters) + Padding(padding);
    assert PAD !in ToUrl(letters);
    StripAllPadding(ToUrl(letters), padding);
    UrlRoundTrip(letters);
    assert letters + Padding(Missing(|letters|)) == Btoa(b);
    AtobBtoa(b);
    DecodeEncode(jsonText);
  }

  /** It is the identity exactly on well-formed text that does not begin with U+FEFF. */
  lemma RoundTripIdentity(jsonText: Text)
    ensures FromBase64Url(ToBase64Url(jsonText)) == Some(jsonText)
       <==> WellFormed(jsonText) && !(jsonText != [] && jsonText[0] == BOM)
  {
    RoundTrip(jsonText);
    DecodeEncode(jsonText);
    DecodeEncodeIdentity(jsonText);
  }
}
