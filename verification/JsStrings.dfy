/** JavaScript strings as the sources see them: finite sequences of UTF-16 code units. */
module JsStrings {
  type CodeUnit = u: int | 0 <= u < 0x10000

  type Text = seq<CodeUnit>

  const NUL: CodeUnit := 0x00
  const LF: CodeUnit := 0x0A
  const CR: CodeUnit := 0x0D
  const QUOTE: CodeUnit := 0x22
  const COMMA: CodeUnit := 0x2C
  const REPLACEMENT: CodeUnit := 0xFFFD
  const BOM: CodeUnit := 0xFEFF
  const CRLF: Text := [CR, LF]

  /** A literal of the source; every literal used lies in the Basic Multilingual Plane. */
  function Lit(s: string): (t: Text)
    requires forall k :: 0 <= k < |s| ==> s[k] as int < 0x10000
    ensures |t| == |s|
    ensures forall k :: 0 <= k < |s| ==> t[k] == s[k] as int
  {
    seq(|s|, k requires 0 <= k < |s| => s[k] as int)
  }

  /** The regular expression /^\uFEFF/ replaced by the empty string. */
  function StripBom(t: Text): Text {
    if |t| > 0 && t[0] == BOM then t[1..] else t
  }

  /** The characters String.prototype.trim removes: WhiteSpace and LineTerminator of ECMA-262. */
  predicate IsWhite(u: CodeUnit) {
    || 0x09 <= u <= 0x0D || u == 0x20 || u == 0xA0 || u == 0x1680 || 0x2000 <= u <= 0x200A
    || u == 0x2028 || u == 0x2029 || u == 0x202F || u == 0x205F || u == 0x3000 || u == BOM
  }

  predicate IsDigit(u: CodeUnit) {
    0x30 <= u <= 0x39
  }

  /** The month pattern the forms share: 20 and two digits, a hyphen, 01 to 12. */
  predicate IsMonth(t: Text) {
    && |t| == 7 && t[0] == 0x32 && t[1] == 0x30 && IsDigit(t[2]) && IsDigit(t[3]) && t[4] == 0x2D
    && ((t[5] == 0x30 && 0x31 <= t[6] <= 0x39) || (t[5] == 0x31 && 0x30 <= t[6] <= 0x32))
  }

  function TrimStart(t: Text): (r: Text)
    ensures r == [] || !IsWhite(r[0])
    ensures |r| <= |t| && r == t[|t| - |r|..]
  {
    if t == [] then []
    else if IsWhite(t[0]) then TrimStart(t[1..]) else t
  }

  function TrimEnd(t: Text): (r: Text)
    ensures r == [] || !IsWhite(r[|r| - 1])
    ensures |r| <= |t| && r == t[..|r|]
  {
    if t == [] then []
    else if IsWhite(t[|t| - 1]) then TrimEnd(t[..|t| - 1]) else t
  }

  function Trim(t: Text): (r: Text)
    ensures r == [] || (!IsWhite(r[0]) && !IsWhite(r[|r| - 1]))
    ensures forall u :: u in r ==> u in t
  {
    TrimEnd(TrimStart(t))
  }

  /** Only white space: what trim() === "" tests. */
  predicate Blank(t: Text) {
    forall u :: u in t ==> IsWhite(u)
  }

  lemma {:induction false} TrimStartEmpty(t: Text)
    ensures TrimStart(t) == [] <==> Blank(t)
  {
    if t == [] {
    } else {
      TrimStartEmpty(t[1..]);
      assert t == [t[0]] + t[1..];
    }
  }

  /** trim() leaves nothing exactly when every character is white space. */
  lemma {:induction false} TrimEmptyIffBlank(t: Text)
    ensures Trim(t) == [] <==> Blank(t)
  {
    TrimStartEmpty(t);
    var s := TrimStart(t);
    if s == [] {
    } else {
      TrimEndKeeps(s, 0);
    }
  }

  lemma {:induction false} TrimEndKeeps(t: Text, k: nat)
    requires k < |t| && !IsWhite(t[k])
    ensures k < |TrimEnd(t)|
  {
    if IsWhite(t[|t| - 1]) {
      TrimEndKeeps(t[..|t| - 1], k);
    }
  }

  /** trim() is idempotent: a trimmed text is left alone. */
  lemma TrimFixed(t: Text)
    ensures (t == [] || (!IsWhite(t[0]) && !IsWhite(t[|t| - 1]))) ==> Trim(t) == t
    ensures Trim(Trim(t)) == Trim(t)
  {
  }

  /** The white space of ECMA-262, sections 12.2 and 12.3: tab to carriage return, the spaces of Unicode and its
      two separators, and the byte order mark. */
  const WHITE: set<CodeUnit> :=
    {0x09, 0x0A, 0x0B, 0x0C, 0x0D, 0x20, 0xA0, 0x1680, 0x2000, 0x2001, 0x2002, 0x2003, 0x2004, 0x2005, 0x2006, 0x2007,
     0x2008, 0x2009, 0x200A, 0x2028, 0x2029, 0x202F, 0x205F, 0x3000, 0xFEFF}

  lemma WhiteExactly(u: CodeUnit)
    ensures IsWhite(u) <==> u in WHITE
  {
  }

  predicate AllWhite(t: Text) {
    forall u :: u in t ==> u in WHITE
  }

  /** trim() takes away white space at both ends and nothing else. */
  lemma TrimExactly(a: Text, m: Text, b: Text)
    requires AllWhite(a) && AllWhite(b) && (m == [] || (m[0] !in WHITE && m[|m| - 1] !in WHITE))
    ensures Trim(a + m + b) == m
  {
    hide IsWhite, WHITE;
    forall u: CodeUnit ensures IsWhite(u) <==> u in WHITE { WhiteExactly(u); }
    if m == [] {
      TrimEmptyIffBlank(a + m + b);
    } else {
      assert a + m + b == a + (m + b);
      StartWhite(a, m + b);
      assert TrimStart(m + b) == m + b;
      EndWhite(m, b);
    }
  }

  lemma {:induction false} StartWhite(a: Text, t: Text)
    requires Blank(a)
    ensures TrimStart(a + t) == TrimStart(t)
  {
    hide IsWhite;
    if a == [] {
      assert a + t == t;
    } else {
      assert (a + t)[0] == a[0] && a[0] in a && (a + t)[1..] == a[1..] + t;
      StartWhite(a[1..], t);
    }
  }

  lemma {:induction false} EndWhite(t: Text, b: Text)
    requires Blank(b) && t != [] && !IsWhite(t[|t| - 1])
    ensures TrimEnd(t + b) == t
  {
    hide IsWhite;
    if b == [] {
      assert t + b == t;
    } else {
      var n := |b| - 1;
      assert (t + b)[|t| + n] == b[n] && b[n] in b && (t + b)[..|t| + n] == t + b[..n];
      EndWhite(t, b[..n]);
    }
  }

  /** Array.prototype.join. */
  function Join(parts: seq<Text>, separator: Text): Text {
    if |parts| == 0 then []
    else if |parts| == 1 then parts[0]
    else parts[0] + separator + Join(parts[1..], separator)
  }
}
