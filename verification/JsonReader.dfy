/** A reader of JSON by the grammar of RFC 8259 (without white space between tokens), and what it makes of
    the texts that stableJson prints. */
module JsonReader {
  import opened Options
  import opened JsStrings
  import opened JsonText
  import opened KeyOrder
  import opened Permutations
  import opened StableJson

  // ---------------------------------------------------------------- strings (section 7 of RFC 8259)

  function HexValue(u: CodeUnit): (r: Option<int>)
    ensures r.Some? ==> 0 <= r.value < 16
  {
    if 0x30 <= u <= 0x39 then Some(u - 0x30)
    else if 0x41 <= u <= 0x46 then Some(u - 0x41 + 10)
    else if 0x61 <= u <= 0x66 then Some(u - 0x61 + 10)
    else None
  }

  /** Four hexadecimal digits. */
  function HexUnit(t: Text): Option<CodeUnit> {
    if |t| < 4 then None
    else
      var a, b, c, d := HexValue(t[0]), HexValue(t[1]), HexValue(t[2]), HexValue(t[3]);
      if a.None? || b.None? || c.None? || d.None? then None
      else Some(a.value * 0x1000 + b.value * 0x100 + c.value * 0x10 + d.value)
  }

  /** The character an escape of two characters stands for, by its letter. */
  function EscapedUnit(letter: CodeUnit): Option<CodeUnit> {
    match letter
    case 0x22 => Some(0x22) // quotation mark
    case 0x5C => Some(0x5C) // reverse solidus
    case 0x2F => Some(0x2F) // solidus
    case 0x62 => Some(0x08) // b: backspace
    case 0x66 => Some(0x0C) // f: form feed
    case 0x6E => Some(0x0A) // n: line feed
    case 0x72 => Some(0x0D) // r: carriage return
    case 0x74 => Some(0x09) // t: tab
    case _ => None
  }

  /** A string behind its opening quote, and the text behind its closing one. */
  function ReadString(t: Text): (r: Option<(Text, Text)>)
    ensures r.Some? ==> |r.value.1| < |t|
    decreases |t|
  {
    if t == [] || t[0] < 0x20 then None
    else if t[0] == QUOTE then Some(([], t[1..]))
    else if t[0] != BACKSLASH then Cons(t[0], ReadString(t[1..]))
    else if |t| == 1 then None
    else if t[1] == 0x75 then
      (if HexUnit(t[2..]).None? then None else Cons(HexUnit(t[2..]).value, ReadString(t[6..])))
    else if EscapedUnit(t[1]).None? then None
    else Cons(EscapedUnit(t[1]).value, ReadString(t[2..]))
  }

  function Cons(u: CodeUnit, rest: Option<(Text, Text)>): Option<(Text, Text)> {
    if rest.None? then None else Some(([u] + rest.value.0, rest.value.1))
  }

  lemma HexDigitReads(d: int)
    requires 0 <= d < 16
    ensures HexValue(HexDigit(d)) == Some(d)
  {
  }

  lemma UnicodeReads(u: CodeUnit, tail: Text)
    ensures ReadString(UnicodeEscape(u) + tail) == Cons(u, ReadString(tail))
  {
    hide HexDigit, HexValue;
    var t := UnicodeEscape(u) + tail;
    HexDigitReads(u / 0x1000);
    HexDigitReads(u / 0x100 % 0x10);
    HexDigitReads(u / 0x10 % 0x10);
    HexDigitReads(u % 0x10);
    DigitsOf(u);
    assert t[0] == BACKSLASH && t[1] == 0x75 && t[6..] == tail;
    assert t[2..][0] == t[2] && t[2..][1] == t[3] && t[2..][2] == t[4] && t[2..][3] == t[5];
  }

  lemma ShortReads(u: CodeUnit, tail: Text)
    requires ShortEscape(u).Some?
    ensures ReadString([BACKSLASH, ShortEscape(u).value] + tail) == Cons(u, ReadString(tail))
  {
    var t := [BACKSLASH, ShortEscape(u).value] + tail;
    assert t[0] == BACKSLASH && t[2..] == tail;
  }

  lemma BareReads(u: CodeUnit, tail: Text)
    requires u >= 0x20 && u != QUOTE && u != BACKSLASH
    ensures ReadString([u] + tail) == Cons(u, ReadString(tail))
  {
    assert ([u] + tail)[1..] == tail;
  }

  lemma ChunkReads(s: Text, tail: Text)
    requires s != [] && ReadString(tail).Some?
    ensures ReadString(Chunk(s) + tail) == Some((s[..Width(s)] + ReadString(tail).value.0, ReadString(tail).value.1))
  {
    hide ReadString, UnicodeEscape;
    var u := s[0];
    if Width(s) == 2 {
      assert s[..2] + tail == [s[0]] + ([s[1]] + tail);
      BareReads(s[0], [s[1]] + tail);
      BareReads(s[1], tail);
      assert s[..2] + ReadString(tail).value.0 == [s[0]] + ([s[1]] + ReadString(tail).value.0);
    } else {
      assert s[..1] == [u];
      if ShortEscape(u).Some? {
        ShortReads(u, tail);
      } else if u < 0x20 || IsHigh(u) || IsLow(u) {
        UnicodeReads(u, tail);
      } else {
        BareReads(u, tail);
      }
    }
  }

  /** A quoted string reads as the string. */
  lemma {:induction false} StringReads(s: Text, r: Text)
    ensures ReadString(Escaped(s) + [QUOTE] + r) == Some((s, r))
    decreases |s|
  {
    hide ReadString, Chunk, Width, Escaped;
    if s == [] {
      EmptyReads(r);
    } else {
      EscapedUnfold(s, r);
      StringReads(s[Width(s)..], r);
      ChunkReads(s, Escaped(s[Width(s)..]) + [QUOTE] + r);
    }
  }

  lemma EmptyReads(r: Text)
    ensures ReadString(Escaped([]) + [QUOTE] + r) == Some(([], r))
  {
    assert Escaped([]) + [QUOTE] + r == [QUOTE] + r && ([QUOTE] + r)[1..] == r;
  }

  // ---------------------------------------------------------------- values (sections 2 to 6)

  predicate NumberUnit(u: CodeUnit) {
    0x30 <= u <= 0x39 || u == 0x2B || u == 0x2D || u == 0x2E || u == 0x45 || u == 0x65
  }

  /** How far a number goes. */
  function NumberLength(t: Text): (n: nat)
    ensures n <= |t|
    ensures forall k :: 0 <= k < n ==> NumberUnit(t[k])
    ensures n < |t| ==> !NumberUnit(t[n])
  {
    if t == [] || !NumberUnit(t[0]) then 0 else 1 + NumberLength(t[1..])
  }

  /** The value at the front of a text, and the text behind it. */
  function ReadValue(t: Text): (r: Option<(Json, Text)>)
    ensures r.Some? ==> |r.value.1| < |t|
    decreases |t|, 0
  {
    if t == [] then None
    else if Lit("null") <= t then Some((Null, t[4..]))
    else if Lit("true") <= t then Some((Bool(true), t[4..]))
    else if Lit("false") <= t then Some((Bool(false), t[5..]))
    else if t[0] == QUOTE then
      (match ReadString(t[1..]) case None => None case Some((s, rest)) => Some((Str(s), rest)))
    else if t[0] == 0x2D || 0x30 <= t[0] <= 0x39 then
      var n := NumberLength(t);
      Some((Number(t[..n]), t[n..]))
    else if t[0] == OPEN_BRACKET then
      if |t| > 1 && t[1] == CLOSE_BRACKET then Some((Arr([]), t[2..]))
      else (match ReadItems(t[1..]) case None => None case Some((items, rest)) => Some((Arr(items), rest)))
    else if t[0] == OPEN_BRACE then
      if |t| > 1 && t[1] == CLOSE_BRACE then Some((Obj([]), t[2..]))
      else (match ReadMembers(t[1..]) case None => None case Some((entries, rest)) => Some((Obj(entries), rest)))
    else None
  }

  /** One or more values between commas, up to and behind the closing bracket. */
  function ReadItems(t: Text): (r: Option<(seq<Json>, Text)>)
    ensures r.Some? ==> |r.value.1| < |t|
    decreases |t|, 1
  {
    match ReadValue(t)
    case None => None
    case Some((v, rest)) =>
      if rest == [] then None
      else if rest[0] == CLOSE_BRACKET then Some(([v], rest[1..]))
      else if rest[0] != COMMA then None
      else match ReadItems(rest[1..])
        case None => None
        case Some((more, end)) => Some(([v] + more, end))
  }

  /** One or more names with their values between commas, up to and behind the closing brace. */
  function ReadMembers(t: Text): (r: Option<(seq<Entry>, Text)>)
    ensures r.Some? ==> |r.value.1| < |t|
    decreases |t|, 1
  {
    if t == [] || t[0] != QUOTE then None
    else match ReadString(t[1..])
      case None => None
      case Some((key, behind)) =>
        if behind == [] || behind[0] != COLON then None
        else match ReadValue(behind[1..])
          case None => None
          case Some((v, rest)) =>
            if rest == [] then None
            else if rest[0] == CLOSE_BRACE then Some(([Entry(key, v)], rest[1..]))
            else if rest[0] != COMMA then None
            else match ReadMembers(rest[1..])
              case None => None
              case Some((more, end)) => Some(([Entry(key, v)] + more, end))
  }

  // ---------------------------------------------------------------- a value as it is printed

  /** The value with the keys of every object sorted, and null for a number that is not finite. */
  function Arranged(v: Json): Json
    decreases v
  {
    match v
    case NonFinite => Null
    case Arr(items) => Arr(ArrangedItems(items))
    case Obj(entries) => Obj(ArrangedMembers(SortedKeys(entries), entries))
    case _ => v
  }

  function ArrangedItems(items: seq<Json>): (r: seq<Json>)
    ensures |r| == |items|
    ensures forall k :: 0 <= k < |items| ==> r[k] == Arranged(items[k])
    decreases items
  {
    if items == [] then [] else [Arranged(items[0])] + ArrangedItems(items[1..])
  }

  function ArrangedMembers(keys: seq<Text>, entries: seq<Entry>): (r: seq<Entry>)
    requires forall k :: k in keys ==> k in Keys(entries)
    ensures |r| == |keys|
    ensures forall k :: 0 <= k < |keys| ==> r[k] == Entry(keys[k], Arranged(ValueOf(entries, keys[k])))
    decreases entries, |keys|
  {
    if keys == [] then []
    else
      assert keys[0] in keys;
      [Entry(keys[0], Arranged(entries[IndexOf(entries, keys[0])].value))] + ArrangedMembers(keys[1..], entries)
  }

  // ---------------------------------------------------------------- reading what is printed

  /** The characters of a number, as section 6 of RFC 8259 has them but for the E, which is never printed. */
  lemma TokenUnits(u: CodeUnit)
    ensures IsTokenUnit(u) <==> u in Lit("0123456789+-.e")
  {
    var units := Lit("0123456789+-.e");
    assert units == Lit("0123456789") + Lit("+-.e");
    assert forall d :: 0 <= d < 10 ==> units[d] == 0x30 + d;
    assert units[10] == 0x2B && units[11] == 0x2D && units[12] == 0x2E && units[13] == 0x65;
    if 0x30 <= u <= 0x39 { assert units[u - 0x30] == u; }
  }

  lemma TokenReads(token: Text, r: Text)
    requires token != [] && (0x30 <= token[0] <= 0x39 || token[0] == 0x2D) && Delimited(r)
    requires forall u :: u in token ==> IsTokenUnit(u)
    ensures ReadValue(token + r) == Some((Number(token), r))
  {
    var t := token + r;
    assert t[0] == token[0];
    forall k | 0 <= k < |token| ensures NumberUnit(t[k]) {
      assert t[k] == token[k] && token[k] in token;
    }
    assert r != [] ==> t[|token|] == r[0];
    assert NumberLength(t) == |token|;
    assert t[..|token|] == token && t[|token|..] == r;
    assert Lit("null")[0] == 0x6E && Lit("true")[0] == 0x74 && Lit("false")[0] == 0x66;
  }

  lemma WordReads(v: Json, r: Text)
    requires v.Null? || v.NonFinite? || v.Bool?
    ensures ReadValue(Print(v) + r) == Some((Arranged(v), r))
  {
    hide ReadString, ReadItems, ReadMembers;
    var word := Print(v);
    var t := word + r;
    assert t[0] == word[0] && t[..|word|] == word && t[|word|..] == r;
    assert Lit("null")[0] == 0x6E && Lit("true")[0] == 0x74 && Lit("false")[0] == 0x66;
  }

  lemma QuotedReads(s: Text, r: Text)
    ensures ReadValue(Quoted(s) + r) == Some((Str(s), r))
  {
    hide ReadString, Escaped, ReadItems, ReadMembers;
    var t := Quoted(s) + r;
    StringReads(s, r);
    assert t[0] == QUOTE && t[1..] == Escaped(s) + [QUOTE] + r;
    assert Lit("null")[0] == 0x6E && Lit("true")[0] == 0x74 && Lit("false")[0] == 0x66;
  }

  /** Behind a bracket or a brace that is not closed at once. */
  lemma OpenReads(body: Text, open: CodeUnit)
    requires open == OPEN_BRACKET || open == OPEN_BRACE
    requires body != [] && body[0] != (if open == OPEN_BRACKET then CLOSE_BRACKET else CLOSE_BRACE)
    ensures ReadValue([open] + body)
         == (if open == OPEN_BRACKET
             then match ReadItems(body) case None => None case Some((items, rest)) => Some((Arr(items), rest))
             else match ReadMembers(body) case None => None case Some((entries, rest)) => Some((Obj(entries), rest)))
  {
    hide ReadString, ReadItems, ReadMembers;
    var t := [open] + body;
    assert t[0] == open && t[1] == body[0] && t[1..] == body;
    assert Lit("null")[0] == 0x6E && Lit("true")[0] == 0x74 && Lit("false")[0] == 0x66;
  }

  lemma ClosedReads(r: Text)
    ensures ReadValue([OPEN_BRACKET] + ([CLOSE_BRACKET] + r)) == Some((Arr([]), r))
    ensures ReadValue([OPEN_BRACE] + ([CLOSE_BRACE] + r)) == Some((Obj([]), r))
  {
    hide ReadString, ReadItems, ReadMembers;
    var a, b := [OPEN_BRACKET] + ([CLOSE_BRACKET] + r), [OPEN_BRACE] + ([CLOSE_BRACE] + r);
    assert a[0] == OPEN_BRACKET && a[1] == CLOSE_BRACKET && a[2..] == r;
    assert b[0] == OPEN_BRACE && b[1] == CLOSE_BRACE && b[2..] == r;
    assert Lit("null")[0] == 0x6E && Lit("true")[0] == 0x74 && Lit("false")[0] == 0x66;
  }

  /** What is printed is JSON, and reads as the value with its keys in order. */
  lemma {:induction false} PrintReads(v: Json, r: Text)
    requires WellFormed(v) && Delimited(r)
    ensures ReadValue(Print(v) + r) == Some((Arranged(v), r))
    decreases v, 1
  {
    match v {
      case Number(token) => TokenReads(token, r);
      case Str(s) => QuotedReads(s, r);
      case Arr(items) => ArrayReads(items, r);
      case Obj(entries) => ObjectReads(entries, r);
      case _ => WordReads(v, r);
    }
  }

  lemma {:induction false} ArrayReads(items: seq<Json>, r: Text)
    requires forall k :: 0 <= k < |items| ==> WellFormed(items[k])
    ensures ReadValue(Print(Arr(items)) + r) == Some((Arranged(Arr(items)), r))
    decreases items, 2
  {
    var body := Items(items) + [CLOSE_BRACKET] + r;
    assert Print(Arr(items)) + r == [OPEN_BRACKET] + body;
    ItemsStart(items, r);
    hide ReadValue, ReadItems, Items, Print;
    if items == [] {
      NoItems(r);
      ClosedReads(r);
    } else {
      ItemsRead(items, r);
      OpenReads(body, OPEN_BRACKET);
    }
  }

  lemma NoItems(r: Text)
    ensures Items([]) + [CLOSE_BRACKET] + r == [CLOSE_BRACKET] + r
  {
    assert Items([]) + [CLOSE_BRACKET] == [CLOSE_BRACKET];
  }

  lemma {:induction false} ItemsRead(items: seq<Json>, r: Text)
    requires items != [] && forall k :: 0 <= k < |items| ==> WellFormed(items[k])
    ensures ReadItems(Items(items) + [CLOSE_BRACKET] + r) == Some((ArrangedItems(items), r))
    decreases items, 0
  {
    hide ReadValue, Items, Print, Arranged;
    ItemsUnfold(items, r);
    var behind := AfterItem(items, r);
    PrintReads(items[0], behind);
    if |items| == 1 {
      assert behind[1..] == r;
      OnlyItem(items);
    } else {
      assert behind[1..] == Items(items[1..]) + [CLOSE_BRACKET] + r;
      ItemsRead(items[1..], r);
    }
  }

  lemma OnlyItem(items: seq<Json>)
    requires |items| == 1
    ensures ArrangedItems(items) == [Arranged(items[0])]
  {
    hide Arranged;
  }

  lemma {:induction false} ObjectReads(entries: seq<Entry>, r: Text)
    requires WellFormed(Obj(entries))
    ensures ReadValue(Print(Obj(entries)) + r) == Some((Arranged(Obj(entries)), r))
    decreases entries, |SortedKeys(entries)| + 1
  {
    var keys := SortedKeys(entries);
    var body := Members(keys, entries) + [CLOSE_BRACE] + r;
    ObjectUnfold(entries, r);
    hide ReadValue, ReadMembers, Members, Print, SortedKeys;
    MembersStart(keys, entries, r);
    if keys == [] {
      NoMembers(entries, r);
      ClosedReads(r);
    } else {
      MembersRead(keys, entries, r);
      OpenReads(body, OPEN_BRACE);
    }
  }

  lemma {:induction false} MembersRead(keys: seq<Text>, entries: seq<Entry>, r: Text)
    requires keys != [] && forall k :: k in keys ==> k in Keys(entries)
    requires forall k :: 0 <= k < |entries| ==> WellFormed(entries[k].value)
    ensures ReadMembers(Members(keys, entries) + [CLOSE_BRACE] + r) == Some((ArrangedMembers(keys, entries), r))
    decreases entries, |keys|
  {
    hide ReadValue, Members, Print, Arranged, ReadString, Escaped, Keys, IndexOf, Quoted, ArrangedMembers;
    assert keys[0] in keys;
    MembersUnfold(keys, entries, r);
    var v, behind := ValueOf(entries, keys[0]), AfterMember(keys, entries, r);
    PrintReads(v, behind);
    var t := Print(v) + behind;
    NameReads(keys[0], t);
    ArrangedUnfold(keys, entries);
    if |keys| == 1 {
      var last := [Entry(keys[0], Arranged(v))];
      assert behind[1..] == r && last + [] == last;
    } else {
      assert behind[1..] == Members(keys[1..], entries) + [CLOSE_BRACE] + r;
      MembersRead(keys[1..], entries, r);
    }
  }

  /** A quoted name with a colon behind it. */
  lemma NameReads(key: Text, t: Text)
    ensures var s := Quoted(key) + ([COLON] + t);
      s[0] == QUOTE && ReadString(s[1..]) == Some((key, [COLON] + t)) && ([COLON] + t)[1..] == t
  {
    hide ReadString, Escaped;
    StringReads(key, [COLON] + t);
    assert (Quoted(key) + ([COLON] + t))[1..] == Escaped(key) + [QUOTE] + ([COLON] + t);
  }

  lemma ArrangedUnfold(keys: seq<Text>, entries: seq<Entry>)
    requires keys != [] && forall k :: k in keys ==> k in Keys(entries)
    ensures keys[0] in Keys(entries)
    ensures ArrangedMembers(keys, entries)
         == [Entry(keys[0], Arranged(ValueOf(entries, keys[0])))] + (if |keys| == 1 then [] else ArrangedMembers(keys[1..], entries))
  {
    hide Arranged, Keys, IndexOf;
    assert keys[0] in keys;
  }

  // ---------------------------------------------------------------- keys in order

  /** The names of every object, at every depth, come in the order of a dictionary, none twice. */
  ghost predicate InOrder(v: Json)
    decreases v
  {
    match v
    case Arr(items) => forall k :: 0 <= k < |items| ==> InOrder(items[k])
    case Obj(entries) =>
      && (forall i, j :: 0 <= i < j < |entries| ==> Earlier(entries[i].key, entries[j].key))
      && forall k :: 0 <= k < |entries| ==> InOrder(entries[k].value)
    case _ => true
  }

  lemma {:induction false} ArrangedHolds(v: Json)
    requires WellFormed(v)
    ensures InOrder(Arranged(v)) && Same(v, Arranged(v))
    decreases v
  {
    match v {
      case Arr(items) =>
        forall k | 0 <= k < |items| ensures InOrder(Arranged(items[k])) && Same(items[k], Arranged(items[k])) {
          ArrangedHolds(items[k]);
        }
      case Obj(entries) =>
        forall k | 0 <= k < |entries| ensures InOrder(Arranged(entries[k].value)) && Same(entries[k].value, Arranged(entries[k].value)) {
          ArrangedHolds(entries[k].value);
        }
        hide Arranged, SortedKeys;
        assert AllArranged(entries);
        ObjectArranged(entries);
        assert Arranged(v) == Obj(ArrangedMembers(SortedKeys(entries), entries)) by { ArrangedObject(entries); }
      case _ =>
    }
  }

  /** Arranging keeps every value of the object the same. */
  ghost predicate AllArranged(entries: seq<Entry>) {
    forall k :: 0 <= k < |entries| ==>
      InOrder(Arranged(entries[k].value)) && Same(entries[k].value, Arranged(entries[k].value))
  }

  predicate Ascending(keys: seq<Text>) {
    forall i, j :: 0 <= i < j < |keys| ==> Earlier(keys[i], keys[j])
  }

  lemma ArrangedObject(entries: seq<Entry>)
    ensures Arranged(Obj(entries)) == Obj(ArrangedMembers(SortedKeys(entries), entries))
  {
  }

  lemma ObjectArranged(entries: seq<Entry>)
    requires NoRepeats(Keys(entries)) && AllArranged(entries)
    ensures var arranged := Obj(ArrangedMembers(SortedKeys(entries), entries));
      InOrder(arranged) && Same(Obj(entries), arranged)
  {
    hide *;
    KeysEarlier(entries);
    MembersInOrder(SortedKeys(entries), entries);
    MembersSame(SortedKeys(entries), entries);
  }

  lemma KeysEarlier(entries: seq<Entry>)
    requires NoRepeats(Keys(entries))
    ensures Ascending(SortedKeys(entries))
  {
    hide Less, Earlier;
    var keys := SortedKeys(entries);
    SortSorts(Keys(entries));
    forall i, j | 0 <= i < j < |keys| ensures Earlier(keys[i], keys[j]) {
      LessExactly(keys[i], keys[j]);
    }
  }

  lemma MembersInOrder(keys: seq<Text>, entries: seq<Entry>)
    requires forall k :: k in keys ==> k in Keys(entries)
    requires Ascending(keys) && AllArranged(entries)
    ensures InOrder(Obj(ArrangedMembers(keys, entries)))
  {
    hide Arranged, Earlier, IndexOf;
  }

  lemma MembersSame(keys: seq<Text>, entries: seq<Entry>)
    requires NoRepeats(Keys(entries)) && ToSet(keys) == ToSet(Keys(entries)) && forall k :: k in keys ==> k in Keys(entries)
    requires AllArranged(entries)
    ensures Same(Obj(entries), Obj(ArrangedMembers(keys, entries)))
  {
    hide Arranged, IndexOf, NoRepeats;
    var arranged := ArrangedMembers(keys, entries);
    assert Keys(arranged) == keys;
    forall i, j | 0 <= i < |entries| && 0 <= j < |arranged| && entries[i].key == arranged[j].key
      ensures Same(entries[i].value, arranged[j].value)
    {
      KeyOnce(entries, i, IndexOf(entries, arranged[j].key));
    }
  }

  /** The canonical text of a value is JSON: it reads as the same value, with the names of every object in
      order, and nothing is left over. */
  lemma CanonicalReads(v: Json)
    requires WellFormed(v)
    ensures var read := ReadValue(Print(v));
      read.Some? && read.value.1 == [] && Same(v, read.value.0) && InOrder(read.value.0)
  {
    hide Arranged, Print, ReadValue;
    PrintReads(v, []);
    assert Print(v) + [] == Print(v);
    ArrangedHolds(v);
  }
}
