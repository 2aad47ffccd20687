/** stableJson of dbf-business-data-runtime.js, the text that is hashed for every raw row. */
module StableJson {
  import opened JsStrings
  import opened JsonText
  import opened KeyOrder
  import opened Permutations

  datatype Entry = Entry(key: Text, value: Json)

  /** A JSON value as JavaScript holds it: an object lists its own properties in insertion order, a
      finite number is known by the token that Number.prototype.toString gives it (-0 prints as 0). */
  datatype Json =
    | Null
    | Bool(b: bool)
    | Number(token: Text)
    | NonFinite
    | Str(s: Text)
    | Arr(items: seq<Json>)
    | Obj(entries: seq<Entry>)

  const COLON: CodeUnit := 0x3A
  const OPEN_BRACKET: CodeUnit := 0x5B
  const CLOSE_BRACKET: CodeUnit := 0x5D
  const OPEN_BRACE: CodeUnit := 0x7B
  const CLOSE_BRACE: CodeUnit := 0x7D

  /** Object.keys */
  function Keys(entries: seq<Entry>): (r: seq<Text>)
    ensures |r| == |entries|
    ensures forall k :: 0 <= k < |entries| ==> r[k] == entries[k].key
  {
    seq(|entries|, k requires 0 <= k < |entries| => entries[k].key)
  }

  /** Object.keys(value).sort() */
  function SortedKeys(entries: seq<Entry>): (r: seq<Text>)
    ensures forall k :: k in r <==> k in Keys(entries)
    ensures ToSet(r) == ToSet(Keys(entries))
  {
    SortSorts(Keys(entries));
    ElementsAgree(Sort(Keys(entries)), Keys(entries));
    Sort(Keys(entries))
  }

  function IndexOf(entries: seq<Entry>, key: Text): (i: nat)
    requires key in Keys(entries)
    ensures i < |entries| && entries[i].key == key
  {
    if entries[0].key == key then 0
    else
      assert Keys(entries) == [entries[0].key] + Keys(entries[1..]);
      1 + IndexOf(entries[1..], key)
  }

  function Print(v: Json): Text
    decreases v
  {
    match v
    case Null => Lit("null")
    case NonFinite => Lit("null")
    case Bool(b) => if b then Lit("true") else Lit("false")
    case Number(token) => token
    case Str(s) => Quoted(s)
    case Arr(items) => [OPEN_BRACKET] + Items(items) + [CLOSE_BRACKET]
    case Obj(entries) =>
      [OPEN_BRACE] + Members(SortedKeys(entries), entries) + [CLOSE_BRACE]
  }

  /** The elements' texts joined by commas. */
  function Items(items: seq<Json>): Text
    decreases items
  {
    if items == [] then []
    else if |items| == 1 then Print(items[0])
    else Print(items[0]) + [COMMA] + Items(items[1..])
  }

  /** key:value for each key, joined by commas. */
  function Members(keys: seq<Text>, entries: seq<Entry>): Text
    requires forall k :: k in keys ==> k in Keys(entries)
    decreases entries, |keys|
  {
    if keys == [] then []
    else
      Quoted(keys[0]) + [COLON] + Print(entries[IndexOf(entries, keys[0])].value)
      + (if |keys| == 1 then [] else [COMMA] + Members(keys[1..], entries))
  }

  lemma ElementsAgree(a: seq<Text>, b: seq<Text>)
    requires ToSet(a) == ToSet(b)
    ensures forall k :: k in a <==> k in b
  {
    forall k ensures k in a <==> k in b {
      ElementsHas(a, k);
      ElementsHas(b, k);
    }
  }

  // ---------------------------------------------------------------- well-formed values, and sameness

  predicate IsTokenUnit(u: CodeUnit) {
    0x30 <= u <= 0x39 || u == 0x2B || u == 0x2D || u == 0x2E || u == 0x65
  }

  /** Property names are distinct, number tokens are made of digits and + - . e */
  ghost predicate WellFormed(v: Json)
    decreases v
  {
    match v
    case Number(token) =>
      && token != [] && (0x30 <= token[0] <= 0x39 || token[0] == 0x2D)
      && forall u :: u in token ==> IsTokenUnit(u)
    case Arr(items) => forall k :: 0 <= k < |items| ==> WellFormed(items[k])
    case Obj(entries) => NoRepeats(Keys(entries)) && forall k :: 0 <= k < |entries| ==> WellFormed(entries[k].value)
    case _ => true
  }

  /** The same value up to the order of keys at every depth; JSON has no number that is not finite. */
  ghost predicate Same(v: Json, w: Json)
    decreases v
  {
    match v
    case Null => w.Null? || w.NonFinite?
    case NonFinite => w.Null? || w.NonFinite?
    case Arr(items) =>
      w.Arr? && |items| == |w.items| && forall k :: 0 <= k < |items| ==> Same(items[k], w.items[k])
    case Obj(entries) =>
      && w.Obj? && ToSet(Keys(entries)) == ToSet(Keys(w.entries))
      && forall i, j :: 0 <= i < |entries| && 0 <= j < |w.entries| && entries[i].key == w.entries[j].key
                        ==> Same(entries[i].value, w.entries[j].value)
    case _ => v == w
  }

  // ---------------------------------------------------------------- same values print alike

  lemma {:induction false} SamePrints(v: Json, w: Json)
    requires WellFormed(v) && WellFormed(w) && Same(v, w)
    ensures Print(v) == Print(w)
    decreases v
  {
    match v {
      case Arr(items) => SameItems(items, w.items);
      case Obj(entries) =>
        SortSorts(Keys(entries));
        SortSorts(Keys(w.entries));
        IncreasingUnique(SortedKeys(entries), SortedKeys(w.entries));
        SameMembers(SortedKeys(entries), entries, w.entries);
      case _ =>
    }
  }

  lemma {:induction false} SameItems(a: seq<Json>, b: seq<Json>)
    requires |a| == |b|
    requires forall k :: 0 <= k < |a| ==> WellFormed(a[k]) && WellFormed(b[k]) && Same(a[k], b[k])
    ensures Items(a) == Items(b)
    decreases a
  {
    if a == [] {
    } else {
      SamePrints(a[0], b[0]);
      SameItems(a[1..], b[1..]);
    }
  }

  lemma {:induction false} SameMembers(keys: seq<Text>, a: seq<Entry>, b: seq<Entry>)
    requires forall k :: k in keys ==> k in Keys(a) && k in Keys(b)
    requires forall k :: 0 <= k < |a| ==> WellFormed(a[k].value)
    requires forall k :: 0 <= k < |b| ==> WellFormed(b[k].value)
    requires forall i, j :: 0 <= i < |a| && 0 <= j < |b| && a[i].key == b[j].key ==> Same(a[i].value, b[j].value)
    ensures Members(keys, a) == Members(keys, b)
    decreases a, |keys|
  {
    if keys == [] {
    } else {
      SamePrints(a[IndexOf(a, keys[0])].value, b[IndexOf(b, keys[0])].value);
      SameMembers(keys[1..], a, b);
    }
  }

  // ---------------------------------------------------------------- equal prints come from same values

  /** The text behind a value: nothing, or a comma or closing bracket. */
  predicate Delimited(r: Text) {
    r == [] || r[0] == COMMA || r[0] == CLOSE_BRACKET || r[0] == CLOSE_BRACE
  }

  /** The first character tells the kind of a value. */
  function Kind(v: Json): int {
    match v
    case Null => 0
    case NonFinite => 0
    case Bool(b) => if b then 1 else 2
    case Number(_) => 3
    case Str(_) => 4
    case Arr(_) => 5
    case Obj(_) => 6
  }

  function KindOfUnit(u: CodeUnit): int {
    if u == 0x6E then 0 else if u == 0x74 then 1 else if u == 0x66 then 2
    else if u == 0x2D || 0x30 <= u <= 0x39 then 3 else if u == QUOTE then 4
    else if u == OPEN_BRACKET then 5 else if u == OPEN_BRACE then 6 else 7
  }

  lemma FirstUnit(v: Json)
    requires WellFormed(v)
    ensures Print(v) != [] && KindOfUnit(Print(v)[0]) == Kind(v)
  {
  }

  lemma TokenDecodes(a: Text, b: Text, r: Text, q: Text)
    requires forall u :: u in a ==> IsTokenUnit(u)
    requires forall u :: u in b ==> IsTokenUnit(u)
    requires Delimited(r) && Delimited(q) && a + r == b + q
    ensures a == b && r == q
  {
    TokenEnd(a, r);
    TokenEnd(b, q);
    Cancel(a, b, r, q);
  }

  lemma TokenEnd(a: Text, r: Text)
    requires (forall u :: u in a ==> IsTokenUnit(u)) && Delimited(r)
    ensures forall j :: 0 <= j < |a| ==> IsTokenUnit((a + r)[j])
    ensures r != [] ==> !IsTokenUnit((a + r)[|a|])
  {
    if r != [] { assert (a + r)[|a|] == r[0]; }
    forall j | 0 <= j < |a| ensures IsTokenUnit((a + r)[j]) { assert (a + r)[j] == a[j]; }
  }

  lemma Cancel(a: Text, b: Text, r: Text, q: Text)
    requires a + r == b + q && |a| == |b|
    ensures a == b && r == q
  {
    assert a == (a + r)[..|a|] && b == (b + q)[..|a|];
    assert r == (a + r)[|a|..] && q == (b + q)[|a|..];
  }

  /** What follows the first of the items, up to and behind the closing bracket. */
  function AfterItem(items: seq<Json>, r: Text): (t: Text)
    requires items != []
    ensures Delimited(t)
  {
    if |items| == 1 then [CLOSE_BRACKET] + r else [COMMA] + (Items(items[1..]) + [CLOSE_BRACKET] + r)
  }

  function AfterMember(keys: seq<Text>, entries: seq<Entry>, r: Text): (t: Text)
    requires keys != [] && forall k :: k in keys ==> k in Keys(entries)
    ensures Delimited(t)
  {
    if |keys| == 1 then [CLOSE_BRACE] + r else [COMMA] + (Members(keys[1..], entries) + [CLOSE_BRACE] + r)
  }

  function ValueOf(entries: seq<Entry>, key: Text): Json
    requires key in Keys(entries)
  {
    entries[IndexOf(entries, key)].value
  }

  lemma RegroupItems(first: Text, rest: Text, r: Text)
    ensures first + [COMMA] + rest + [CLOSE_BRACKET] + r == first + ([COMMA] + (rest + [CLOSE_BRACKET] + r))
  {
  }

  lemma ItemsUnfold(items: seq<Json>, r: Text)
    requires items != []
    ensures Items(items) + [CLOSE_BRACKET] + r == Print(items[0]) + AfterItem(items, r)
  {
    hide Print, Members;
    if |items| == 1 {
      LastItem(Print(items[0]), r);
    } else {
      RegroupItems(Print(items[0]), Items(items[1..]), r);
    }
  }

  lemma LastItem(first: Text, r: Text)
    ensures first + [CLOSE_BRACKET] + r == first + ([CLOSE_BRACKET] + r)
  {
  }

  /** The members behind the first one, each after a comma. */
  function MembersTail(keys: seq<Text>, entries: seq<Entry>): Text
    requires keys != [] && forall k :: k in keys ==> k in Keys(entries)
  {
    if |keys| == 1 then [] else [COMMA] + Members(keys[1..], entries)
  }

  lemma TailIs(keys: seq<Text>, entries: seq<Entry>, r: Text)
    requires keys != [] && forall k :: k in keys ==> k in Keys(entries)
    ensures MembersTail(keys, entries) + [CLOSE_BRACE] + r == AfterMember(keys, entries, r)
  {
    hide Members, Keys;
  }

  lemma Regroup(a: Text, b: Text, tail: Text, r: Text)
    ensures (a + [COLON] + b + tail) + [CLOSE_BRACE] + r == a + ([COLON] + (b + (tail + [CLOSE_BRACE] + r)))
  {
  }

  lemma MembersUnfold(keys: seq<Text>, entries: seq<Entry>, r: Text)
    requires keys != [] && forall k :: k in keys ==> k in Keys(entries)
    ensures Members(keys, entries) + [CLOSE_BRACE] + r
         == Quoted(keys[0]) + ([COLON] + (Print(ValueOf(entries, keys[0])) + AfterMember(keys, entries, r)))
  {
    assert keys[0] in keys;
    hide Quoted, IndexOf, Print, Keys, AfterMember;
    TailIs(keys, entries, r);
    Regroup(Quoted(keys[0]), Print(ValueOf(entries, keys[0])), MembersTail(keys, entries), r);
  }

  lemma ItemsStart(items: seq<Json>, r: Text)
    requires forall k :: 0 <= k < |items| ==> WellFormed(items[k])
    ensures (Items(items) + [CLOSE_BRACKET] + r)[0] == CLOSE_BRACKET <==> items == []
  {
    if items != [] {
      ItemsUnfold(items, r);
      FirstUnit(items[0]);
    }
  }

  lemma MembersStart(keys: seq<Text>, entries: seq<Entry>, r: Text)
    requires forall k :: k in keys ==> k in Keys(entries)
    ensures (Members(keys, entries) + [CLOSE_BRACE] + r)[0] == CLOSE_BRACE <==> keys == []
  {
    if keys != [] { MembersUnfold(keys, entries, r); }
  }

  /** The printed grammar is uniquely decodable: a value can be read back, up to sameness, from the
      front of any text in which a delimiter follows it. */
  lemma {:induction false} Decodes(v: Json, w: Json, r: Text, q: Text)
    requires WellFormed(v) && WellFormed(w) && Delimited(r) && Delimited(q)
    requires Print(v) + r == Print(w) + q
    ensures Same(v, w) && r == q
    decreases v, 1
  {
    FirstUnit(v);
    FirstUnit(w);
    assert Print(v)[0] == (Print(v) + r)[0] == (Print(w) + q)[0] == Print(w)[0];
    match v {
      case Number(token) => TokenDecodes(token, w.token, r, q);
      case Str(s) => QuotedDecodes(s, w.s, r, q);
      case Arr(items) => ArrayDecodes(v, w, r, q);
      case Obj(entries) => ObjectDecodes(v, w, r, q);
      case _ => Cancel(Print(v), Print(w), r, q);
    }
  }

  lemma {:induction false} ArrayDecodes(v: Json, w: Json, r: Text, q: Text)
    requires v.Arr? && w.Arr? && WellFormed(v) && WellFormed(w) && Print(v) + r == Print(w) + q
    ensures Same(v, w) && r == q
    decreases v, 0
  {
    var a, b := Items(v.items) + [CLOSE_BRACKET] + r, Items(w.items) + [CLOSE_BRACKET] + q;
    assert Print(v) + r == [OPEN_BRACKET] + a && Print(w) + q == [OPEN_BRACKET] + b;
    Cancel([OPEN_BRACKET], [OPEN_BRACKET], a, b);
    ItemsDecode(v.items, w.items, r, q);
  }

  lemma {:induction false} ItemsDecode(a: seq<Json>, b: seq<Json>, r: Text, q: Text)
    requires forall k :: 0 <= k < |a| ==> WellFormed(a[k])
    requires forall k :: 0 <= k < |b| ==> WellFormed(b[k])
    requires Items(a) + [CLOSE_BRACKET] + r == Items(b) + [CLOSE_BRACKET] + q
    ensures |a| == |b| && r == q
    ensures forall k :: 0 <= k < |a| ==> Same(a[k], b[k])
    decreases a
  {
    ItemsStart(a, r);
    ItemsStart(b, q);
    if a == [] {
      assert Items([]) + [CLOSE_BRACKET] == [CLOSE_BRACKET];
      Cancel([CLOSE_BRACKET], [CLOSE_BRACKET], r, q);
    } else {
      ItemsUnfold(a, r);
      ItemsUnfold(b, q);
      Decodes(a[0], b[0], AfterItem(a, r), AfterItem(b, q));
      var x, y := AfterItem(a, r), AfterItem(b, q);
      assert x[0] == y[0];
      assert x[1..] == y[1..];
      if |a| > 1 {
        ItemsDecode(a[1..], b[1..], r, q);
      }
    }
  }

  lemma ObjectUnfold(entries: seq<Entry>, r: Text)
    ensures Print(Obj(entries)) + r
         == [OPEN_BRACE] + (Members(SortedKeys(entries), entries) + [CLOSE_BRACE] + r)
  {
    hide Members, SortedKeys;
  }

  lemma {:induction false} ObjectDecodes(v: Json, w: Json, r: Text, q: Text)
    requires v.Obj? && w.Obj? && WellFormed(v) && WellFormed(w) && Print(v) + r == Print(w) + q
    ensures Same(v, w) && r == q
    decreases v, 0
  {
    var va, wb := v.entries, w.entries;
    var a, b := Members(SortedKeys(va), va) + [CLOSE_BRACE] + r, Members(SortedKeys(wb), wb) + [CLOSE_BRACE] + q;
    ObjectUnfold(va, r);
    ObjectUnfold(wb, q);
    hide Print, Members, SortedKeys, Same;
    Cancel([OPEN_BRACE], [OPEN_BRACE], a, b);
    MembersDecode(SortedKeys(va), SortedKeys(wb), va, wb, r, q);
    SameValues(va, wb);
  }

  lemma SameValues(va: seq<Entry>, wb: seq<Entry>)
    requires NoRepeats(Keys(va)) && NoRepeats(Keys(wb)) && SortedKeys(va) == SortedKeys(wb)
    requires forall k :: k in SortedKeys(va) ==> Same(ValueOf(va, k), ValueOf(wb, k))
    ensures Same(Obj(va), Obj(wb))
  {
    hide SortedKeys, IndexOf, NoRepeats;
    forall i, j | 0 <= i < |va| && 0 <= j < |wb| && va[i].key == wb[j].key ensures Same(va[i].value, wb[j].value) {
      assert va[i].key == Keys(va)[i] && wb[j].key == Keys(wb)[j];
      KeyOnce(va, i, IndexOf(va, va[i].key));
      KeyOnce(wb, j, IndexOf(wb, wb[j].key));
    }
  }

  lemma KeyOnce(entries: seq<Entry>, i: nat, j: nat)
    requires NoRepeats(Keys(entries)) && i < |entries| && j < |entries| && entries[i].key == entries[j].key
    ensures i == j
  {
    assert Keys(entries)[i] == entries[i].key && Keys(entries)[j] == entries[j].key;
  }

  lemma NoMembers(entries: seq<Entry>, r: Text)
    ensures Members([], entries) + [CLOSE_BRACE] + r == [CLOSE_BRACE] + r
  {
    assert [] + [CLOSE_BRACE] == [CLOSE_BRACE];
  }

  lemma {:induction false} MembersDecode(ka: seq<Text>, kb: seq<Text>, a: seq<Entry>, b: seq<Entry>, r: Text, q: Text)
    requires forall k :: k in ka ==> k in Keys(a)
    requires forall k :: k in kb ==> k in Keys(b)
    requires forall k :: 0 <= k < |a| ==> WellFormed(a[k].value)
    requires forall k :: 0 <= k < |b| ==> WellFormed(b[k].value)
    requires Members(ka, a) + [CLOSE_BRACE] + r == Members(kb, b) + [CLOSE_BRACE] + q
    ensures ka == kb && r == q
    ensures forall k :: k in ka ==> Same(ValueOf(a, k), ValueOf(b, k))
    decreases a, |ka|
  {
    hide Quoted, IndexOf, Members, Print, Same, WellFormed, Keys;
    MembersStart(ka, a, r);
    MembersStart(kb, b, q);
    if ka == [] {
      NoMembers(a, r);
      NoMembers(b, q);
      Cancel([CLOSE_BRACE], [CLOSE_BRACE], r, q);
    } else {
      MembersUnfold(ka, a, r);
      MembersUnfold(kb, b, q);
      var x, y := AfterMember(ka, a, r), AfterMember(kb, b, q);
      var v, w := a[IndexOf(a, ka[0])].value, b[IndexOf(b, kb[0])].value;
      QuotedDecodes(ka[0], kb[0], [COLON] + (Print(v) + x), [COLON] + (Print(w) + y));
      Cancel([COLON], [COLON], Print(v) + x, Print(w) + y);
      Decodes(v, w, x, y);
      assert x[0] == y[0] && x[1..] == y[1..];
      assert ka == [ka[0]] + ka[1..] && kb == [kb[0]] + kb[1..];
      if |ka| > 1 {
        MembersDecode(ka[1..], kb[1..], a, b, r, q);
      }
    }
  }

  // ---------------------------------------------------------------- the canonical form

  /** stableJson is a canonical form: two values print to the same text exactly when they are the
      same value up to the order of keys at every depth. */
  lemma Canonical(v: Json, w: Json)
    requires WellFormed(v) && WellFormed(w)
    ensures Print(v) == Print(w) <==> Same(v, w)
  {
    if Print(v) == Print(w) {
      assert Print(v) + [] == Print(v) && Print(w) + [] == Print(w);
      Decodes(v, w, [], []);
    }
    if Same(v, w) { SamePrints(v, w); }
  }
}
