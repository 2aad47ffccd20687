/** The headcount form, end to end: what the template holds and when it is accepted once filled in. */
module WorkforceRoundTrip {
  import InsertionSort
  import JsonText
  import opened Options
  import opened JsStrings
  import opened CsvReaders
  import opened CsvRoundTrip
  import opened Permutations
  import opened Utf8
  import opened WorkforceTemplate

  // ---------------------------------------------------------------- counts

  function Decimal(n: nat): (t: Text)
    ensures t != [] && AllDigits(t)
  {
    if n < 10 then [0x30 + n] else Decimal(n / 10) + [0x30 + n % 10]
  }

  function Pow10(k: nat): (p: nat)
    ensures p >= 1
  {
    if k == 0 then 1 else 10 * Pow10(k - 1)
  }

  lemma {:induction false} DecimalIs(n: nat, k: nat)
    ensures Numeral(Decimal(n)) == n
    ensures Decimal(n)[0] == 0x30 <==> n == 0
    ensures k >= 1 ==> (|Decimal(n)| <= k <==> n < Pow10(k))
  {
    if n >= 10 {
      DecimalIs(n / 10, if k > 0 then k - 1 else 0);
      assert Decimal(n)[..|Decimal(n)| - 1] == Decimal(n / 10);
    }
  }

  /** Digits without a leading zero are the decimal form of the number they read as. */
  lemma {:induction false} NumeralDecimal(t: Text)
    requires AllDigits(t) && t != [] && (t == [0x30] || t[0] != 0x30)
    ensures Decimal(Numeral(t)) == t
  {
    if |t| > 1 {
      var front := t[..|t| - 1];
      NumeralDecimal(front);
      DecimalIs(Numeral(front), 0);
      assert Numeral(t) == 10 * Numeral(front) + (t[|t| - 1] - 0x30);
      assert Numeral(front) > 0;
    } else {
      assert Numeral(t[..0]) == 0;
    }
  }

  /** A count cell is read as n exactly when it holds the decimal form of n, below a million. */
  lemma CountReads(value: Text, n: nat)
    ensures Count(value) == Some(n) <==> n < 1000000 && Trim(value) == Decimal(n)
  {
    var t := Trim(value);
    DecimalIs(n, 6);
    assert Pow10(6) == 1000000;
    if Count(value) == Some(n) {
      NumeralDecimal(t);
    }
  }

  lemma {:induction false} TrimStartLosesWhite(t: Text, u: CodeUnit)
    requires u in t
    ensures IsWhite(u) || u in TrimStart(t)
  {
    if IsWhite(t[0]) && u != t[0] {
      assert t == [t[0]] + t[1..];
      TrimStartLosesWhite(t[1..], u);
    }
  }

  lemma {:induction false} TrimEndLosesWhite(t: Text, u: CodeUnit)
    requires u in t
    ensures IsWhite(u) || u in TrimEnd(t)
  {
    var n := |t| - 1;
    if IsWhite(t[n]) && u != t[n] {
      assert t == t[..n] + [t[n]];
      TrimEndLosesWhite(t[..n], u);
    }
  }

  lemma CountHolds(value: Text, u: CodeUnit)
    requires Count(value).Some? && (u == NUL || u == REPLACEMENT)
    ensures u !in value
  {
    if u in value {
      TrimStartLosesWhite(value, u);
      TrimEndLosesWhite(TrimStart(value), u);
      assert false;
    }
  }

  // ---------------------------------------------------------------- names and months

  lemma {:induction false} CodePointsAre(t: Text)
    ensures CodePoints(t) == |Scalars(t)|
    decreases |t|
  {
    if t == [] {
    } else {
      CodePointsAre(t[JsonText.Width(t)..]);
    }
  }

  /** One to a hundred characters, none of them a control character. */
  predicate SafeName(t: Text) {
    1 <= |Scalars(t)| <= 100 && forall u :: u in t ==> u >= 0x20 && u != 0x7F
  }

  lemma SafeExactly(t: Text)
    ensures SafeStore(t) <==> SafeName(t)
  {
    CodePointsAre(t);
    hide CodePoints, Scalars;
    assert forall k :: 0 <= k < |t| ==> t[k] in t;
  }

  /** Year and month, the month in two digits. */
  function MonthText(year: nat, month: nat): Text {
    Decimal(year) + [0x2D] + (if month < 10 then [0x30] else []) + Decimal(month)
  }

  ghost predicate NamesMonth(t: Text) {
    exists year: nat, month: nat :: 2000 <= year < 2100 && 1 <= month <= 12 && t == MonthText(year, month)
  }

  lemma TwoDigits(n: nat)
    ensures n < 10 ==> Decimal(n) == [0x30 + n]
    ensures 10 <= n < 100 ==> Decimal(n) == [0x30 + n / 10, 0x30 + n % 10]
  {
  }

  lemma FourDigits(n: nat)
    requires 2000 <= n < 2100
    ensures Decimal(n) == [0x32, 0x30, 0x30 + n / 10 % 10, 0x30 + n % 10]
  {
    assert n / 10 / 10 == 20 && n / 10 >= 200;
    TwoDigits(20);
    assert Decimal(n / 10) == Decimal(20) + [0x30 + n / 10 % 10];
  }

  lemma MonthWritten(t: Text)
    requires IsMonth(t)
    ensures NamesMonth(t)
  {
    hide Decimal;
    var year, month := 2000 + (t[2] - 0x30) * 10 + (t[3] - 0x30), (t[5] - 0x30) * 10 + (t[6] - 0x30);
    FourDigits(year);
    TwoDigits(month);
    assert year / 10 % 10 == t[2] - 0x30 && year % 10 == t[3] - 0x30;
    assert t == MonthText(year, month);
  }

  lemma MonthExactly(t: Text)
    ensures IsMonth(t) <==> NamesMonth(t)
  {
    hide Decimal;
    if IsMonth(t) {
      MonthWritten(t);
    }
    if NamesMonth(t) {
      var year: nat, month: nat :| 2000 <= year < 2100 && 1 <= month <= 12 && t == MonthText(year, month);
      FourDigits(year);
      TwoDigits(month);
    }
  }

  /** A candidate the template lists. */
  lemma AllowedExactly(c: Candidate)
    ensures Allowed(c) <==> SafeName(c.store) && NamesMonth(c.period)
  {
    SafeExactly(c.store);
    MonthExactly(c.period);
    hide SafeStore, IsMonth, SafeName, NamesMonth;
  }

  /** Two lines have one key if they name the same month and stores that fold to the same text. */
  lemma KeysMeet(a: Text, p: Text, b: Text, q: Text, loc: Locale)
    requires IsMonth(p) && IsMonth(q)
    ensures KeyOf(a, p, loc) == KeyOf(b, q, loc) <==> loc.fold(a) == loc.fold(b) && p == q
  {
    hide IsDigit;
    var x, y := KeyOf(a, p, loc), KeyOf(b, q, loc);
    if x == y {
      assert p == x[|x| - 7..] && q == y[|y| - 7..];
      assert loc.fold(a) == x[..|x| - 8] && loc.fold(b) == y[..|y| - 8];
    }
  }

  // ---------------------------------------------------------------- what the parser accepts

  /** Name and month are in order, both cells are numbers below a million. */
  ghost predicate ValuesFine(row: Row, loc: Locale) {
    && |row| == 4 && SafeName(Trim(row[0])) && loc.nfc(Trim(row[0])) == Trim(row[0]) && NamesMonth(Trim(row[1]))
    && (exists n: nat :: n < 1000000 && Trim(row[2]) == Decimal(n))
    && (exists n: nat :: n < 1000000 && Trim(row[3]) == Decimal(n))
  }

  /** What a row says, the cells trimmed. */
  predicate ReadsAs(row: Row, m: Monthly) {
    && |row| == 4 && m.store == Trim(row[0]) && m.period == Trim(row[1])
    && Trim(row[2]) == Decimal(m.resident) && Trim(row[3]) == Decimal(m.working)
    && m.resident < 1000000 && m.working < 1000000
  }

  /** A row in order, with no more people working than resident. */
  ghost predicate GoodRow(row: Row, loc: Locale) {
    ValuesFine(row, loc) && forall m :: ReadsAs(row, m) ==> m.working <= m.resident
  }

  lemma CountExactly(value: Text)
    ensures Count(value).Some? <==> exists n: nat :: n < 1000000 && Trim(value) == Decimal(n)
    ensures Count(value).Some? ==> Count(value).value < 1000000 && Trim(value) == Decimal(Count(value).value)
    ensures forall n: nat :: n < 1000000 && Trim(value) == Decimal(n) ==> Count(value) == Some(n)
  {
    hide Count, Trim, Decimal;
    forall n: nat ensures Count(value) == Some(n) <==> n < 1000000 && Trim(value) == Decimal(n) {
      CountReads(value, n);
    }
    if Count(value).Some? {
      var n := Count(value).value;
      assert Count(value) == Some(n) && n < 1000000 && Trim(value) == Decimal(n);
    }
  }

  /** A row is good, for a wrong number of cells, a wrong value or too many working refused. */
  lemma RowExactly(row: Row, loc: Locale)
    ensures var c := CheckRow(row, loc);
      && (c.Good? <==> GoodRow(row, loc)) && (c.Good? ==> ReadsAs(row, c.entry))
      && (c == Bad(ShapeInvalid) <==> |row| != 4)
      && (c == Bad(ValueInvalid) <==> |row| == 4 && !ValuesFine(row, loc))
      && (c == Bad(CountMismatch) <==> ValuesFine(row, loc) && !GoodRow(row, loc))
      && (c.Bad? ==> c.why in {ShapeInvalid, ValueInvalid, CountMismatch})
  {
    hide Count, Trim, SafeStore, SafeName, IsMonth, NamesMonth, Decimal;
    if |row| == 4 {
      SafeExactly(Trim(row[0]));
      MonthExactly(Trim(row[1]));
      CountExactly(row[2]);
      CountExactly(row[3]);
      if ValuesFine(row, loc) {
        var m := Monthly(Trim(row[0]), Trim(row[1]), Count(row[2]).value, Count(row[3]).value);
        assert ReadsAs(row, m);
        forall x | ReadsAs(row, x) ensures x == m {
          assert Count(row[2]) == Some(x.resident) && Count(row[3]) == Some(x.working);
        }
      }
    }
  }

  function Entry(row: Row, loc: Locale): Monthly {
    match CheckRow(row, loc)
    case Good(m) => m
    case Bad(_) => Monthly([], [], 0, 0)
  }

  function Entries(data: seq<Row>, loc: Locale): (r: seq<Monthly>)
    ensures |r| == |data|
    ensures forall k :: 0 <= k < |data| ==> r[k] == Entry(data[k], loc)
  {
    seq(|data|, k requires 0 <= k < |data| => Entry(data[k], loc))
  }

  function EntryKeys(data: seq<Row>, loc: Locale): (r: seq<Text>)
    ensures |r| == |data|
    ensures forall k :: 0 <= k < |data| ==> r[k] == MonthlyKey(Entry(data[k], loc), loc)
  {
    seq(|data|, k requires 0 <= k < |data| => MonthlyKey(Entry(data[k], loc), loc))
  }

  ghost predicate AllGood(data: seq<Row>, loc: Locale) {
    forall k :: 0 <= k < |data| ==> GoodRow(data[k], loc)
  }

  ghost predicate Outside(keys: seq<Text>, taken: set<Text>) {
    forall k :: 0 <= k < |keys| ==> keys[k] !in taken
  }

  lemma ConsDistinct(key: Text, rest: seq<Text>, taken: set<Text>)
    ensures NoRepeats([key] + rest) && Outside([key] + rest, taken)
       <==> key !in taken && NoRepeats(rest) && Outside(rest, taken + {key})
  {
    var all := [key] + rest;
    assert all[0] == key;
    if NoRepeats(all) && Outside(all, taken) {
      forall k | 0 <= k < |rest| ensures rest[k] !in taken + {key} {
        assert all[k + 1] == rest[k] && all[0] != all[k + 1];
      }
      assert forall i, j :: 0 <= i < j < |rest| ==> rest[i] == all[i + 1] && rest[j] == all[j + 1];
    }
  }

  lemma EntriesUnfold(data: seq<Row>, loc: Locale)
    requires data != []
    ensures Entries(data, loc) == [Entry(data[0], loc)] + Entries(data[1..], loc)
    ensures EntryKeys(data, loc) == [MonthlyKey(Entry(data[0], loc), loc)] + EntryKeys(data[1..], loc)
  {
    hide *;
  }

  lemma GoodUnfold(data: seq<Row>, loc: Locale)
    requires data != []
    ensures AllGood(data, loc) <==> CheckRow(data[0], loc).Good? && AllGood(data[1..], loc)
  {
    hide *;
    GoodSplit(data, loc);
    RowExactly(data[0], loc);
  }

  lemma GoodSplit(data: seq<Row>, loc: Locale)
    requires data != []
    ensures AllGood(data, loc) <==> GoodRow(data[0], loc) && AllGood(data[1..], loc)
  {
    hide GoodRow;
    assert data == [data[0]] + data[1..];
    assert forall k :: 0 < k < |data| ==> data[k] == data[1..][k - 1];
  }

  /** The loop accepts exactly the rows that are each good and have distinct keys, and keeps their order. */
  lemma {:induction false} JudgeAccepts(data: seq<Row>, keys: set<Text>, normalized: seq<Monthly>, loc: Locale)
    ensures Judge(data, keys, normalized, loc).Ready?
       <==> AllGood(data, loc) && NoRepeats(EntryKeys(data, loc)) && Outside(EntryKeys(data, loc), keys)
    ensures Judge(data, keys, normalized, loc).Ready?
        ==> Judge(data, keys, normalized, loc) == Ready(normalized + Entries(data, loc))
    decreases |data|
  {
    hide CheckRow, MonthlyKey, Entries, EntryKeys, NoRepeats, Outside, AllGood;
    if data == [] {
      NothingToJudge(keys, loc);
    } else {
      var m := Entry(data[0], loc);
      EntriesUnfold(data, loc);
      GoodUnfold(data, loc);
      ConsDistinct(MonthlyKey(m, loc), EntryKeys(data[1..], loc), keys);
      if CheckRow(data[0], loc).Good? && MonthlyKey(m, loc) !in keys {
        JudgeAccepts(data[1..], keys + {MonthlyKey(m, loc)}, normalized + [m], loc);
        assert normalized + ([m] + Entries(data[1..], loc)) == (normalized + [m]) + Entries(data[1..], loc);
      }
    }
  }

  lemma NothingToJudge(keys: set<Text>, loc: Locale)
    ensures AllGood([], loc) && NoRepeats(EntryKeys([], loc)) && Outside(EntryKeys([], loc), keys)
    ensures Entries([], loc) == []
  {
  }

  /** A text is LOCAL_READY exactly when it reads as the header and one to MAX_ROWS good rows with
      distinct keys; the receipt then lists them in file order. */
  lemma ParseAccepts(text: Text, loc: Locale)
    ensures Parse(text, loc).Ready?
       <==> && Read(Lax, text).Some?
            && var rows := Read(Lax, text).value;
               && 1 < |rows| <= MAX_ROWS + 1 && rows[0] == HEADERS
               && AllGood(rows[1..], loc) && NoRepeats(EntryKeys(rows[1..], loc))
    ensures Parse(text, loc).Ready? ==>
      var data := Read(Lax, text).value[1..];
      Parse(text, loc) == Ready(Entries(data, loc)) && AllReadAs(data, Entries(data, loc))
  {
    hide Read, Judge, AllGood, NoRepeats, EntryKeys, Entries, Lit, AllReadAs;
    if Read(Lax, text).Some? && |Read(Lax, text).value| > 1 {
      var data := Read(Lax, text).value[1..];
      JudgeAccepts(data, {}, [], loc);
      assert Outside(EntryKeys(data, loc), {});
      assert [] + Entries(data, loc) == Entries(data, loc);
      if AllGood(data, loc) { GoodReadAs(data, loc); }
    }
  }

  /** Each entry is what its row says. */
  predicate AllReadAs(data: seq<Row>, entries: seq<Monthly>) {
    |entries| == |data| && forall k :: 0 <= k < |data| ==> ReadsAs(data[k], entries[k])
  }

  lemma GoodReadAs(data: seq<Row>, loc: Locale)
    requires AllGood(data, loc)
    ensures AllReadAs(data, Entries(data, loc))
  {
    hide CheckRow, ReadsAs, GoodRow;
    forall k | 0 <= k < |data| ensures ReadsAs(data[k], Entries(data, loc)[k]) {
      RowExactly(data[k], loc);
    }
  }

  /** The first k rows are good and have different keys. */
  ghost predicate GoodUpTo(data: seq<Row>, k: nat, taken: set<Text>, loc: Locale)
    requires k <= |data|
  {
    && AllGood(data[..k], loc) && NoRepeats(EntryKeys(data[..k], loc)) && Outside(EntryKeys(data[..k], loc), taken)
  }

  /** What is wrong with row k, behind rows that are in order: its shape, its values, its counts, or its key. */
  ghost predicate FaultAt(data: seq<Row>, k: nat, taken: set<Text>, loc: Locale, why: Receipt) {
    && k < |data| && GoodUpTo(data, k, taken, loc)
    && match why
       case ShapeInvalid => |data[k]| != 4
       case ValueInvalid => |data[k]| == 4 && !ValuesFine(data[k], loc)
       case CountMismatch => ValuesFine(data[k], loc) && !GoodRow(data[k], loc)
       case Duplicate => GoodRow(data[k], loc) && !GoodUpTo(data, k + 1, taken, loc)
       case _ => false
  }

  lemma FaultUnfold(data: seq<Row>, k: nat, taken: set<Text>, loc: Locale, why: Receipt)
    requires 0 < k < |data| && GoodRow(data[0], loc)
    requires var key := MonthlyKey(Entry(data[0], loc), loc);
      key !in taken && FaultAt(data[1..], k - 1, taken + {key}, loc, why)
    ensures FaultAt(data, k, taken, loc, why)
  {
    hide GoodRow, ValuesFine, Entry, MonthlyKey, NoRepeats, Outside;
    GoodShift(data, k, taken, loc);
    GoodShift(data, k + 1, taken, loc);
    assert data[1..][k - 1] == data[k];
  }

  lemma GoodShift(data: seq<Row>, k: nat, taken: set<Text>, loc: Locale)
    requires 0 < k <= |data| && GoodRow(data[0], loc) && MonthlyKey(Entry(data[0], loc), loc) !in taken
    ensures GoodUpTo(data, k, taken, loc)
       <==> GoodUpTo(data[1..], k - 1, taken + {MonthlyKey(Entry(data[0], loc), loc)}, loc)
  {
    hide GoodRow, Entry, MonthlyKey, NoRepeats, Outside;
    var front, rest := data[..k], data[1..][..k - 1];
    assert front == [data[0]] + rest && front[1..] == rest;
    EntriesUnfold(front, loc);
    AllGoodUnfold(front, loc);
    ConsDistinct(MonthlyKey(Entry(data[0], loc), loc), EntryKeys(rest, loc), taken);
  }

  lemma AllGoodUnfold(data: seq<Row>, loc: Locale)
    requires data != []
    ensures AllGood(data, loc) <==> GoodRow(data[0], loc) && AllGood(data[1..], loc)
  {
    hide GoodRow;
    assert data == [data[0]] + data[1..];
  }

  lemma {:induction false} JudgeRefuses(data: seq<Row>, keys: set<Text>, normalized: seq<Monthly>, loc: Locale)
    requires !Judge(data, keys, normalized, loc).Ready?
    ensures exists k: nat :: FaultAt(data, k, keys, loc, Judge(data, keys, normalized, loc))
    decreases |data|
  {
    hide CheckRow, MonthlyKey, FaultAt, GoodRow, ValuesFine, Entry, Judge;
    JudgeNext(data, keys, normalized, loc);
    var m := Entry(data[0], loc);
    if CheckRow(data[0], loc).Bad? || MonthlyKey(m, loc) in keys {
      FirstFault(data, keys, normalized, loc);
    } else {
      var next := keys + {MonthlyKey(m, loc)};
      var why := Judge(data, keys, normalized, loc);
      JudgeRefuses(data[1..], next, normalized + [m], loc);
      var k: nat :| FaultAt(data[1..], k, next, loc, why);
      FaultInside(data[1..], k, next, loc, why);
      FaultUnfold(data, k + 1, keys, loc, why);
    }
  }

  /** A good row with a new key passes the judgement on to the next row. */
  lemma JudgeNext(data: seq<Row>, keys: set<Text>, normalized: seq<Monthly>, loc: Locale)
    requires !Judge(data, keys, normalized, loc).Ready?
    ensures data != []
    ensures var m := Entry(data[0], loc);
      CheckRow(data[0], loc).Good? && MonthlyKey(m, loc) !in keys ==>
        && GoodRow(data[0], loc)
        && Judge(data, keys, normalized, loc) == Judge(data[1..], keys + {MonthlyKey(m, loc)}, normalized + [m], loc)
  {
    hide CheckRow, MonthlyKey, GoodRow, ValuesFine;
    if data != [] {
      RowExactly(data[0], loc);
      GoodEntry(data[0], loc);
    }
  }

  lemma GoodEntry(row: Row, loc: Locale)
    ensures CheckRow(row, loc).Good? ==> CheckRow(row, loc) == Good(Entry(row, loc))
  {
  }

  lemma FaultInside(data: seq<Row>, k: nat, taken: set<Text>, loc: Locale, why: Receipt)
    requires FaultAt(data, k, taken, loc, why)
    ensures k < |data|
  {
  }

  lemma FirstFault(data: seq<Row>, keys: set<Text>, normalized: seq<Monthly>, loc: Locale)
    requires data != [] && (CheckRow(data[0], loc).Bad? || MonthlyKey(Entry(data[0], loc), loc) in keys)
    ensures FaultAt(data, 0, keys, loc, Judge(data, keys, normalized, loc))
  {
    hide CheckRow, MonthlyKey, GoodRow, ValuesFine, Entry, NoRepeats, Judge;
    RowExactly(data[0], loc);
    GoodEntry(data[0], loc);
    NothingToJudge(keys, loc);
    FirstVerdict(data, keys, normalized, loc);
    assert data[..0] == [];
    var front := data[..1];
    assert front == [data[0]];
    assert EntryKeys(front, loc)[0] == MonthlyKey(Entry(data[0], loc), loc);
  }

  lemma FirstVerdict(data: seq<Row>, keys: set<Text>, normalized: seq<Monthly>, loc: Locale)
    requires data != []
    ensures match CheckRow(data[0], loc)
      case Bad(why) => Judge(data, keys, normalized, loc) == why
      case Good(m) => MonthlyKey(m, loc) in keys ==> Judge(data, keys, normalized, loc) == Duplicate
  {
    hide CheckRow, MonthlyKey;
  }

  /** A text that is not accepted is refused for the first thing that is wrong: that it does not read, its
      header, no rows, too many rows, or the first row at fault. */
  lemma ParseRefuses(text: Text, loc: Locale)
    ensures var why, read := Parse(text, loc), Read(Lax, text);
      && (why == Malformed <==> read == None)
      && (why == HeaderMismatch <==> read.Some? && (read.value == [] || read.value[0] != HEADERS))
      && (why == NoData <==> read.Some? && |read.value| == 1 && read.value[0] == HEADERS)
      && (why == RowLimit <==> read.Some? && |read.value| > 10001 && read.value[0] == HEADERS)
      && (!why.Ready? && why !in {Malformed, HeaderMismatch, NoData, RowLimit} ==>
           && read.Some? && 1 < |read.value| <= 10001 && read.value[0] == HEADERS
           && exists k: nat :: FaultAt(read.value[1..], k, {}, loc, why))
  {
    hide Read, Judge, HEADERS, FaultAt;
    var read := Read(Lax, text);
    if read.Some? && 1 < |read.value| <= MAX_ROWS + 1 && read.value[0] == HEADERS {
      JudgeIsNoHeader(read.value[1..], {}, [], loc);
      if !Parse(text, loc).Ready? { JudgeRefuses(read.value[1..], {}, [], loc); }
    }
  }

  lemma {:induction false} JudgeIsNoHeader(data: seq<Row>, keys: set<Text>, normalized: seq<Monthly>, loc: Locale)
    ensures Judge(data, keys, normalized, loc) !in {Malformed, HeaderMismatch, NoData, RowLimit}
    decreases |data|
  {
    hide CheckRow, MonthlyKey, GoodRow, ValuesFine;
    if data == [] {
    } else {
      RowExactly(data[0], loc);
      match CheckRow(data[0], loc) {
        case Bad(_) =>
        case Good(m) => JudgeIsNoHeader(data[1..], keys + {MonthlyKey(m, loc)}, normalized + [m], loc);
      }
    }
  }

  // ---------------------------------------------------------------- what the template holds

  function CandidateKeys(s: seq<Candidate>, loc: Locale): (r: seq<Text>)
    ensures |r| == |s|
    ensures forall k :: 0 <= k < |s| ==> r[k] == CandidateKey(s[k], loc)
  {
    seq(|s|, k requires 0 <= k < |s| => CandidateKey(s[k], loc))
  }

  /** The first candidate of its key, trimmed, among those that are well formed. */
  ghost predicate FirstOfKey(candidates: seq<Candidate>, c: Candidate, loc: Locale) {
    exists j :: 0 <= j < |candidates| && FirstAt(candidates, j, c, loc)
  }

  ghost predicate FirstAt(candidates: seq<Candidate>, j: int, c: Candidate, loc: Locale)
    requires 0 <= j < |candidates|
  {
    && Trimmed(candidates[j]) == c && Allowed(c)
    && forall i :: 0 <= i < j && Allowed(Trimmed(candidates[i])) ==>
         CandidateKey(Trimmed(candidates[i]), loc) != CandidateKey(c, loc)
  }

  lemma FirstOfRest(candidates: seq<Candidate>, c: Candidate, loc: Locale)
    requires candidates != []
    ensures var head := Trimmed(candidates[0]);
      FirstOfKey(candidates, c, loc)
      <==> ((head == c && Allowed(c))
            || (FirstOfKey(candidates[1..], c, loc) && !(Allowed(head) && CandidateKey(head, loc) == CandidateKey(c, loc))))
  {
    hide Trimmed, Allowed, CandidateKey;
    var head, rest := Trimmed(candidates[0]), candidates[1..];
    if FirstOfKey(candidates, c, loc) {
      var j :| 0 <= j < |candidates| && FirstAt(candidates, j, c, loc);
      if j > 0 {
        assert FirstAt(rest, j - 1, c, loc) by {
          assert forall i :: 0 <= i < j - 1 ==> rest[i] == candidates[i + 1];
        }
      }
    }
    if head == c && Allowed(c) {
      assert FirstAt(candidates, 0, c, loc);
    } else if FirstOfKey(rest, c, loc) && !(Allowed(head) && CandidateKey(head, loc) == CandidateKey(c, loc)) {
      var j :| 0 <= j < |rest| && FirstAt(rest, j, c, loc);
      assert FirstAt(candidates, j + 1, c, loc) by {
        assert forall i :: 0 < i < j + 1 ==> candidates[i] == rest[i - 1];
      }
    }
  }

  /** Picking keeps exactly the first well-formed candidate of each key not seen before. */
  lemma {:induction false} PickExactly(candidates: seq<Candidate>, seen: set<Text>, c: Candidate, loc: Locale)
    ensures c in Pick(candidates, seen, loc)
       <==> FirstOfKey(candidates, c, loc) && CandidateKey(c, loc) !in seen
    decreases |candidates|
  {
    hide Trimmed, Allowed, CandidateKey, FirstOfKey, Pick;
    if candidates == [] {
      NothingPicked(seen, c, loc);
    } else {
      var head := Trimmed(candidates[0]);
      PickOne(candidates, seen, loc);
      FirstOfRest(candidates, c, loc);
      PickExactly(candidates[1..], seen, c, loc);
      PickExactly(candidates[1..], seen + {CandidateKey(head, loc)}, c, loc);
    }
  }

  lemma NothingPicked(seen: set<Text>, c: Candidate, loc: Locale)
    ensures Pick([], seen, loc) == [] && !FirstOfKey([], c, loc)
  {
  }

  lemma PickedDistinct(head: Candidate, rest: seq<Candidate>, loc: Locale)
    requires NoRepeats(CandidateKeys(rest, loc))
    requires forall c :: c in rest ==> CandidateKey(c, loc) != CandidateKey(head, loc)
    ensures NoRepeats(CandidateKeys([head] + rest, loc))
  {
    hide CandidateKey;
    var key := CandidateKey(head, loc);
    assert CandidateKeys([head] + rest, loc) == [key] + CandidateKeys(rest, loc);
    ConsDistinct(key, CandidateKeys(rest, loc), {});
  }

  /** No key is picked twice. */
  lemma {:induction false} PickDistinct(candidates: seq<Candidate>, seen: set<Text>, loc: Locale)
    ensures NoRepeats(CandidateKeys(Pick(candidates, seen, loc), loc))
    decreases |candidates|
  {
    if candidates == [] {
      PickNone(seen, loc);
    } else {
      hide Trimmed, Allowed, CandidateKey, Pick, NoRepeats, FirstOfKey, CandidateKeys;
      var head := Trimmed(candidates[0]);
      var key := CandidateKey(head, loc);
      PickOne(candidates, seen, loc);
      if !Allowed(head) || key in seen {
        PickDistinct(candidates[1..], seen, loc);
      } else {
        PickDistinct(candidates[1..], seen + {key}, loc);
        var rest := Pick(candidates[1..], seen + {key}, loc);
        forall c | c in rest ensures CandidateKey(c, loc) != key {
          PickExactly(candidates[1..], seen + {key}, c, loc);
        }
        PickedDistinct(head, rest, loc);
      }
    }
  }

  /** Sorting permutes, and so repeats no key. */
  lemma SortedDistinct(s: seq<Candidate>, sorted: seq<Candidate>, loc: Locale)
    requires multiset(sorted) == multiset(s) && NoRepeats(CandidateKeys(s, loc))
    ensures NoRepeats(CandidateKeys(sorted, loc))
  {
    hide CandidateKey;
    assert NoRepeats(s) by {
      forall i, j | 0 <= i < j < |s| ensures s[i] != s[j] {
        assert CandidateKeys(s, loc)[i] != CandidateKeys(s, loc)[j];
      }
    }
    PermutationKeeps(s, sorted);
    forall i, j | 0 <= i < j < |sorted| ensures CandidateKeys(sorted, loc)[i] != CandidateKeys(sorted, loc)[j] {
      assert sorted[i] in ToSet(sorted) && sorted[j] in ToSet(sorted);
      var p :| 0 <= p < |s| && s[p] == sorted[i];
      var q :| 0 <= q < |s| && s[q] == sorted[j];
      assert CandidateKeys(s, loc)[p] != CandidateKeys(s, loc)[q];
    }
  }

  lemma {:induction false} CodePointsBound(t: Text)
    ensures CodePoints(t) <= |t| && (t != [] ==> CodePoints(t) >= 1)
  {
    if t == [] {
    } else {
      CodePointsBound(t[1..]);
      if |t| > 1 { CodePointsBound(t[2..]); }
    }
  }

  lemma ExampleAllowed()
    ensures Allowed(EXAMPLE) && Trimmed(EXAMPLE) == EXAMPLE
  {
    CodePointsBound(EXAMPLE.store);
    TrimFixed(EXAMPLE.store);
    TrimFixed(EXAMPLE.period);
    hide Trim, CodePoints;
    assert SafeStore(EXAMPLE.store);
    assert IsMonth(EXAMPLE.period);
    assert Trim(EXAMPLE.store) == EXAMPLE.store;
    assert Trim(EXAMPLE.period) == EXAMPLE.period;
  }

  lemma TrimmedFixed(c: Candidate)
    ensures Trimmed(Trimmed(c)) == Trimmed(c)
  {
    TrimFixed(c.store);
    TrimFixed(c.period);
  }

  /** The signs of a comparison are those of an order. */
  ghost predicate Compares(f: (Text, Text) -> int) {
    && (forall a, b :: f(a, b) < 0 <==> f(b, a) > 0)
    && (forall a, b, c :: f(a, b) <= 0 && f(b, c) <= 0 ==> f(a, c) <= 0)
  }

  lemma ComparesConsistent(loc: Locale)
    requires Compares(loc.byPeriod) && Compares(loc.byName)
    ensures InsertionSort.Consistent(ByPeriodAndName(loc))
  {
    forall a: Candidate, b: Candidate ensures NotAfter(a, b, loc) || NotAfter(b, a, loc) {
      assert loc.byPeriod(a.period, b.period) < 0 <==> loc.byPeriod(b.period, a.period) > 0;
      assert loc.byName(a.store, b.store) < 0 <==> loc.byName(b.store, a.store) > 0;
    }
    forall a: Candidate, b: Candidate, c: Candidate | NotAfter(a, b, loc) && NotAfter(b, c, loc) ensures NotAfter(a, c, loc) {
      Chains(loc.byPeriod, a.period, b.period, c.period);
      if loc.byPeriod(a.period, c.period) == 0 { Chains(loc.byName, a.store, b.store, c.store); }
    }
  }

  lemma Chains(f: (Text, Text) -> int, a: Text, b: Text, c: Text)
    requires Compares(f) && f(a, b) <= 0 && f(b, c) <= 0
    ensures f(a, c) <= 0 && (f(a, c) == 0 <==> f(a, b) == 0 && f(b, c) == 0)
  {
  }

  /** By period, and by name within a period. */
  predicate PeriodsThenNames(rows: seq<Candidate>, loc: Locale) {
    forall i, j :: 0 <= i < j < |rows| ==>
      || loc.byPeriod(rows[i].period, rows[j].period) < 0
      || (loc.byPeriod(rows[i].period, rows[j].period) == 0 && loc.byName(rows[i].store, rows[j].store) <= 0)
  }

  lemma OrderedRows(rows: seq<Candidate>, loc: Locale)
    requires InsertionSort.Ordered(ByPeriodAndName(loc), rows)
    ensures PeriodsThenNames(rows, loc)
  {
    forall i, j | 0 <= i < j < |rows| ensures NotAfter(rows[i], rows[j], loc) {
      assert ByPeriodAndName(loc)(rows[i], rows[j]);
    }
  }

  /** The template lists the first well-formed candidate of each key once, in order; with no such
      candidate it lists the example. */
  lemma TemplateHolds(candidates: seq<Candidate>, loc: Locale)
    ensures var rows := TemplateRows(candidates, loc);
      && rows != []
      && NoRepeats(CandidateKeys(rows, loc))
      && (forall c :: c in rows ==> Allowed(c) && Trimmed(c) == c)
      && (Compares(loc.byPeriod) && Compares(loc.byName) ==> PeriodsThenNames(rows, loc))
      && ((forall c :: c in rows <==> FirstOfKey(candidates, c, loc))
          || (rows == [EXAMPLE] && forall c :: !FirstOfKey(candidates, c, loc)))
  {
    hide Allowed, Trimmed, CandidateKey, Pick, NotAfter, EXAMPLE;
    var picked := Pick(candidates, {}, loc);
    var sorted := Sorted(picked, loc);
    PickDistinct(candidates, {}, loc);
    InsertionSort.SortPermutes(ByPeriodAndName(loc), picked);
    SortedDistinct(picked, sorted, loc);
    if Compares(loc.byPeriod) && Compares(loc.byName) {
      ComparesConsistent(loc);
      InsertionSort.SortSorts(ByPeriodAndName(loc), picked);
      OrderedRows(sorted, loc);
    }
    ExampleAllowed();
    forall c ensures c in sorted <==> FirstOfKey(candidates, c, loc) {
      PickExactly(candidates, {}, c, loc);
      assert c in sorted <==> c in multiset(sorted);
      assert c in picked <==> c in multiset(picked);
    }
    forall c | c in sorted ensures Allowed(c) && Trimmed(c) == c {
      var j :| 0 <= j < |candidates| && FirstAt(candidates, j, c, loc);
      TrimmedFixed(candidates[j]);
    }
    if sorted == [] {
      assert forall c :: c !in sorted;
    }
  }

  // ---------------------------------------------------------------- the round trip

  predicate ValidFill(f: Fill) {
    Count(f.resident).Some? && Count(f.working).Some? && Count(f.working).value <= Count(f.resident).value
  }

  /** Left unchanged by NFC, and free of the replacement character. */
  predicate Clean(c: Candidate, loc: Locale) {
    loc.nfc(c.store) == c.store && REPLACEMENT !in c.store
  }

  /** The number a count cell holds; 0 for any other cell. */
  function NumberIn(cell: Text): nat {
    match Count(cell)
    case Some(n) => n
    case None => 0
  }

  function Answer(c: Candidate, f: Fill): Monthly {
    Monthly(c.store, c.period, NumberIn(f.resident), NumberIn(f.working))
  }

  function Answers(rows: seq<Candidate>, fills: seq<Fill>): (r: seq<Monthly>)
    requires |fills| == |rows|
    ensures |r| == |rows|
    ensures forall k :: 0 <= k < |rows| ==> r[k] == Answer(rows[k], fills[k])
  {
    seq(|rows|, k requires 0 <= k < |rows| => Answer(rows[k], fills[k]))
  }

  lemma FilledRowChecks(c: Candidate, f: Fill, loc: Locale)
    requires Allowed(c) && Trimmed(c) == c && ValidFill(f)
    ensures CheckRow(FilledRow(c, f), loc).Good? <==> loc.nfc(c.store) == c.store
    ensures loc.nfc(c.store) == c.store ==>
              Entry(FilledRow(c, f), loc) == Answer(c, f)
  {
    hide Trim, SafeStore, IsMonth, Count;
  }

  predicate RowFreeOf(u: CodeUnit, row: Row) {
    forall j :: 0 <= j < |row| ==> u !in row[j]
  }

  lemma FreeByRow(u: CodeUnit, head: Row, rows: seq<Row>)
    ensures CellsFreeOf(u, [head] + rows)
       <==> RowFreeOf(u, head) && forall k :: 0 <= k < |rows| ==> RowFreeOf(u, rows[k])
  {
    var all := [head] + rows;
    assert all[0] == head;
    forall k | 0 <= k < |rows| ensures all[k + 1] == rows[k] {}
    if CellsFreeOf(u, all) {
      forall k, j | 0 <= k < |rows| && 0 <= j < |rows[k]| ensures u !in rows[k][j] {
        assert u !in all[k + 1][j];
      }
    }
  }

  lemma AllowedHolds(c: Candidate)
    requires Allowed(c)
    ensures c.store != [] && NUL !in c.store && NUL !in c.period && REPLACEMENT !in c.period
  {
    hide CodePoints;
    assert c.store != [] by { assert CodePoints([]) == 0 by { CodePointsBound([]); } }
    assert forall k :: 0 <= k < 7 ==> 0x2D <= c.period[k] <= 0x39;
  }

  lemma FilledRowHolds(c: Candidate, f: Fill, u: CodeUnit)
    requires Allowed(c) && ValidFill(f) && (u == NUL || u == REPLACEMENT)
    ensures RowFreeOf(u, FilledRow(c, f)) <==> u == NUL || REPLACEMENT !in c.store
  {
    CountHolds(f.resident, u);
    CountHolds(f.working, u);
    AllowedHolds(c);
    hide Count, Allowed, ValidFill;
    assert FilledRow(c, f)[0] == c.store;
  }

  /** The filled-in template as text. */
  function Filled(rows: seq<Candidate>, fills: seq<Fill>): Text
    requires |fills| == |rows|
  {
    Print(OnBreak, [HEADERS] + FilledRows(rows, fills))
  }

  predicate Usable(rows: seq<Candidate>, fills: seq<Fill>) {
    && |fills| == |rows|
    && (forall k :: 0 <= k < |rows| ==> Allowed(rows[k]) && Trimmed(rows[k]) == rows[k])
    && (forall k :: 0 <= k < |rows| ==> ValidFill(fills[k]))
  }

  lemma HeadersHold(u: CodeUnit)
    requires u == NUL || u == REPLACEMENT
    ensures RowFreeOf(u, HEADERS) && |HEADERS| == 4
  {
    hide Lit;
    assert u !in HEADERS[0];
    assert u !in HEADERS[1];
    assert u !in HEADERS[2];
    assert u !in HEADERS[3];
  }

  predicate NamesReadable(rows: seq<Candidate>) {
    forall k :: 0 <= k < |rows| ==> REPLACEMENT !in rows[k].store
  }

  lemma FilledHolds(rows: seq<Candidate>, fills: seq<Fill>, u: CodeUnit)
    requires Usable(rows, fills) && (u == NUL || u == REPLACEMENT)
    ensures CellsFreeOf(u, [HEADERS] + FilledRows(rows, fills)) <==> u == NUL || NamesReadable(rows)
  {
    hide Allowed, ValidFill, Trimmed, HEADERS, RowFreeOf, CellsFreeOf;
    HeadersHold(u);
    FreeByRow(u, HEADERS, FilledRows(rows, fills));
    forall k | 0 <= k < |rows|
      ensures RowFreeOf(u, FilledRows(rows, fills)[k]) <==> u == NUL || REPLACEMENT !in rows[k].store
    {
      FilledRowHolds(rows[k], fills[k], u);
    }
  }

  lemma FilledSurvives(rows: seq<Candidate>, fills: seq<Fill>)
    requires Usable(rows, fills) && rows != []
    ensures Survives(Lax, [HEADERS] + FilledRows(rows, fills)) <==> NamesReadable(rows)
  {
    hide Allowed, ValidFill, Trimmed, CellsFreeOf, NamesReadable;
    FilledHolds(rows, fills, NUL);
    FilledHolds(rows, fills, REPLACEMENT);
    HeadersHold(NUL);
    hide HEADERS;
    var all, last := [HEADERS] + FilledRows(rows, fills), |rows| - 1;
    assert all[|all| - 1] == FilledRow(rows[last], fills[last]);
    AllowedHolds(rows[last]);
    assert NonEmpty(all[|all| - 1]) by { assert all[|all| - 1][0] != []; }
  }

  /** The reader gives back the filled-in rows unless a name holds the replacement character. */
  lemma FilledReads(rows: seq<Candidate>, fills: seq<Fill>)
    requires Usable(rows, fills) && rows != []
    ensures Read(Lax, Filled(rows, fills))
         == if NamesReadable(rows) then Some([HEADERS] + FilledRows(rows, fills)) else None
  {
    hide Allowed, Trimmed, ValidFill, HEADERS, NamesReadable, Read, Print, CellsFreeOf, Kept, Survives;
    var all := [HEADERS] + FilledRows(rows, fills);
    FilledHolds(rows, fills, NUL);
    FilledHolds(rows, fills, REPLACEMENT);
    FilledSurvives(rows, fills);
    ReadPrint(OnBreak, Lax, all);
    PrintThenRead(OnBreak, Lax, all);
  }

  lemma FilledGood(rows: seq<Candidate>, fills: seq<Fill>, loc: Locale)
    requires Usable(rows, fills)
    ensures AllGood(FilledRows(rows, fills), loc) <==> forall k :: 0 <= k < |rows| ==> loc.nfc(rows[k].store) == rows[k].store
    ensures AllGood(FilledRows(rows, fills), loc) ==>
              && Entries(FilledRows(rows, fills), loc) == Answers(rows, fills)
              && EntryKeys(FilledRows(rows, fills), loc) == CandidateKeys(rows, loc)
  {
    hide Allowed, ValidFill, Trimmed, CheckRow, Entry, KeyOf, GoodRow;
    forall k | 0 <= k < |rows|
      ensures GoodRow(FilledRows(rows, fills)[k], loc) <==> loc.nfc(rows[k].store) == rows[k].store
      ensures loc.nfc(rows[k].store) == rows[k].store ==> Entry(FilledRows(rows, fills)[k], loc) == Answer(rows[k], fills[k])
    {
      FilledRowChecks(rows[k], fills[k], loc);
      RowExactly(FilledRow(rows[k], fills[k]), loc);
    }
  }

  /** A filled-in template is accepted, with exactly its rows in order, if and only if it has at most
      MAX_ROWS rows and all its names are clean; nothing else about the candidates matters. */
  lemma FilledAccepted(candidates: seq<Candidate>, fills: seq<Fill>, loc: Locale)
    requires |fills| == |TemplateRows(candidates, loc)|
    requires forall k :: 0 <= k < |fills| ==> ValidFill(fills[k])
    ensures var rows := TemplateRows(candidates, loc);
      Parse(Filled(rows, fills), loc).Ready?
      <==> (|rows| <= MAX_ROWS && forall k :: 0 <= k < |rows| ==> Clean(rows[k], loc))
    ensures var rows := TemplateRows(candidates, loc);
      Parse(Filled(rows, fills), loc).Ready? ==> Parse(Filled(rows, fills), loc) == Ready(Answers(rows, fills))
  {
    hide Allowed, Trimmed, ValidFill, HEADERS, Read, Filled, Parse, TemplateRows, AllGood, NoRepeats, CandidateKeys,
      EntryKeys, Entries, FirstOfKey, Answers;
    var rows := TemplateRows(candidates, loc);
    var text := Filled(rows, fills);
    TemplateHolds(candidates, loc);
    FilledReads(rows, fills);
    ParseAccepts(text, loc);
    FilledGood(rows, fills, loc);
    var all := [HEADERS] + FilledRows(rows, fills);
    assert all[0] == HEADERS && all[1..] == FilledRows(rows, fills);
  }

  /** As handed out, the template reads as the header and its rows with both counts blank, if the names can be
      read at all. */
  lemma TemplateBlank(candidates: seq<Candidate>, loc: Locale)
    requires NamesReadable(TemplateRows(candidates, loc))
    ensures var rows := TemplateRows(candidates, loc);
      Read(Lax, Template(candidates, loc))
      == Some([HEADERS] + seq(|rows|, k requires 0 <= k < |rows| => [rows[k].store, rows[k].period, [], []]))
  {
    hide Allowed, Trimmed, Read, Print, TemplateRows, NoRepeats, CandidateKeys, FirstOfKey, HEADERS;
    var rows := TemplateRows(candidates, loc);
    TemplateHolds(candidates, loc);
    var blank := seq(|rows|, _ => Fill([], []));
    var body := FilledRows(rows, blank);
    assert body == seq(|rows|, k requires 0 <= k < |rows| => [rows[k].store, rows[k].period, [], []]);
    BlankSurvives(rows, body);
    ReadPrint(OnBreak, Lax, [HEADERS] + body);
    PrintThenRead(OnBreak, Lax, [HEADERS] + body);
  }

  lemma BlankSurvives(rows: seq<Candidate>, body: seq<Row>)
    requires rows != [] && NamesReadable(rows) && forall k :: 0 <= k < |rows| ==> Allowed(rows[k])
    requires |body| == |rows| && forall k :: 0 <= k < |rows| ==> body[k] == [rows[k].store, rows[k].period, [], []]
    ensures Survives(Lax, [HEADERS] + body) && ShortEnough(OnBreak, Lax, [HEADERS] + body)
  {
    hide Allowed, HEADERS;
    HeadersHold(NUL);
    HeadersHold(REPLACEMENT);
    forall k | 0 <= k < |rows| ensures RowFreeOf(NUL, body[k]) && RowFreeOf(REPLACEMENT, body[k]) {
      AllowedHolds(rows[k]);
    }
    FreeByRow(NUL, HEADERS, body);
    FreeByRow(REPLACEMENT, HEADERS, body);
    var all, last := [HEADERS] + body, |rows| - 1;
    AllowedHolds(rows[last]);
    assert all[|all| - 1] == body[last] && all[|all| - 1][0] != [];
  }
}
