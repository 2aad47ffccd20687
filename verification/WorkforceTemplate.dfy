/** The monthly headcount form: the template handed out, and the parser that takes it back filled in. */
module WorkforceTemplate {
  import InsertionSort
  import opened Options
  import opened JsStrings
  import opened CsvReaders
  import opened CsvRoundTrip

  const MAX_ROWS := 10000
  const HEADERS: Row := [Lit("store_name"), Lit("year_month"), Lit("resident_headcount"), Lit("working_headcount")]
  const UNIT_SEPARATOR: CodeUnit := 0x1F

  datatype Candidate = Candidate(store: Text, period: Text)

  const EXAMPLE := Candidate(Lit("store-example"), Lit("2026-06"))

  /** The Unicode operations of the run time: fold is NFKC, white space removed, lower case; nfc is NFC;
      the comparisons are localeCompare in the default locale and in Japanese. */
  datatype Locale = Locale(fold: Text -> Text, nfc: Text -> Text,
                           byPeriod: (Text, Text) -> int, byName: (Text, Text) -> int)

  // ---------------------------------------------------------------- names, months and counts

  /** Length in code points: a surrogate pair counts once. */
  function CodePoints(t: Text): nat {
    if t == [] then 0
    else if |t| > 1 && 0xD800 <= t[0] < 0xDC00 && 0xDC00 <= t[1] < 0xE000 then 1 + CodePoints(t[2..])
    else 1 + CodePoints(t[1..])
  }

  /** SAFE_STORE_RE */
  predicate SafeStore(t: Text) {
    1 <= CodePoints(t) <= 100 && forall k :: 0 <= k < |t| ==> t[k] > 0x1F && t[k] != 0x7F
  }

  predicate AllDigits(t: Text) {
    forall k :: 0 <= k < |t| ==> IsDigit(t[k])
  }

  function Numeral(t: Text): nat
    requires AllDigits(t)
  {
    if t == [] then 0 else 10 * Numeral(t[..|t| - 1]) + (t[|t| - 1] - 0x30)
  }

  /** A count cell: its trimmed text is 0, or up to six digits that do not start with 0. */
  function Count(value: Text): Option<nat> {
    var t := Trim(value);
    if AllDigits(t) && (t == [0x30] || (1 <= |t| <= 6 && t[0] != 0x30)) then Some(Numeral(t)) else None
  }

  // ---------------------------------------------------------------- the template

  function Trimmed(c: Candidate): Candidate {
    Candidate(Trim(c.store), Trim(c.period))
  }

  function KeyOf(store: Text, period: Text, loc: Locale): Text {
    loc.fold(store) + [UNIT_SEPARATOR] + period
  }

  function CandidateKey(c: Candidate, loc: Locale): Text {
    KeyOf(c.store, c.period, loc)
  }

  predicate Allowed(c: Candidate) {
    SafeStore(c.store) && IsMonth(c.period)
  }

  /** The candidates kept: trimmed, well formed, the first of each key. */
  function Pick(candidates: seq<Candidate>, seen: set<Text>, loc: Locale): seq<Candidate> {
    if candidates == [] then []
    else
      var c := Trimmed(candidates[0]);
      var key := CandidateKey(c, loc);
      if !Allowed(c) || key in seen then Pick(candidates[1..], seen, loc)
      else [c] + Pick(candidates[1..], seen + {key}, loc)
  }

  predicate NotAfter(a: Candidate, b: Candidate, loc: Locale) {
    var c := loc.byPeriod(a.period, b.period);
    if c != 0 then c < 0 else loc.byName(a.store, b.store) <= 0
  }

  function ByPeriodAndName(loc: Locale): (Candidate, Candidate) -> bool {
    (a, b) => NotAfter(a, b, loc)
  }

  /** The candidates sorted by period, then by name. */
  function Sorted(s: seq<Candidate>, loc: Locale): seq<Candidate> {
    InsertionSort.Sort(ByPeriodAndName(loc), s)
  }

  function TemplateRows(candidates: seq<Candidate>, loc: Locale): seq<Candidate> {
    var kept := Sorted(Pick(candidates, {}, loc), loc);
    if kept == [] then [EXAMPLE] else kept
  }

  datatype Fill = Fill(resident: Text, working: Text)

  function FilledRow(c: Candidate, f: Fill): (r: Row)
    ensures |r| == 4
  {
    [c.store, c.period, f.resident, f.working]
  }

  function FilledRows(rows: seq<Candidate>, fills: seq<Fill>): (r: seq<Row>)
    requires |fills| == |rows|
    ensures |r| == |rows|
    ensures forall k :: 0 <= k < |rows| ==> r[k] == FilledRow(rows[k], fills[k])
  {
    seq(|rows|, k requires 0 <= k < |rows| => FilledRow(rows[k], fills[k]))
  }

  /** The template as text: both counts are left blank. */
  function Template(candidates: seq<Candidate>, loc: Locale): Text {
    var rows := TemplateRows(candidates, loc);
    Print(OnBreak, [HEADERS] + FilledRows(rows, seq(|rows|, _ => Fill([], []))))
  }

  lemma PickOne(candidates: seq<Candidate>, seen: set<Text>, loc: Locale)
    requires candidates != []
    ensures var c := Trimmed(candidates[0]);
      Pick(candidates, seen, loc)
      == if !Allowed(c) || CandidateKey(c, loc) in seen then Pick(candidates[1..], seen, loc)
         else [c] + Pick(candidates[1..], seen + {CandidateKey(c, loc)}, loc)
  {
  }

  /** buildStoreWorkforceMonthlySummaryCsvTemplate */
  method BuildTemplate(candidates: seq<Candidate>, loc: Locale) returns (csv: Text)
    ensures csv == Template(candidates, loc)
  {
    var seen: set<Text>, normalized: seq<Candidate>, k := {}, [], 0;
    hide Pick, Trim, Allowed, CandidateKey;
    while k < |candidates|
      invariant 0 <= k <= |candidates|
      invariant normalized + Pick(candidates[k..], seen, loc) == Pick(candidates, {}, loc)
    {
      PickOne(candidates[k..], seen, loc);
      assert candidates[k..][1..] == candidates[k + 1..];
      var c := Trimmed(candidates[k]);
      var key := CandidateKey(c, loc);
      if Allowed(c) && key !in seen {
        seen := seen + {key};
        normalized := normalized + [c];
      }
      k := k + 1;
    }
    assert normalized == Pick(candidates, {}, loc) by { PickNone(seen, loc); assert candidates[k..] == []; }
    var rows := Sorted(normalized, loc);
    if rows == [] { rows := [EXAMPLE]; }
    csv := Print(OnBreak, [HEADERS] + FilledRows(rows, seq(|rows|, _ => Fill([], []))));
  }

  lemma PickNone(seen: set<Text>, loc: Locale)
    ensures Pick([], seen, loc) == []
  {
  }

  // ---------------------------------------------------------------- the parser

  datatype Monthly = Monthly(store: Text, period: Text, resident: nat, working: nat)

  datatype Receipt =
    | Malformed
    | HeaderMismatch
    | NoData
    | RowLimit
    | ShapeInvalid
    | ValueInvalid
    | CountMismatch
    | Duplicate
    | Ready(rows: seq<Monthly>)

  datatype Checked = Bad(why: Receipt) | Good(entry: Monthly)

  function MonthlyKey(m: Monthly, loc: Locale): Text {
    KeyOf(m.store, m.period, loc)
  }

  function CheckRow(row: Row, loc: Locale): (c: Checked)
    ensures c.Bad? ==> !c.why.Ready?
  {
    if |row| != |HEADERS| then Bad(ShapeInvalid)
    else
      var store, period := Trim(row[0]), Trim(row[1]);
      var resident, working := Count(row[2]), Count(row[3]);
      if !SafeStore(store) || store != loc.nfc(store) || !IsMonth(period) || resident.None? || working.None? then
        Bad(ValueInvalid)
      else if working.value > resident.value then Bad(CountMismatch)
      else Good(Monthly(store, period, resident.value, working.value))
  }

  function Judge(data: seq<Row>, keys: set<Text>, normalized: seq<Monthly>, loc: Locale): Receipt {
    if data == [] then Ready(normalized)
    else match CheckRow(data[0], loc)
      case Bad(why) => why
      case Good(m) =>
        if MonthlyKey(m, loc) in keys then Duplicate
        else Judge(data[1..], keys + {MonthlyKey(m, loc)}, normalized + [m], loc)
  }

  function Parse(text: Text, loc: Locale): Receipt {
    match Read(Lax, text)
    case None => Malformed
    case Some(rows) =>
      if rows == [] || rows[0] != HEADERS then HeaderMismatch
      else if rows[1..] == [] then NoData
      else if |rows[1..]| > MAX_ROWS then RowLimit
      else Judge(rows[1..], {}, [], loc)
  }

  /** parseStoreWorkforceMonthlySummaryCsvText */
  method ParseCsv(text: Text, loc: Locale) returns (r: Receipt)
    ensures r == Parse(text, loc)
  {
    var read := ReadLax(text);
    hide Read, Lit, Trim, SafeStore, IsMonth, Count, KeyOf;
    if read.None? { return Malformed; }
    var rows := read.value;
    if rows == [] || rows[0] != HEADERS { return HeaderMismatch; }
    var data := rows[1..];
    if data == [] { return NoData; }
    if |data| > MAX_ROWS { return RowLimit; }
    var keys: set<Text>, normalized: seq<Monthly>, k := {}, [], 0;
    while k < |data|
      invariant 0 <= k <= |data|
      invariant Judge(data[k..], keys, normalized, loc) == Judge(data, {}, [], loc)
    {
      var row := data[k];
      assert data[k..][1..] == data[k + 1..];
      if |row| != |HEADERS| { return ShapeInvalid; }
      var store, period := Trim(row[0]), Trim(row[1]);
      var resident, working := Count(row[2]), Count(row[3]);
      if !SafeStore(store) || store != loc.nfc(store) || !IsMonth(period) || resident.None? || working.None? {
        return ValueInvalid;
      }
      if working.value > resident.value { return CountMismatch; }
      var key := KeyOf(store, period, loc);
      if key in keys { return Duplicate; }
      keys := keys + {key};
      normalized := normalized + [Monthly(store, period, resident.value, working.value)];
      k := k + 1;
    }
    r := Ready(normalized);
  }
}
