/** The five readers on every text: which texts are tables, by a grammar apart from the automata, and what
    is read from them. */
module CsvGrammar {
  import opened Options
  import opened JsStrings
  import opened CsvReaders
  import opened CsvRoundTrip

  // ---------------------------------------------------------------- the grammar

  /** A character as it stands, or a stretch between quotes in which a quote is written twice. */
  datatype Piece = Plain(unit: CodeUnit) | Enclosed(content: Text)

  type Field = seq<Piece>

  /** One or more fields between commas: those with a comma behind them, and the last one. */
  datatype Record = Record(front: seq<Field>, last: Field)

  const NOTHING := Record([], [])

  datatype Line = Line(record: Record, ending: Text)

  /** The lines that end in a break, and what stands behind the last break. */
  datatype Table = Table(lines: seq<Line>, last: Record)

  function PieceText(p: Piece): (t: Text)
    ensures t != []
  {
    match p
    case Plain(u) => [u]
    case Enclosed(c) => [QUOTE] + Escape(c) + [QUOTE]
  }

  function FieldText(f: Field): Text {
    if f == [] then [] else FieldText(f[..|f| - 1]) + PieceText(f[|f| - 1])
  }

  /** Fields with a comma behind each. */
  function CommaText(fields: seq<Field>): Text {
    if fields == [] then [] else CommaText(fields[..|fields| - 1]) + FieldText(fields[|fields| - 1]) + [COMMA]
  }

  function RecordText(r: Record): Text {
    CommaText(r.front) + FieldText(r.last)
  }

  function LinesText(lines: seq<Line>): Text {
    if lines == [] then []
    else LinesText(lines[..|lines| - 1]) + RecordText(lines[|lines| - 1].record) + lines[|lines| - 1].ending
  }

  function TableText(t: Table): Text {
    LinesText(t.lines) + RecordText(t.last)
  }

  /** What each reader takes for a separator outside quotes. */
  function Reserved(d: Reader): set<CodeUnit> {
    if d == Strict || d == Evidence then {COMMA, LF, CR} else {COMMA, LF}
  }

  function Endings(d: Reader): set<Text> {
    match d
    case Strict => {[LF], CRLF}
    case Evidence => {[LF], CRLF, [CR]}
    case _ => {[LF]}
  }

  /** Where a piece may stand in its field. The strict reader wants a field to be one enclosed piece or none;
      the lax one takes quotes at the front only and any later quote for a character; the others take
      enclosed pieces anywhere but next to each other. */
  predicate LegalAt(d: Reader, f: Field, k: nat)
    requires k < |f|
  {
    match f[k]
    case Plain(u) =>
      if u == QUOTE then d == Lax && k > 0 && f[k - 1].Plain?
      else u !in Reserved(d) && (d == Strict && k > 0 ==> f[k - 1].Plain?)
    case Enclosed(_) => if d == Strict || d == Lax then k == 0 else k > 0 ==> f[k - 1].Plain?
  }

  predicate LegalField(d: Reader, f: Field) {
    forall k :: 0 <= k < |f| ==> LegalAt(d, f, k)
  }

  predicate LegalRecord(d: Reader, r: Record) {
    LegalField(d, r.last) && forall k :: 0 <= k < |r.front| ==> LegalField(d, r.front[k])
  }

  /** A CR that ends a line is not followed by the LF of an empty one: together they are one break. */
  predicate LegalLines(d: Reader, lines: seq<Line>) {
    && (forall k :: 0 <= k < |lines| ==> LegalRecord(d, lines[k].record) && lines[k].ending in Endings(d))
    && (forall k :: 0 < k < |lines| && lines[k - 1].ending == [CR] ==> lines[k] != Line(NOTHING, [LF]))
  }

  predicate LegalTable(d: Reader, t: Table) {
    LegalLines(d, t.lines) && LegalRecord(d, t.last)
  }

  // ---------------------------------------------------------------- what a table says

  function Value(f: Field): Text {
    if f == [] then []
    else Value(f[..|f| - 1]) + match f[|f| - 1] case Plain(u) => [u] case Enclosed(c) => c
  }

  function Values(fields: seq<Field>): (r: Row)
    ensures |r| == |fields|
    ensures forall k :: 0 <= k < |r| ==> r[k] == Value(fields[k])
  {
    seq(|fields|, k requires 0 <= k < |fields| => Value(fields[k]))
  }

  /** The lax reader and that of reviews drop one CR at the end of a line, be it part of the break or not. */
  function RowOf(d: Reader, r: Record): Row {
    Values(r.front) + [if d == Lax || d == Local then StripCr(Value(r.last)) else Value(r.last)]
  }

  function RowsOf(d: Reader, lines: seq<Line>): (rows: seq<Row>)
    ensures |rows| == |lines|
    ensures forall k :: 0 <= k < |lines| ==> rows[k] == RowOf(d, lines[k].record)
  {
    seq(|lines|, k requires 0 <= k < |lines| => RowOf(d, lines[k].record))
  }

  /** Some cell is not empty; some cell is more than white space. */
  predicate HoldsText(row: Row) {
    exists k :: 0 <= k < |row| && row[k] != []
  }

  predicate Speaks(row: Row) {
    exists k :: 0 <= k < |row| && Trim(row[k]) != []
  }

  /** The rows before the first from which on all are empty. */
  function UpToText(rows: seq<Row>): (r: seq<Row>)
    ensures |r| <= |rows| && r == rows[..|r|]
    ensures r != [] ==> HoldsText(r[|r| - 1])
    ensures forall k :: |r| <= k < |rows| ==> !HoldsText(rows[k])
  {
    if rows == [] || HoldsText(rows[|rows| - 1]) then rows else UpToText(rows[..|rows| - 1])
  }

  function Filter(d: Reader, rows: seq<Row>): seq<Row> {
    match d
    case Lax => UpToText(rows)
    case Local => Keep(HoldsText, rows)
    case Evidence => Keep(HoldsText, rows)
    case _ => Keep(Speaks, rows)
  }

  /** The rows read: one for each line and one for what stands behind the last break, less the empty ones. */
  function Rows(d: Reader, t: Table): seq<Row> {
    Filter(d, RowsOf(d, t.lines) + [RowOf(d, t.last)])
  }

  predicate EndsEnclosed(f: Field) {
    f != [] && f[|f| - 1].Enclosed?
  }

  /** The last field of a line is enclosed in quotes. */
  predicate EndsClosed(line: Line) {
    EndsEnclosed(line.record.last)
  }

  /** The strict reader takes a header and MAX_CSV_DATA_ROWS lines, and one more that ends in a closed cell
      if nothing at all follows it. */
  predicate WithinRows(d: Reader, t: Table) {
    || d != Strict || |t.lines| <= MAX_CSV_DATA_ROWS + 1
    || (|t.lines| == MAX_CSV_DATA_ROWS + 2 && EndsClosed(t.lines[|t.lines| - 1]) && t.last == NOTHING)
  }

  // ---------------------------------------------------------------- filters

  lemma {:induction false} KeepSame(p: Row -> bool, q: Row -> bool, rows: seq<Row>)
    requires forall row :: p(row) == q(row)
    ensures Keep(p, rows) == Keep(q, rows)
  {
    if rows == [] {
    } else {
      KeepSame(p, q, rows[..|rows| - 1]);
    }
  }

  lemma SameTests()
    ensures forall row :: NonEmpty(row) == HoldsText(row)
    ensures forall row :: NonBlank(row) == Speaks(row)
  {
    hide Trim, Blank;
    forall row ensures NonBlank(row) == Speaks(row) {
      forall k | 0 <= k < |row| ensures Blank(row[k]) <==> Trim(row[k]) == [] {
        TrimEmptyIffBlank(row[k]);
      }
    }
  }

  lemma {:induction false} SameDrop(rows: seq<Row>)
    ensures DropTrailingEmpty(rows) == UpToText(rows)
  {
    hide HoldsText, AllEmpty;
    SameTests();
    if rows != [] && !HoldsText(rows[|rows| - 1]) {
      SameDrop(rows[..|rows| - 1]);
    }
  }

  // ---------------------------------------------------------------- the states of a reader

  /** The rows gathered while reading: only Evidence drops empty ones on the spot. */
  function Gathered(d: Reader, lines: seq<Line>): (rows: seq<Row>)
    ensures d == Strict ==> |rows| == |lines|
  {
    if d == Evidence then Keep(HoldsText, RowsOf(d, lines)) else RowsOf(d, lines)
  }

  /** Behind some complete fields and a part of the next one, outside quotes. */
  function At(d: Reader, rows: seq<Row>, fields: seq<Field>, f: Field): State {
    State(rows, Values(fields), Value(f), false, d == Strict && EndsEnclosed(f), d == Strict && f != [])
  }

  /** In quotes, behind the given part of what they enclose. */
  function Inside(d: Reader, rows: seq<Row>, fields: seq<Field>, f: Field, content: Text): State {
    At(d, rows, fields, f).(cell := Value(f) + content, quoted := true, closed := false, started := d == Strict)
  }

  lemma ValueSnoc(f: Field, p: Piece)
    ensures Value(f + [p]) == Value(f) + match p case Plain(u) => [u] case Enclosed(c) => c
    ensures FieldText(f + [p]) == FieldText(f) + PieceText(p)
  {
    assert (f + [p])[..|f|] == f;
  }

  lemma ValuesSnoc(fields: seq<Field>, f: Field)
    ensures Values(fields + [f]) == Values(fields) + [Value(f)]
    ensures CommaText(fields + [f]) == CommaText(fields) + FieldText(f) + [COMMA]
  {
    assert (fields + [f])[..|fields|] == fields;
  }

  lemma LinesSnoc(d: Reader, lines: seq<Line>, line: Line)
    ensures RowsOf(d, lines + [line]) == RowsOf(d, lines) + [RowOf(d, line.record)]
    ensures LinesText(lines + [line]) == LinesText(lines) + RecordText(line.record) + line.ending
  {
    assert (lines + [line])[..|lines|] == lines;
  }

  lemma GatheredSnoc(d: Reader, lines: seq<Line>, line: Line)
    ensures Gathered(d, lines + [line]) == Gathered(d, lines) + Added(d, RowOf(d, line.record))
  {
    hide RowOf, RowsOf, HoldsText, AllEmpty;
    LinesSnoc(d, lines, line);
    SameTests();
    var before, row := RowsOf(d, lines), RowOf(d, line.record);
    assert (before + [row])[..|before|] == before;
  }

  // ---------------------------------------------------------------- reading a table that is spelled

  lemma {:induction false} PlainValue(f: Field)
    ensures f != [] && f[|f| - 1].Plain? ==> Value(f) != []
  {
  }

  lemma RunPlainPiece(d: Reader, rows: seq<Row>, fields: seq<Field>, f: Field, u: CodeUnit, rest: Text)
    requires Room(d, |rows| - 1) && LegalAt(d, f + [Plain(u)], |f|)
    ensures Run(d, At(d, rows, fields, f), [u] + rest) == Run(d, At(d, rows, fields, f + [Plain(u)]), rest)
  {
    hide Run, At, Step, Room, LegalAt;
    var s := [u] + rest;
    assert s[1..] == rest;
    PlainValue(f);
    PlainStep(d, rows, fields, f, u, s);
    RunOne(d, At(d, rows, fields, f), s);
  }

  lemma RunEnclosed(d: Reader, rows: seq<Row>, fields: seq<Field>, f: Field, c: Text, rest: Text)
    requires Room(d, |rows| - 1) && (rest == [] || rest[0] != QUOTE)
    requires d == Strict || d == Lax ==> f == []
    ensures Run(d, At(d, rows, fields, f), [QUOTE] + Escape(c) + [QUOTE] + rest)
         == Run(d, At(d, rows, fields, f + [Enclosed(c)]), rest)
  {
    hide Run, Step, Room, At, Inside, Escape;
    var s, tail := [QUOTE] + Escape(c) + [QUOTE] + rest, Escape(c) + [QUOTE] + rest;
    QuoteInFront(Escape(c), rest);
    OpenStep(d, rows, fields, f, s);
    RunOne(d, At(d, rows, fields, f), s);
    RunInside(d, rows, fields, f, c, rest);
  }

  lemma QuoteInFront(t: Text, rest: Text)
    ensures var s := [QUOTE] + t + [QUOTE] + rest;
      s[0] == QUOTE && s[1..] == t + [QUOTE] + rest
  {
  }

  lemma RunInside(d: Reader, rows: seq<Row>, fields: seq<Field>, f: Field, c: Text, rest: Text)
    requires rest == [] || rest[0] != QUOTE
    ensures Run(d, Inside(d, rows, fields, f, []), Escape(c) + [QUOTE] + rest)
         == Run(d, At(d, rows, fields, f + [Enclosed(c)]), rest)
  {
    hide Run, Escape, At, Inside;
    InsideClosed(d, rows, fields, f, c);
    RunQuoted(d, Inside(d, rows, fields, f, []), c, rest);
  }

  lemma InsideClosed(d: Reader, rows: seq<Row>, fields: seq<Field>, f: Field, c: Text)
    ensures var st := Inside(d, rows, fields, f, []);
      && st.quoted
      && st.(cell := st.cell + c, quoted := false, closed := d.Strict?) == At(d, rows, fields, f + [Enclosed(c)])
  {
    hide Value, Values, EndsEnclosed, FieldText, Escape;
    ValueSnoc(f, Enclosed(c));
    LastPiece(f, Enclosed(c));
    assert Value(f) + [] + c == Value(f) + c;
  }

  lemma RunPiece(d: Reader, rows: seq<Row>, fields: seq<Field>, f: Field, p: Piece, rest: Text)
    requires Room(d, |rows| - 1) && LegalAt(d, f + [p], |f|)
    requires p.Enclosed? ==> rest == [] || rest[0] != QUOTE
    ensures Run(d, At(d, rows, fields, f), PieceText(p) + rest) == Run(d, At(d, rows, fields, f + [p]), rest)
  {
    hide Run, At, Room;
    match p {
      case Plain(u) => RunPlainPiece(d, rows, fields, f, u, rest);
      case Enclosed(c) => RunEnclosed(d, rows, fields, f, c, rest);
    }
  }

  lemma PlainStep(d: Reader, rows: seq<Row>, fields: seq<Field>, f: Field, u: CodeUnit, s: Text)
    requires Room(d, |rows| - 1) && LegalAt(d, f + [Plain(u)], |f|) && s != [] && s[0] == u
    requires f != [] && f[|f| - 1].Plain? ==> Value(f) != []
    ensures Step(d, At(d, rows, fields, f), s) == Moved(At(d, rows, fields, f + [Plain(u)]), 1)
  {
    hide Value, Values, FinishRow, FinishCell, AllEmpty, StripCr, EndsEnclosed, FieldText;
    ValueSnoc(f, Plain(u));
    LastPiece(f, Plain(u));
    assert (f + [Plain(u)])[|f|] == Plain(u) && (f != [] ==> (f + [Plain(u)])[|f| - 1] == f[|f| - 1]);
  }

  lemma LastPiece(f: Field, p: Piece)
    ensures EndsEnclosed(f + [p]) <==> p.Enclosed?
    ensures f != [] && f[|f| - 1].Plain? ==> !EndsEnclosed(f)
    ensures f == [] ==> !EndsEnclosed(f)
  {
  }

  lemma OpenStep(d: Reader, rows: seq<Row>, fields: seq<Field>, f: Field, s: Text)
    requires Room(d, |rows| - 1) && s != [] && s[0] == QUOTE
    requires if d == Strict || d == Lax then f == [] else true
    ensures Step(d, At(d, rows, fields, f), s) == Moved(Inside(d, rows, fields, f, []), 1)
  {
    assert Value(f) + [] == Value(f);
  }

  lemma LegalFront(d: Reader, f: Field)
    requires f != [] && LegalField(d, f)
    ensures LegalField(d, f[..|f| - 1])
    ensures f == f[..|f| - 1] + [f[|f| - 1]] && LegalAt(d, f, |f| - 1)
    ensures EndsEnclosed(f[..|f| - 1]) ==> PieceText(f[|f| - 1])[0] != QUOTE
  {
    var front := f[..|f| - 1];
    forall k | 0 <= k < |front| ensures LegalAt(d, front, k) {
      assert LegalAt(d, f, k);
    }
    assert LegalAt(d, f, |f| - 1);
  }

  lemma {:induction false} RunField(d: Reader, rows: seq<Row>, fields: seq<Field>, f: Field, rest: Text)
    requires Room(d, |rows| - 1) && LegalField(d, f)
    requires EndsEnclosed(f) ==> rest == [] || rest[0] != QUOTE
    ensures Run(d, At(d, rows, fields, []), FieldText(f) + rest) == Run(d, At(d, rows, fields, f), rest)
    decreases |f|
  {
    hide Run, At, LegalAt, PieceText, Room;
    if f == [] {
      assert FieldText(f) + rest == rest;
    } else {
      LegalFront(d, f);
      var front, p := f[..|f| - 1], f[|f| - 1];
      assert FieldText(f) + rest == FieldText(front) + (PieceText(p) + rest);
      RunField(d, rows, fields, front, PieceText(p) + rest);
      RunPiece(d, rows, fields, front, p, rest);
    }
  }

  lemma CommaStep(d: Reader, rows: seq<Row>, fields: seq<Field>, f: Field, rest: Text)
    requires Room(d, |rows| - 1)
    ensures Run(d, At(d, rows, fields, f), [COMMA] + rest) == Run(d, At(d, rows, fields + [f], []), rest)
  {
    hide Run;
    var s := [COMMA] + rest;
    assert s[1..] == rest;
    ValuesSnoc(fields, f);
    RunOne(d, At(d, rows, fields, f), s);
  }

  lemma {:induction false} RunCommas(d: Reader, rows: seq<Row>, fields: seq<Field>, rest: Text)
    requires Room(d, |rows| - 1) && forall k :: 0 <= k < |fields| ==> LegalField(d, fields[k])
    ensures Run(d, At(d, rows, [], []), CommaText(fields) + rest) == Run(d, At(d, rows, fields, []), rest)
    decreases |fields|
  {
    hide Run, At, LegalField, FieldText, Room;
    if fields == [] {
      assert CommaText(fields) + rest == rest;
    } else {
      var front, f := fields[..|fields| - 1], fields[|fields| - 1];
      assert CommaText(fields) + rest == CommaText(front) + (FieldText(f) + ([COMMA] + rest));
      RunCommas(d, rows, front, FieldText(f) + ([COMMA] + rest));
      RunField(d, rows, front, f, [COMMA] + rest);
      CommaStep(d, rows, front, f, rest);
      assert front + [f] == fields;
    }
  }

  lemma RunRecord(d: Reader, rows: seq<Row>, r: Record, rest: Text)
    requires Room(d, |rows| - 1) && LegalRecord(d, r) && (rest == [] || rest[0] != QUOTE)
    ensures Run(d, At(d, rows, [], []), RecordText(r) + rest) == Run(d, At(d, rows, r.front, r.last), rest)
  {
    hide Run, At, LegalField, FieldText, Room;
    assert RecordText(r) + rest == CommaText(r.front) + (FieldText(r.last) + rest);
    RunCommas(d, rows, r.front, FieldText(r.last) + rest);
    RunField(d, rows, r.front, r.last, rest);
  }

  /** Room to end a line behind its last field. */
  predicate MayEnd(d: Reader, rows: seq<Row>, f: Field) {
    d == Strict ==> |rows| <= MAX_CSV_DATA_ROWS || (|rows| == MAX_CSV_DATA_ROWS + 1 && EndsEnclosed(f))
  }

  lemma EndStep(d: Reader, rows: seq<Row>, r: Record, ending: Text, rest: Text)
    requires MayEnd(d, rows, r.last) && ending in Endings(d)
    requires ending == [CR] ==> rest == [] || rest[0] != LF
    ensures Run(d, At(d, rows, r.front, r.last), ending + rest)
         == Run(d, At(d, rows + Added(d, RowOf(d, r)), [], []), rest)
  {
    hide Run, Value, EndsEnclosed;
    var s := ending + rest;
    assert s[|ending|..] == rest && s[0] == ending[0] && (|ending| > 1 ==> s[1] == ending[1]);
    assert |s| > 1 && |ending| == 1 ==> s[1] == rest[0];
    EmptyValue();
    RunOne(d, At(d, rows, r.front, r.last), s);
    EndMoves(d, rows, r, ending, s);
  }

  lemma EndMoves(d: Reader, rows: seq<Row>, r: Record, ending: Text, s: Text)
    requires MayEnd(d, rows, r.last) && ending in Endings(d) && |ending| <= |s| && s[0] == ending[0]
    requires |ending| > 1 ==> s[1] == ending[1]
    requires ending == [CR] ==> |s| == 1 || s[1] != LF
    ensures Step(d, At(d, rows, r.front, r.last), s)
         == Moved(State(rows + Added(d, RowOf(d, r)), [], [], false, false, false), |ending|)
  {
    hide Value, Values, EndsEnclosed;
  }

  lemma EmptyValue()
    ensures Values([]) == [] && Value([]) == [] && !EndsEnclosed([])
  {
  }

  lemma {:induction false} FieldStarts(d: Reader, f: Field)
    requires LegalField(d, f)
    ensures f == [] ==> FieldText(f) == []
    ensures f != [] ==> FieldText(f) != [] && FieldText(f)[0] != LF
    decreases |f|
  {
    if f == [] {
    } else {
      LegalFront(d, f);
      FieldStarts(d, f[..|f| - 1]);
      if |f| == 1 { assert FieldText(f) == PieceText(f[0]); }
    }
  }

  lemma {:induction false} CommaStarts(d: Reader, fields: seq<Field>)
    requires forall k :: 0 <= k < |fields| ==> LegalField(d, fields[k])
    ensures fields == [] ==> CommaText(fields) == []
    ensures fields != [] ==> CommaText(fields) != [] && CommaText(fields)[0] != LF
    decreases |fields|
  {
    hide LegalField, FieldText;
    if fields == [] {
    } else {
      var n := |fields| - 1;
      FieldStarts(d, fields[n]);
      CommaStarts(d, fields[..n]);
    }
  }

  lemma RecordStarts(d: Reader, r: Record)
    requires LegalRecord(d, r)
    ensures r == NOTHING ==> RecordText(r) == []
    ensures r != NOTHING ==> RecordText(r) != [] && RecordText(r)[0] != LF
  {
    hide LegalField, FieldText, CommaText;
    FieldStarts(d, r.last);
    CommaStarts(d, r.front);
  }

  /** The text behind a CR that ends a line does not begin with LF. */
  lemma BehindCr(d: Reader, lines: seq<Line>, k: nat, rest: Text)
    requires LegalLines(d, lines) && 0 < k < |lines| && lines[k - 1].ending == [CR]
    ensures var s := RecordText(lines[k].record) + lines[k].ending + rest;
      s != [] && s[0] != LF
  {
    hide LegalRecord, RecordText;
    var line := lines[k];
    RecordStarts(d, line.record);
    assert line.ending != [] && (line.ending[0] == LF ==> line.ending == [LF]);
    if line.record == NOTHING { assert line != Line(NOTHING, [LF]); }
  }

  /** Room to read all of these lines. */
  predicate LinesFit(d: Reader, lines: seq<Line>) {
    || d != Strict || |lines| <= MAX_CSV_DATA_ROWS + 1
    || (|lines| == MAX_CSV_DATA_ROWS + 2 && EndsClosed(lines[|lines| - 1]))
  }

  lemma FrontLines(d: Reader, lines: seq<Line>)
    requires lines != [] && LegalLines(d, lines) && LinesFit(d, lines)
    ensures var n := |lines| - 1;
      && LegalLines(d, lines[..n]) && LinesFit(d, lines[..n]) && lines == lines[..n] + [lines[n]]
      && LegalRecord(d, lines[n].record) && lines[n].ending in Endings(d)
      && MayEnd(d, Gathered(d, lines[..n]), lines[n].record.last)
  {
    hide LegalRecord, EndsEnclosed;
  }

  lemma {:induction false} RunLinesText(d: Reader, lines: seq<Line>, rest: Text)
    requires LegalLines(d, lines) && LinesFit(d, lines)
    requires lines != [] && lines[|lines| - 1].ending == [CR] ==> rest == [] || rest[0] != LF
    ensures Run(d, START, LinesText(lines) + rest) == Run(d, At(d, Gathered(d, lines), [], []), rest)
    decreases |lines|
  {
    hide Run, At, RecordText, LegalRecord, RowOf, Added, RowsOf, LegalLines, LinesFit, MayEnd, Gathered, Endings, LinesText;
    if lines == [] {
      NoLines(rest);
      StartIs(d);
    } else {
      var n := |lines| - 1;
      var front, line := lines[..n], lines[n];
      FrontLines(d, lines);
      var tail := RecordText(line.record) + line.ending + rest;
      LinesBehind(lines, rest);
      if front != [] && front[n - 1].ending == [CR] { BehindCr(d, lines, n, rest); }
      RunLinesText(d, front, tail);
      RunLine(d, Gathered(d, front), line, rest);
      GatheredSnoc(d, front, line);
    }
  }

  lemma NoLines(rest: Text)
    ensures LinesText([]) + rest == rest
  {
  }

  lemma LinesBehind(lines: seq<Line>, rest: Text)
    requires lines != []
    ensures var n := |lines| - 1;
      LinesText(lines) + rest == LinesText(lines[..n]) + (RecordText(lines[n].record) + lines[n].ending + rest)
  {
    hide RecordText;
    var n := |lines| - 1;
    Regroup(LinesText(lines[..n]), RecordText(lines[n].record), lines[n].ending, rest);
  }

  lemma Regroup(a: Text, b: Text, c: Text, d: Text)
    ensures (a + b + c) + d == a + (b + c + d)
  {
  }

  lemma StartIs(d: Reader)
    ensures At(d, Gathered(d, []), [], []) == START
  {
  }

  lemma RunLine(d: Reader, rows: seq<Row>, line: Line, rest: Text)
    requires LegalRecord(d, line.record) && line.ending in Endings(d)
    requires line.ending == [CR] ==> rest == [] || rest[0] != LF
    requires MayEnd(d, rows, line.record.last)
    ensures Run(d, At(d, rows, [], []), RecordText(line.record) + line.ending + rest)
         == Run(d, At(d, rows + Added(d, RowOf(d, line.record)), [], []), rest)
  {
    hide Run, At, RecordText, RowOf, Added, LegalRecord;
    assert RecordText(line.record) + line.ending + rest == RecordText(line.record) + (line.ending + rest);
    assert (line.ending + rest)[0] == line.ending[0];
    RunRecord(d, rows, line.record, line.ending + rest);
    EndStep(d, rows, line.record, line.ending, rest);
  }

  /** The same filters, by the tests of the readers. */
  function Sieve(d: Reader, rows: seq<Row>): seq<Row> {
    match d
    case Lax => DropTrailingEmpty(rows)
    case Local => Keep(NonEmpty, rows)
    case Evidence => Keep(NonEmpty, rows)
    case _ => Keep(NonBlank, rows)
  }

  lemma SieveFilters(d: Reader, rows: seq<Row>)
    ensures Sieve(d, rows) == Filter(d, rows)
  {
    hide Keep, DropTrailingEmpty, UpToText, NonEmpty, NonBlank, HoldsText, Speaks;
    SameTests();
    KeepSame(NonBlank, Speaks, rows);
    KeepSame(NonEmpty, HoldsText, rows);
    SameDrop(rows);
  }

  lemma FinishesSieve(d: Reader, rows: seq<Row>, last: Record)
    ensures Finish(d, At(d, if d == Evidence then Keep(NonEmpty, rows) else rows, last.front, last.last))
         == Some(Sieve(d, rows + [RowOf(d, last)]))
  {
    hide Keep, DropTrailingEmpty, AllEmpty, AllBlank, Value, Values, EndsEnclosed;
    var row := RowOf(d, last);
    KeepLast(NonBlank, rows, row);
    KeepLast(NonEmpty, rows, row);
    EmptyLast(d, last);
    DropLast(rows, row);
    var kept := Keep(NonEmpty, rows);
    assert kept + [] == kept && Keep(NonBlank, rows) + [] == Keep(NonBlank, rows);
  }

  lemma FinishesRows(d: Reader, lines: seq<Line>, last: Record)
    ensures Finish(d, At(d, Gathered(d, lines), last.front, last.last)) == Some(Rows(d, Table(lines, last)))
  {
    hide Keep, Finish, At, Sieve, Filter, RowsOf, RowOf, NonEmpty, HoldsText;
    var rows := RowsOf(d, lines);
    SameTests();
    KeepSame(NonEmpty, HoldsText, rows);
    FinishesSieve(d, rows, last);
    SieveFilters(d, rows + [RowOf(d, last)]);
  }

  lemma KeepLast(p: Row -> bool, before: seq<Row>, row: Row)
    ensures Keep(p, before + [row]) == Keep(p, before) + (if p(row) then [row] else [])
  {
    assert (before + [row])[..|before|] == before;
  }

  lemma DropLast(before: seq<Row>, row: Row)
    ensures AllEmpty(row) ==> DropTrailingEmpty(before + [row]) == DropTrailingEmpty(before)
  {
    assert (before + [row])[..|before|] == before;
  }

  /** Nothing behind the last break makes an empty row. */
  lemma EmptyLast(d: Reader, last: Record)
    ensures Values(last.front) == [] && Value(last.last) == [] ==> AllEmpty(RowOf(d, last)) && AllBlank(RowOf(d, last))
    ensures Values(last.front) == [] <==> last.front == []
    ensures last.last == [] ==> Value(last.last) == []
  {
  }

  /** The reader on the text behind what it does before its loop. */
  function ReadSource(d: Reader, source: Text): Option<seq<Row>> {
    match Run(d, START, source)
    case None => None
    case Some(st) => Finish(d, st)
  }

  /** A table that is spelled by the rules of a reader is read as the rows it says, or refused for its length. */
  lemma SpelledRead(d: Reader, t: Table)
    requires LegalTable(d, t)
    ensures ReadSource(d, TableText(t)) == if WithinRows(d, t) then Some(Rows(d, t)) else None
    ensures WithinRows(d, t) ==> Run(d, START, TableText(t)).Some? && !Run(d, START, TableText(t)).value.quoted
  {
    hide Run, Finish, Rows, RecordText, LegalRecord, Gathered;
    if WithinRows(d, t) {
      RunWithin(d, t);
      FinishesRows(d, t.lines, t.last);
    } else {
      TooLong(t);
    }
  }

  lemma RunWithin(d: Reader, t: Table)
    requires LegalTable(d, t) && WithinRows(d, t)
    ensures Run(d, START, TableText(t)) == Some(At(d, Gathered(d, t.lines), t.last.front, t.last.last))
  {
    hide Run, RecordText, LegalRecord, Gathered, At;
    RecordStarts(d, t.last);
    RunLinesText(d, t.lines, RecordText(t.last));
    var rows := Gathered(d, t.lines);
    assert RecordText(t.last) + [] == RecordText(t.last);
    if t.last != NOTHING { RunRecord(d, rows, t.last, []); }
    RunNothing(d, At(d, rows, t.last.front, t.last.last));
  }

  /** Too many lines: the strict reader refuses at the end of the first one too many, or right behind it. */
  lemma TooLong(t: Table)
    requires LegalTable(Strict, t) && !WithinRows(Strict, t)
    ensures Run(Strict, START, TableText(t)) == None
  {
    hide Run, RecordText, LegalRecord, Gathered;
    var n := MAX_CSV_DATA_ROWS + 1;
    var front, line := t.lines[..n], t.lines[n];
    var rest := LinesFrom(t, n + 1);
    LinesSplit(t, n);
    LegalPrefix(t.lines, n);
    assert TableText(t) == LinesText(front) + (RecordText(line.record) + line.ending + rest);
    RunLinesText(Strict, front, RecordText(line.record) + line.ending + rest);
    var rows := Gathered(Strict, front);
    if EndsClosed(line) {
      RunLine(Strict, rows, line, rest);
      NothingBehind(t, n);
      FullHere(rows + Added(Strict, RowOf(Strict, line.record)), rest);
    } else {
      assert RecordText(line.record) + line.ending + rest == RecordText(line.record) + (line.ending + rest);
      RunRecord(Strict, rows, line.record, line.ending + rest);
      EndHere(rows, line.record, line.ending, rest);
    }
  }

  /** The text from line n on. */
  function LinesFrom(t: Table, n: nat): Text
    requires n <= |t.lines|
    decreases |t.lines| - n
  {
    if n == |t.lines| then RecordText(t.last)
    else RecordText(t.lines[n].record) + t.lines[n].ending + LinesFrom(t, n + 1)
  }

  lemma {:induction false} LinesSplit(t: Table, n: nat)
    requires n <= |t.lines|
    ensures TableText(t) == LinesText(t.lines[..n]) + LinesFrom(t, n)
    decreases |t.lines| - n
  {
    hide RecordText;
    if n == |t.lines| {
      assert t.lines[..n] == t.lines;
    } else {
      LinesSplit(t, n + 1);
      assert t.lines[..n + 1][..n] == t.lines[..n];
      Regroup(LinesText(t.lines[..n]), RecordText(t.lines[n].record), t.lines[n].ending, LinesFrom(t, n + 1));
    }
  }

  lemma LegalPrefix(lines: seq<Line>, n: nat)
    requires n < |lines| && LegalLines(Strict, lines)
    ensures LegalLines(Strict, lines[..n]) && LegalRecord(Strict, lines[n].record) && lines[n].ending in Endings(Strict)
  {
  }

  lemma NothingBehind(t: Table, n: nat)
    requires LegalTable(Strict, t) && n == MAX_CSV_DATA_ROWS + 1 < |t.lines| && !WithinRows(Strict, t) && EndsClosed(t.lines[n])
    ensures LinesFrom(t, n + 1) != []
  {
    hide RecordText, LegalRecord;
    if n + 1 == |t.lines| {
      RecordStarts(Strict, t.last);
    } else {
      assert t.lines[n + 1].ending in Endings(Strict);
    }
  }

  lemma FullHere(rows: seq<Row>, rest: Text)
    requires |rows| > MAX_CSV_DATA_ROWS + 1 && rest != []
    ensures Run(Strict, At(Strict, rows, [], []), rest) == None
  {
  }

  lemma EndHere(rows: seq<Row>, r: Record, ending: Text, rest: Text)
    requires |rows| == MAX_CSV_DATA_ROWS + 1 && !EndsEnclosed(r.last) && ending in Endings(Strict)
    ensures Run(Strict, At(Strict, rows, r.front, r.last), ending + rest) == None
  {
    hide Value;
    var s := ending + rest;
    assert s[0] == ending[0] && (ending == CRLF ==> s[1] == LF);
  }

  // ---------------------------------------------------------------- every text that is read is a table

  /** A table read so far: complete lines, complete fields, a part of the next one, and what an open quote
      encloses so far. */
  datatype Partial = Partial(lines: seq<Line>, fields: seq<Field>, f: Field, open: Option<Text>)

  function PartialText(p: Partial): Text {
    LinesText(p.lines) + CommaText(p.fields) + FieldText(p.f) + (if p.open.Some? then [QUOTE] + Escape(p.open.value) else [])
  }

  function PartialState(d: Reader, p: Partial): State {
    if p.open.Some? then Inside(d, Gathered(d, p.lines), p.fields, p.f, p.open.value)
    else At(d, Gathered(d, p.lines), p.fields, p.f)
  }

  /** Nothing of the next record has been read. */
  predicate Fresh(p: Partial) {
    p.fields == [] && p.f == [] && p.open.None?
  }

  predicate LegalParts(d: Reader, p: Partial) {
    && LegalLines(d, p.lines) && LegalField(d, p.f) && (forall k :: 0 <= k < |p.fields| ==> LegalField(d, p.fields[k]))
    && (p.open.Some? ==> if d == Strict || d == Lax then p.f == [] else !EndsEnclosed(p.f))
  }

  /** What is unread does not belong to the piece or the break before it, and there was room so far. */
  predicate Settled(d: Reader, p: Partial, s: Text) {
    && (p.open.None? && EndsEnclosed(p.f) ==> s == [] || s[0] != QUOTE)
    && (Fresh(p) && p.lines != [] && p.lines[|p.lines| - 1].ending == [CR] ==> s == [] || s[0] != LF)
    && (d == Strict ==> |p.lines| <= MAX_CSV_DATA_ROWS + 1
                        || (Fresh(p) && |p.lines| == MAX_CSV_DATA_ROWS + 2 && EndsClosed(p.lines[|p.lines| - 1])))
  }

  predicate Reads(d: Reader, p: Partial, st: State, s: Text) {
    LegalParts(d, p) && Settled(d, p, s) && st == PartialState(d, p)
  }

  lemma {:induction false} EscapeSnoc(c: Text, u: CodeUnit)
    ensures Escape(c + [u]) == Escape(c) + (if u == QUOTE then [QUOTE, QUOTE] else [u])
  {
    if c == [] {
      assert [u][1..] == [] && Escape([]) == [];
      assert Escape([u]) == (if u == QUOTE then [QUOTE, QUOTE] else [u]) + Escape([]);
    } else {
      assert (c + [u])[1..] == c[1..] + [u];
      EscapeSnoc(c[1..], u);
    }
  }

  lemma FieldSnoc(d: Reader, f: Field, p: Piece)
    requires LegalField(d, f)
    requires match p
      case Plain(u) =>
        if u == QUOTE then d == Lax && f != [] && f[|f| - 1].Plain?
        else u !in Reserved(d) && (d == Strict && f != [] ==> f[|f| - 1].Plain?)
      case Enclosed(_) => if d == Strict || d == Lax then f == [] else !EndsEnclosed(f)
    ensures LegalField(d, f + [p])
  {
    var g := f + [p];
    forall k | 0 <= k < |g| ensures LegalAt(d, g, k) {
      if k < |f| { assert LegalAt(d, f, k); }
    }
  }

  /** One more character inside quotes, a doubled quote counting as one. */
  lemma MoreInside(d: Reader, p: Partial, st: State, s: Text) returns (q: Partial)
    requires Reads(d, p, st, s) && s != [] && p.open.Some?
    requires s[0] != QUOTE || (|s| > 1 && s[1] == QUOTE)
    ensures var used := if s[0] == QUOTE then 2 else 1;
      && Step(d, st, s) == Moved(PartialState(d, q), used)
      && Reads(d, q, PartialState(d, q), s[used..]) && PartialText(q) == PartialText(p) + s[..used]
  {
    hide Gathered, CommaText, FieldText, LinesText, Value, Values, EndsEnclosed, LegalField, LegalLines, EndsClosed;
    var c, used := p.open.value, if s[0] == QUOTE then 2 else 1;
    q := p.(open := Some(c + [s[0]]));
    EscapeSnoc(c, s[0]);
    assert Value(p.f) + c + [s[0]] == Value(p.f) + (c + [s[0]]);
    assert s[..used] == if s[0] == QUOTE then [QUOTE, QUOTE] else [s[0]];
  }

  /** The closing quote. */
  lemma CloseQuote(d: Reader, p: Partial, st: State, s: Text) returns (q: Partial)
    requires Reads(d, p, st, s) && s != [] && p.open.Some?
    requires s[0] == QUOTE && (|s| == 1 || s[1] != QUOTE)
    ensures Step(d, st, s) == Moved(PartialState(d, q), 1)
    ensures Reads(d, q, PartialState(d, q), s[1..]) && PartialText(q) == PartialText(p) + s[..1]
  {
    hide Gathered, CommaText, FieldText, LinesText, Value, Values, LegalField, LegalLines, EndsClosed;
    var piece := Enclosed(p.open.value);
    q := p.(f := p.f + [piece], open := None);
    FieldSnoc(d, p.f, piece);
    ValueSnoc(p.f, piece);
    assert FieldText(p.f) + PieceText(piece) == FieldText(p.f) + [QUOTE] + Escape(p.open.value) + [QUOTE];
    assert s[..1] == [QUOTE];
  }

  /** An opening quote. */
  lemma OpenQuote(d: Reader, p: Partial, st: State, s: Text) returns (q: Partial)
    requires Reads(d, p, st, s) && s != [] && p.open.None? && s[0] == QUOTE && Step(d, st, s).Moved?
    requires d == Lax ==> st.cell == []
    ensures Step(d, st, s) == Moved(PartialState(d, q), 1)
    ensures Reads(d, q, PartialState(d, q), s[1..]) && PartialText(q) == PartialText(p) + s[..1]
  {
    hide Gathered, CommaText, FieldText, LinesText, Values, LegalField, LegalLines, EndsClosed;
    q := p.(open := Some([]));
    LaxEmpty(d, p.f);
    assert Value(p.f) + [] == Value(p.f) && Escape([]) == [] && s[..1] == [QUOTE];
  }

  /** In the lax reader a cell is empty only at the front of its field, or behind an empty pair of quotes. */
  lemma LaxEmpty(d: Reader, f: Field)
    ensures f != [] && !EndsEnclosed(f) ==> Value(f) != []
  {
    if f != [] && !EndsEnclosed(f) { PlainValue(f); }
  }

  /** A character outside quotes that is no separator. */
  lemma MorePlain(d: Reader, p: Partial, st: State, s: Text) returns (q: Partial)
    requires Reads(d, p, st, s) && s != [] && p.open.None? && Step(d, st, s).Moved?
    requires s[0] !in Reserved(d) && (s[0] == QUOTE ==> d == Lax && st.cell != [])
    ensures Step(d, st, s) == Moved(PartialState(d, q), 1)
    ensures Reads(d, q, PartialState(d, q), s[1..]) && PartialText(q) == PartialText(p) + s[..1]
  {
    hide Gathered, CommaText, FieldText, LinesText, Values, LegalField, LegalLines, EndsClosed;
    var piece := Plain(s[0]);
    q := p.(f := p.f + [piece]);
    FieldSnoc(d, p.f, piece);
    ValueSnoc(p.f, piece);
    assert s[..1] == [s[0]];
  }

  lemma MoreFields(d: Reader, p: Partial, st: State, s: Text) returns (q: Partial)
    requires Reads(d, p, st, s) && s != [] && p.open.None? && s[0] == COMMA && Step(d, st, s).Moved?
    ensures Step(d, st, s) == Moved(PartialState(d, q), 1)
    ensures Reads(d, q, PartialState(d, q), s[1..]) && PartialText(q) == PartialText(p) + s[..1]
  {
    hide Gathered, FieldText, LinesText, LegalField, LegalLines, EndsClosed, CommaText, Value, Values, EndsEnclosed;
    q := Partial(p.lines, p.fields + [p.f], [], None);
    ValuesSnoc(p.fields, p.f);
    NoPieces(d);
    EmptyValue();
    assert s[..1] == [COMMA];
  }

  lemma NoPieces(d: Reader)
    ensures LegalField(d, []) && FieldText([]) == [] && CommaText([]) == []
  {
  }

  /** The break at the front of a text, if the reader takes one there. */
  function BreakAt(d: Reader, s: Text): (ending: Text)
    requires s != []
    ensures ending != [] ==> ending in Endings(d) && ending <= s && (ending == [CR] ==> |s| == 1 || s[1] != LF)
  {
    if s[0] == LF then [LF]
    else if (d == Strict || d == Evidence) && s[0] == CR && |s| > 1 && s[1] == LF then
      assert CRLF == s[..2];
      CRLF
    else if d == Evidence && s[0] == CR then [CR]
    else []
  }

  lemma LegalMore(d: Reader, lines: seq<Line>, line: Line)
    requires LegalLines(d, lines) && LegalRecord(d, line.record) && line.ending in Endings(d)
    requires lines != [] && lines[|lines| - 1].ending == [CR] ==> line != Line(NOTHING, [LF])
    ensures LegalLines(d, lines + [line])
  {
    hide LegalRecord;
  }

  /** The break behind a line. */
  lemma MoreLines(d: Reader, p: Partial, st: State, s: Text) returns (q: Partial)
    requires Reads(d, p, st, s) && s != [] && p.open.None? && BreakAt(d, s) != [] && Step(d, st, s).Moved?
    ensures var used := |BreakAt(d, s)|;
      && Step(d, st, s) == Moved(PartialState(d, q), used)
      && Reads(d, q, PartialState(d, q), s[used..]) && PartialText(q) == PartialText(p) + s[..used]
  {
    hide FieldText, LegalField, LegalLines, RowOf, CommaText, EndsClosed, Gathered, Step, Value, Values, EndsEnclosed, Added;
    var ending := BreakAt(d, s);
    var line := Line(Record(p.fields, p.f), ending);
    q := Partial(p.lines + [line], [], [], None);
    NoPieces(d);
    EmptyValue();
    LinesSnoc(d, p.lines, line);
    GatheredSnoc(d, p.lines, line);
    LegalMore(d, p.lines, line);
    BreakMoves(d, p, ending, s);
    assert s[..|ending|] == ending && (|ending| < |s| ==> s[|ending|..][0] == s[|ending|]);
    RoomBehind(d, p, line, st, s);
    assert q.lines[|q.lines| - 1] == line;
  }

  lemma BreakMoves(d: Reader, p: Partial, ending: Text, s: Text)
    requires Settled(d, p, s) && p.open.None? && s != [] && ending == BreakAt(d, s) != []
    requires Step(d, PartialState(d, p), s).Moved?
    ensures Step(d, PartialState(d, p), s)
         == Moved(State(Gathered(d, p.lines) + Added(d, RowOf(d, Record(p.fields, p.f))), [], [], false, false, false), |ending|)
  {
    hide Value, Values, EndsEnclosed, Gathered;
  }

  /** The strict reader goes on only while there is room. */
  lemma RoomBehind(d: Reader, p: Partial, line: Line, st: State, s: Text)
    requires Reads(d, p, st, s) && s != [] && p.open.None? && BreakAt(d, s) != [] && Step(d, st, s).Moved?
    requires line == Line(Record(p.fields, p.f), BreakAt(d, s))
    ensures d == Strict ==> |p.lines| + 1 <= MAX_CSV_DATA_ROWS + 1
                            || (|p.lines| + 1 == MAX_CSV_DATA_ROWS + 2 && EndsClosed(line))
  {
    hide Value, Values, LegalField, LegalLines;
    if d == Strict {
      LinesRoom(p, s);
    }
  }

  lemma LinesRoom(p: Partial, s: Text)
    requires Settled(Strict, p, s) && s != [] && p.open.None? && Step(Strict, PartialState(Strict, p), s).Moved?
    ensures |p.lines| <= MAX_CSV_DATA_ROWS + 1
    ensures BreakAt(Strict, s) != [] && !EndsEnclosed(p.f) ==> |p.lines| <= MAX_CSV_DATA_ROWS
  {
    hide Value, Values;
  }

  /** One turn of a reader's loop reads one more thing of a table. */
  lemma OneMore(d: Reader, p: Partial, st: State, s: Text) returns (q: Partial)
    requires Reads(d, p, st, s) && s != [] && Step(d, st, s).Moved?
    ensures var used := Step(d, st, s).used;
      && Step(d, st, s) == Moved(PartialState(d, q), used)
      && Reads(d, q, PartialState(d, q), s[used..]) && PartialText(q) == PartialText(p) + s[..used]
  {
    var c := s[0];
    if p.open.Some? {
      if c == QUOTE && (|s| == 1 || s[1] != QUOTE) { q := CloseQuote(d, p, st, s); } else { q := MoreInside(d, p, st, s); }
    } else if c == COMMA {
      q := MoreFields(d, p, st, s);
    } else if BreakAt(d, s) != [] {
      q := MoreLines(d, p, st, s);
    } else if c == QUOTE && !(d == Lax && st.cell != []) {
      q := OpenQuote(d, p, st, s);
    } else {
      NoBareCr(d, p, st, s);
      q := MorePlain(d, p, st, s);
    }
  }

  lemma NoBareCr(d: Reader, p: Partial, st: State, s: Text)
    requires Reads(d, p, st, s) && s != [] && p.open.None? && Step(d, st, s).Moved? && s[0] != COMMA && BreakAt(d, s) == []
    ensures s[0] !in Reserved(d)
  {
    hide Value, Values, LegalField, LegalLines, Gathered;
  }

  lemma {:induction false} Parse(d: Reader, p: Partial, st: State, s: Text) returns (q: Partial)
    requires Reads(d, p, st, s) && Run(d, st, s).Some?
    ensures Reads(d, q, Run(d, st, s).value, []) && PartialText(q) == PartialText(p) + s
    decreases |s|
  {
    hide Reads, Step, PartialText, PartialState;
    if s == [] {
      q := p;
      assert PartialText(p) + s == PartialText(p);
    } else {
      var used := Step(d, st, s).used;
      var next := OneMore(d, p, st, s);
      q := Parse(d, next, PartialState(d, next), s[used..]);
      assert PartialText(p) + s == PartialText(p) + s[..used] + s[used..];
    }
  }

  /** What a reader accepts is spelled by a table of its grammar, which says what was read. */
  lemma ReadSpelled(d: Reader, source: Text) returns (t: Table)
    requires Run(d, START, source).Some? && !Run(d, START, source).value.quoted
    ensures LegalTable(d, t) && WithinRows(d, t) && TableText(t) == source
    ensures ReadSource(d, source) == Some(Rows(d, t))
  {
    hide Run, Rows, Reads, PartialText, Finish, WithinRows, LegalTable, TableText;
    var none := Partial([], [], [], None);
    ReadsNothing(d, source);
    var q := Parse(d, none, START, source);
    t := Table(q.lines, Record(q.fields, q.f));
    ReadsAll(d, q, Run(d, START, source).value);
    FinishesRows(d, q.lines, t.last);
  }

  lemma ReadsNothing(d: Reader, s: Text)
    ensures Reads(d, Partial([], [], [], None), START, s) && PartialText(Partial([], [], [], None)) == []
  {
    NoPieces(d);
    StartIs(d);
  }

  /** At the end of the text, with no quote open, what was read is a table. */
  lemma ReadsAll(d: Reader, q: Partial, end: State)
    requires Reads(d, q, end, []) && !end.quoted
    ensures var t := Table(q.lines, Record(q.fields, q.f));
      && LegalTable(d, t) && WithinRows(d, t) && TableText(t) == PartialText(q)
      && end == At(d, Gathered(d, q.lines), q.fields, q.f)
  {
    hide Gathered, LinesText, CommaText, FieldText, LegalField, LegalLines, Value, Values, EndsEnclosed, EndsClosed;
    assert LinesText(q.lines) + CommaText(q.fields) + FieldText(q.f) == LinesText(q.lines) + (CommaText(q.fields) + FieldText(q.f));
  }

  // ---------------------------------------------------------------- the readers, exactly

  /** The text is a table of the grammar, within the limit of the strict reader, and says these rows. */
  ghost predicate Says(d: Reader, source: Text, rows: seq<Row>) {
    exists t :: LegalTable(d, t) && TableText(t) == source && WithinRows(d, t) && rows == Rows(d, t)
  }

  /** The text is no table, because a quote is left open or, for the strict reader, because of its form or
      length. */
  ghost predicate NoTable(d: Reader, source: Text) {
    forall t :: LegalTable(d, t) && TableText(t) == source ==> !WithinRows(d, t)
  }

  /** Each reader returns the rows that a text says as a table, and nothing for a text that is none; the
      reader of reviews then returns no rows. */
  lemma SourceExactly(d: Reader, source: Text)
    ensures forall rows :: Says(d, source, rows) ==> ReadSource(d, source) == Some(rows)
    ensures NoTable(d, source) <==> forall rows :: !Says(d, source, rows)
    ensures NoTable(d, source) ==> ReadSource(d, source) == if d == Local then Some([]) else None
  {
    hide Run, Rows, LegalTable, TableText, WithinRows;
    forall t | LegalTable(d, t) && TableText(t) == source
      ensures ReadSource(d, source) == if WithinRows(d, t) then Some(Rows(d, t)) else None
    {
      SpelledRead(d, t);
    }
    if NoTable(d, source) {
      var end := Run(d, START, source);
      if end.Some? && !end.value.quoted { var t := ReadSpelled(d, source); }
      OnlyStrictRefuses(d, START, source);
    } else {
      var t :| LegalTable(d, t) && TableText(t) == source && WithinRows(d, t);
      assert Says(d, source, Rows(d, t));
    }
  }

  lemma {:induction false} OnlyStrictRefuses(d: Reader, st: State, s: Text)
    ensures d != Strict ==> Run(d, st, s).Some?
    decreases |s|
  {
    if s == [] {
    } else if d != Strict {
      var m := Step(d, st, s);
      OnlyStrictRefuses(d, m.state, s[m.used..]);
    }
  }

  /** The text a reader's loop runs over. */
  function SourceOf(d: Reader, text: Text): Text {
    if d == Normalized then UnifyBreaks(StripBom(text)) else StripBom(text)
  }

  /** Which texts are read, and as what: the lax reader takes no NUL and no U+FFFD; apart from that a text is
      read as the rows it says, and the reader of reviews returns no rows for a quote left open. */
  lemma ReadsExactly(d: Reader, text: Text, rows: seq<Row>)
    ensures Read(d, text) == Some(rows)
       <==> && (d == Lax ==> NUL !in text && REPLACEMENT !in text)
            && (Says(d, SourceOf(d, text), rows) || (d == Local && rows == [] && NoTable(d, SourceOf(d, text))))
  {
    hide Run, Finish, Says, NoTable, UnifyBreaks;
    SourceExactly(d, SourceOf(d, text));
  }

  // ---------------------------------------------------------------- line breaks made one

  lemma UnifyFront(s: Text)
    requires s != []
    ensures var used := if s[0] == CR && |s| > 1 && s[1] == LF then 2 else 1;
      UnifyBreaks(s) == [if s[0] == CR then LF else s[0]] + UnifyBreaks(s[used..])
  {
  }

  /** A break in front of a text. */
  lemma UnifyBreak(b: Text)
    ensures UnifyBreaks(CRLF + b) == [LF] + UnifyBreaks(b)
    ensures b == [] || b[0] != LF ==> UnifyBreaks([CR] + b) == [LF] + UnifyBreaks(b)
  {
    hide UnifyBreaks;
    UnifyFront(CRLF + b);
    UnifyFront([CR] + b);
    assert (CRLF + b)[2..] == b && ([CR] + b)[1..] == b;
  }

  /** CR LF and CR become LF, wherever they stand. */
  lemma {:induction false} UnifyExactly(a: Text, ending: Text, b: Text)
    requires ending == CRLF || (ending == [CR] && (b == [] || b[0] != LF))
    ensures UnifyBreaks(a + (ending + b)) == UnifyBreaks(a) + [LF] + UnifyBreaks(b)
    decreases |a|
  {
    hide UnifyBreaks;
    if a == [] {
      UnifyBreak(b);
      NoBreaks();
      assert a + (ending + b) == ending + b;
    } else {
      var s, used := a + (ending + b), if a[0] == CR && |a| > 1 && a[1] == LF then 2 else 1;
      UnifyFront(a);
      UnifyFront(s);
      UnifyExactly(a[used..], ending, b);
      assert ending[0] == CR && s[0] == a[0] && (|a| > 1 ==> s[1] == a[1]) && (|a| == 1 ==> s[1] == CR);
      assert s[used..] == a[used..] + (ending + b);
    }
  }

  lemma NoBreaks()
    ensures UnifyBreaks([]) == []
  {
  }

  /** A text without CR stays as it is. */
  lemma {:induction false} UnifyNothing(a: Text)
    requires CR !in a
    ensures UnifyBreaks(a) == a
  {
    if a == [] {
    } else {
      UnifyNothing(a[1..]);
      assert a == [a[0]] + a[1..];
    }
  }

  // ---------------------------------------------------------------- the printers, exactly

  /** A quote between quotes is written twice, and nothing else is changed. */
  lemma {:induction false} EscapeExactly(a: Text, b: Text)
    ensures Escape(a + [QUOTE] + b) == Escape(a) + [QUOTE, QUOTE] + Escape(b)
    ensures QUOTE !in a ==> Escape(a) == a
  {
    if a == [] {
      assert a + [QUOTE] + b == [QUOTE] + b && ([QUOTE] + b)[1..] == b;
    } else {
      var s := a + [QUOTE] + b;
      assert s[1..] == a[1..] + [QUOTE] + b && s[0] == a[0];
      EscapeExactly(a[1..], b);
      assert a == [a[0]] + a[1..];
      var front := if a[0] == QUOTE then [QUOTE, QUOTE] else [a[0]];
      assert Escape(s) == front + Escape(s[1..]);
    }
  }

  function Plains(c: Text): (f: Field)
    ensures |f| == |c|
    ensures forall k :: 0 <= k < |c| ==> f[k] == Plain(c[k])
  {
    seq(|c|, k requires 0 <= k < |c| => Plain(c[k]))
  }

  /** A cell as each printer writes it: enclosed always, or for a quote, a comma or LF in it, and by the one
      for CR as well. */
  function Written(style: Style, c: Text): Field {
    if style == Always || (exists u :: u in c && (u == QUOTE || u == COMMA || u == LF || (u == CR && style == OnBreak)))
    then [Enclosed(c)] else Plains(c)
  }

  function WrittenFields(style: Style, cells: seq<Text>): (fields: seq<Field>)
    ensures |fields| == |cells|
    ensures forall k :: 0 <= k < |cells| ==> fields[k] == Written(style, cells[k])
  {
    seq(|cells|, k requires 0 <= k < |cells| => Written(style, cells[k]))
  }

  /** The line of a row; a row without cells makes an empty line. */
  function WrittenLine(style: Style, row: Row, eol: Text): Line {
    if row == [] then Line(NOTHING, eol)
    else
      var n := |row| - 1;
      Line(Record(WrittenFields(style, row[..n]), Written(style, row[n])), eol)
  }

  function WrittenLines(style: Style, rows: seq<Row>, eol: Text): (lines: seq<Line>)
    ensures |lines| == |rows|
    ensures forall k :: 0 <= k < |rows| ==> lines[k] == WrittenLine(style, rows[k], eol)
  {
    seq(|rows|, k requires 0 <= k < |rows| => WrittenLine(style, rows[k], eol))
  }

  lemma {:induction false} PlainsText(c: Text)
    ensures FieldText(Plains(c)) == c
  {
    if c == [] {
    } else {
      var n := |c| - 1;
      PlainsText(c[..n]);
      assert Plains(c)[..n] == Plains(c[..n]);
      assert c == c[..n] + [c[n]];
    }
  }

  lemma WrittenText(style: Style, c: Text)
    ensures FieldText(Written(style, c)) == CellText(style, c)
  {
    hide FieldText, Plains, Escape;
    PlainsText(c);
    EnclosedText(c);
  }

  lemma EnclosedText(c: Text)
    ensures FieldText([Enclosed(c)]) == [QUOTE] + Escape(c) + [QUOTE]
  {
    var f := [Enclosed(c)];
    assert f[..0] == [] && FieldText(f[..0]) == [];
  }

  lemma {:induction false} JoinSnoc(parts: seq<Text>, last: Text, separator: Text)
    ensures Join(parts + [last], separator) == if parts == [] then last else Join(parts, separator) + separator + last
  {
    if parts == [] {
      assert parts + [last] == [last];
    } else {
      var all := parts + [last];
      assert all[1..] == parts[1..] + [last];
      JoinSnoc(parts[1..], last, separator);
      if |parts| == 1 { assert parts[1..] == []; }
    }
  }

  lemma {:induction false} CommasWritten(style: Style, cells: seq<Text>)
    ensures CommaText(WrittenFields(style, cells))
         == if cells == [] then [] else RowText(style, cells) + [COMMA]
  {
    hide FieldText, Written, CellText, Join;
    if cells == [] {
    } else {
      var n := |cells| - 1;
      var front := cells[..n];
      CommasWritten(style, front);
      WrittenText(style, cells[n]);
      assert WrittenFields(style, cells)[..n] == WrittenFields(style, front);
      RowTextSnoc(style, cells);
    }
  }

  lemma RowTextSnoc(style: Style, cells: seq<Text>)
    requires cells != []
    ensures var n := |cells| - 1;
      RowText(style, cells) == (if n == 0 then [] else RowText(style, cells[..n]) + [COMMA]) + CellText(style, cells[n])
  {
    var n := |cells| - 1;
    assert CellTexts(style, cells) == CellTexts(style, cells[..n]) + [CellText(style, cells[n])];
    JoinSnoc(CellTexts(style, cells[..n]), CellText(style, cells[n]), [COMMA]);
  }

  lemma LineWritten(style: Style, row: Row, eol: Text)
    ensures RecordText(WrittenLine(style, row, eol).record) == RowText(style, row)
  {
    hide FieldText, Written, CellText, CommaText, RowText;
    if row == [] {
      NoPieces(Strict);
      EmptyRow(style);
    } else {
      var n := |row| - 1;
      CommasWritten(style, row[..n]);
      WrittenText(style, row[n]);
      RowTextSnoc(style, row);
    }
  }

  lemma EmptyRow(style: Style)
    ensures RowText(style, []) == []
  {
  }

  lemma {:induction false} LinesWritten(style: Style, rows: seq<Row>, eol: Text)
    ensures LinesText(WrittenLines(style, rows, eol)) == if rows == [] then [] else Lines(style, rows, eol)
  {
    hide RecordText, RowText, WrittenLine, Join;
    if rows == [] {
    } else {
      var n := |rows| - 1;
      var front := rows[..n];
      LinesWritten(style, front, eol);
      LineWritten(style, rows[n], eol);
      assert WrittenLines(style, rows, eol)[..n] == WrittenLines(style, front, eol);
      assert RowTexts(style, rows) == RowTexts(style, front) + [RowText(style, rows[n])];
      JoinSnoc(RowTexts(style, front), RowText(style, rows[n]), eol);
      LineEnding(style, rows[n], eol);
    }
  }

  lemma LineEnding(style: Style, row: Row, eol: Text)
    ensures WrittenLine(style, row, eol).ending == eol
  {
  }

  /** A print is a byte order mark and one line per row, each ended by CR LF, with nothing behind; it has one
      empty line if there are no rows. */
  lemma PrintExactly(style: Style, rows: seq<Row>)
    ensures var lines := WrittenLines(style, if rows == [] then [[]] else rows, CRLF);
      Print(style, rows) == [BOM] + TableText(Table(lines, NOTHING))
  {
    hide LinesText, Lines, WrittenLines;
    NoPieces(Strict);
    LinesWritten(style, if rows == [] then [[]] else rows, CRLF);
    if rows == [] { EmptyTable(style, Strict, CRLF); }
    var text := Lines(style, rows, CRLF);
    assert text + ([] + []) == text;
  }

  /** An artifact has no mark, LF for a break, and one empty line behind the header if there are no rows. */
  lemma ArtifactExactly(header: Row, rows: seq<Row>)
    ensures var lines := WrittenLines(OnNewline, [header] + (if rows == [] then [[]] else rows), [LF]);
      PrintArtifact(header, rows) == TableText(Table(lines, NOTHING))
  {
    hide LinesText, RowText, WrittenLines;
    var table := [header] + (if rows == [] then [[]] else rows);
    NoPieces(Strict);
    LinesWritten(OnNewline, table, [LF]);
    LinesUnfold(OnNewline, table, [LF]);
    assert table[1..] == if rows == [] then [[]] else rows;
    if rows == [] { EmptyTable(OnNewline, Normalized, [LF]); }
    hide Lines;
    var text := Lines(OnNewline, table, [LF]);
    assert text + ([] + []) == text;
  }
}
