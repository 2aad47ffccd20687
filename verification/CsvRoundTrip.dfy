/** The CSV printers, and what each reader makes of what they print. */
module CsvRoundTrip {
  import opened Options
  import opened JsStrings
  import opened CsvReaders

  /**
    Always:   csvCell of financial-supplemental-csv.js and management-workforce-evidence-status.js,
              localCsvCell of app-v2.js
    OnBreak:  csvCell of store-workforce-monthly-summary-csv.js, quoting on  " , CR LF
    OnNewline: csvCell of dbf-business-data-input-adapter.js, quoting on  " , LF
   */
  datatype Style = Always | OnBreak | OnNewline

  predicate Quotes(style: Style, c: Text) {
    match style
    case Always => true
    case OnBreak => QUOTE in c || COMMA in c || CR in c || LF in c
    case OnNewline => QUOTE in c || COMMA in c || LF in c
  }

  function Escape(c: Text): Text {
    if c == [] then []
    else (if c[0] == QUOTE then [QUOTE, QUOTE] else [c[0]]) + Escape(c[1..])
  }

  function CellText(style: Style, c: Text): Text {
    if Quotes(style, c) then [QUOTE] + Escape(c) + [QUOTE] else c
  }

  function CellTexts(style: Style, row: Row): (r: seq<Text>)
    ensures |r| == |row|
    ensures forall k :: 0 <= k < |row| ==> r[k] == CellText(style, row[k])
  {
    seq(|row|, k requires 0 <= k < |row| => CellText(style, row[k]))
  }

  function RowText(style: Style, row: Row): Text {
    Join(CellTexts(style, row), [COMMA])
  }

  function RowTexts(style: Style, rows: seq<Row>): (r: seq<Text>)
    ensures |r| == |rows|
    ensures forall k :: 0 <= k < |rows| ==> r[k] == RowText(style, rows[k])
  {
    seq(|rows|, k requires 0 <= k < |rows| => RowText(style, rows[k]))
  }

  /** The lines of a table joined by the line break, and one line break at the end. */
  function Lines(style: Style, rows: seq<Row>, eol: Text): Text {
    Join(RowTexts(style, rows), eol) + eol
  }

  /** A byte order mark, then every line with its cells between commas, each line ended by CR LF. */
  function Print(style: Style, rows: seq<Row>): Text {
    [BOM] + Lines(style, rows, CRLF)
  }

  /** The artifact of manual input: a header line, then the rows, with LF and no BOM. */
  function PrintArtifact(header: Row, rows: seq<Row>): Text {
    RowText(OnNewline, header) + [LF] + Lines(OnNewline, rows, [LF])
  }

  // ---------------------------------------------------------------- reading one cell

  predicate Fresh(st: State) {
    !st.quoted && !st.closed && !st.started && st.cell == []
  }

  /** The strict reader, and it alone, limits the number of rows. */
  predicate Room(d: Reader, rowCount: int) {
    d.Strict? ==> rowCount <= MAX_CSV_DATA_ROWS
  }

  /** Room to end a line behind this cell: the limit is not applied behind a closed cell. */
  predicate EndRoom(style: Style, d: Reader, rowCount: int, c: Text) {
    Room(d, rowCount) || (Room(d, rowCount - 1) && Quotes(style, c))
  }

  /** The row ends in a quoted cell. */
  predicate Closes(style: Style, row: Row) {
    row != [] && Quotes(style, row[|row| - 1])
  }

  predicate RowRoom(style: Style, d: Reader, rowCount: int, row: Row) {
    Room(d, rowCount) || (Room(d, rowCount - 1) && Closes(style, row))
  }

  predicate CellsFreeOf(u: CodeUnit, rows: seq<Row>) {
    forall i, k :: 0 <= i < |rows| && 0 <= k < |rows[i]| ==> u !in rows[i][k]
  }

  /** The printer, reader and line break fit each other on this cell. */
  predicate Fits(style: Style, d: Reader, eol: Text, c: Text) {
    && (eol == CRLF || (eol == [LF] && CR !in c))
    && (style == OnNewline ==> CR !in c)
    && (d == Normalized ==> eol == [LF])
  }

  predicate RowFits(style: Style, d: Reader, eol: Text, row: Row) {
    forall k :: 0 <= k < |row| ==> Fits(style, d, eol, row[k])
  }

  /** A quoted cell is read back whole, whatever it holds. */
  lemma {:induction false} RunQuoted(d: Reader, st: State, c: Text, rest: Text)
    requires st.quoted
    requires rest == [] || rest[0] != QUOTE
    decreases |c|
    ensures Run(d, st, Escape(c) + [QUOTE] + rest)
         == Run(d, st.(cell := st.cell + c, quoted := false, closed := d.Strict?), rest)
  {
    var s := Escape(c) + [QUOTE] + rest;
    if c == [] {
      assert s == [QUOTE] + rest;
      assert s[1..] == rest && st.cell + c == st.cell;
    } else {
      var used := if c[0] == QUOTE then 2 else 1;
      assert s[used..] == Escape(c[1..]) + [QUOTE] + rest;
      assert st.cell + [c[0]] + c[1..] == st.cell + c;
      RunQuoted(d, st.(cell := st.cell + [c[0]]), c[1..], rest);
    }
  }

  /** Plain characters outside quotes are copied to the cell. */
  lemma {:induction false} RunPlain(d: Reader, st: State, c: Text, rest: Text)
    requires !st.quoted && !st.closed && Room(d, |st.rows| - 1)
    requires QUOTE !in c && COMMA !in c && CR !in c && LF !in c
    decreases |c|
    ensures Run(d, st, c + rest) == Run(d, st.(cell := st.cell + c, started := st.started || (d.Strict? && c != [])), rest)
  {
    var s := c + rest;
    if c == [] {
      assert s == rest && st.cell + c == st.cell;
    } else {
      assert c[0] in c;
      assert s[1..] == c[1..] + rest;
      assert st.cell + [c[0]] + c[1..] == st.cell + c;
      RunPlain(d, st.(cell := st.cell + [c[0]], started := d.Strict? || st.started), c[1..], rest);
    }
  }

  /** The state of a reader that has just read the printed cell c. */
  function Holding(style: Style, d: Reader, st: State, c: Text): State {
    st.(cell := c, closed := d.Strict? && Quotes(style, c), started := d.Strict? && (Quotes(style, c) || c != []))
  }

  /** From a fresh state, a printed cell brings the reader to the state just before its separator. */
  lemma RunCell(style: Style, d: Reader, eol: Text, st: State, c: Text, rest: Text)
    requires Fresh(st) && Room(d, |st.rows| - 1)
    requires Fits(style, d, eol, c)
    requires rest != [] && rest[0] != QUOTE
    ensures Run(d, st, CellText(style, c) + rest) == Run(d, Holding(style, d, st, c), rest)
  {
    assert [] + c == c;
    if Quotes(style, c) {
      var s := CellText(style, c) + rest;
      assert s[1..] == Escape(c) + [QUOTE] + rest;
      RunQuoted(d, st.(quoted := true, started := d.Strict?), c, rest);
    } else {
      RunPlain(d, st, c, rest);
    }
  }

  lemma RunComma(style: Style, d: Reader, st: State, c: Text, rest: Text)
    requires Fresh(st) && Room(d, |st.rows| - 1)
    ensures Run(d, Holding(style, d, st, c), [COMMA] + rest) == Run(d, st.(row := st.row + [c]), rest)
  {
    var s := [COMMA] + rest;
    assert s[1..] == rest;
    assert Step(d, Holding(style, d, st, c), s) == Moved(st.(row := st.row + [c]), 1);
  }

  lemma RunCellComma(style: Style, d: Reader, eol: Text, st: State, c: Text, rest: Text)
    requires Fresh(st) && Room(d, |st.rows| - 1)
    requires Fits(style, d, eol, c)
    ensures Run(d, st, CellText(style, c) + [COMMA] + rest) == Run(d, st.(row := st.row + [c]), rest)
  {
    hide Run;
    var tail := [COMMA] + rest;
    RunCell(style, d, eol, st, c, tail);
    assert CellText(style, c) + [COMMA] + rest == CellText(style, c) + tail;
    RunComma(style, d, st, c, rest);
  }

  /** The rows a reader adds at the end of a line: only Evidence drops an empty row on the spot. */
  function Added(d: Reader, row: Row): seq<Row> {
    if d.Evidence? && AllEmpty(row) then [] else [row]
  }

  lemma RunLf(style: Style, d: Reader, st: State, c: Text, rest: Text)
    requires Fresh(st) && EndRoom(style, d, |st.rows|, c) && CR !in c
    ensures Run(d, Holding(style, d, st, c), [LF] + rest)
         == Run(d, st.(row := [], rows := st.rows + Added(d, st.row + [c])), rest)
  {
    var s := [LF] + rest;
    assert s[1..] == rest && StripCr(c) == c;
    assert Step(d, Holding(style, d, st, c), s) == Moved(st.(row := [], rows := st.rows + Added(d, st.row + [c])), 1);
  }

  lemma RunCrLf(style: Style, d: Reader, st: State, c: Text, rest: Text)
    requires Fresh(st) && EndRoom(style, d, |st.rows|, c) && !d.Normalized?
    ensures Run(d, Holding(style, d, st, c), CRLF + rest)
         == Run(d, st.(row := [], rows := st.rows + Added(d, st.row + [c])), rest)
  {
    var s := CRLF + rest;
    var lf := [LF] + rest;
    assert s[1..] == lf && lf[1..] == rest && s[2..] == rest && StripCr(c + [CR]) == c;
    var held := Holding(style, d, st, c);
    var after := st.(row := [], rows := st.rows + Added(d, st.row + [c]));
    if d == Lax || d == Local {
      assert Step(d, held, s) == Moved(held.(cell := c + [CR]), 1);
      assert Step(d, held.(cell := c + [CR]), lf) == Moved(after, 1);
    } else {
      assert Step(d, held, s) == Moved(after, 2);
    }
  }

  lemma RunCellEnd(style: Style, d: Reader, eol: Text, st: State, c: Text, rest: Text)
    requires Fresh(st) && EndRoom(style, d, |st.rows|, c)
    requires Fits(style, d, eol, c)
    ensures Run(d, st, CellText(style, c) + eol + rest)
         == Run(d, st.(row := [], rows := st.rows + Added(d, st.row + [c])), rest)
  {
    hide Run;
    var tail := eol + rest;
    assert CellText(style, c) + eol + rest == CellText(style, c) + tail;
    RunCell(style, d, eol, st, c, tail);
    if eol == [LF] { RunLf(style, d, st, c, rest); } else { RunCrLf(style, d, st, c, rest); }
  }

  // ---------------------------------------------------------------- reading one row, then all rows

  /** A row without cells prints as an empty line, which reads back as one empty cell. */
  function Solid(row: Row): Row {
    if row == [] then [[]] else row
  }

  lemma RowTextUnfold(style: Style, row: Row)
    requires |row| > 1
    ensures RowText(style, row) == CellText(style, row[0]) + [COMMA] + RowText(style, row[1..])
  {
    assert CellTexts(style, row)[1..] == CellTexts(style, row[1..]);
  }

  lemma RunShortRow(style: Style, d: Reader, eol: Text, st: State, row: Row, rest: Text)
    requires Fresh(st) && RowRoom(style, d, |st.rows|, row)
    requires RowFits(style, d, eol, row) && Fits(style, d, eol, []) && |row| <= 1
    ensures Run(d, st, RowText(style, row) + eol + rest)
         == Run(d, st.(row := [], rows := st.rows + Added(d, st.row + Solid(row))), rest)
  {
    hide Run;
    if row == [] {
      var bare := if style == Always then OnBreak else style;
      RunCellEnd(bare, d, eol, st, [], rest);
    } else {
      assert row == [row[0]];
      RunCellEnd(style, d, eol, st, row[0], rest);
    }
  }

  lemma {:induction false} RunRow(style: Style, d: Reader, eol: Text, st: State, row: Row, rest: Text)
    requires Fresh(st) && RowRoom(style, d, |st.rows|, row)
    requires RowFits(style, d, eol, row) && Fits(style, d, eol, [])
    decreases |row|
    ensures Run(d, st, RowText(style, row) + eol + rest)
         == Run(d, st.(row := [], rows := st.rows + Added(d, st.row + Solid(row))), rest)
  {
    hide Run, RowText, CellText;
    if |row| <= 1 {
      RunShortRow(style, d, eol, st, row, rest);
    } else {
      RowTextUnfold(style, row);
      var tail := RowText(style, row[1..]) + eol + rest;
      assert RowText(style, row) + eol + rest == CellText(style, row[0]) + [COMMA] + tail;
      RunCellComma(style, d, eol, st, row[0], tail);
      RunRow(style, d, eol, st.(row := st.row + [row[0]]), row[1..], rest);
      assert st.row + [row[0]] + Solid(row[1..]) == st.row + Solid(row);
    }
  }

  function AddedAll(d: Reader, rows: seq<Row>): seq<Row> {
    if rows == [] then [] else Added(d, Solid(rows[0])) + AddedAll(d, rows[1..])
  }

  lemma LinesUnfold(style: Style, rows: seq<Row>, eol: Text)
    requires |rows| > 1
    ensures Lines(style, rows, eol) == RowText(style, rows[0]) + eol + Lines(style, rows[1..], eol)
  {
    assert RowTexts(style, rows)[1..] == RowTexts(style, rows[1..]);
  }

  lemma LinesOfOne(style: Style, row: Row, eol: Text)
    ensures Lines(style, [row], eol) == RowText(style, row) + eol
  {
  }

  lemma {:induction false} RunLines(style: Style, d: Reader, eol: Text, st: State, rows: seq<Row>, rest: Text)
    requires Fresh(st) && st.row == [] && rows != []
    requires RowRoom(style, d, |st.rows| + |rows| - 1, rows[|rows| - 1])
    requires forall k :: 0 <= k < |rows| ==> RowFits(style, d, eol, rows[k])
    requires Fits(style, d, eol, [])
    ensures Run(d, st, Lines(style, rows, eol) + rest) == Run(d, st.(rows := st.rows + AddedAll(d, rows)), rest)
    decreases |rows|
  {
    hide Run, Lines, RowText, Solid, Fits;
    var row, next := rows[0], st.(rows := st.rows + Added(d, Solid(rows[0])));
    assert st.row + Solid(row) == Solid(row);
    if |rows| == 1 {
      assert rows == [row];
      LinesOfOne(style, row, eol);
      assert AddedAll(d, rows) == Added(d, Solid(row)) + AddedAll(d, []) == Added(d, Solid(row));
      RunRow(style, d, eol, st, row, rest);
    } else {
      LinesUnfold(style, rows, eol);
      var tail := Lines(style, rows[1..], eol) + rest;
      assert Lines(style, rows, eol) + rest == RowText(style, row) + eol + tail;
      RunRow(style, d, eol, st, row, tail);
      RunLines(style, d, eol, next, rows[1..], rest);
      assert next.rows + AddedAll(d, rows[1..]) == st.rows + AddedAll(d, rows);
    }
  }

  // ---------------------------------------------------------------- the row limit of the strict reader

  lemma FullRefuses(st: State, s: Text)
    requires Fresh(st) && !Room(Strict, |st.rows| - 1) && s != []
    ensures Run(Strict, st, s) == None
  {
  }

  /** A row for which there is no room is refused. */
  lemma {:induction false} RowRefused(style: Style, st: State, row: Row, rest: Text)
    requires Fresh(st) && !RowRoom(style, Strict, |st.rows|, row)
    requires RowFits(style, Strict, CRLF, row)
    ensures Run(Strict, st, RowText(style, row) + CRLF + rest) == None
    decreases |row|
  {
    hide Run, RowText, CellText, Quotes;
    if !Room(Strict, |st.rows| - 1) {
      FullRefuses(st, RowText(style, row) + CRLF + rest);
    } else if |row| <= 1 {
      ShortRowRefused(style, st, row, rest);
    } else {
      RowTextUnfold(style, row);
      var tail := RowText(style, row[1..]) + CRLF + rest;
      assert RowText(style, row) + CRLF + rest == CellText(style, row[0]) + [COMMA] + tail;
      RunCellComma(style, Strict, CRLF, st, row[0], tail);
      RowRefused(style, st.(row := st.row + [row[0]]), row[1..], rest);
    }
  }

  lemma ShortRowRefused(style: Style, st: State, row: Row, rest: Text)
    requires Fresh(st) && Room(Strict, |st.rows| - 1) && !RowRoom(style, Strict, |st.rows|, row) && |row| <= 1
    requires RowFits(style, Strict, CRLF, row)
    ensures Run(Strict, st, RowText(style, row) + CRLF + rest) == None
  {
    hide Run;
    var tail := CRLF + rest;
    if row == [] {
      assert RowText(style, row) + CRLF + rest == tail;
      EndRefused(st, tail);
    } else {
      assert row == [row[0]];
      assert RowText(style, row) + CRLF + rest == CellText(style, row[0]) + tail;
      RunCell(style, Strict, CRLF, st, row[0], tail);
      EndRefused(Holding(style, Strict, st, row[0]), tail);
    }
  }

  lemma EndRefused(st: State, tail: Text)
    requires !st.quoted && !st.closed && !Room(Strict, |st.rows|) && |tail| >= 2 && tail[..2] == CRLF
    ensures Run(Strict, st, tail) == None
  {
    assert tail[0] == tail[..2][0] && tail[1] == tail[..2][1];
  }

  lemma {:induction false} LinesRefused(style: Style, st: State, rows: seq<Row>, rest: Text)
    requires Fresh(st) && st.row == [] && rows != []
    requires !RowRoom(style, Strict, |st.rows| + |rows| - 1, rows[|rows| - 1])
    requires Fits(style, Strict, CRLF, []) && forall k :: 0 <= k < |rows| ==> RowFits(style, Strict, CRLF, rows[k])
    ensures Run(Strict, st, Lines(style, rows, CRLF) + rest) == None
    decreases |rows|
  {
    hide Run, Lines, RowText, Solid, Fits, Closes;
    var row := rows[0];
    if |rows| == 1 {
      assert rows == [row];
      LinesOfOne(style, row, CRLF);
      RowRefused(style, st, row, rest);
    } else {
      LinesUnfold(style, rows, CRLF);
      var tail := Lines(style, rows[1..], CRLF) + rest;
      assert Lines(style, rows, CRLF) + rest == RowText(style, row) + CRLF + tail;
      if RowRoom(style, Strict, |st.rows|, row) {
        RunRow(style, Strict, CRLF, st, row, tail);
        assert st.row + Solid(row) == Solid(row);
        LinesRefused(style, st.(rows := st.rows + [Solid(row)]), rows[1..], rest);
      } else {
        RowRefused(style, st, row, tail);
      }
    }
  }

  // ---------------------------------------------------------------- filters

  lemma {:induction false} KeepConcat(p: Row -> bool, a: seq<Row>, b: seq<Row>)
    ensures Keep(p, a + b) == Keep(p, a) + Keep(p, b)
    decreases |b|
  {
    if b == [] {
      assert a + b == a;
    } else {
      var ab := a + b;
      assert ab[..|ab| - 1] == a + b[..|b| - 1];
      KeepConcat(p, a, b[..|b| - 1]);
    }
  }

  /** A filter is the identity exactly when every row passes. */
  lemma {:induction false} KeepsAll(p: Row -> bool, rows: seq<Row>)
    ensures |Keep(p, rows)| <= |rows|
    ensures |Keep(p, rows)| == |rows| <==> forall k :: 0 <= k < |rows| ==> p(rows[k])
    ensures (forall k :: 0 <= k < |rows| ==> p(rows[k])) ==> Keep(p, rows) == rows
    ensures forall k :: 0 <= k < |Keep(p, rows)| ==> Keep(p, rows)[k] in rows
  {
    if rows == [] {
    } else {
      KeepsAll(p, rows[..|rows| - 1]);
      assert rows == rows[..|rows| - 1] + [rows[|rows| - 1]];
    }
  }

  function Solids(rows: seq<Row>): (r: seq<Row>)
    ensures |r| == |rows|
    ensures forall k :: 0 <= k < |rows| ==> r[k] == Solid(rows[k])
  {
    seq(|rows|, k requires 0 <= k < |rows| => Solid(rows[k]))
  }

  lemma KeepCons(p: Row -> bool, row: Row, rows: seq<Row>)
    ensures Keep(p, [row] + rows) == (if p(row) then [row] else []) + Keep(p, rows)
  {
    KeepConcat(p, [row], rows);
    assert [row][..0] == [];
  }

  lemma {:induction false} AddedAllIs(d: Reader, rows: seq<Row>)
    ensures AddedAll(d, rows) == if d.Evidence? then Keep(NonEmpty, Solids(rows)) else Solids(rows)
  {
    hide AllEmpty, Solid;
    if rows == [] {
    } else {
      AddedAllIs(d, rows[1..]);
      assert Solids(rows) == [Solid(rows[0])] + Solids(rows[1..]);
      KeepCons(NonEmpty, Solid(rows[0]), Solids(rows[1..]));
    }
  }

  // ---------------------------------------------------------------- which characters a print holds

  lemma {:induction false} EscapeHolds(u: CodeUnit, c: Text)
    ensures u in Escape(c) <==> u in c
  {
    if c == [] {
    } else {
      EscapeHolds(u, c[1..]);
      assert c == [c[0]] + c[1..];
    }
  }

  lemma {:induction false} JoinHolds(u: CodeUnit, parts: seq<Text>, separator: Text)
    requires u !in separator
    ensures u in Join(parts, separator) <==> exists k :: 0 <= k < |parts| && u in parts[k]
  {
    if |parts| > 1 {
      JoinHolds(u, parts[1..], separator);
      assert parts == [parts[0]] + parts[1..];
    }
  }

  lemma RowTextHolds(style: Style, u: CodeUnit, row: Row)
    requires u != QUOTE && u != COMMA
    ensures u in RowText(style, row) <==> exists k :: 0 <= k < |row| && u in row[k]
  {
    JoinHolds(u, CellTexts(style, row), [COMMA]);
    forall k | 0 <= k < |row| ensures u in CellTexts(style, row)[k] <==> u in row[k] {
      EscapeHolds(u, row[k]);
    }
  }

  /** Apart from the punctuation of the format, a print holds just the characters of its cells. */
  lemma LinesHold(style: Style, u: CodeUnit, rows: seq<Row>, eol: Text)
    requires u != QUOTE && u != COMMA && u !in eol
    ensures u in Lines(style, rows, eol) <==> !CellsFreeOf(u, rows)
  {
    JoinHolds(u, RowTexts(style, rows), eol);
    forall k | 0 <= k < |rows|
      ensures u in RowTexts(style, rows)[k] <==> exists j :: 0 <= j < |rows[k]| && u in rows[k][j]
    {
      RowTextHolds(style, u, rows[k]);
    }
  }

  // ---------------------------------------------------------------- reading a whole print

  /** The rows a reader keeps of a printed table. */
  function Kept(d: Reader, rows: seq<Row>): seq<Row> {
    match d
    case Lax => DropTrailingEmpty(Solids(rows))
    case Local => Keep(NonEmpty, Solids(rows))
    case Evidence => Keep(NonEmpty, Solids(rows))
    case Strict => Keep(NonBlank, Solids(rows))
    case Normalized => Keep(NonBlank, Solids(rows))
  }

  lemma EmptyTable(style: Style, d: Reader, eol: Text)
    ensures Lines(style, [], eol) == Lines(style, [[]], eol)
    ensures Kept(d, []) == Kept(d, [[]]) == []
  {
    assert RowTexts(style, [[]]) == [[]];
    var one := Solids([[]]);
    assert one == [[[]]] && one[..0] == [] && !NonEmpty(one[0]) && !NonBlank(one[0]);
    assert Keep(NonEmpty, one) == Keep(NonEmpty, []) == [] == Keep(NonBlank, one);
  }

  lemma FinishKept(d: Reader, rows: seq<Row>)
    ensures Finish(d, START.(rows := AddedAll(d, rows))) == Some(Kept(d, rows))
  {
    hide Keep, AddedAll, DropTrailingEmpty;
    AddedAllIs(d, rows);
  }

  /** The strict reader takes a header and MAX_CSV_DATA_ROWS rows, and one more if it ends in a quoted cell. */
  predicate ShortEnough(style: Style, d: Reader, rows: seq<Row>) {
    rows == [] || RowRoom(style, d, |rows| - 1, rows[|rows| - 1])
  }

  lemma ReadLines(style: Style, d: Reader, eol: Text, rows: seq<Row>)
    requires forall k :: 0 <= k < |rows| ==> RowFits(style, d, eol, rows[k])
    requires Fits(style, d, eol, []) && ShortEnough(style, d, rows)
    ensures Run(d, START, Lines(style, rows, eol)).Some?
    ensures Finish(d, Run(d, START, Lines(style, rows, eol)).value) == Some(Kept(d, rows))
    decreases rows == []
  {
    hide Run, Finish, Kept, Lines, AddedAll;
    if rows == [] {
      EmptyTable(style, d, eol);
      ReadLines(style, d, eol, [[]]);
    } else {
      RunLines(style, d, eol, START, rows, []);
      assert Lines(style, rows, eol) + [] == Lines(style, rows, eol);
      assert [] + AddedAll(d, rows) == AddedAll(d, rows);
      RunNothing(d, START.(rows := AddedAll(d, rows)));
      FinishKept(d, rows);
    }
  }

  /** Nothing is lost or mixed up between printer and reader: every reader but Normalized turns a
      print into the printed rows, less the empty rows it drops; Lax alone rejects NUL and U+FFFD, and
      Strict alone a table that is too long. */
  lemma ReadPrint(style: Style, d: Reader, rows: seq<Row>)
    requires style != OnNewline && d != Normalized
    ensures Read(d, Print(style, rows))
         == if d == Lax && !(CellsFreeOf(NUL, rows) && CellsFreeOf(REPLACEMENT, rows)) then None
            else if !ShortEnough(style, d, rows) then None
            else Some(Kept(d, rows))
  {
    hide Run, Finish, Kept, Lines, CellsFreeOf, RowRoom;
    LinesHold(style, NUL, rows, CRLF);
    LinesHold(style, REPLACEMENT, rows, CRLF);
    assert StripBom(Print(style, rows)) == Lines(style, rows, CRLF);
    if ShortEnough(style, d, rows) {
      ReadLines(style, d, CRLF, rows);
    } else {
      OnlyStrictLimits(style, d, |rows| - 1, rows[|rows| - 1]);
      LinesRefused(style, START, rows, []);
      assert Lines(style, rows, CRLF) + [] == Lines(style, rows, CRLF);
    }
  }

  lemma OnlyStrictLimits(style: Style, d: Reader, rowCount: int, row: Row)
    requires !RowRoom(style, d, rowCount, row)
    ensures d.Strict?
  {
  }

  /** The tables a reader gives back unchanged. */
  predicate Survives(d: Reader, rows: seq<Row>) {
    && (forall k :: 0 <= k < |rows| ==> rows[k] != [])
    && match d
       case Lax =>
         && CellsFreeOf(NUL, rows) && CellsFreeOf(REPLACEMENT, rows)
         && (rows != [] ==> NonEmpty(rows[|rows| - 1]))
       case Local => forall k :: 0 <= k < |rows| ==> NonEmpty(rows[k])
       case Evidence => forall k :: 0 <= k < |rows| ==> NonEmpty(rows[k])
       case Strict => forall k :: 0 <= k < |rows| ==> NonBlank(rows[k])
       case Normalized => forall k :: 0 <= k < |rows| ==> NonBlank(rows[k])
  }

  lemma {:induction false} DropTrailingIs(rows: seq<Row>)
    ensures |DropTrailingEmpty(rows)| <= |rows| && DropTrailingEmpty(rows) == rows[..|DropTrailingEmpty(rows)|]
    ensures DropTrailingEmpty(rows) == rows <==> rows == [] || NonEmpty(rows[|rows| - 1])
  {
    if rows != [] && AllEmpty(rows[|rows| - 1]) { DropTrailingIs(rows[..|rows| - 1]); }
  }

  lemma SolidsKeepShape(rows: seq<Row>)
    ensures Solids(rows) == rows <==> forall k :: 0 <= k < |rows| ==> rows[k] != []
    ensures forall k :: 0 <= k < |rows| ==> Solids(rows)[k] != []
  {
  }

  lemma KeptIsAll(d: Reader, rows: seq<Row>)
    requires d == Lax ==> CellsFreeOf(NUL, rows) && CellsFreeOf(REPLACEMENT, rows)
    ensures Kept(d, rows) == rows <==> Survives(d, rows)
  {
    hide Keep, DropTrailingEmpty, AllEmpty, AllBlank, CellsFreeOf;
    var all := Solids(rows);
    SolidsKeepShape(rows);
    DropTrailingIs(all);
    KeepsAll(NonEmpty, all);
    KeepsAll(NonBlank, all);
    if Kept(d, rows) == rows {
      forall k | 0 <= k < |rows| ensures rows[k] != [] {
        assert rows[k] in all;
      }
    }
  }

  /** Printing a table and reading it back is the identity exactly when the table survives and is not too long. */
  lemma PrintThenRead(style: Style, d: Reader, rows: seq<Row>)
    requires style != OnNewline && d != Normalized
    ensures Read(d, Print(style, rows)) == Some(rows) <==> Survives(d, rows) && ShortEnough(style, d, rows)
  {
    hide Read, Print, Kept, Survives, CellsFreeOf, ShortEnough;
    ReadPrint(style, d, rows);
    if d != Lax || (CellsFreeOf(NUL, rows) && CellsFreeOf(REPLACEMENT, rows)) {
      KeptIsAll(d, rows);
    } else {
      LaxSurvivorsReadable(rows);
    }
  }

  lemma LaxSurvivorsReadable(rows: seq<Row>)
    ensures Survives(Lax, rows) ==> CellsFreeOf(NUL, rows) && CellsFreeOf(REPLACEMENT, rows)
  {
  }

  /** Only the strict reader limits the length, and it does so at one row more for a quoted end. */
  lemma LimitExactly(style: Style, d: Reader, rows: seq<Row>)
    ensures ShortEnough(style, d, rows)
       <==> || d != Strict || |rows| <= MAX_CSV_DATA_ROWS + 1
            || (|rows| == MAX_CSV_DATA_ROWS + 2 && Closes(style, rows[|rows| - 1]))
  {
  }
}
