/** The five hand-written CSV readers: one family of character automata, and the loops that run them. */
module CsvReaders {
  import opened Options
  import opened JsStrings

  type Row = seq<Text>

  /**
    Strict:     store-csv-requirements.js, parseCsvRecords
    Lax:        store-workforce-monthly-summary-csv.js and financial-supplemental-csv.js, parseCsv
    Local:      app-v2.js, parseLocalCsvRows
    Evidence:   management-workforce-evidence-status.js, parseCsvRows on the text without its BOM
    Normalized: dbf-business-data-normalized-csv.js, csvRows
   */
  datatype Reader = Strict | Lax | Local | Evidence | Normalized

  const MAX_CSV_DATA_ROWS := 100000

  datatype State = State(rows: seq<Row>, row: Row, cell: Text, quoted: bool, closed: bool, started: bool)

  const START := State([], [], [], false, false, false)

  datatype Move = Refused | Moved(state: State, used: nat)

  // ---------------------------------------------------------------- cells and rows

  function StripCr(cell: Text): Text {
    if |cell| > 0 && cell[|cell| - 1] == CR then cell[..|cell| - 1] else cell
  }

  predicate AllEmpty(row: Row) {
    forall k :: 0 <= k < |row| ==> row[k] == []
  }

  predicate AllBlank(row: Row) {
    forall k :: 0 <= k < |row| ==> Blank(row[k])
  }

  function DropTrailingEmpty(rows: seq<Row>): seq<Row> {
    if |rows| > 0 && AllEmpty(rows[|rows| - 1]) then DropTrailingEmpty(rows[..|rows| - 1]) else rows
  }

  predicate NonEmpty(row: Row) {
    !AllEmpty(row)
  }

  predicate NonBlank(row: Row) {
    !AllBlank(row)
  }

  /** Array.prototype.filter. */
  function Keep(p: Row -> bool, rows: seq<Row>): seq<Row> {
    if rows == [] then []
    else Keep(p, rows[..|rows| - 1]) + (if p(rows[|rows| - 1]) then [rows[|rows| - 1]] else [])
  }

  /** The regular expression /\r\n?/g replaced by "\n". */
  function UnifyBreaks(t: Text): Text {
    if t == [] then []
    else if t[0] == CR then [LF] + UnifyBreaks(if |t| > 1 && t[1] == LF then t[2..] else t[1..])
    else [t[0]] + UnifyBreaks(t[1..])
  }

  // ---------------------------------------------------------------- the automata

  function FinishCell(st: State): State {
    st.(row := st.row + [st.cell], cell := [], closed := false, started := false)
  }

  function FinishRow(st: State): State {
    var ended := FinishCell(st);
    ended.(rows := ended.rows + [ended.row], row := [])
  }

  /** One turn of a reader's loop on the unread text s. */
  function Step(d: Reader, st: State, s: Text): (m: Move)
    requires s != []
    ensures m.Moved? ==> 1 <= m.used <= 2 && m.used <= |s|
  {
    var c := s[0];
    var next := if |s| > 1 then Some(s[1]) else None;
    if st.quoted then
      if c == QUOTE && next == Some(QUOTE) then Moved(st.(cell := st.cell + [QUOTE]), 2)
      else if c == QUOTE then Moved(st.(quoted := false, closed := d.Strict?), 1)
      else Moved(st.(cell := st.cell + [c]), 1)
    else match d
      case Strict => StrictStep(st, c, next)
      case Lax =>
        if c == QUOTE && st.cell == [] then Moved(st.(quoted := true), 1)
        else LooseStep(st, c)
      case Local =>
        if c == QUOTE then Moved(st.(quoted := true), 1)
        else LooseStep(st, c)
      case Evidence =>
        if c == QUOTE then Moved(st.(quoted := true), 1)
        else if c == COMMA then Moved(FinishCell(st), 1)
        else if c == LF || c == CR then
          Moved(if AllEmpty(st.row + [st.cell]) then st.(row := [], cell := []) else FinishRow(st),
                if c == CR && next == Some(LF) then 2 else 1)
        else Moved(st.(cell := st.cell + [c]), 1)
      case Normalized =>
        if c == QUOTE then Moved(st.(quoted := true), 1)
        else if c == COMMA then Moved(FinishCell(st), 1)
        else if c == LF then Moved(FinishRow(st), 1)
        else Moved(st.(cell := st.cell + [c]), 1)
  }

  /** Outside quotes, for the two readers that strip one CR at the end of a line. */
  function LooseStep(st: State, c: CodeUnit): (m: Move)
    ensures m.Moved? && m.used == 1
  {
    if c == COMMA then Moved(FinishCell(st), 1)
    else if c == LF then Moved(FinishRow(st.(cell := StripCr(st.cell))), 1)
    else Moved(st.(cell := st.cell + [c]), 1)
  }

  /** Outside quotes, for the strict reader; the row limit is not tested right after a closed cell. */
  function StrictStep(st: State, c: CodeUnit, next: Option<CodeUnit>): (m: Move)
    ensures m.Moved? ==> 1 <= m.used && (m.used == 1 || (m.used == 2 && next.Some?))
  {
    if st.closed then
      if c == COMMA then Moved(FinishCell(st), 1)
      else if c == LF then Moved(FinishRow(st), 1)
      else if c == CR && next == Some(LF) then Moved(FinishRow(st), 2)
      else Refused
    else if c == QUOTE then
      if st.started then Refused else WithinLimit(Moved(st.(quoted := true, started := true), 1))
    else if c == COMMA then WithinLimit(Moved(FinishCell(st), 1))
    else if c == LF then WithinLimit(Moved(FinishRow(st), 1))
    else if c == CR && next == Some(LF) then WithinLimit(Moved(FinishRow(st), 2))
    else if c == CR then Refused
    else WithinLimit(Moved(st.(cell := st.cell + [c], started := true), 1))
  }

  function WithinLimit(m: Move): (r: Move)
    ensures r.Moved? ==> r == m
  {
    if m.Moved? && |m.state.rows| > MAX_CSV_DATA_ROWS + 1 then Refused else m
  }

  function Run(d: Reader, st: State, s: Text): Option<State>
    decreases |s|
  {
    if s == [] then Some(st)
    else match Step(d, st, s)
      case Refused => None
      case Moved(next, used) => Run(d, next, s[used..])
  }

  /** What a reader does after its loop. */
  function Finish(d: Reader, st: State): Option<seq<Row>> {
    match d
    case Strict =>
      if st.quoted then None
      else Some(Keep(NonBlank, if st.closed || st.started || st.cell != [] || st.row != []
                             then FinishRow(st).rows else st.rows))
    case Lax =>
      if st.quoted then None
      else Some(DropTrailingEmpty(LastRow(st, StripCr(st.cell))))
    case Local =>
      if st.quoted then Some([])
      else Some(Keep(NonEmpty, LastRow(st, StripCr(st.cell))))
    case Evidence =>
      if st.quoted then None
      else Some(if AllEmpty(st.row + [st.cell]) then st.rows else st.rows + [st.row + [st.cell]])
    case Normalized =>
      if st.quoted then None
      else Some(Keep(NonBlank, LastRow(st, st.cell)))
  }

  function LastRow(st: State, cell: Text): seq<Row> {
    if st.cell != [] || st.row != [] then st.rows + [st.row + [cell]] else st.rows
  }

  /** What a reader does before its loop; None where the lax reader rejects NUL and U+FFFD. */
  function Prepare(d: Reader, text: Text): Option<Text> {
    match d
    case Lax => if NUL in text || REPLACEMENT in text then None else Some(StripBom(text))
    case Normalized => Some(UnifyBreaks(StripBom(text)))
    case _ => Some(StripBom(text))
  }

  /** The reader as a function; None stands for the null result, or the exception of Normalized. */
  function Read(d: Reader, text: Text): Option<seq<Row>> {
    match Prepare(d, text)
    case None => None
    case Some(source) =>
      match Run(d, START, source)
      case None => None
      case Some(st) => Finish(d, st)
  }

  // ---------------------------------------------------------------- the loops of the sources

  lemma RunOne(d: Reader, st: State, s: Text)
    requires s != []
    ensures Run(d, st, s) == match Step(d, st, s)
                             case Refused => None
                             case Moved(next, used) => Run(d, next, s[used..])
  {
  }

  lemma RunNothing(d: Reader, st: State)
    ensures Run(d, st, []) == Some(st)
  {
  }

  lemma Unread(source: Text, i: nat, n: nat)
    requires i + n <= |source|
    ensures source[i..][n..] == source[i + n..]
  {
  }

  method ReadLax(text: Text) returns (r: Option<seq<Row>>)
    ensures r == Read(Lax, text)
  {
    if NUL in text || REPLACEMENT in text { return None; }
    var source := StripBom(text);
    var rows: seq<Row>, row: Row, cell: Text, quoted, index := [], [], [], false, 0;
    hide Run, Keep, AllBlank, UnifyBreaks;
    while index < |source|
      invariant 0 <= index <= |source|
      invariant Run(Lax, State(rows, row, cell, quoted, false, false), source[index..]) == Run(Lax, START, source)
    {
      Unread(source, index, 1);
      RunOne(Lax, State(rows, row, cell, quoted, false, false), source[index..]);
      var c := source[index];
      if quoted {
        if c == QUOTE && index + 1 < |source| && source[index + 1] == QUOTE {
          Unread(source, index, 2);
          cell := cell + [QUOTE];
          index := index + 1;
        } else if c == QUOTE {
          quoted := false;
        } else {
          cell := cell + [c];
        }
      } else if c == QUOTE && cell == [] {
        quoted := true;
      } else if c == COMMA {
        row := row + [cell];
        cell := [];
      } else if c == LF {
        row := row + [StripCr(cell)];
        rows := rows + [row];
        row := [];
        cell := [];
      } else {
        cell := cell + [c];
      }
      index := index + 1;
    }
    assert source[index..] == [];
    RunNothing(Lax, State(rows, row, cell, quoted, false, false));
    if quoted { return None; }
    if cell != [] || row != [] { rows := rows + [row + [StripCr(cell)]]; }
    ghost var all := rows;
    while |rows| > 0 && AllEmpty(rows[|rows| - 1])
      invariant DropTrailingEmpty(rows) == DropTrailingEmpty(all)
    {
      rows := rows[..|rows| - 1];
    }
    r := Some(rows);
  }

  method ReadLocal(text: Text) returns (r: Option<seq<Row>>)
    ensures r == Read(Local, text)
  {
    var rows: seq<Row>, row: Row, cell: Text, quoted, index := [], [], [], false, 0;
    var source := StripBom(text);
    hide Run, Keep, AllBlank, UnifyBreaks, DropTrailingEmpty;
    while index < |source|
      invariant 0 <= index <= |source|
      invariant Run(Local, State(rows, row, cell, quoted, false, false), source[index..]) == Run(Local, START, source)
    {
      Unread(source, index, 1);
      RunOne(Local, State(rows, row, cell, quoted, false, false), source[index..]);
      var c := source[index];
      if quoted {
        if c == QUOTE && index + 1 < |source| && source[index + 1] == QUOTE {
          Unread(source, index, 2);
          cell := cell + [QUOTE];
          index := index + 1;
        } else if c == QUOTE {
          quoted := false;
        } else {
          cell := cell + [c];
        }
      } else if c == QUOTE {
        quoted := true;
      } else if c == COMMA {
        row := row + [cell];
        cell := [];
      } else if c == LF {
        row := row + [StripCr(cell)];
        rows := rows + [row];
        row := [];
        cell := [];
      } else {
        cell := cell + [c];
      }
      index := index + 1;
    }
    assert source[index..] == [];
    RunNothing(Local, State(rows, row, cell, quoted, false, false));
    if quoted { return Some([]); }
    if cell != [] || row != [] {
      row := row + [StripCr(cell)];
      rows := rows + [row];
    }
    r := Some(Keep(NonEmpty, rows));
  }

  method ReadEvidence(whole: Text) returns (r: Option<seq<Row>>)
    ensures r == Read(Evidence, whole)
  {
    var text := StripBom(whole);
    var rows: seq<Row>, row: Row, cell: Text, quoted, index := [], [], [], false, 0;
    hide Run, Keep, AllBlank, UnifyBreaks, DropTrailingEmpty;
    while index < |text|
      invariant 0 <= index <= |text|
      invariant Run(Evidence, State(rows, row, cell, quoted, false, false), text[index..]) == Run(Evidence, START, text)
    {
      Unread(text, index, 1);
      RunOne(Evidence, State(rows, row, cell, quoted, false, false), text[index..]);
      var c := text[index];
      var next := if index + 1 < |text| then Some(text[index + 1]) else None;
      if next.Some? { Unread(text, index, 2); }
      ghost var move := Step(Evidence, State(rows, row, cell, quoted, false, false), text[index..]);
      if quoted && c == QUOTE && next == Some(QUOTE) {
        cell := cell + [QUOTE];
        index := index + 1;
      } else if c == QUOTE {
        quoted := !quoted;
      } else if !quoted && c == COMMA {
        row := row + [cell];
        cell := [];
      } else if !quoted && (c == LF || c == CR) {
        if c == CR && next == Some(LF) { index := index + 1; }
        row := row + [cell];
        if !AllEmpty(row) { rows := rows + [row]; }
        row := [];
        cell := [];
      } else {
        cell := cell + [c];
      }
      index := index + 1;
      assert move.Moved? && move.state == State(rows, row, cell, quoted, false, false);
    }
    assert text[index..] == [];
    RunNothing(Evidence, State(rows, row, cell, quoted, false, false));
    row := row + [cell];
    if !AllEmpty(row) { rows := rows + [row]; }
    r := if quoted then None else Some(rows);
  }

  method ReadNormalized(text: Text) returns (r: Option<seq<Row>>)
    ensures r == Read(Normalized, text)
  {
    var rows: seq<Row>, row: Row, value: Text, quoted, index := [], [], [], false, 0;
    var source := UnifyBreaks(StripBom(text));
    hide Run, Keep, AllBlank, UnifyBreaks, DropTrailingEmpty;
    while index < |source|
      invariant 0 <= index <= |source|
      invariant Run(Normalized, State(rows, row, value, quoted, false, false), source[index..])
             == Run(Normalized, START, source)
    {
      Unread(source, index, 1);
      RunOne(Normalized, State(rows, row, value, quoted, false, false), source[index..]);
      var c := source[index];
      if quoted {
        if c == QUOTE && index + 1 < |source| && source[index + 1] == QUOTE {
          Unread(source, index, 2);
          value := value + [QUOTE];
          index := index + 1;
        } else if c == QUOTE {
          quoted := false;
        } else {
          value := value + [c];
        }
      } else if c == QUOTE {
        quoted := true;
      } else if c == COMMA {
        row := row + [value];
        value := [];
      } else if c == LF {
        row := row + [value];
        rows := rows + [row];
        row := [];
        value := [];
      } else {
        value := value + [c];
      }
      index := index + 1;
    }
    assert source[index..] == [];
    RunNothing(Normalized, State(rows, row, value, quoted, false, false));
    if quoted { return None; }
    if value != [] || row != [] {
      row := row + [value];
      rows := rows + [row];
    }
    r := Some(Keep(NonBlank, rows));
  }

  method ReadStrict(text: Text) returns (r: Option<seq<Row>>)
    ensures r == Read(Strict, text)
  {
    var source := StripBom(text);
    var rows: seq<Row>, row: Row, cell: Text := [], [], [];
    var quoted, closedQuote, cellStarted, index := false, false, false, 0;
    hide Run, Keep, AllEmpty, AllBlank, DropTrailingEmpty, UnifyBreaks;
    while index < |source|
      invariant 0 <= index <= |source|
      invariant Run(Strict, State(rows, row, cell, quoted, closedQuote, cellStarted), source[index..])
             == Run(Strict, START, source)
    {
      Unread(source, index, 1);
      var c := source[index];
      var next := if index + 1 < |source| then Some(source[index + 1]) else None;
      if next.Some? { Unread(source, index, 2); }
      RunOne(Strict, State(rows, row, cell, quoted, closedQuote, cellStarted), source[index..]);
      ghost var move := Step(Strict, State(rows, row, cell, quoted, closedQuote, cellStarted), source[index..]);
      if quoted {
        if c == QUOTE && next == Some(QUOTE) {
          cell := cell + [QUOTE];
          index := index + 1;
        } else if c == QUOTE {
          quoted := false;
          closedQuote := true;
        } else {
          cell := cell + [c];
        }
        index := index + 1;
        assert move.Moved? && move.state == State(rows, row, cell, quoted, closedQuote, cellStarted);
        continue;
      }
      if closedQuote {
        if c != COMMA && c != LF && !(c == CR && next == Some(LF)) { return None; }
        row, cell, closedQuote, cellStarted := row + [cell], [], false, false;
        if c != COMMA {
          rows, row := rows + [row], [];
          if c == CR { index := index + 1; }
        }
        index := index + 1;
        assert move.Moved? && move.state == State(rows, row, cell, quoted, closedQuote, cellStarted);
        continue;
      }
      if c == QUOTE {
        if cellStarted { return None; }
        quoted := true;
        cellStarted := true;
      } else if c == COMMA {
        row, cell, closedQuote, cellStarted := row + [cell], [], false, false;
      } else if c == LF || (c == CR && next == Some(LF)) {
        row, cell, closedQuote, cellStarted := row + [cell], [], false, false;
        rows, row := rows + [row], [];
        if c == CR { index := index + 1; }
      } else if c == CR {
        return None;
      } else {
        cell := cell + [c];
        cellStarted := true;
      }
      if |rows| > MAX_CSV_DATA_ROWS + 1 { return None; }
      index := index + 1;
      assert move.Moved? && move.state == State(rows, row, cell, quoted, closedQuote, cellStarted);
    }
    assert source[index..] == [];
    RunNothing(Strict, State(rows, row, cell, quoted, closedQuote, cellStarted));
    if quoted { return None; }
    if closedQuote || cellStarted || cell != [] || row != [] {
      row := row + [cell];
      rows := rows + [row];
    }
    r := Some(Keep(NonBlank, rows));
  }
}
