/** The lax reader refines the strict one. */
module CsvRefinement {
  import opened Options
  import opened JsStrings
  import opened CsvReaders
  import opened CsvRoundTrip

  predicate EndsInCr(cell: Text) {
    cell != [] && cell[|cell| - 1] == CR
  }

  /** The row each reader adds when a line ends at s; they differ only behind a bare LF or at the end. */
  function StrictRow(st: State): Row {
    st.row + [st.cell]
  }

  /** A quoted cell ends in CR, the line ends right behind its closing quote with a bare LF or with
      the text, and the row is not blank: the lax reader drops that CR, the strict one keeps it. */
  predicate LosesCr(st: State, s: Text) {
    && st.closed && EndsInCr(st.cell) && NonBlank(StrictRow(st))
    && (s == [] || s[0] == LF)
  }

  /** The strict run from st over s meets no such line. */
  predicate NoCrLost(st: State, s: Text)
    decreases |s|
  {
    && !LosesCr(st, s)
    && (s == [] || match Step(Strict, st, s)
                   case Refused => true
                   case Moved(next, used) => NoCrLost(next, s[used..]))
  }

  /** What the strict reader's flags say about the cell it is building. */
  predicate Coherent(st: State) {
    && (st.quoted ==> st.started && !st.closed)
    && (st.closed ==> st.started)
    && (!st.started ==> st.cell == [])
    && (!st.quoted && !st.closed ==> CR !in st.cell)
    && (st.cell != [] ==> st.started)
  }

  /** The lax state that matches a strict one: same cell, same row, its own rows. */
  function AsLax(st: State, rows: seq<Row>): State {
    State(rows, st.row, st.cell, st.quoted, false, false)
  }

  predicate EndsLine(st: State, s: Text)
    requires s != []
  {
    !st.quoted && (s[0] == LF || (s[0] == CR && |s| > 1 && s[1] == LF))
  }

  function LaxRow(st: State, s: Text): Row {
    st.row + [if s == [] || s[0] == LF then StripCr(st.cell) else st.cell]
  }

  lemma StrictMove(st: State, s: Text)
    requires Coherent(st) && s != [] && Step(Strict, st, s).Moved?
    ensures var next := Step(Strict, st, s).state;
            Coherent(next) && next.rows == st.rows + (if EndsLine(st, s) then [StrictRow(st)] else [])
  {
  }

  /** One strict step is one or two lax steps. */
  lemma LaxFollows(st: State, rows: seq<Row>, s: Text)
    requires Coherent(st) && s != [] && Step(Strict, st, s).Moved?
    ensures Run(Lax, AsLax(st, rows), s)
         == Run(Lax, AsLax(Step(Strict, st, s).state, rows + (if EndsLine(st, s) then [LaxRow(st, s)] else [])),
                s[Step(Strict, st, s).used..])
  {
    var m, lax := Step(Strict, st, s), AsLax(st, rows);
    if EndsLine(st, s) && s[0] == CR {
      var middle := lax.(cell := lax.cell + [CR]);
      assert Step(Lax, lax, s) == Moved(middle, 1);
      assert s[1..][1..] == s[2..] && StripCr(middle.cell) == st.cell;
      assert Step(Lax, middle, s[1..]) == Moved(AsLax(m.state, rows + [LaxRow(st, s)]), 1);
    } else {
      assert Step(Lax, lax, s)
          == Moved(AsLax(m.state, rows + (if EndsLine(st, s) then [LaxRow(st, s)] else [])), m.used);
    }
  }

  lemma KeepOneMore(rows: seq<Row>, row: Row)
    ensures Keep(NonBlank, rows + [row]) == Keep(NonBlank, rows) + (if NonBlank(row) then [row] else [])
  {
    assert (rows + [row])[..|rows|] == rows;
  }

  /** Stripping a CR does not turn a row blank; it changes the row exactly when the cell ends in CR. */
  lemma SameBlankness(st: State, s: Text)
    ensures NonBlank(LaxRow(st, s)) == NonBlank(StrictRow(st))
    ensures LaxRow(st, s) == StrictRow(st) <==> !(EndsInCr(st.cell) && (s == [] || s[0] == LF))
  {
    var cell := StripCr(st.cell);
    assert forall u :: u in cell ==> u in st.cell;
    assert forall u :: u in st.cell ==> u == CR || u in cell;
    assert StrictRow(st)[|st.row|] == st.cell;
    assert LaxRow(st, s)[|st.row|] == if s == [] || s[0] == LF then cell else st.cell;
    assert forall k :: 0 <= k < |st.row| ==> StrictRow(st)[k] == LaxRow(st, s)[k] == st.row[k];
  }

  /** All rows at the end of the text, before blank ones are dropped. */
  function StrictRows(end: State): seq<Row> {
    if end.closed || end.started || end.cell != [] || end.row != [] then end.rows + [StrictRow(end)] else end.rows
  }

  function LaxRows(end: State): seq<Row> {
    LastRow(end, StripCr(end.cell))
  }

  /** The rows of both runs that hold something, as many on either side so far. */
  predicate Level(laxRows: seq<Row>, strictRows: seq<Row>) {
    |Keep(NonBlank, laxRows)| == |Keep(NonBlank, strictRows)|
  }

  predicate Agree(laxRows: seq<Row>, strictRows: seq<Row>) {
    Keep(NonBlank, laxRows) == Keep(NonBlank, strictRows)
  }

  /** Adding the two rows of one line end keeps the runs level, and keeps them in agreement unless
      the lax reader lost a CR there. */
  lemma LineEnd(st: State, rows: seq<Row>, s: Text)
    requires Level(rows, st.rows)
    ensures Level(rows + [LaxRow(st, s)], st.rows + [StrictRow(st)])
    ensures Agree(rows + [LaxRow(st, s)], st.rows + [StrictRow(st)])
       <==> Agree(rows, st.rows) && !(EndsInCr(st.cell) && NonBlank(StrictRow(st)) && (s == [] || s[0] == LF))
  {
    SameBlankness(st, s);
    KeepOneMore(rows, LaxRow(st, s));
    KeepOneMore(st.rows, StrictRow(st));
    hide Keep, LaxRow, StrictRow;
    var a, b := Keep(NonBlank, rows), Keep(NonBlank, st.rows);
    assert a + [] == a && b + [] == b;
    SnocInjective(a, b, LaxRow(st, s), StrictRow(st));
  }

  lemma SnocInjective(a: seq<Row>, b: seq<Row>, x: Row, y: Row)
    requires |a| == |b|
    ensures a + [x] == b + [y] <==> a == b && x == y
  {
    if a + [x] == b + [y] {
      assert a == (a + [x])[..|a|] == (b + [y])[..|a|] == b;
      assert x == (a + [x])[|a|] == (b + [y])[|a|] == y;
    }
  }

  lemma SimulateEnd(st: State, rows: seq<Row>)
    requires Coherent(st) && Level(rows, st.rows) && !st.quoted
    ensures Level(LaxRows(AsLax(st, rows)), StrictRows(st))
    ensures Agree(LaxRows(AsLax(st, rows)), StrictRows(st)) <==> Agree(rows, st.rows) && NoCrLost(st, [])
  {
    LineEnd(st, rows, []);
    if st.cell == [] && st.row == [] {
      assert !NonBlank(StrictRow(st));
      KeepOneMore(st.rows, StrictRow(st));
    }
  }

  /** By induction over the text: the lax run ends too, and its rows agree with the strict ones
      exactly when no CR was lost on the way. */
  lemma {:induction false} Simulate(st: State, rows: seq<Row>, s: Text)
    requires Coherent(st) && Level(rows, st.rows)
    requires Run(Strict, st, s).Some? && !Run(Strict, st, s).value.quoted
    ensures Run(Lax, AsLax(st, rows), s).Some? && !Run(Lax, AsLax(st, rows), s).value.quoted
    ensures Level(LaxRows(Run(Lax, AsLax(st, rows), s).value), StrictRows(Run(Strict, st, s).value))
    ensures Agree(LaxRows(Run(Lax, AsLax(st, rows), s).value), StrictRows(Run(Strict, st, s).value))
       <==> Agree(rows, st.rows) && NoCrLost(st, s)
    decreases |s|
  {
    hide Keep, NonBlank, LaxRow, StrictRow, LaxRows, StrictRows;
    if s == [] {
      SimulateEnd(st, rows);
    } else {
      var m := Step(Strict, st, s);
      StrictMove(st, s);
      LaxFollows(st, rows, s);
      hide Step;
      if EndsLine(st, s) {
        LineEnd(st, rows, s);
        Simulate(m.state, rows + [LaxRow(st, s)], s[m.used..]);
      } else {
        assert rows + [] == rows && st.rows + [] == st.rows;
        Simulate(m.state, rows, s[m.used..]);
      }
    }
  }

  lemma {:induction false} BlankTailDropped(rows: seq<Row>)
    ensures Keep(NonBlank, DropTrailingEmpty(rows)) == Keep(NonBlank, rows)
  {
    if rows != [] && AllEmpty(rows[|rows| - 1]) {
      BlankTailDropped(rows[..|rows| - 1]);
      assert rows == rows[..|rows| - 1] + [rows[|rows| - 1]];
    }
  }

  /** The lax reader refines the strict one: it accepts every text free of NUL and U+FFFD that the
      strict one accepts, with as many non-blank rows, and with the very same ones exactly when no
      quoted cell loses a final CR. */
  lemma LaxRefinesStrict(text: Text)
    requires NUL !in text && REPLACEMENT !in text
    requires Read(Strict, text).Some?
    ensures Read(Lax, text).Some?
    ensures |Keep(NonBlank, Read(Lax, text).value)| == |Read(Strict, text).value|
    ensures Keep(NonBlank, Read(Lax, text).value) == Read(Strict, text).value
       <==> NoCrLost(START, StripBom(text))
  {
    hide Keep, Run, NoCrLost;
    var source := StripBom(text);
    Simulate(START, [], source);
    BlankTailDropped(LaxRows(Run(Lax, START, source).value));
  }

  // ---------------------------------------------------------------- texts on which nothing is lost

  /** Nowhere in the text is a CR followed by a quote. */
  predicate NoCrQuote(s: Text) {
    forall k :: 0 <= k < |s| - 1 ==> !(s[k] == CR && s[k + 1] == QUOTE)
  }

  /** A cell that ends in CR is still open, and its quote does not close next. */
  predicate CrInside(st: State, s: Text) {
    EndsInCr(st.cell) ==> st.quoted && !st.closed && (s == [] || s[0] != QUOTE)
  }

  lemma CrStaysInside(st: State, s: Text)
    requires s != [] && NoCrQuote(s) && CrInside(st, s) && (st.quoted ==> !st.closed)
    ensures var m := Step(Strict, st, s);
      m.Moved? ==> CrInside(m.state, s[m.used..]) && NoCrQuote(s[m.used..]) && (m.state.quoted ==> !m.state.closed)
  {
    var m := Step(Strict, st, s);
    if m.Moved? {
      assert forall k :: 0 <= k < |s| - m.used ==> s[m.used..][k] == s[m.used + k];
      if |s| > 1 { assert !(s[0] == CR && s[1] == QUOTE); }
    }
  }

  lemma {:induction false} InsideNoLoss(st: State, s: Text)
    requires NoCrQuote(s) && CrInside(st, s) && (st.quoted ==> !st.closed)
    ensures NoCrLost(st, s)
    decreases |s|
  {
    hide Step, NoCrQuote, CrInside;
    InsideKeeps(st, s);
    if s == [] {
    } else {
      var m := Step(Strict, st, s);
      CrStaysInside(st, s);
      if m.Moved? {
        InsideNoLoss(m.state, s[m.used..]);
      }
    }
  }

  lemma InsideKeeps(st: State, s: Text)
    requires CrInside(st, s)
    ensures !LosesCr(st, s)
  {
    hide NonBlank;
  }

  /** No CR is lost on a text whose quoted cells never end in CR: one in which no CR stands before a quote. */
  lemma NoCrNoLoss(text: Text)
    requires NoCrQuote(text)
    ensures NoCrLost(START, StripBom(text))
  {
    hide NoCrLost;
    var source := StripBom(text);
    assert NoCrQuote(source) by {
      assert forall k :: 0 <= k < |source| ==> source[k] == text[|text| - |source| + k];
    }
    InsideNoLoss(START, source);
  }

  /** So on such texts the two readers agree. */
  lemma ReadersAgree(text: Text)
    requires NUL !in text && REPLACEMENT !in text && NoCrQuote(text)
    requires Read(Strict, text).Some?
    ensures Read(Lax, text).Some? && Keep(NonBlank, Read(Lax, text).value) == Read(Strict, text).value
  {
    hide *;
    NoCrNoLoss(text);
    LaxRefinesStrict(text);
  }

  // ---------------------------------------------------------------- a text on which a CR is lost

  const LETTER: CodeUnit := 0x78
  const LOSSY: Text := [QUOTE, LETTER, CR, QUOTE, LF]

  /** One step, and the run from there on. */
  lemma RunStep(d: Reader, st: State, s: Text, next: State)
    requires s != [] && Step(d, st, s) == Moved(next, 1)
    ensures Run(d, st, s) == Run(d, next, s[1..])
  {
  }

  /** Reading LOSSY brings either reader to the same cell; it is the end of the line that differs. */
  lemma RunLossy(d: Reader)
    requires d == Strict || d == Lax
    ensures Run(d, START, LOSSY) == Some(START.(rows := [[if d == Strict then [LETTER, CR] else [LETTER]]]))
  {
    hide Run;
    var quoted := START.(quoted := true, started := d == Strict);
    RunStep(d, START, LOSSY, quoted);
    var t := [LETTER, CR, QUOTE, LF];
    assert LOSSY[1..] == t;
    RunStep(d, quoted, t, quoted.(cell := [LETTER]));
    assert t[1..] == [CR, QUOTE, LF];
    RunStep(d, quoted.(cell := [LETTER]), [CR, QUOTE, LF], quoted.(cell := [LETTER, CR]));
    assert [CR, QUOTE, LF][1..] == [QUOTE, LF];
    var held := START.(cell := [LETTER, CR], closed := d == Strict, started := d == Strict);
    RunStep(d, quoted.(cell := [LETTER, CR]), [QUOTE, LF], held);
    assert [QUOTE, LF][1..] == [LF] && [LF][1..] == [] && StripCr([LETTER, CR]) == [LETTER];
    var end := START.(rows := [[if d == Strict then [LETTER, CR] else [LETTER]]]);
    var kept: Text := if d == Strict then [LETTER, CR] else [LETTER];
    assert held.row + [kept] == [kept] && held.rows + [[kept]] == [[kept]] == end.rows;
    RunStep(d, held, [LF], end);
    RunNothing(d, end);
  }

  lemma StrictKeepsCr()
    ensures Read(Strict, LOSSY) == Some([[[LETTER, CR]]])
  {
    hide Run;
    RunLossy(Strict);
    var end := START.(rows := [[[LETTER, CR]]]);
    assert LETTER in end.rows[0][0] && !Blank(end.rows[0][0]) && NonBlank(end.rows[0]);
    KeepsAll(NonBlank, end.rows);
    assert Finish(Strict, end) == Some(end.rows);
  }

  lemma LaxLosesCr()
    ensures Read(Lax, LOSSY) == Some([[[LETTER]]])
  {
    hide Run;
    RunLossy(Lax);
    var end := START.(rows := [[[LETTER]]]);
    assert NUL !in LOSSY && REPLACEMENT !in LOSSY;
    assert !AllEmpty(end.rows[0]) by { assert end.rows[0][0] != []; }
    assert Finish(Lax, end) == Some(end.rows);
  }

  /** It does happen: on a quoted cell that ends in CR before a bare LF the readers differ. */
  lemma ReadersDiffer()
    ensures Read(Strict, LOSSY).Some? && Read(Lax, LOSSY).Some?
    ensures Keep(NonBlank, Read(Lax, LOSSY).value) != Read(Strict, LOSSY).value
    ensures !NoCrLost(START, StripBom(LOSSY)) && !NoCrQuote(LOSSY)
  {
    hide Run, Read, Keep, NoCrLost;
    StrictKeepsCr();
    LaxLosesCr();
    assert NUL !in LOSSY && REPLACEMENT !in LOSSY;
    LaxRefinesStrict(LOSSY);
    KeepsAll(NonBlank, [[[LETTER]]]);
    var kept := Keep(NonBlank, [[[LETTER]]]);
    assert forall k :: 0 <= k < |kept| ==> kept[k] == [[LETTER]];
    assert [[LETTER, CR]] != [[LETTER]] by { assert |[[LETTER, CR]][0]| != |[[LETTER]][0]|; }
    assert LOSSY[2] == CR && LOSSY[3] == QUOTE;
  }
}
