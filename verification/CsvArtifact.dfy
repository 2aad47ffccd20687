/** The artifact of manual input, printed by dbf-business-data-input-adapter.js and read back by csvRows. */
module CsvArtifact {
  import opened Options
  import opened JsStrings
  import opened CsvReaders
  import opened CsvRoundTrip

  /** The header followed by the rows; with no rows the printer still writes one empty line. */
  function Table(header: Row, rows: seq<Row>): seq<Row> {
    [header] + (if rows == [] then [[]] else rows)
  }

  lemma ArtifactIsLines(header: Row, rows: seq<Row>)
    ensures PrintArtifact(header, rows) == Lines(OnNewline, Table(header, rows), [LF])
  {
    var table := Table(header, rows);
    if rows == [] { EmptyTable(OnNewline, Normalized, [LF]); }
    assert table[1..] == if rows == [] then [[]] else rows;
    LinesUnfold(OnNewline, table, [LF]);
  }

  lemma {:induction false} UnifyKeeps(t: Text)
    ensures CR !in t ==> UnifyBreaks(t) == t
    ensures CR !in UnifyBreaks(t)
    decreases |t|
  {
    if t == [] {
    } else {
      var used := if t[0] == CR && |t| > 1 && t[1] == LF then 2 else 1;
      UnifyKeeps(t[used..]);
      assert t == [t[0]] + t[1..];
    }
  }

  predicate CrFree(st: State) {
    CR !in st.cell && CellsFreeOf(CR, st.rows) && CellsFreeOf(CR, [st.row])
  }

  /** A reader never invents a character: from a text without CR come cells without CR. */
  lemma {:induction false} RunCrFree(st: State, s: Text)
    requires CrFree(st) && CR !in s
    ensures Run(Normalized, st, s).Some? ==> CrFree(Run(Normalized, st, s).value)
    decreases |s|
  {
    if s == [] {
    } else {
      var m := Step(Normalized, st, s);
      assert [st.row][0] == st.row;
      assert CrFree(m.state) by { assert [m.state.row][0] == m.state.row; }
      assert forall u :: u in s[m.used..] ==> u in s;
      RunCrFree(m.state, s[m.used..]);
    }
  }

  /** csvRows returns cells without CR whatever it is given. */
  lemma ReadHasNoCr(text: Text)
    ensures Read(Normalized, text).Some? ==> CellsFreeOf(CR, Read(Normalized, text).value)
  {
    hide Run, Keep;
    var source := UnifyBreaks(StripBom(text));
    UnifyKeeps(StripBom(text));
    RunCrFree(START, source);
    var end := Run(Normalized, START, source);
    if end.Some? {
      assert [end.value.row][0] == end.value.row;
      var rows := LastRow(end.value, end.value.cell);
      KeepsAll(NonBlank, rows);
    }
  }

  /** The printed text starts with U+FEFF, which the reader takes for a byte order mark. */
  predicate StartsWithBom(header: Row) {
    header != [] && header[0] != [] && header[0][0] == BOM && !Quotes(OnNewline, header[0])
  }

  lemma FirstCharacter(header: Row, rest: Text)
    ensures StripBom(RowText(OnNewline, header) + [LF] + rest)
         == if StartsWithBom(header) then RowText(OnNewline, Unmarked(header)) + [LF] + rest
            else RowText(OnNewline, header) + [LF] + rest
  {
    var line := RowText(OnNewline, header);
    if |header| > 1 { RowTextUnfold(OnNewline, header); }
    if StartsWithBom(header) {
      var plain := Unmarked(header);
      assert forall u :: u in plain[0] ==> u in header[0];
      assert CellText(OnNewline, plain[0]) == plain[0];
      if |header| > 1 {
        RowTextUnfold(OnNewline, plain);
        assert plain[1..] == header[1..];
      }
      assert line[1..] == RowText(OnNewline, plain);
    }
  }

  /** The header as read when its first cell begins with U+FEFF. */
  function Unmarked(header: Row): (r: Row)
    ensures |r| == |header|
  {
    if StartsWithBom(header) then header[0 := header[0][1..]] else header
  }

  /** Without CR, csvRows returns the printed rows that hold something, less one leading U+FEFF. */
  lemma ReadArtifact(header: Row, rows: seq<Row>)
    requires CellsFreeOf(CR, [header] + rows)
    ensures Read(Normalized, PrintArtifact(header, rows))
         == Some(Keep(NonBlank, Solids(Table(Unmarked(header), rows))))
  {
    hide Run, Keep, RowText, Lines, UnifyBreaks;
    var table := Table(Unmarked(header), rows);
    assert PrintArtifact(header, rows) == Lines(OnNewline, Table(header, rows), [LF]) by { ArtifactIsLines(header, rows); }
    FirstCharacter(header, Lines(OnNewline, rows, [LF]));
    assert StripBom(PrintArtifact(header, rows)) == PrintArtifact(Unmarked(header), rows);
    ArtifactIsLines(Unmarked(header), rows);
    assert CellsFreeOf(CR, table) by {
      assert ([header] + rows)[0] == header;
      assert forall k :: 0 <= k < |rows| ==> ([header] + rows)[k + 1] == rows[k];
    }
    LinesHold(OnNewline, CR, table, [LF]);
    UnifyKeeps(Lines(OnNewline, table, [LF]));
    ReadLines(OnNewline, Normalized, [LF], table);
  }

  /** Printing an artifact and reading it back is the identity exactly when every row holds something
      besides white space, no cell holds CR, and the text does not begin with a bare U+FEFF. */
  lemma ArtifactRoundTrip(header: Row, rows: seq<Row>)
    ensures Read(Normalized, PrintArtifact(header, rows)) == Some([header] + rows)
       <==> Survives(Normalized, [header] + rows) && CellsFreeOf(CR, [header] + rows) && !StartsWithBom(header)
  {
    hide Run, Keep, PrintArtifact;
    var table := [header] + rows;
    if !CellsFreeOf(CR, table) {
      ReadHasNoCr(PrintArtifact(header, rows));
    } else {
      ReadArtifact(header, rows);
      if rows == [] {
        BlankLine(Unmarked(header));
        assert [Unmarked(header)] + rows == [Unmarked(header)];
      }
      HeaderMatters(header, rows);
    }
  }

  lemma BlankLine(header: Row)
    ensures Keep(NonBlank, Solids(Table(header, []))) == Keep(NonBlank, Solids([header]))
  {
    var solid := Solids(Table(header, []));
    assert solid == Solids([header]) + [[[]]];
    assert !NonBlank([[]]);
    assert solid[..1] == Solids([header]);
  }

  lemma HeaderMatters(header: Row, rows: seq<Row>)
    ensures Keep(NonBlank, Solids([Unmarked(header)] + rows)) == [header] + rows
       <==> Survives(Normalized, [header] + rows) && !StartsWithBom(header)
  {
    hide Keep, AllBlank;
    var table, read := [header] + rows, [Unmarked(header)] + rows;
    KeepsAll(NonBlank, Solids(read));
    KeptIsAll(Normalized, table);
    if Keep(NonBlank, Solids(read)) == table {
      assert Solids(read) == table;
      assert Solids(read)[0] == Solid(read[0]) == table[0] == header;
    }
  }
}
