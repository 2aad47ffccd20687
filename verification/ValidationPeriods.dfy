/** When validate_raw reports that June and July are identical, and which cause it gives. */
module ValidationPeriods {
  import opened Dates
  import opened Options
  import opened PyStrings
  import opened Permutations
  import opened Folds
  import opened Validation

  // ---------------------------------------------------------------- the amounts of a month

  /** The row is of the sheet and has a day of the month, in whatever year, for its period. */
  ghost predicate Falls(row: Raw, sheet: Text, month: int) {
    row.sheet == sheet && exists year, day :: row.period == Some(Date(year, month, day))
  }

  lemma FallsExactly(row: Raw, sheet: Text, month: int)
    ensures InMonth(row, sheet, month) <==> Falls(row, sheet, month)
  {
    if InMonth(row, sheet, month) {
      var d := row.period.value;
      assert row.period == Some(Date(d.year, month, d.day));
    }
  }

  /** The periods from which the cause is taken. */
  lemma JulyPeriodsExactly(rows: seq<Raw>, sheet: Text, d: Date)
    ensures d in JulyPeriods(rows, sheet) <==> d.month == 7 && exists row :: row in rows && row.sheet == sheet && row.period == Some(d)
  {
    if d.month == 7 && exists row :: row in rows && row.sheet == sheet && row.period == Some(d) {
      var row :| row in rows && row.sheet == sheet && row.period == Some(d);
      assert InMonth(row, sheet, 7);
    }
  }

  /** The amount of the last row of an account in a month of a sheet, if there is such a row. */
  ghost function LatestAmount(rows: seq<Raw>, sheet: Text, month: int, account: Account): Option<Option<real>> {
    if rows == [] then None
    else
      var last := rows[|rows| - 1];
      if Falls(last, sheet, month) && last.account == account then Some(last.amount)
      else LatestAmount(rows[..|rows| - 1], sheet, month, account)
  }

  lemma {:induction false} MonthHolds(rows: seq<Raw>, sheet: Text, month: int, account: Account)
    ensures var amounts := MonthAmounts(rows, sheet, month);
      LatestAmount(rows, sheet, month, account) == if account in amounts then Some(amounts[account]) else None
  {
    hide InMonth, Falls;
    if rows == [] {
    } else {
      MonthHolds(rows[..|rows| - 1], sheet, month, account);
      FallsExactly(rows[|rows| - 1], sheet, month);
    }
  }

  lemma {:induction false} LatestHasRow(rows: seq<Raw>, sheet: Text, month: int, account: Account)
    ensures LatestAmount(rows, sheet, month, account).Some?
       <==> exists k :: 0 <= k < |rows| && Falls(rows[k], sheet, month) && rows[k].account == account
  {
    hide Falls;
    if rows == [] {
    } else {
      var n := |rows| - 1;
      LatestHasRow(rows[..n], sheet, month, account);
      assert forall k :: 0 <= k < n ==> rows[..n][k] == rows[k];
    }
  }

  ghost predicate HasMonth(rows: seq<Raw>, sheet: Text, month: int) {
    exists k :: 0 <= k < |rows| && Falls(rows[k], sheet, month)
  }

  /** The sheet has rows of June, and June and July show the same amount for every account. */
  ghost predicate SameMonths(rows: seq<Raw>, sheet: Text) {
    && HasMonth(rows, sheet, 6)
    && forall account :: LatestAmount(rows, sheet, 6, account) == LatestAmount(rows, sheet, 7, account)
  }

  lemma SameMonthsExactly(rows: seq<Raw>, sheet: Text)
    ensures SameMonths(rows, sheet)
       <==> MonthAmounts(rows, sheet, 6) != map[] && MonthAmounts(rows, sheet, 6) == MonthAmounts(rows, sheet, 7)
  {
    hide MonthAmounts, LatestAmount, Falls;
    var june, july := MonthAmounts(rows, sheet, 6), MonthAmounts(rows, sheet, 7);
    forall account
      ensures LatestAmount(rows, sheet, 6, account) == if account in june then Some(june[account]) else None
      ensures LatestAmount(rows, sheet, 7, account) == if account in july then Some(july[account]) else None
      ensures LatestAmount(rows, sheet, 6, account).Some?
         <==> exists k :: 0 <= k < |rows| && Falls(rows[k], sheet, 6) && rows[k].account == account
    {
      MonthHolds(rows, sheet, 6, account);
      MonthHolds(rows, sheet, 7, account);
      LatestHasRow(rows, sheet, 6, account);
    }
    if HasMonth(rows, sheet, 6) {
      var k :| 0 <= k < |rows| && Falls(rows[k], sheet, 6);
      assert LatestAmount(rows, sheet, 6, rows[k].account).Some?;
      assert rows[k].account in june;
    }
    if june != map[] {
      var account :| account in june;
      assert LatestAmount(rows, sheet, 6, account).Some?;
    }
    if SameMonths(rows, sheet) {
      assert forall account :: account in june <==> account in july;
    }
  }

  // ---------------------------------------------------------------- what is reported

  lemma PeriodCodes(rows: seq<Raw>, sheet: Text, confirmed: Option<Date>, july: Option<Date>, f: Finding)
    requires f in PeriodFindings(rows, sheet, confirmed, july)
    ensures f.sheet == sheet && !IsEquation(f)
  {
    hide MonthAmounts;
  }

  /** Of the findings that are not equations, the results hold those of each sheet's months. */
  lemma PeriodReported(rows: seq<Raw>, confirmed: Option<Date>, first: set<Date> -> Date, f: Finding)
    requires !IsEquation(f)
    ensures f in AllFindings(rows, confirmed, first)
       <==> f.sheet in Sheets(rows)
            && f in PeriodFindings(rows, f.sheet, confirmed, FirstOf(JulyPeriods(rows, f.sheet), first))
  {
    hide IsEquation, Sheets, FindingsOn, PeriodFindings, FlatMap, JulyPeriods;
    FlatMapHolds(AllOn(rows, confirmed, first), Sheets(rows), f);
    forall sheet
      ensures f in AllOn(rows, confirmed, first)(sheet)
         <==> f.sheet == sheet && f in PeriodFindings(rows, sheet, confirmed, FirstOf(JulyPeriods(rows, sheet), first))
    {
      FindingsAreEquations(rows, sheet);
      var july := FirstOf(JulyPeriods(rows, sheet), first);
      if f in PeriodFindings(rows, sheet, confirmed, july) { PeriodCodes(rows, sheet, confirmed, july, f); }
    }
  }

  lemma JuneSheetListed(rows: seq<Raw>, sheet: Text)
    requires HasMonth(rows, sheet, 6)
    ensures sheet in Sheets(rows)
  {
    var k :| 0 <= k < |rows| && Falls(rows[k], sheet, 6);
    assert SheetNames(rows)[k] == sheet;
    CollectHolds(SheetNames(rows));
    assert sheet in ToSet(SheetNames(rows));
    assert sheet in ToSet(Collect(SheetNames(rows)));
  }

  lemma JulyFollows(rows: seq<Raw>, sheet: Text)
    requires SameMonths(rows, sheet)
    ensures JulyPeriods(rows, sheet) != {}
  {
    hide LatestAmount;
    var k :| 0 <= k < |rows| && Falls(rows[k], sheet, 6);
    LatestHasRow(rows, sheet, 6, rows[k].account);
    LatestHasRow(rows, sheet, 7, rows[k].account);
    var j :| 0 <= j < |rows| && Falls(rows[j], sheet, 7) && rows[j].account == rows[k].account;
    FallsExactly(rows[j], sheet, 7);
    assert rows[j].period.value in JulyPeriods(rows, sheet);
  }

  /** Which of the two causes is given. */
  predicate CarriedForward(rows: seq<Raw>, sheet: Text, confirmed: Option<Date>, first: set<Date> -> Date) {
    confirmed.Some? && After(first(JulyPeriods(rows, sheet)), confirmed.value)
  }

  /** A sheet is warned about exactly when its June and July are identical; then it gets exactly one blocking
      finding with it, which says whether July lies after the confirmed period. */
  lemma WarnedExactly(rows: seq<Raw>, confirmed: Option<Date>, first: set<Date> -> Date, sheet: Text)
    ensures var results := AllFindings(rows, confirmed, first);
      && (Finding(DuplicatePeriodWarning, sheet) in results <==> SameMonths(rows, sheet))
      && (Finding(UnconfirmedCarryForward, sheet) in results
          <==> SameMonths(rows, sheet) && CarriedForward(rows, sheet, confirmed, first))
      && (Finding(CauseUnknown(confirmed.Some?), sheet) in results
          <==> SameMonths(rows, sheet) && !CarriedForward(rows, sheet, confirmed, first))
  {
    hide AllFindings, SameMonths, MonthAmounts, JulyPeriods, Sheets;
    SameMonthsExactly(rows, sheet);
    if SameMonths(rows, sheet) {
      SameMonthsHasJune(rows, sheet);
      JuneSheetListed(rows, sheet);
      JulyFollows(rows, sheet);
    }
    PeriodReported(rows, confirmed, first, Finding(DuplicatePeriodWarning, sheet));
    PeriodReported(rows, confirmed, first, Finding(UnconfirmedCarryForward, sheet));
    PeriodReported(rows, confirmed, first, Finding(CauseUnknown(confirmed.Some?), sheet));
  }

  lemma SameMonthsHasJune(rows: seq<Raw>, sheet: Text)
    requires SameMonths(rows, sheet)
    ensures HasMonth(rows, sheet, 6)
  {
  }

  /** The cause depends on which July period of the set comes first if and only if a confirmed period lies
      between two of them. */
  lemma CauseSettled(rows: seq<Raw>, sheet: Text, confirmed: Option<Date>)
    requires SameMonths(rows, sheet)
    ensures (forall d, e :: d in JulyPeriods(rows, sheet) && e in JulyPeriods(rows, sheet) ==>
               PeriodFindings(rows, sheet, confirmed, Some(d)) == PeriodFindings(rows, sheet, confirmed, Some(e)))
       <==> confirmed.None? || forall d, e :: d in JulyPeriods(rows, sheet) && e in JulyPeriods(rows, sheet) ==>
              (After(d, confirmed.value) <==> After(e, confirmed.value))
  {
    hide SameMonths, MonthAmounts, JulyPeriods, After;
    SameMonthsExactly(rows, sheet);
    forall d, e
      ensures PeriodFindings(rows, sheet, confirmed, Some(d)) == PeriodFindings(rows, sheet, confirmed, Some(e))
         <==> confirmed.None? || (After(d, confirmed.value) <==> After(e, confirmed.value))
    {
      SameCause(rows, sheet, confirmed, d, e);
    }
  }

  lemma SameCause(rows: seq<Raw>, sheet: Text, confirmed: Option<Date>, d: Date, e: Date)
    requires SameMonths(rows, sheet)
    ensures PeriodFindings(rows, sheet, confirmed, Some(d)) == PeriodFindings(rows, sheet, confirmed, Some(e))
       <==> confirmed.None? || (After(d, confirmed.value) <==> After(e, confirmed.value))
  {
    hide SameMonths, MonthAmounts, After;
    SameMonthsExactly(rows, sheet);
    var a, b := PeriodFindings(rows, sheet, confirmed, Some(d)), PeriodFindings(rows, sheet, confirmed, Some(e));
    assert |a| == |b| == 2 && a[0] == b[0];
    assert a == b <==> a[1] == b[1];
  }
}
