/** The rules of validate_raw, statement by statement: which cell counts, which equation is meant, and when a
    sheet is reported for it. */
module ValidationRules {
  import opened Dates
  import opened Options
  import opened PyStrings
  import opened Validation
  import opened ValidationBounds

  // ---------------------------------------------------------------- cells, sheets and dates

  predicate InCell(row: Raw, sheet: Text, account: Account, column: Text) {
    row.sheet == sheet && row.account == account && row.column == column
  }

  /** The amount of a cell is that of its last row. */
  lemma {:induction false} CellExactly(rows: seq<Raw>, sheet: Text, account: Account, column: Text)
    ensures (forall k :: 0 <= k < |rows| ==> !InCell(rows[k], sheet, account, column)) ==>
              Cell(rows, sheet, account, column) == None
    ensures forall k :: 0 <= k < |rows| && InCell(rows[k], sheet, account, column)
                        && (forall j :: k < j < |rows| ==> !InCell(rows[j], sheet, account, column)) ==>
              Cell(rows, sheet, account, column) == rows[k].amount
  {
    if rows == [] {
    } else {
      var n := |rows| - 1;
      CellExactly(rows[..n], sheet, account, column);
      forall k | 0 <= k < |rows| && InCell(rows[k], sheet, account, column)
                 && (forall j :: k < j < |rows| ==> !InCell(rows[j], sheet, account, column))
        ensures Cell(rows, sheet, account, column) == rows[k].amount
      {
        if k < n {
          assert rows[..n][k] == rows[k] && !InCell(rows[n], sheet, account, column);
          assert forall j :: k < j < n ==> rows[..n][j] == rows[j];
        }
      }
    }
  }

  /** A sheet is of the type of its first row. */
  lemma {:induction false} SheetTypeExactly(rows: seq<Raw>, sheet: Text, k: nat)
    requires k < |rows| && rows[k].sheet == sheet && forall j :: 0 <= j < k ==> rows[j].sheet != sheet
    ensures SheetType(rows, sheet) == rows[k].statement
  {
    if k > 0 { SheetTypeExactly(rows[1..], sheet, k - 1); }
  }

  /** Later dates have the higher number of year, month and day. */
  lemma AfterExactly(a: Date, b: Date)
    requires 1 <= a.month <= 12 && 1 <= b.month <= 12 && 1 <= a.day <= 31 && 1 <= b.day <= 31
    ensures After(a, b) <==> a.year * 10000 + a.month * 100 + a.day > b.year * 10000 + b.month * 100 + b.day
  {
  }

  // ---------------------------------------------------------------- the equations

  /** The lines an equation needs. */
  function Needs(code: Code): set<Account> {
    match code
    case BsOutOfBalance => {Assets, LiabilitiesAndEquity}
    case GrossProfitMismatch => {GrossProfit, Sales, CostOfSales}
    case OperatingProfitMismatch => {OperatingProfit, GrossProfit, SellingAndAdministration}
    case OrdinaryProfitMismatch => {OrdinaryProfit, OperatingProfit, NonOperatingIncome, NonOperatingExpense}
    case PretaxProfitMismatch => {PretaxProfit, OrdinaryProfit, ExtraordinaryGain, ExtraordinaryLoss}
    case NetProfitMismatch => {NetProfit, PretaxProfit, IncomeTax}
    case _ => {}
  }

  /** By how much a statement is off. */
  function Error(rows: seq<Raw>, sheet: Text, column: Text, code: Code): real {
    match code
    case BsOutOfBalance => At(rows, sheet, Assets, column) - At(rows, sheet, LiabilitiesAndEquity, column)
    case GrossProfitMismatch =>
      At(rows, sheet, GrossProfit, column) - (At(rows, sheet, Sales, column) - At(rows, sheet, CostOfSales, column))
    case OperatingProfitMismatch =>
      At(rows, sheet, OperatingProfit, column)
      - (At(rows, sheet, GrossProfit, column) - At(rows, sheet, SellingAndAdministration, column))
    case OrdinaryProfitMismatch =>
      At(rows, sheet, OrdinaryProfit, column)
      - (At(rows, sheet, OperatingProfit, column) + At(rows, sheet, NonOperatingIncome, column)
         - At(rows, sheet, NonOperatingExpense, column))
    case PretaxProfitMismatch =>
      At(rows, sheet, PretaxProfit, column)
      - (At(rows, sheet, OrdinaryProfit, column) + At(rows, sheet, ExtraordinaryGain, column)
         - At(rows, sheet, ExtraordinaryLoss, column))
    case NetProfitMismatch =>
      At(rows, sheet, NetProfit, column) - (At(rows, sheet, PretaxProfit, column) - At(rows, sheet, IncomeTax, column))
    case _ => 0.0
  }

  predicate Complete(rows: seq<Raw>, sheet: Text, column: Text, code: Code) {
    forall account :: account in Needs(code) ==> Cell(rows, sheet, account, column).Some?
  }

  /** All lines are there, and a balance sheet is off at all, a statement of profit by more than half a unit. */
  predicate Mismatch(rows: seq<Raw>, sheet: Text, column: Text, code: Code) {
    && Complete(rows, sheet, column, code)
    && var error := Error(rows, sheet, column, code);
       if code == BsOutOfBalance then error != 0.0 else error > 0.5 || error < -0.5
  }

  function CheckFor(code: Code): Check
    requires IsEquation(Finding(code, []))
  {
    match code
    case BsOutOfBalance => BALANCE
    case GrossProfitMismatch => GROSS
    case OperatingProfitMismatch => OPERATING
    case OrdinaryProfitMismatch => ORDINARY
    case PretaxProfitMismatch => PRETAX
    case NetProfitMismatch => NET
  }

  lemma GapIsError(rows: seq<Raw>, sheet: Text, column: Text, code: Code)
    requires IsEquation(Finding(code, []))
    ensures Gap(rows, sheet, column, CheckFor(code)) == Error(rows, sheet, column, code)
  {
    hide At, PartsSum;
    var parts := CheckFor(code).parts;
    if code == BsOutOfBalance {
      assert parts == [parts[0]];
      OnePart(rows, sheet, column, parts[0]);
    } else if code == OrdinaryProfitMismatch || code == PretaxProfitMismatch {
      assert parts == [parts[0], parts[1], parts[2]];
      ThreeParts(rows, sheet, column, parts[0], parts[1], parts[2]);
    } else {
      assert parts == [parts[0], parts[1]];
      TwoParts(rows, sheet, column, parts[0], parts[1]);
    }
  }

  /** The lines a check looks up are those its equation needs. */
  lemma AppliesExactly(rows: seq<Raw>, sheet: Text, column: Text, code: Code)
    requires IsEquation(Finding(code, []))
    ensures Applies(rows, sheet, CheckFor(code), column) <==> Complete(rows, sheet, column, code)
  {
    hide Cell;
    var check := CheckFor(code);
    forall account | account in Needs(code) && Applies(rows, sheet, check, column)
      ensures Cell(rows, sheet, account, column).Some?
    {
      assert account == check.target || account == check.parts[0].account
          || (|check.parts| > 1 && account == check.parts[1].account)
          || (|check.parts| > 2 && account == check.parts[2].account);
    }
    if Complete(rows, sheet, column, code) {
      forall k | 0 <= k < |check.parts| ensures Cell(rows, sheet, check.parts[k].account, column).Some? {
        assert check.parts[k].account in Needs(code);
      }
    }
  }

  lemma FailsExactly(rows: seq<Raw>, sheet: Text, column: Text, code: Code)
    requires IsEquation(Finding(code, []))
    ensures Fails(rows, sheet, CheckFor(code), column) <==> Mismatch(rows, sheet, column, code)
  {
    AppliesExactly(rows, sheet, column, code);
    GapIsError(rows, sheet, column, code);
    Tolerances(code);
    hide Applies, Complete, Gap, Error, Calculated, Cell, CheckFor;
    if Applies(rows, sheet, CheckFor(code), column) { FailsByGap(rows, sheet, column, CheckFor(code)); }
  }

  lemma Tolerances(code: Code)
    requires IsEquation(Finding(code, []))
    ensures CheckFor(code).tolerance == (if code == BsOutOfBalance then 0.0 else 0.5) && CheckFor(code).code == code
  {
  }

  /** The checks of a sheet are the balance, or the five equations, by its type. */
  lemma CheckedExactly(rows: seq<Raw>, sheet: Text, code: Code)
    requires IsEquation(Finding(code, []))
    ensures (exists k :: 0 <= k < |ChecksOf(rows, sheet)| && ChecksOf(rows, sheet)[k] == CheckFor(code))
       <==> (SheetType(rows, sheet) == BalanceSheet <==> code == BsOutOfBalance)
    ensures forall k :: 0 <= k < |ChecksOf(rows, sheet)| && ChecksOf(rows, sheet)[k].code == code ==>
              ChecksOf(rows, sheet)[k] == CheckFor(code)
  {
    hide SheetType;
    var checks := ChecksOf(rows, sheet);
    ChecksByType(rows, sheet);
    if SheetType(rows, sheet) == BalanceSheet {
      assert checks[0] == BALANCE;
    } else {
      assert checks[0] == GROSS && checks[1] == OPERATING && checks[2] == ORDINARY && checks[3] == PRETAX && checks[4] == NET;
    }
  }

  /** A sheet is reported for an equation if and only if it is of the type the equation is about and the
      equation does not come out in some column that has all of its lines. */
  lemma ReportedExactly(rows: seq<Raw>, sheet: Text, code: Code)
    requires IsEquation(Finding(code, []))
    ensures Finding(code, sheet) in Findings(rows)
       <==> && (SheetType(rows, sheet) == BalanceSheet <==> code == BsOutOfBalance)
            && exists column :: Mismatch(rows, sheet, column, code)
  {
    hide Findings, Fails, ChecksOf, SheetType, Mismatch, CheckFor, IsEquation;
    Reported(rows, code, sheet);
    CheckedExactly(rows, sheet, code);
    forall column ensures Fails(rows, sheet, CheckFor(code), column) <==> Mismatch(rows, sheet, column, code) {
      FailsExactly(rows, sheet, column, code);
    }
    if FailsSomewhere(rows, sheet, code) {
      var k, column :| 0 <= k < |ChecksOf(rows, sheet)| && ChecksOf(rows, sheet)[k].code == code
        && Fails(rows, sheet, ChecksOf(rows, sheet)[k], column);
      assert Mismatch(rows, sheet, column, code);
    }
    if (SheetType(rows, sheet) == BalanceSheet <==> code == BsOutOfBalance) && exists column :: Mismatch(rows, sheet, column, code) {
      var column :| Mismatch(rows, sheet, column, code);
      var k :| 0 <= k < |ChecksOf(rows, sheet)| && ChecksOf(rows, sheet)[k] == CheckFor(code);
      Tolerances(code);
      assert Fails(rows, sheet, ChecksOf(rows, sheet)[k], column);
    }
  }

  // ---------------------------------------------------------------- the order of the findings

  /** What one equation adds on a sheet: one finding for each column in which it does not come out. */
  lemma OnePerColumn(rows: seq<Raw>, sheet: Text, code: Code, column: Text)
    requires IsEquation(Finding(code, []))
    ensures FindingAt(rows, sheet, CheckFor(code))(column)
         == if Mismatch(rows, sheet, column, code) then [Finding(code, sheet)] else []
  {
    FailsExactly(rows, sheet, column, code);
    Tolerances(code);
    hide Fails, Mismatch, CheckFor;
  }
}
