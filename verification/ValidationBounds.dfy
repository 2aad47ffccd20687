/** What a clean validation means for the figures: exact balances, and a profit within 2.5 of its parts. */
module ValidationBounds {
  import opened Options
  import opened PyStrings
  import opened Permutations
  import opened Folds
  import opened Validation

  lemma {:induction false} CellHasRow(rows: seq<Raw>, sheet: Text, account: Account, column: Text)
    requires Cell(rows, sheet, account, column).Some?
    ensures sheet in SheetNames(rows) && column in ColumnNames(rows, sheet)
    ensures exists k :: 0 <= k < |rows| && RowAt(rows, k, sheet, account, column)
  {
    var n := |rows| - 1;
    if RowAt(rows, n, sheet, account, column) {
      assert SheetNames(rows)[n] == sheet;
      ColumnListed(rows, n);
    } else {
      CellHasRow(rows[..n], sheet, account, column);
      var k :| 0 <= k < n && RowAt(rows[..n], k, sheet, account, column);
      assert SheetNames(rows)[k] == sheet && RowAt(rows, k, sheet, account, column);
      ColumnListed(rows, k);
    }
  }

  predicate RowAt(rows: seq<Raw>, k: int, sheet: Text, account: Account, column: Text)
    requires 0 <= k < |rows|
  {
    rows[k].sheet == sheet && rows[k].account == account && rows[k].column == column
  }

  lemma {:induction false} ColumnListed(rows: seq<Raw>, k: nat)
    requires k < |rows|
    ensures rows[k].column in ColumnNames(rows, rows[k].sheet)
  {
    if k > 0 { ColumnListed(rows[1..], k - 1); }
  }

  lemma Collected(names: seq<Text>, name: Text)
    ensures name in Collect(names) <==> name in names
  {
    CollectHolds(names);
    assert name in Collect(names) <==> name in ToSet(Collect(names));
    assert name in names <==> name in ToSet(names);
  }

  ghost predicate FailsSomewhere(rows: seq<Raw>, sheet: Text, code: Code) {
    exists k, column ::
      0 <= k < |ChecksOf(rows, sheet)| && ChecksOf(rows, sheet)[k].code == code
      && Fails(rows, sheet, ChecksOf(rows, sheet)[k], column)
  }

  /** The findings are exactly the checks that fail somewhere. */
  lemma Reported(rows: seq<Raw>, code: Code, sheet: Text)
    ensures Finding(code, sheet) in Findings(rows) <==> FailsSomewhere(rows, sheet, code)
  {
    hide Fails, ChecksOf, FlatMap, Collect;
    var finding := Finding(code, sheet);
    if finding in Findings(rows) {
      FlatMapHolds(FindingsOn(rows), Sheets(rows), finding);
      var i :| 0 <= i < |Sheets(rows)| && finding in FindingsOn(rows)(Sheets(rows)[i]);
      ReportedOn(rows, Sheets(rows)[i], finding);
    }
    if FailsSomewhere(rows, sheet, code) {
      var k, column :| 0 <= k < |ChecksOf(rows, sheet)| && ChecksOf(rows, sheet)[k].code == code
        && Fails(rows, sheet, ChecksOf(rows, sheet)[k], column);
      FailsReported(rows, sheet, k, column);
    }
  }

  lemma ReportedOn(rows: seq<Raw>, on: Text, finding: Finding)
    requires finding in FindingsOn(rows)(on)
    ensures finding.sheet == on && FailsSomewhere(rows, on, finding.code)
  {
    hide Fails, ChecksOf, FlatMap, Columns;
    FlatMapHolds(FindingsOf(rows, on), ChecksOf(rows, on), finding);
    var k :| 0 <= k < |ChecksOf(rows, on)| && finding in FindingsOf(rows, on)(ChecksOf(rows, on)[k]);
    var check := ChecksOf(rows, on)[k];
    FlatMapHolds(FindingAt(rows, on, check), Columns(rows, on), finding);
    var j :| 0 <= j < |Columns(rows, on)| && finding in FindingAt(rows, on, check)(Columns(rows, on)[j]);
    assert Fails(rows, on, check, Columns(rows, on)[j]);
  }

  lemma FailsReported(rows: seq<Raw>, sheet: Text, k: nat, column: Text)
    requires k < |ChecksOf(rows, sheet)| && Fails(rows, sheet, ChecksOf(rows, sheet)[k], column)
    ensures Finding(ChecksOf(rows, sheet)[k].code, sheet) in Findings(rows)
  {
    var check := ChecksOf(rows, sheet)[k];
    var finding := Finding(check.code, sheet);
    CellHasRow(rows, sheet, check.target, column);
    hide Fails, ChecksOf, FlatMap, Collect;
    Collected(ColumnNames(rows, sheet), column);
    Collected(SheetNames(rows), sheet);
    var j :| 0 <= j < |Columns(rows, sheet)| && Columns(rows, sheet)[j] == column;
    var i :| 0 <= i < |Sheets(rows)| && Sheets(rows)[i] == sheet;
    assert finding in FindingAt(rows, sheet, check)(Columns(rows, sheet)[j]);
    FlatMapHolds(FindingAt(rows, sheet, check), Columns(rows, sheet), finding);
    assert finding in FindingsOf(rows, sheet)(ChecksOf(rows, sheet)[k]);
    FlatMapHolds(FindingsOf(rows, sheet), ChecksOf(rows, sheet), finding);
    assert finding in FindingsOn(rows)(Sheets(rows)[i]);
    FlatMapHolds(FindingsOn(rows), Sheets(rows), finding);
  }

  // ---------------------------------------------------------------- equations over amounts

  function At(rows: seq<Raw>, sheet: Text, account: Account, column: Text): real {
    match Cell(rows, sheet, account, column)
    case Some(amount) => amount
    case None => 0.0
  }

  lemma AtIs(rows: seq<Raw>, sheet: Text, column: Text, account: Account)
    requires Cell(rows, sheet, account, column).Some?
    ensures Cell(rows, sheet, account, column) == Some(At(rows, sheet, account, column))
  {
    hide Cell;
  }

  function PartsSum(rows: seq<Raw>, sheet: Text, column: Text, parts: seq<Part>): real {
    if parts == [] then 0.0
    else
      PartsSum(rows, sheet, column, parts[..|parts| - 1])
      + At(rows, sheet, parts[|parts| - 1].account, column) * parts[|parts| - 1].sign as real
  }

  /** By how much the target exceeds the sum of the parts. */
  function Gap(rows: seq<Raw>, sheet: Text, column: Text, check: Check): real {
    At(rows, sheet, check.target, column) - PartsSum(rows, sheet, column, check.parts)
  }

  lemma {:induction false} CalculatedIs(rows: seq<Raw>, sheet: Text, column: Text, parts: seq<Part>)
    requires PartsPresent(rows, sheet, column, parts)
    ensures Calculated(rows, sheet, column, parts) == PartsSum(rows, sheet, column, parts)
  {
    hide Cell;
    if parts == [] {
    } else {
      CalculatedIs(rows, sheet, column, parts[..|parts| - 1]);
    }
  }

  lemma FailsByGap(rows: seq<Raw>, sheet: Text, column: Text, check: Check)
    requires Applies(rows, sheet, check, column)
    ensures Fails(rows, sheet, check, column) <==> Abs(Gap(rows, sheet, column, check)) > check.tolerance
  {
    hide Cell, Calculated, PartsSum, Abs;
    CalculatedIs(rows, sheet, column, check.parts);
  }

  lemma OnePart(rows: seq<Raw>, sheet: Text, column: Text, a: Part)
    ensures PartsSum(rows, sheet, column, [a]) == At(rows, sheet, a.account, column) * a.sign as real
  {
    assert [a][..0] == [];
  }

  lemma TwoParts(rows: seq<Raw>, sheet: Text, column: Text, a: Part, b: Part)
    ensures PartsSum(rows, sheet, column, [a, b])
         == At(rows, sheet, a.account, column) * a.sign as real + At(rows, sheet, b.account, column) * b.sign as real
  {
    OnePart(rows, sheet, column, a);
    assert [a, b][..1] == [a];
  }

  lemma ThreeParts(rows: seq<Raw>, sheet: Text, column: Text, a: Part, b: Part, c: Part)
    ensures PartsSum(rows, sheet, column, [a, b, c])
         == At(rows, sheet, a.account, column) * a.sign as real + At(rows, sheet, b.account, column) * b.sign as real
          + At(rows, sheet, c.account, column) * c.sign as real
  {
    TwoParts(rows, sheet, column, a, b);
    assert [a, b, c][..2] == [a, b];
  }

  // ---------------------------------------------------------------- balance sheets

  predicate Clean(rows: seq<Raw>, sheet: Text) {
    forall f :: f in Findings(rows) ==> f.sheet != sheet
  }

  lemma BalanceFails(rows: seq<Raw>, sheet: Text, column: Text)
    requires Applies(rows, sheet, BALANCE, column)
    ensures Fails(rows, sheet, BALANCE, column)
       <==> Cell(rows, sheet, Assets, column) != Cell(rows, sheet, LiabilitiesAndEquity, column)
  {
    assert BALANCE.parts[0] == Part(LiabilitiesAndEquity, 1);
    hide Cell, Fails, PartsSum, At;
    AtIs(rows, sheet, column, Assets);
    AtIs(rows, sheet, column, BALANCE.parts[0].account);
    FailsByGap(rows, sheet, column, BALANCE);
    OnePart(rows, sheet, column, BALANCE.parts[0]);
    assert BALANCE.parts == [BALANCE.parts[0]];
  }

  lemma CleanHolds(rows: seq<Raw>, sheet: Text, k: nat, column: Text)
    requires Clean(rows, sheet) && k < |ChecksOf(rows, sheet)|
    ensures !Fails(rows, sheet, ChecksOf(rows, sheet)[k], column)
  {
    hide Findings, Fails, ChecksOf;
    if Fails(rows, sheet, ChecksOf(rows, sheet)[k], column) {
      FailsReported(rows, sheet, k, column);
    }
  }

  lemma FoundFails(rows: seq<Raw>, f: Finding) returns (k: nat, column: Text)
    requires f in Findings(rows)
    ensures k < |ChecksOf(rows, f.sheet)| && ChecksOf(rows, f.sheet)[k].code == f.code
    ensures Fails(rows, f.sheet, ChecksOf(rows, f.sheet)[k], column)
  {
    hide Findings, Fails, ChecksOf;
    Reported(rows, f.code, f.sheet);
    k, column :| k < |ChecksOf(rows, f.sheet)| && ChecksOf(rows, f.sheet)[k].code == f.code
      && Fails(rows, f.sheet, ChecksOf(rows, f.sheet)[k], column);
  }

  lemma ChecksByType(rows: seq<Raw>, sheet: Text)
    ensures SheetType(rows, sheet) == BalanceSheet ==> ChecksOf(rows, sheet) == [BALANCE]
    ensures SheetType(rows, sheet) == ProfitAndLoss ==> ChecksOf(rows, sheet) == EQUATIONS
  {
    hide SheetType;
  }

  lemma CleanBalance(rows: seq<Raw>, sheet: Text)
    requires SheetType(rows, sheet) == BalanceSheet
    ensures Clean(rows, sheet) <==> forall column :: !Fails(rows, sheet, BALANCE, column)
  {
    hide Findings, SheetType, Fails, BALANCE, EQUATIONS, ChecksOf;
    ChecksByType(rows, sheet);
    if Clean(rows, sheet) {
      forall column ensures !Fails(rows, sheet, BALANCE, column) {
        CleanHolds(rows, sheet, 0, column);
      }
    } else {
      var f :| f in Findings(rows) && f.sheet == sheet;
      var k, column := FoundFails(rows, f);
      assert Fails(rows, sheet, BALANCE, column);
    }
  }

  /** On a balance sheet without finding the two totals of every column that has both are equal. */
  lemma BalancedExactly(rows: seq<Raw>, sheet: Text)
    requires SheetType(rows, sheet) == BalanceSheet
    ensures Clean(rows, sheet)
       <==> forall column :: Applies(rows, sheet, BALANCE, column) ==>
              Cell(rows, sheet, Assets, column) == Cell(rows, sheet, LiabilitiesAndEquity, column)
  {
    hide Applies, SheetType, Findings, Cell, BALANCE, Calculated, Abs, Clean;
    CleanBalance(rows, sheet);
    forall column | Applies(rows, sheet, BALANCE, column)
      ensures Fails(rows, sheet, BALANCE, column)
         <==> Cell(rows, sheet, Assets, column) != Cell(rows, sheet, LiabilitiesAndEquity, column)
    {
      BalanceFails(rows, sheet, column);
    }
  }

  // ---------------------------------------------------------------- profit and loss

  /** The thirteen lines the five equations look up. */
  predicate IsLine(account: Account) {
    !account.Assets? && !account.LiabilitiesAndEquity? && !account.Other?
  }

  ghost predicate Full(rows: seq<Raw>, sheet: Text, column: Text) {
    forall account :: IsLine(account) ==> Cell(rows, sheet, account, column).Some?
  }

  /** Net profit worked out from the lines that are not themselves profits. */
  function Expansion(rows: seq<Raw>, sheet: Text, column: Text): real {
    At(rows, sheet, Sales, column) - At(rows, sheet, CostOfSales, column)
    - At(rows, sheet, SellingAndAdministration, column)
    + At(rows, sheet, NonOperatingIncome, column) - At(rows, sheet, NonOperatingExpense, column)
    + At(rows, sheet, ExtraordinaryGain, column) - At(rows, sheet, ExtraordinaryLoss, column)
    - At(rows, sheet, IncomeTax, column)
  }

  lemma FullApplies(rows: seq<Raw>, sheet: Text, column: Text, check: Check)
    requires Full(rows, sheet, column) && check in EQUATIONS
    ensures Applies(rows, sheet, check, column) && check.tolerance == 0.5
  {
    hide Cell;
    assert IsLine(check.target);
    assert forall k :: 0 <= k < |check.parts| ==> IsLine(check.parts[k].account);
  }

  /** The five gaps, one equation after the other, add up to the error of the net profit. */
  lemma GapsAddUp(rows: seq<Raw>, sheet: Text, column: Text)
    ensures At(rows, sheet, NetProfit, column) - Expansion(rows, sheet, column)
         == Gap(rows, sheet, column, GROSS) + Gap(rows, sheet, column, OPERATING) + Gap(rows, sheet, column, ORDINARY)
          + Gap(rows, sheet, column, PRETAX) + Gap(rows, sheet, column, NET)
  {
    hide At, PartsSum;
    TwoParts(rows, sheet, column, GROSS.parts[0], GROSS.parts[1]);
    TwoParts(rows, sheet, column, OPERATING.parts[0], OPERATING.parts[1]);
    ThreeParts(rows, sheet, column, ORDINARY.parts[0], ORDINARY.parts[1], ORDINARY.parts[2]);
    ThreeParts(rows, sheet, column, PRETAX.parts[0], PRETAX.parts[1], PRETAX.parts[2]);
    TwoParts(rows, sheet, column, NET.parts[0], NET.parts[1]);
  }

  lemma CleanGap(rows: seq<Raw>, sheet: Text, column: Text, k: nat)
    requires SheetType(rows, sheet) == ProfitAndLoss && Clean(rows, sheet) && Full(rows, sheet, column)
    requires k < |EQUATIONS|
    ensures -0.5 <= Gap(rows, sheet, column, EQUATIONS[k]) <= 0.5
  {
    hide Fails, Findings, Full, Gap, SheetType, EQUATIONS, Applies, ChecksOf;
    ChecksByType(rows, sheet);
    FullApplies(rows, sheet, column, EQUATIONS[k]);
    FailsByGap(rows, sheet, column, EQUATIONS[k]);
    CleanHolds(rows, sheet, k, column);
  }

  /** The five tolerances add up: on a clean sheet a full column's net profit is within 2.5 of what its
      lines work out to. */
  lemma NetProfitBound(rows: seq<Raw>, sheet: Text, column: Text)
    requires SheetType(rows, sheet) == ProfitAndLoss && Clean(rows, sheet) && Full(rows, sheet, column)
    ensures Abs(At(rows, sheet, NetProfit, column) - Expansion(rows, sheet, column)) <= 2.5
  {
    hide Clean, Full, Gap, Expansion, At, SheetType;
    CleanGap(rows, sheet, column, 0);
    CleanGap(rows, sheet, column, 1);
    CleanGap(rows, sheet, column, 2);
    CleanGap(rows, sheet, column, 3);
    CleanGap(rows, sheet, column, 4);
    GapsAddUp(rows, sheet, column);
  }

  // ---------------------------------------------------------------- the bound is reached

  lemma {:induction false} CellFinds(rows: seq<Raw>, k: nat, sheet: Text, account: Account, column: Text)
    requires k < |rows| && RowAt(rows, k, sheet, account, column)
    requires forall j :: k < j < |rows| ==> !RowAt(rows, j, sheet, account, column)
    ensures Cell(rows, sheet, account, column) == rows[k].amount
  {
    var n := |rows| - 1;
    if k < n {
      assert !RowAt(rows, n, sheet, account, column);
      forall j | k < j < n ensures !RowAt(rows[..n], j, sheet, account, column) {
        assert !RowAt(rows, j, sheet, account, column);
      }
      CellFinds(rows[..n], k, sheet, account, column);
    }
  }

  /** The lines in statement order. */
  const LINES := [Sales, CostOfSales, GrossProfit, SellingAndAdministration, OperatingProfit, NonOperatingIncome,
                  NonOperatingExpense, OrdinaryProfit, ExtraordinaryGain, ExtraordinaryLoss, PretaxProfit,
                  IncomeTax, NetProfit]

  /** The place of a line in LINES. */
  function LineIndex(account: Account): int {
    match account
    case Sales => 0
    case CostOfSales => 1
    case GrossProfit => 2
    case SellingAndAdministration => 3
    case OperatingProfit => 4
    case NonOperatingIncome => 5
    case NonOperatingExpense => 6
    case OrdinaryProfit => 7
    case ExtraordinaryGain => 8
    case ExtraordinaryLoss => 9
    case PretaxProfit => 10
    case IncomeTax => 11
    case NetProfit => 12
    case _ => 13
  }

  lemma LinesIndexed()
    ensures |LINES| == 13 && forall k :: 0 <= k < 13 ==> LineIndex(LINES[k]) == k
    ensures forall account :: IsLine(account) ==> 0 <= LineIndex(account) < 13 && LINES[LineIndex(account)] == account
  {
  }

  /** One column of one sheet, with an amount for each line. */
  function Sheet(sheet: Text, column: Text, amount: Account -> real): (r: seq<Raw>)
    ensures |r| == |LINES|
    ensures forall k :: 0 <= k < |r| ==> r[k] == Raw(sheet, LINES[k], column, ProfitAndLoss, Some(amount(LINES[k])), None)
  {
    seq(|LINES|, k requires 0 <= k < |LINES| => Raw(sheet, LINES[k], column, ProfitAndLoss, Some(amount(LINES[k])), None))
  }

  lemma SheetCell(sheet: Text, column: Text, amount: Account -> real, account: Account)
    requires IsLine(account)
    ensures Cell(Sheet(sheet, column, amount), sheet, account, column) == Some(amount(account))
  {
    var rows, k := Sheet(sheet, column, amount), LineIndex(account);
    LinesIndexed();
    hide LINES, LineIndex, Cell, Sheet;
    forall j | k < j < |rows| ensures !RowAt(rows, j, sheet, account, column) {
      assert LineIndex(LINES[j]) != LineIndex(account);
    }
    CellFinds(rows, k, sheet, account, column);
  }

  /** Profits that climb by half a unit at each equation; every other line is zero. */
  function Climbing(account: Account): real {
    match account
    case GrossProfit => 0.5
    case OperatingProfit => 1.0
    case OrdinaryProfit => 1.5
    case PretaxProfit => 2.0
    case NetProfit => 2.5
    case _ => 0.0
  }

  lemma ClimbingAt(sheet: Text, column: Text, account: Account)
    requires IsLine(account)
    ensures At(Sheet(sheet, column, Climbing), sheet, account, column) == Climbing(account)
  {
    hide Cell, Sheet, Climbing;
    SheetCell(sheet, column, Climbing, account);
  }

  lemma ClimbingGap(sheet: Text, column: Text, check: Check)
    requires check in EQUATIONS
    ensures Gap(Sheet(sheet, column, Climbing), sheet, column, check) == 0.5
  {
    var rows := Sheet(sheet, column, Climbing);
    hide At, Sheet, PartsSum;
    ClimbingAt(sheet, column, check.target);
    ClimbingAt(sheet, column, check.parts[0].account);
    ClimbingAt(sheet, column, check.parts[1].account);
    if |check.parts| == 2 {
      assert check.parts == [check.parts[0], check.parts[1]];
      TwoParts(rows, sheet, column, check.parts[0], check.parts[1]);
    } else {
      ClimbingAt(sheet, column, check.parts[2].account);
      assert check.parts == [check.parts[0], check.parts[1], check.parts[2]];
      ThreeParts(rows, sheet, column, check.parts[0], check.parts[1], check.parts[2]);
    }
  }

  lemma ClimbingGaps(sheet: Text, column: Text)
    ensures var rows := Sheet(sheet, column, Climbing);
      && (forall check :: check in EQUATIONS ==> Gap(rows, sheet, column, check) == 0.5)
      && At(rows, sheet, NetProfit, column) - Expansion(rows, sheet, column) == 2.5
  {
    hide Gap, Expansion, Sheet, Climbing, At, GROSS, OPERATING, ORDINARY, PRETAX, NET;
    var rows := Sheet(sheet, column, Climbing);
    GapsAddUp(rows, sheet, column);
    forall check | check in EQUATIONS ensures Gap(rows, sheet, column, check) == 0.5 {
      ClimbingGap(sheet, column, check);
    }
    assert EQUATIONS[0] == GROSS && EQUATIONS[1] == OPERATING && EQUATIONS[2] == ORDINARY && EQUATIONS[3] == PRETAX
        && EQUATIONS[4] == NET;
  }

  lemma SheetIsPl(sheet: Text, column: Text)
    ensures SheetType(Sheet(sheet, column, Climbing), sheet) == ProfitAndLoss
  {
  }

  lemma ToleranceIsHalf(check: Check)
    requires check in EQUATIONS
    ensures check.tolerance == 0.5
  {
  }

  /** 2.5 cannot be lowered: this statement passes validation and is off by exactly that much. */
  lemma BoundIsReached(sheet: Text, column: Text)
    ensures var rows := Sheet(sheet, column, Climbing);
      && Findings(rows) == []
      && SheetType(rows, sheet) == ProfitAndLoss && Full(rows, sheet, column)
      && At(rows, sheet, NetProfit, column) - Expansion(rows, sheet, column) == 2.5
  {
    hide Sheet, Findings, Fails, Cell, Climbing, Gap, Expansion, At, EQUATIONS, SheetType, ChecksOf;
    var rows := Sheet(sheet, column, Climbing);
    SheetIsPl(sheet, column);
    ClimbingGaps(sheet, column);
    forall account | IsLine(account) ensures Cell(rows, sheet, account, column).Some? {
      SheetCell(sheet, column, Climbing, account);
    }
    if Findings(rows) != [] {
      var f := Findings(rows)[0];
      var k, on := FoundFails(rows, f);
      NothingFails(sheet, column, f.sheet, k, on);
    }
  }

  lemma NothingFails(sheet: Text, column: Text, other: Text, k: nat, on: Text)
    ensures var rows := Sheet(sheet, column, Climbing);
      k < |ChecksOf(rows, other)| ==> !Fails(rows, other, ChecksOf(rows, other)[k], on)
  {
    hide Cell, Climbing, Gap, SheetType, PartsPresent, Calculated, EQUATIONS, ChecksOf;
    var rows := Sheet(sheet, column, Climbing);
    SheetIsPl(sheet, column);
    ClimbingGaps(sheet, column);
    if k < |ChecksOf(rows, other)| && Applies(rows, other, ChecksOf(rows, other)[k], on) {
      CellHasRow(rows, other, ChecksOf(rows, other)[k].target, on);
      assert other == sheet && on == column;
      ChecksByType(rows, sheet);
      ToleranceIsHalf(EQUATIONS[k]);
      FailsByGap(rows, sheet, column, EQUATIONS[k]);
    }
  }
}
