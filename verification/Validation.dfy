/** accounting_core/validation.py and the count of checks in accounting_core/year_comparison.py. */
module Validation {
  import InsertionSort
  import KeyOrder
  import opened Dates
  import opened Options
  import opened PyStrings
  import opened Permutations
  import opened Folds

  datatype Statement = BalanceSheet | ProfitAndLoss

  /** Source account names; the totals that the checks look up have constructors of their own. */
  datatype Account =
    | Assets | LiabilitiesAndEquity
    | Sales | CostOfSales | GrossProfit
    | SellingAndAdministration | OperatingProfit
    | NonOperatingIncome | NonOperatingExpense | OrdinaryProfit
    | ExtraordinaryGain | ExtraordinaryLoss | PretaxProfit
    | IncomeTax | NetProfit
    | Other(name: Text)

  datatype Raw = Raw(sheet: Text, account: Account, column: Text, statement: Statement, amount: Option<real>,
                     period: Option<Date>)

  /** The code of a finding fixes its severity, cause and data state; the closing status of CauseUnknown says
      whether a confirmed period was given. */
  datatype Code =
    | BsOutOfBalance
    | GrossProfitMismatch | OperatingProfitMismatch | OrdinaryProfitMismatch | PretaxProfitMismatch | NetProfitMismatch
    | DuplicatePeriodWarning | UnconfirmedCarryForward | CauseUnknown(confirmedGiven: bool)

  datatype Part = Part(account: Account, sign: int)

  /** One equation: the target differs from the signed sum of the parts by at most the tolerance. */
  datatype Check = Check(code: Code, target: Account, parts: seq<Part>, tolerance: real)

  const BALANCE := Check(BsOutOfBalance, Assets, [Part(LiabilitiesAndEquity, 1)], 0.0)

  const GROSS := Check(GrossProfitMismatch, GrossProfit, [Part(Sales, 1), Part(CostOfSales, -1)], 0.5)
  const OPERATING :=
    Check(OperatingProfitMismatch, OperatingProfit, [Part(GrossProfit, 1), Part(SellingAndAdministration, -1)], 0.5)
  const ORDINARY :=
    Check(OrdinaryProfitMismatch, OrdinaryProfit,
          [Part(OperatingProfit, 1), Part(NonOperatingIncome, 1), Part(NonOperatingExpense, -1)], 0.5)
  const PRETAX :=
    Check(PretaxProfitMismatch, PretaxProfit,
          [Part(OrdinaryProfit, 1), Part(ExtraordinaryGain, 1), Part(ExtraordinaryLoss, -1)], 0.5)
  const NET := Check(NetProfitMismatch, NetProfit, [Part(PretaxProfit, 1), Part(IncomeTax, -1)], 0.5)

  /** PL_EQUATIONS */
  const EQUATIONS := [GROSS, OPERATING, ORDINARY, PRETAX, NET]

  datatype Finding = Finding(code: Code, sheet: Text)

  // ---------------------------------------------------------------- looking up cells

  /** The dictionary by_cell: the last row with a key wins; None also stands for an amount that is None. */
  function Cell(rows: seq<Raw>, sheet: Text, account: Account, column: Text): Option<real> {
    if rows == [] then None
    else
      var last := rows[|rows| - 1];
      if last.sheet == sheet && last.account == account && last.column == column then last.amount
      else Cell(rows[..|rows| - 1], sheet, account, column)
  }

  predicate PartsPresent(rows: seq<Raw>, sheet: Text, column: Text, parts: seq<Part>) {
    forall k :: 0 <= k < |parts| ==> Cell(rows, sheet, parts[k].account, column).Some?
  }

  function Calculated(rows: seq<Raw>, sheet: Text, column: Text, parts: seq<Part>): real
    requires PartsPresent(rows, sheet, column, parts)
  {
    if parts == [] then 0.0
    else
      Calculated(rows, sheet, column, parts[..|parts| - 1])
      + Cell(rows, sheet, parts[|parts| - 1].account, column).value * parts[|parts| - 1].sign as real
  }

  function Abs(x: real): real {
    if x < 0.0 then -x else x
  }

  /** All amounts the check needs are there. */
  predicate Applies(rows: seq<Raw>, sheet: Text, check: Check, column: Text) {
    Cell(rows, sheet, check.target, column).Some? && PartsPresent(rows, sheet, column, check.parts)
  }

  predicate Fails(rows: seq<Raw>, sheet: Text, check: Check, column: Text) {
    && Applies(rows, sheet, check, column)
    && Abs(Cell(rows, sheet, check.target, column).value - Calculated(rows, sheet, column, check.parts)) > check.tolerance
  }

  // ---------------------------------------------------------------- the loops of validate_raw

  /** sorted() of the set of the names. */
  function Collect(names: seq<Text>): seq<Text> {
    if names == [] then []
    else
      var rest := Collect(names[1..]);
      if names[0] in rest then rest else InsertionSort.Insert(NotAfter, names[0], rest)
  }

  function SheetNames(rows: seq<Raw>): (r: seq<Text>)
    ensures |r| == |rows|
    ensures forall k :: 0 <= k < |rows| ==> r[k] == rows[k].sheet
  {
    seq(|rows|, k requires 0 <= k < |rows| => rows[k].sheet)
  }

  function ColumnNames(rows: seq<Raw>, sheet: Text): seq<Text> {
    if rows == [] then []
    else (if rows[0].sheet == sheet then [rows[0].column] else []) + ColumnNames(rows[1..], sheet)
  }

  function Sheets(rows: seq<Raw>): seq<Text> {
    Collect(SheetNames(rows))
  }

  function Columns(rows: seq<Raw>, sheet: Text): seq<Text> {
    Collect(ColumnNames(rows, sheet))
  }

  /** The statement type of a sheet is that of its first row. */
  function SheetType(rows: seq<Raw>, sheet: Text): Statement {
    if rows == [] then ProfitAndLoss
    else if rows[0].sheet == sheet then rows[0].statement
    else SheetType(rows[1..], sheet)
  }

  function ChecksOf(rows: seq<Raw>, sheet: Text): seq<Check> {
    if SheetType(rows, sheet) == BalanceSheet then [BALANCE] else EQUATIONS
  }

  function FindingAt(rows: seq<Raw>, sheet: Text, check: Check): Text -> seq<Finding> {
    column => if Fails(rows, sheet, check, column) then [Finding(check.code, sheet)] else []
  }

  function FindingsOf(rows: seq<Raw>, sheet: Text): Check -> seq<Finding> {
    check => FlatMap(FindingAt(rows, sheet, check), Columns(rows, sheet))
  }

  function FindingsOn(rows: seq<Raw>): Text -> seq<Finding> {
    sheet => FlatMap(FindingsOf(rows, sheet), ChecksOf(rows, sheet))
  }

  /** The balance and equation findings of validate_raw: sheet by sheet, check by check, column by column. */
  function Findings(rows: seq<Raw>): seq<Finding> {
    FlatMap(FindingsOn(rows), Sheets(rows))
  }

  // ---------------------------------------------------------------- June and July

  predicate InMonth(row: Raw, sheet: Text, month: int) {
    row.sheet == sheet && row.period.Some? && row.period.value.month == month
  }

  /** The dictionary of a month: the last row of an account wins. */
  function MonthAmounts(rows: seq<Raw>, sheet: Text, month: int): map<Account, Option<real>> {
    if rows == [] then map[]
    else
      var before, last := MonthAmounts(rows[..|rows| - 1], sheet, month), rows[|rows| - 1];
      if InMonth(last, sheet, month) then before[last.account := last.amount] else before
  }

  function JulyPeriods(rows: seq<Raw>, sheet: Text): set<Date> {
    set row | row in rows && InMonth(row, sheet, 7) :: row.period.value
  }

  /** What is reported when the amounts of June and July are identical; july is the period looked at. */
  function PeriodFindings(rows: seq<Raw>, sheet: Text, confirmed: Option<Date>, july: Option<Date>): seq<Finding> {
    var amounts := MonthAmounts(rows, sheet, 6);
    if amounts == map[] || amounts != MonthAmounts(rows, sheet, 7) then []
    else
      [Finding(DuplicatePeriodWarning, sheet),
       Finding(if confirmed.Some? && july.Some? && After(july.value, confirmed.value) then UnconfirmedCarryForward
               else CauseUnknown(confirmed.Some?), sheet)]
  }

  /** next(iter(periods), None): first stands for the order in which a set is iterated. */
  function FirstOf(periods: set<Date>, first: set<Date> -> Date): Option<Date> {
    if periods == {} then None else Some(first(periods))
  }

  function AllOn(rows: seq<Raw>, confirmed: Option<Date>, first: set<Date> -> Date): Text -> seq<Finding> {
    sheet => FindingsOn(rows)(sheet) + PeriodFindings(rows, sheet, confirmed, FirstOf(JulyPeriods(rows, sheet), first))
  }

  /** Everything validate_raw reports. */
  function AllFindings(rows: seq<Raw>, confirmed: Option<Date>, first: set<Date> -> Date): seq<Finding> {
    FlatMap(AllOn(rows, confirmed, first), Sheets(rows))
  }

  method ValidateRaw(rows: seq<Raw>, confirmed: Option<Date>, first: set<Date> -> Date) returns (results: seq<Finding>)
    ensures results == AllFindings(rows, confirmed, first)
  {
    hide *;
    results := [];
    var sheets := Sheets(rows);
    ghost var f := AllOn(rows, confirmed, first);
    AllFindingsAre(rows, confirmed, first);
    FlatMapTake(f, sheets, 0);
    for i := 0 to |sheets|
      invariant results == FlatMap(f, sheets[..i])
    {
      FlatMapTake(f, sheets, i);
      var equations := ValidateSheet(rows, sheets[i]);
      var periods := CompareMonths(rows, sheets[i], confirmed, first);
      results := results + equations + periods;
      AllOnIs(rows, confirmed, first, sheets[i]);
    }
  }

  lemma AllFindingsAre(rows: seq<Raw>, confirmed: Option<Date>, first: set<Date> -> Date)
    ensures AllFindings(rows, confirmed, first) == FlatMap(AllOn(rows, confirmed, first), Sheets(rows))
  {
  }

  lemma AllOnIs(rows: seq<Raw>, confirmed: Option<Date>, first: set<Date> -> Date, sheet: Text)
    ensures AllOn(rows, confirmed, first)(sheet)
         == FindingsOn(rows)(sheet) + PeriodFindings(rows, sheet, confirmed, FirstOf(JulyPeriods(rows, sheet), first))
  {
  }

  /** The checks of one sheet, column by column. */
  method ValidateSheet(rows: seq<Raw>, sheet: Text) returns (results: seq<Finding>)
    ensures results == FindingsOn(rows)(sheet)
  {
    hide Columns, ChecksOf, Fails, FlatMap;
    results := [];
    var columns, checks := Columns(rows, sheet), ChecksOf(rows, sheet);
    FlatMapTake(FindingsOf(rows, sheet), checks, 0);
    for j := 0 to |checks|
      invariant results == FlatMap(FindingsOf(rows, sheet), checks[..j])
    {
      FlatMapTake(FindingsOf(rows, sheet), checks, j);
      ghost var found := results;
      FlatMapTake(FindingAt(rows, sheet, checks[j]), columns, 0);
      for k := 0 to |columns|
        invariant results == found + FlatMap(FindingAt(rows, sheet, checks[j]), columns[..k])
      {
        FlatMapTake(FindingAt(rows, sheet, checks[j]), columns, k);
        if Fails(rows, sheet, checks[j], columns[k]) {
          results := results + [Finding(checks[j].code, sheet)];
        }
      }
    }
  }

  /** The comparison of June with July on one sheet. */
  method CompareMonths(rows: seq<Raw>, sheet: Text, confirmed: Option<Date>, first: set<Date> -> Date)
    returns (results: seq<Finding>)
    ensures results == PeriodFindings(rows, sheet, confirmed, FirstOf(JulyPeriods(rows, sheet), first))
  {
    results := [];
    var june, july := MonthAmounts(rows, sheet, 6), MonthAmounts(rows, sheet, 7);
    if june != map[] && june == july {
      results := results + [Finding(DuplicatePeriodWarning, sheet)];
      var period := FirstOf(JulyPeriods(rows, sheet), first);
      if confirmed.Some? && period.Some? && After(period.value, confirmed.value) {
        results := results + [Finding(UnconfirmedCarryForward, sheet)];
      } else {
        results := results + [Finding(CauseUnknown(confirmed.Some?), sheet)];
      }
    }
  }

  // ---------------------------------------------------------------- the loops of audit_year

  function Applicable(rows: seq<Raw>, sheet: Text, check: Check): Text -> nat {
    column => if Applies(rows, sheet, check, column) then 1 else 0
  }

  function ApplicableOf(rows: seq<Raw>, sheet: Text): Check -> nat {
    check => Sum(Applicable(rows, sheet, check), Columns(rows, sheet))
  }

  function ApplicableOn(rows: seq<Raw>): Text -> nat {
    sheet => Sum(ApplicableOf(rows, sheet), ChecksOf(rows, sheet))
  }

  /** The checks that could be made, counted in the order of validate_raw. */
  function CheckCount(rows: seq<Raw>): nat {
    Sum(ApplicableOn(rows), Sheets(rows))
  }

  /** The names are visited once each, in the order of their code points. */
  lemma {:induction false} CollectHolds(names: seq<Text>)
    ensures ToSet(Collect(names)) == ToSet(names) && NoRepeats(Collect(names))
    ensures InsertionSort.Ordered(NotAfter, Collect(names))
  {
    if names == [] {
    } else {
      hide NotAfter;
      var rest := Collect(names[1..]);
      CollectHolds(names[1..]);
      assert names == [names[0]] + names[1..];
      assert forall x :: x in rest <==> x in ToSet(rest);
      assert ToSet(names) == {names[0]} + ToSet(names[1..]);
      if names[0] !in rest {
        NotAfterConsistent();
        InsertionSort.InsertSorts(NotAfter, names[0], rest);
        InsertionSort.InsertHolds(NotAfter, names[0], rest);
        ConsKeeps(names[0], rest, Collect(names));
      }
    }
  }

  /** The set of names as it is visited: each once, in the order of a dictionary by code points. */
  lemma VisitedInOrder(names: seq<Text>)
    ensures forall name :: name in Collect(names) <==> name in names
    ensures forall i, j :: 0 <= i < j < |Collect(names)| ==> KeyOrder.Earlier(Collect(names)[i], Collect(names)[j])
  {
    hide Collect, KeyOrder.Less, KeyOrder.Earlier;
    CollectHolds(names);
    var visited := Collect(names);
    forall name ensures name in visited <==> name in names {
      assert name in ToSet(visited) <==> name in ToSet(names);
    }
    forall i, j | 0 <= i < j < |visited| ensures KeyOrder.Earlier(visited[i], visited[j]) {
      assert NotAfter(visited[i], visited[j]);
      KeyOrder.LessTotal(visited[i], visited[j]);
      KeyOrder.LessExactly(visited[i], visited[j]);
    }
  }

  lemma ConsKeeps(name: Text, rest: seq<Text>, all: seq<Text>)
    requires NoRepeats(rest) && name !in rest && multiset(all) == multiset(rest) + multiset{name}
    ensures NoRepeats(all) && ToSet(all) == {name} + ToSet(rest)
  {
    var listed := [name] + rest;
    assert NoRepeats(listed);
    PermutationKeeps(listed, all);
    assert ToSet(listed) == {name} + ToSet(rest);
  }

  /** Any visit of a set, each element once, adds up to the same as the sorted visit. */
  lemma AnyOrder(f: Text -> nat, names: seq<Text>, visited: seq<Text>)
    requires NoRepeats(visited) && ToSet(visited) == ToSet(names)
    ensures Sum(f, visited) == Sum(f, Collect(names))
  {
    CollectHolds(names);
    assert forall x :: x in visited <==> x in ToSet(visited);
    assert forall x :: x in Collect(names) <==> x in ToSet(Collect(names));
    SameElementsPermute(visited, Collect(names));
    SumPermutes(f, visited, Collect(names));
  }

  /** A loop over the set of the names: those visited so far, each once, and those left. */
  ghost predicate Visiting(names: seq<Text>, visited: seq<Text>, left: set<Text>) {
    NoRepeats(visited) && ToSet(visited) !! left && ToSet(visited) + left == ToSet(names)
  }

  lemma VisitStarts(f: Text -> nat, names: seq<Text>)
    ensures Visiting(names, [], ToSet(names)) && Sum(f, []) == 0
  {
  }

  lemma VisitOne(f: Text -> nat, names: seq<Text>, visited: seq<Text>, left: set<Text>, name: Text)
    requires Visiting(names, visited, left) && name in left
    ensures Visiting(names, visited + [name], left - {name})
    ensures Sum(f, visited + [name]) == Sum(f, visited) + f(name)
  {
    SumSnoc(f, visited, name);
    assert forall k :: 0 <= k < |visited| ==> visited[k] in ToSet(visited);
    assert ToSet(visited + [name]) == ToSet(visited) + {name};
  }

  lemma VisitEnds(f: Text -> nat, names: seq<Text>, visited: seq<Text>)
    requires Visiting(names, visited, {})
    ensures Sum(f, visited) == Sum(f, Collect(names))
  {
    AnyOrder(f, names, visited);
  }

  lemma CheckCountIs(rows: seq<Raw>)
    ensures CheckCount(rows) == Sum(ApplicableOn(rows), Collect(SheetNames(rows)))
  {
  }

  /** audit_year visits the sheets and the columns as sets, in whatever order those are iterated. */
  method AuditChecks(rows: seq<Raw>) returns (count: nat)
    ensures count == CheckCount(rows)
  {
    hide *;
    count := 0;
    var sheets := ToSet(SheetNames(rows));
    ghost var f, names, visited := ApplicableOn(rows), SheetNames(rows), [];
    VisitStarts(f, names);
    while sheets != {}
      invariant Visiting(names, visited, sheets) && count == Sum(f, visited)
      decreases |sheets|
    {
      var sheet :| sheet in sheets;
      VisitOne(f, names, visited, sheets, sheet);
      var onSheet := AuditSheet(rows, sheet);
      count := count + onSheet;
      sheets := sheets - {sheet};
      visited := visited + [sheet];
    }
    VisitEnds(f, names, visited);
    CheckCountIs(rows);
  }

  method AuditSheet(rows: seq<Raw>, sheet: Text) returns (count: nat)
    ensures count == ApplicableOn(rows)(sheet)
  {
    count := 0;
    var checks := ChecksOf(rows, sheet);
    ghost var f := ApplicableOf(rows, sheet);
    assert ApplicableOn(rows)(sheet) == Sum(f, checks);
    hide *;
    SumTake(f, checks, 0);
    for j := 0 to |checks|
      invariant count == Sum(f, checks[..j])
    {
      SumTake(f, checks, j);
      var applicable := AuditCheck(rows, sheet, checks[j]);
      count := count + applicable;
    }
  }

  method AuditCheck(rows: seq<Raw>, sheet: Text, check: Check) returns (count: nat)
    ensures count == ApplicableOf(rows, sheet)(check)
  {
    count := 0;
    var columns := ToSet(ColumnNames(rows, sheet));
    ghost var f, names, visited := Applicable(rows, sheet, check), ColumnNames(rows, sheet), [];
    VisitStarts(f, names);
    assert ApplicableOf(rows, sheet)(check) == Sum(f, Collect(names));
    hide Visiting, Sum, Collect, Applies, ColumnNames, ToSet;
    while columns != {}
      invariant Visiting(names, visited, columns) && count == Sum(f, visited)
      decreases |columns|
    {
      var column :| column in columns;
      VisitOne(f, names, visited, columns, column);
      if Applies(rows, sheet, check, column) { count := count + 1; }
      columns := columns - {column};
      visited := visited + [column];
    }
    VisitEnds(f, names, visited);
  }

  // ---------------------------------------------------------------- the two loops agree

  predicate IsEquation(f: Finding) {
    !f.code.DuplicatePeriodWarning? && !f.code.UnconfirmedCarryForward? && !f.code.CauseUnknown?
  }

  /** The findings of the balance and equation checks among the results. */
  function Equations(results: seq<Finding>): seq<Finding> {
    if results == [] then []
    else
      var before, last := Equations(results[..|results| - 1]), results[|results| - 1];
      if IsEquation(last) then before + [last] else before
  }

  lemma {:induction false} EquationsConcat(a: seq<Finding>, b: seq<Finding>)
    ensures Equations(a + b) == Equations(a) + Equations(b)
  {
    if b == [] {
      assert a + b == a;
    } else {
      var n := |b| - 1;
      EquationsConcat(a, b[..n]);
      assert (a + b)[..|a| + n] == a + b[..n];
    }
  }

  lemma {:induction false} AllEquations(results: seq<Finding>)
    requires forall f :: f in results ==> IsEquation(f)
    ensures Equations(results) == results
  {
    if results == [] {
    } else {
      var n := |results| - 1;
      assert forall f :: f in results[..n] ==> f in results;
      AllEquations(results[..n]);
      assert results[n] in results;
    }
  }

  lemma NeitherEquation(f: Finding, g: Finding)
    requires !IsEquation(f) && !IsEquation(g)
    ensures Equations([f, g]) == []
  {
    hide IsEquation;
    assert [f, g][..1] == [f] && [f][..0] == [];
    assert Equations([f]) == [];
  }

  lemma NoEquations(rows: seq<Raw>, sheet: Text, confirmed: Option<Date>, july: Option<Date>)
    ensures Equations(PeriodFindings(rows, sheet, confirmed, july)) == []
  {
    hide MonthAmounts, Equations;
    var results := PeriodFindings(rows, sheet, confirmed, july);
    if results == [] {
      AllEquations([]);
    } else {
      NeitherEquation(results[0], results[1]);
      assert results == [results[0], results[1]];
    }
  }

  lemma CheckCodes(rows: seq<Raw>, sheet: Text, k: nat)
    ensures k < |ChecksOf(rows, sheet)| ==> IsEquation(Finding(ChecksOf(rows, sheet)[k].code, sheet))
  {
    hide SheetType;
  }

  lemma FindingsAreEquations(rows: seq<Raw>, sheet: Text)
    ensures forall f :: f in FindingsOn(rows)(sheet) ==> IsEquation(f)
  {
    hide ChecksOf, Columns, Fails, IsEquation, FlatMap;
    forall f | f in FindingsOn(rows)(sheet) ensures IsEquation(f) {
      FlatMapHolds(FindingsOf(rows, sheet), ChecksOf(rows, sheet), f);
      var k :| 0 <= k < |ChecksOf(rows, sheet)| && f in FindingsOf(rows, sheet)(ChecksOf(rows, sheet)[k]);
      FlatMapHolds(FindingAt(rows, sheet, ChecksOf(rows, sheet)[k]), Columns(rows, sheet), f);
      CheckCodes(rows, sheet, k);
    }
  }

  lemma SheetEquations(rows: seq<Raw>, confirmed: Option<Date>, first: set<Date> -> Date, sheet: Text)
    ensures Equations(AllOn(rows, confirmed, first)(sheet)) == FindingsOn(rows)(sheet)
  {
    hide *;
    var july := FirstOf(JulyPeriods(rows, sheet), first);
    AllOnIs(rows, confirmed, first, sheet);
    EquationsConcat(FindingsOn(rows)(sheet), PeriodFindings(rows, sheet, confirmed, july));
    FindingsAreEquations(rows, sheet);
    AllEquations(FindingsOn(rows)(sheet));
    NoEquations(rows, sheet, confirmed, july);
  }

  lemma {:induction false} EquationsOver(rows: seq<Raw>, confirmed: Option<Date>, first: set<Date> -> Date, sheets: seq<Text>)
    ensures Equations(FlatMap(AllOn(rows, confirmed, first), sheets)) == FlatMap(FindingsOn(rows), sheets)
  {
    if sheets == [] {
    } else {
      hide FindingsOn, AllOn, IsEquation;
      var n := |sheets| - 1;
      EquationsOver(rows, confirmed, first, sheets[..n]);
      EquationsConcat(FlatMap(AllOn(rows, confirmed, first), sheets[..n]), AllOn(rows, confirmed, first)(sheets[n]));
      SheetEquations(rows, confirmed, first, sheets[n]);
    }
  }

  /** The balance and equation findings among the results are Findings, in that order. */
  lemma EquationsAre(rows: seq<Raw>, confirmed: Option<Date>, first: set<Date> -> Date)
    ensures Equations(AllFindings(rows, confirmed, first)) == Findings(rows)
  {
    hide Equations, Sheets, AllOn, FindingsOn, FlatMap;
    EquationsOver(rows, confirmed, first, Sheets(rows));
  }

  lemma OneCheckWithin(rows: seq<Raw>, sheet: Text, check: Check)
    ensures |FindingsOf(rows, sheet)(check)| <= ApplicableOf(rows, sheet)(check)
  {
    hide Applies, Columns, Cell, Calculated, Abs;
    FlatMapBounded(FindingAt(rows, sheet, check), Applicable(rows, sheet, check), Columns(rows, sheet));
  }

  lemma OneSheetWithin(rows: seq<Raw>, sheet: Text)
    ensures |FindingsOn(rows)(sheet)| <= ApplicableOn(rows)(sheet)
  {
    hide FindingsOf, ApplicableOf, ChecksOf;
    forall check: Check ensures |FindingsOf(rows, sheet)(check)| <= ApplicableOf(rows, sheet)(check) {
      OneCheckWithin(rows, sheet, check);
    }
    FlatMapBounded(FindingsOf(rows, sheet), ApplicableOf(rows, sheet), ChecksOf(rows, sheet));
  }

  /** validate_raw never reports more mismatches than audit_year counts checks. */
  lemma FindingsWithinChecks(rows: seq<Raw>, confirmed: Option<Date>, first: set<Date> -> Date)
    ensures |Equations(AllFindings(rows, confirmed, first))| <= CheckCount(rows)
  {
    hide FindingsOn, ApplicableOn, AllFindings, Equations, Sheets;
    forall sheet: Text ensures |FindingsOn(rows)(sheet)| <= ApplicableOn(rows)(sheet) {
      OneSheetWithin(rows, sheet);
    }
    FlatMapBounded(FindingsOn(rows), ApplicableOn(rows), Sheets(rows));
    EquationsAre(rows, confirmed, first);
  }
}
