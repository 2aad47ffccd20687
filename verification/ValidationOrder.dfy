/** The findings of validate_raw as a list: how many there are of each kind, and in which order. */
module ValidationOrder {
  import KeyOrder
  import opened Dates
  import opened Options
  import opened PyStrings
  import opened Permutations
  import opened Folds
  import opened Validation
  import opened ValidationRules

  // ---------------------------------------------------------------- the order

  /** Where a finding stands among those of its sheet. */
  function Rank(code: Code): nat {
    match code
    case BsOutOfBalance => 0
    case GrossProfitMismatch => 1
    case OperatingProfitMismatch => 2
    case OrdinaryProfitMismatch => 3
    case PretaxProfitMismatch => 4
    case NetProfitMismatch => 5
    case DuplicatePeriodWarning => 6
    case UnconfirmedCarryForward => 7
    case CauseUnknown(_) => 7
  }

  predicate NotBehind(a: Finding, b: Finding) {
    KeyOrder.Earlier(a.sheet, b.sheet) || (a.sheet == b.sheet && Rank(a.code) <= Rank(b.code))
  }

  predicate InOrder(s: seq<Finding>) {
    forall i, j :: 0 <= i < j < |s| ==> NotBehind(s[i], s[j])
  }

  lemma ConcatInOrder(a: seq<Finding>, b: seq<Finding>)
    requires InOrder(a) && InOrder(b) && forall x, y :: x in a && y in b ==> NotBehind(x, y)
    ensures InOrder(a + b)
  {
    hide NotBehind;
  }

  lemma {:induction false} FlatMapInOrder<T>(f: T -> seq<Finding>, s: seq<T>)
    requires forall k :: 0 <= k < |s| ==> InOrder(f(s[k]))
    requires forall i, j, x, y :: 0 <= i < j < |s| && x in f(s[i]) && y in f(s[j]) ==> NotBehind(x, y)
    ensures InOrder(FlatMap(f, s))
  {
    hide NotBehind;
    if s == [] {
    } else {
      var n := |s| - 1;
      hide InOrder;
      FlatMapInOrder(f, s[..n]);
      forall x, y | x in FlatMap(f, s[..n]) && y in f(s[n]) ensures NotBehind(x, y) {
        FlatMapHolds(f, s[..n], x);
      }
      ConcatInOrder(FlatMap(f, s[..n]), f(s[n]));
    }
  }

  lemma CheckFindings(rows: seq<Raw>, sheet: Text, check: Check)
    ensures forall f :: f in FindingsOf(rows, sheet)(check) ==> f == Finding(check.code, sheet)
    ensures InOrder(FindingsOf(rows, sheet)(check))
  {
    hide Columns, FlatMap, Fails, Rank;
    var found := FindingsOf(rows, sheet)(check);
    forall f | f in found ensures f == Finding(check.code, sheet) {
      FlatMapHolds(FindingAt(rows, sheet, check), Columns(rows, sheet), f);
    }
    assert forall k :: 0 <= k < |found| ==> found[k] in found;
  }

  lemma ChecksInOrder(rows: seq<Raw>, sheet: Text, i: nat, j: nat)
    requires i < j < |ChecksOf(rows, sheet)|
    ensures Rank(ChecksOf(rows, sheet)[i].code) <= Rank(ChecksOf(rows, sheet)[j].code) <= 5
  {
    hide SheetType;
  }

  lemma SheetInOrder(rows: seq<Raw>, sheet: Text)
    ensures InOrder(FindingsOn(rows)(sheet))
    ensures forall f :: f in FindingsOn(rows)(sheet) ==> f.sheet == sheet && Rank(f.code) <= 5
  {
    hide FindingsOf, ChecksOf, FlatMap, InOrder, Rank;
    var g, checks := FindingsOf(rows, sheet), ChecksOf(rows, sheet);
    forall check: Check
      ensures InOrder(g(check)) && forall f :: f in g(check) ==> f == Finding(check.code, sheet)
    {
      CheckFindings(rows, sheet, check);
    }
    forall i, j, x, y | 0 <= i < j < |checks| && x in g(checks[i]) && y in g(checks[j]) ensures NotBehind(x, y) {
      ChecksInOrder(rows, sheet, i, j);
    }
    FlatMapInOrder(g, checks);
    forall f | f in FindingsOn(rows)(sheet) ensures f.sheet == sheet && Rank(f.code) <= 5 {
      FlatMapHolds(g, checks, f);
      var k :| 0 <= k < |checks| && f in g(checks[k]);
      LowRank(rows, sheet, k);
    }
  }

  lemma LowRank(rows: seq<Raw>, sheet: Text, k: nat)
    requires k < |ChecksOf(rows, sheet)|
    ensures Rank(ChecksOf(rows, sheet)[k].code) <= 5
  {
    hide SheetType;
  }

  lemma PeriodsInOrder(rows: seq<Raw>, sheet: Text, confirmed: Option<Date>, july: Option<Date>)
    ensures InOrder(PeriodFindings(rows, sheet, confirmed, july))
    ensures forall f :: f in PeriodFindings(rows, sheet, confirmed, july) ==> f.sheet == sheet && Rank(f.code) >= 6
  {
    hide MonthAmounts, After;
  }

  lemma AllOnInOrder(rows: seq<Raw>, confirmed: Option<Date>, first: set<Date> -> Date, sheet: Text)
    ensures InOrder(AllOn(rows, confirmed, first)(sheet))
    ensures forall f :: f in AllOn(rows, confirmed, first)(sheet) ==> f.sheet == sheet
  {
    hide FindingsOn, PeriodFindings, InOrder, Rank;
    var july := FirstOf(JulyPeriods(rows, sheet), first);
    SheetInOrder(rows, sheet);
    PeriodsInOrder(rows, sheet, confirmed, july);
    ConcatInOrder(FindingsOn(rows)(sheet), PeriodFindings(rows, sheet, confirmed, july));
  }

  /** The findings come sheet by sheet in dictionary order; on a sheet first the equations in their order, then
      the warning about identical months, then its cause. */
  lemma ResultsInOrder(rows: seq<Raw>, confirmed: Option<Date>, first: set<Date> -> Date)
    ensures InOrder(AllFindings(rows, confirmed, first))
  {
    hide AllOn, Collect, FlatMap, InOrder, Rank, KeyOrder.Earlier;
    var f, sheets := AllOn(rows, confirmed, first), Sheets(rows);
    VisitedInOrder(SheetNames(rows));
    forall sheet: Text ensures InOrder(f(sheet)) && forall x :: x in f(sheet) ==> x.sheet == sheet {
      AllOnInOrder(rows, confirmed, first, sheet);
    }
    FlatMapInOrder(f, sheets);
  }

  // ---------------------------------------------------------------- the numbers

  lemma {:induction false} FlatMapCounts<T, U>(f: T -> seq<U>, s: seq<T>, u: U, count: T -> nat)
    requires forall x :: x in s ==> count(x) == multiset(f(x))[u]
    ensures multiset(FlatMap(f, s))[u] == Sum(count, s)
  {
    if s == [] {
    } else {
      var n := |s| - 1;
      assert forall x :: x in s[..n] ==> x in s;
      FlatMapCounts(f, s[..n], u, count);
      assert s[n] in s;
    }
  }

  /** If only one of different elements counts, the sum is what that counts. */
  lemma {:induction false} SumOnly<T>(f: T -> nat, s: seq<T>, y: T)
    requires NoRepeats(s) && forall x :: x in s && x != y ==> f(x) == 0
    ensures Sum(f, s) == if y in s then f(y) else 0
  {
    if s == [] {
    } else {
      var n := |s| - 1;
      assert s == s[..n] + [s[n]] && s[n] in s;
      assert forall x :: x in s[..n] ==> x in s;
      SumOnly(f, s[..n], y);
    }
  }

  lemma {:induction false} SumMembers<T>(one: T -> nat, s: seq<T>, members: set<T>)
    requires NoRepeats(s) && forall x :: x in s ==> one(x) <= 1
    requires forall x :: x in members <==> x in s && one(x) == 1
    ensures Sum(one, s) == |members|
  {
    if s == [] {
      assert members == {};
    } else {
      var n := |s| - 1;
      assert s == s[..n] + [s[n]] && s[n] in s;
      SumMembers(one, s[..n], members - {s[n]});
      assert s[n] in members ==> members == (members - {s[n]}) + {s[n]};
    }
  }

  /** The columns of a sheet in which an equation does not come out. */
  function OffColumns(rows: seq<Raw>, sheet: Text, code: Code): set<Text> {
    set row | row in rows && row.sheet == sheet && Mismatch(rows, sheet, row.column, code) :: row.column
  }

  lemma {:induction false} ColumnNamesAre(rows: seq<Raw>, sheet: Text, column: Text)
    ensures column in ColumnNames(rows, sheet) <==> exists row :: row in rows && row.sheet == sheet && row.column == column
  {
    if rows == [] {
    } else {
      ColumnNamesAre(rows[1..], sheet, column);
      assert rows == [rows[0]] + rows[1..];
    }
  }

  lemma ColumnsAre(rows: seq<Raw>, sheet: Text, code: Code)
    ensures NoRepeats(Columns(rows, sheet))
    ensures forall column ::
      column in OffColumns(rows, sheet, code) <==> column in Columns(rows, sheet) && Mismatch(rows, sheet, column, code)
  {
    hide Collect, ColumnNames, Mismatch;
    CollectHolds(ColumnNames(rows, sheet));
    VisitedInOrder(ColumnNames(rows, sheet));
    forall column
      ensures column in Columns(rows, sheet) <==> exists row :: row in rows && row.sheet == sheet && row.column == column
    {
      ColumnNamesAre(rows, sheet, column);
    }
  }

  lemma CheckCounted(rows: seq<Raw>, sheet: Text, code: Code)
    requires IsEquation(Finding(code, []))
    ensures multiset(FindingsOf(rows, sheet)(CheckFor(code)))[Finding(code, sheet)] == |OffColumns(rows, sheet, code)|
  {
    hide Columns, FindingAt, Mismatch, CheckFor, IsEquation, FlatMap, Sum, OffColumns, NoRepeats;
    var f, u := FindingAt(rows, sheet, CheckFor(code)), Finding(code, sheet);
    var count := column => multiset(f(column))[u];
    FlatMapCounts(f, Columns(rows, sheet), u, count);
    forall column ensures count(column) == if Mismatch(rows, sheet, column, code) then 1 else 0 {
      OnePerColumn(rows, sheet, code, column);
    }
    ColumnsAre(rows, sheet, code);
    SumMembers(count, Columns(rows, sheet), OffColumns(rows, sheet, code));
  }

  lemma ChecksDiffer(rows: seq<Raw>, sheet: Text)
    ensures NoRepeats(ChecksOf(rows, sheet))
  {
    hide SheetType;
    forall i, j | 0 <= i < j < |ChecksOf(rows, sheet)| ensures ChecksOf(rows, sheet)[i] != ChecksOf(rows, sheet)[j] {
    }
  }

  lemma OthersFindNone(rows: seq<Raw>, sheet: Text, check: Check, code: Code)
    requires check.code != code
    ensures multiset(FindingsOf(rows, sheet)(check))[Finding(code, sheet)] == 0
  {
    hide FindingsOf, InOrder;
    CheckFindings(rows, sheet, check);
    assert Finding(code, sheet) !in FindingsOf(rows, sheet)(check);
  }

  predicate Meant(rows: seq<Raw>, sheet: Text, code: Code) {
    SheetType(rows, sheet) == BalanceSheet <==> code == BsOutOfBalance
  }

  lemma SheetCounted(rows: seq<Raw>, sheet: Text, code: Code)
    requires IsEquation(Finding(code, []))
    ensures multiset(FindingsOn(rows)(sheet))[Finding(code, sheet)]
         == if Meant(rows, sheet, code) then |OffColumns(rows, sheet, code)| else 0
  {
    hide FindingsOf, ChecksOf, CheckFor, IsEquation, FlatMap, Sum, OffColumns, NoRepeats, SheetType;
    var g, checks, u := FindingsOf(rows, sheet), ChecksOf(rows, sheet), Finding(code, sheet);
    CheckedExactly(rows, sheet, code);
    ChecksDiffer(rows, sheet);
    var count := check => multiset(g(check))[u];
    FlatMapCounts(g, checks, u, count);
    forall check | check in checks && check != CheckFor(code) ensures count(check) == 0 {
      var k :| 0 <= k < |checks| && checks[k] == check;
      assert check.code != code;
      OthersFindNone(rows, sheet, check, code);
    }
    SumOnly(count, checks, CheckFor(code));
    CheckCounted(rows, sheet, code);
    assert CheckFor(code) in checks <==> exists k :: 0 <= k < |checks| && checks[k] == CheckFor(code);
  }

  lemma AllOnCounted(rows: seq<Raw>, confirmed: Option<Date>, first: set<Date> -> Date, on: Text, sheet: Text, code: Code)
    requires IsEquation(Finding(code, []))
    ensures multiset(AllOn(rows, confirmed, first)(on))[Finding(code, sheet)]
         == if on == sheet && Meant(rows, sheet, code) then |OffColumns(rows, sheet, code)| else 0
  {
    hide FindingsOn, PeriodFindings, OffColumns, Meant, Rank, InOrder;
    var u, july := Finding(code, sheet), FirstOf(JulyPeriods(rows, on), first);
    SheetCounted(rows, sheet, code);
    SheetInOrder(rows, on);
    PeriodsInOrder(rows, on, confirmed, july);
    LowCode(code);
    assert u !in PeriodFindings(rows, on, confirmed, july);
    if on != sheet { assert u !in FindingsOn(rows)(on); }
  }

  lemma LowCode(code: Code)
    requires IsEquation(Finding(code, []))
    ensures Rank(code) <= 5
  {
  }

  /** A sheet of the type an equation is about has as many findings for it as columns in which it does not come
      out; any other sheet has none. */
  lemma ResultsCounted(rows: seq<Raw>, confirmed: Option<Date>, first: set<Date> -> Date, sheet: Text, code: Code)
    requires IsEquation(Finding(code, []))
    ensures multiset(AllFindings(rows, confirmed, first))[Finding(code, sheet)]
         == if Meant(rows, sheet, code) then |OffColumns(rows, sheet, code)| else 0
  {
    hide AllOn, Collect, FlatMap, Sum, IsEquation, Mismatch, Meant, OffColumns;
    var f, sheets, u := AllOn(rows, confirmed, first), Sheets(rows), Finding(code, sheet);
    CollectHolds(SheetNames(rows));
    VisitedInOrder(SheetNames(rows));
    var count := on => multiset(f(on))[u];
    FlatMapCounts(f, sheets, u, count);
    forall on ensures count(on) == if on == sheet && Meant(rows, sheet, code) then |OffColumns(rows, sheet, code)| else 0 {
      AllOnCounted(rows, confirmed, first, on, sheet, code);
    }
    SumOnly(count, sheets, sheet);
    if sheet !in sheets { NoColumns(rows, sheet, code); }
  }

  lemma NoColumns(rows: seq<Raw>, sheet: Text, code: Code)
    requires sheet !in SheetNames(rows)
    ensures OffColumns(rows, sheet, code) == {}
  {
    hide Mismatch;
    forall row | row in rows ensures row.sheet != sheet {
      var k :| 0 <= k < |rows| && rows[k] == row;
      assert SheetNames(rows)[k] == row.sheet;
    }
  }

  // ---------------------------------------------------------------- the checks counted

  const EQUATION_CODES: set<Code> :=
    {BsOutOfBalance, GrossProfitMismatch, OperatingProfitMismatch, OrdinaryProfitMismatch, PretaxProfitMismatch, NetProfitMismatch}

  /** The checks that can be made: a sheet, a column of it and an equation for its type all lines of which are there. */
  function Possible(rows: seq<Raw>): set<(Text, Text, Code)> {
    set row, code | row in rows && code in EQUATION_CODES && Meant(rows, row.sheet, code)
                    && Complete(rows, row.sheet, row.column, code) :: (row.sheet, row.column, code)
  }

  function With<T(==), U>(key: U -> T, all: set<U>, x: T): set<U> {
    set u | u in all && key(u) == x
  }

  /** A set counted by a key that takes its values in a list. */
  lemma {:induction false} SumBy<T, U>(f: T -> nat, s: seq<T>, key: U -> T, all: set<U>)
    requires NoRepeats(s) && forall u :: u in all ==> key(u) in s
    requires forall x :: x in s ==> f(x) == |With(key, all, x)|
    ensures Sum(f, s) == |all|
  {
    if s == [] {
      assert all == {};
    } else {
      var n := |s| - 1;
      var last, before := With(key, all, s[n]), set u | u in all && key(u) != s[n];
      assert s == s[..n] + [s[n]] && all == before + last;
      forall x | x in s[..n] ensures f(x) == |With(key, before, x)| {
        assert With(key, before, x) == With(key, all, x);
      }
      SumBy(f, s[..n], key, before);
    }
  }

  function OnSheet(rows: seq<Raw>, sheet: Text): set<(Text, Text, Code)> {
    set u | u in Possible(rows) && u.0 == sheet
  }

  function OnCheck(rows: seq<Raw>, sheet: Text, check: Check): set<(Text, Text, Code)> {
    set u | u in OnSheet(rows, sheet) && CheckOf(u) == check
  }

  function CheckOf(u: (Text, Text, Code)): Check {
    if IsEquation(Finding(u.2, [])) then CheckFor(u.2) else BALANCE
  }

  lemma PossibleIs(rows: seq<Raw>, u: (Text, Text, Code))
    ensures u in Possible(rows)
       <==> IsEquation(Finding(u.2, [])) && Meant(rows, u.0, u.2) && u.1 in Columns(rows, u.0) && Complete(rows, u.0, u.1, u.2)
  {
    hide Meant, Complete, Collect, ColumnNames;
    VisitedInOrder(ColumnNames(rows, u.0));
    ColumnNamesAre(rows, u.0, u.1);
  }

  lemma CodeOfCheck(rows: seq<Raw>, sheet: Text, k: nat)
    requires k < |ChecksOf(rows, sheet)|
    ensures var check := ChecksOf(rows, sheet)[k];
      IsEquation(Finding(check.code, [])) && Meant(rows, sheet, check.code) && CheckFor(check.code) == check
  {
    hide SheetType;
  }

  lemma CodesDiffer(a: Code, b: Code)
    requires IsEquation(Finding(a, [])) && IsEquation(Finding(b, [])) && CheckFor(a) == CheckFor(b)
    ensures a == b
  {
    Tolerances(a);
    Tolerances(b);
  }

  lemma CountedOnCheck(rows: seq<Raw>, sheet: Text, k: nat)
    requires k < |ChecksOf(rows, sheet)|
    ensures ApplicableOf(rows, sheet)(ChecksOf(rows, sheet)[k]) == |OnCheck(rows, sheet, ChecksOf(rows, sheet)[k])|
  {
    hide Columns, ChecksOf, CheckFor, IsEquation, Meant, Complete, Applies, Possible, Sum, NoRepeats;
    var check := ChecksOf(rows, sheet)[k];
    var code, all := check.code, OnCheck(rows, sheet, check);
    CodeOfCheck(rows, sheet, k);
    ColumnsAre(rows, sheet, code);
    forall u ensures u in all <==> u.0 == sheet && u.2 == code && u.1 in Columns(rows, sheet) && Complete(rows, sheet, u.1, code) {
      PossibleIs(rows, u);
      if IsEquation(Finding(u.2, [])) && CheckFor(u.2) == check { CodesDiffer(u.2, code); }
    }
    var key := (u: (Text, Text, Code)) => u.1;
    forall column | column in Columns(rows, sheet)
      ensures Applicable(rows, sheet, check)(column) == |With(key, all, column)|
    {
      AppliesExactly(rows, sheet, column, code);
      assert With(key, all, column)
          == if Complete(rows, sheet, column, code) then {(sheet, column, code)} else {};
    }
    SumBy(Applicable(rows, sheet, check), Columns(rows, sheet), key, all);
  }

  lemma CountedOnSheet(rows: seq<Raw>, sheet: Text)
    ensures ApplicableOn(rows)(sheet) == |OnSheet(rows, sheet)|
  {
    hide ApplicableOf, ChecksOf, CheckFor, IsEquation, Meant, Complete, Possible, Sum, NoRepeats, Columns;
    var checks, all := ChecksOf(rows, sheet), OnSheet(rows, sheet);
    ChecksDiffer(rows, sheet);
    forall u | u in all ensures CheckOf(u) in checks {
      PossibleIs(rows, u);
      MeantChecked(rows, sheet, u.2);
    }
    forall check | check in checks ensures ApplicableOf(rows, sheet)(check) == |With(CheckOf, all, check)| {
      var k :| 0 <= k < |checks| && checks[k] == check;
      CountedOnCheck(rows, sheet, k);
      assert OnCheck(rows, sheet, check) == With(CheckOf, all, check);
    }
    SumBy(ApplicableOf(rows, sheet), checks, CheckOf, all);
  }

  lemma MeantChecked(rows: seq<Raw>, sheet: Text, code: Code)
    requires IsEquation(Finding(code, [])) && Meant(rows, sheet, code)
    ensures CheckFor(code) in ChecksOf(rows, sheet)
  {
    hide ChecksOf, CheckFor;
    CheckedExactly(rows, sheet, code);
  }

  /** The checks the audit counts are those that can be made, each once. */
  lemma ChecksCounted(rows: seq<Raw>)
    ensures CheckCount(rows) == |Possible(rows)|
  {
    hide ApplicableOn, Possible, Sum, NoRepeats, Collect, Meant, Complete, IsEquation, Columns;
    var sheets, all := Sheets(rows), Possible(rows);
    CollectHolds(SheetNames(rows));
    VisitedInOrder(SheetNames(rows));
    forall u | u in all ensures u.0 in sheets {
      PossibleOnSheet(rows, u);
    }
    var key := (u: (Text, Text, Code)) => u.0;
    forall sheet | sheet in sheets ensures ApplicableOn(rows)(sheet) == |With(key, all, sheet)| {
      CountedOnSheet(rows, sheet);
      assert OnSheet(rows, sheet) == With(key, all, sheet);
    }
    SumBy(ApplicableOn(rows), sheets, key, all);
  }

  lemma PossibleOnSheet(rows: seq<Raw>, u: (Text, Text, Code))
    requires u in Possible(rows)
    ensures u.0 in SheetNames(rows)
  {
    hide Meant, Complete;
    var row :| row in rows && row.sheet == u.0;
    var k :| 0 <= k < |rows| && rows[k] == row;
    assert SheetNames(rows)[k] == u.0;
  }
}
