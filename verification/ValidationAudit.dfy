/** The causes that audit_year counts for identical June and July amounts, against those validate_raw reports. */
module ValidationAudit {
  import opened Dates
  import opened Options
  import opened PyStrings
  import opened Permutations
  import opened Folds
  import opened Validation
  import opened ValidationPeriods

  // ---------------------------------------------------------------- counting causes

  predicate Identical(rows: seq<Raw>, sheet: Text) {
    MonthAmounts(rows, sheet, 6) != map[] && MonthAmounts(rows, sheet, 6) == MonthAmounts(rows, sheet, 7)
  }

  /** Which cause a period of July stands for: carried forward or unknown. */
  predicate IsCarried(confirmed: Option<Date>, july: Option<Date>) {
    confirmed.Some? && july.Some? && After(july.value, confirmed.value)
  }

  /** The period of the first row of July. */
  function FirstJuly(rows: seq<Raw>, sheet: Text): (r: Option<Date>)
    ensures r.Some? <==> JulyPeriods(rows, sheet) != {}
    ensures r.Some? ==> r.value in JulyPeriods(rows, sheet)
  {
    if rows == [] then None
    else if InMonth(rows[0], sheet, 7) then
      assert rows[0].period.value in JulyPeriods(rows, sheet);
      rows[0].period
    else
      assert rows == [rows[0]] + rows[1..];
      assert JulyPeriods(rows, sheet) == JulyPeriods(rows[1..], sheet);
      FirstJuly(rows[1..], sheet)
  }

  /** The period each of the two programs looks at. */
  function AuditPick(rows: seq<Raw>): Text -> Option<Date> {
    sheet => FirstJuly(rows, sheet)
  }

  function SetPick(rows: seq<Raw>, first: set<Date> -> Date): Text -> Option<Date> {
    sheet => FirstOf(JulyPeriods(rows, sheet), first)
  }

  function CauseOn(rows: seq<Raw>, confirmed: Option<Date>, pick: Text -> Option<Date>, carried: bool): Text -> nat {
    sheet => if Identical(rows, sheet) && IsCarried(confirmed, pick(sheet)) == carried then 1 else 0
  }

  /** The sheets with a given cause. */
  function CauseCount(rows: seq<Raw>, confirmed: Option<Date>, pick: Text -> Option<Date>, carried: bool): nat {
    Sum(CauseOn(rows, confirmed, pick, carried), Sheets(rows))
  }

  lemma CauseCountIs(rows: seq<Raw>, confirmed: Option<Date>, carried: bool)
    ensures CauseCount(rows, confirmed, AuditPick(rows), carried)
         == Sum(CauseOn(rows, confirmed, AuditPick(rows), carried), Collect(SheetNames(rows)))
  {
  }

  /** One sheet of the loop: neither count grows unless its June and July are identical. */
  method AuditCause(rows: seq<Raw>, sheet: Text, confirmed: Option<Date>) returns (carried: nat, unknown: nat)
    ensures carried == CauseOn(rows, confirmed, AuditPick(rows), true)(sheet)
    ensures unknown == CauseOn(rows, confirmed, AuditPick(rows), false)(sheet)
  {
    hide MonthAmounts, FirstJuly, After;
    carried, unknown := 0, 0;
    if Identical(rows, sheet) {
      if IsCarried(confirmed, FirstJuly(rows, sheet)) { carried := 1; } else { unknown := 1; }
    }
  }

  /** audit_year visits the sheets as a set, in whatever order that is iterated. */
  method AuditCauses(rows: seq<Raw>, confirmed: Option<Date>) returns (carried: nat, unknown: nat)
    ensures carried == CauseCount(rows, confirmed, AuditPick(rows), true)
    ensures unknown == CauseCount(rows, confirmed, AuditPick(rows), false)
  {
    hide *;
    carried, unknown := 0, 0;
    var sheets := ToSet(SheetNames(rows));
    ghost var f := CauseOn(rows, confirmed, AuditPick(rows), true);
    ghost var g, names, visited := CauseOn(rows, confirmed, AuditPick(rows), false), SheetNames(rows), [];
    VisitStarts(f, names);
    VisitStarts(g, names);
    while sheets != {}
      invariant Visiting(names, visited, sheets) && carried == Sum(f, visited) && unknown == Sum(g, visited)
      decreases |sheets|
    {
      var sheet :| sheet in sheets;
      VisitOne(f, names, visited, sheets, sheet);
      VisitOne(g, names, visited, sheets, sheet);
      var c, u := AuditCause(rows, sheet, confirmed);
      carried, unknown := carried + c, unknown + u;
      sheets := sheets - {sheet};
      visited := visited + [sheet];
    }
    VisitEnds(f, names, visited);
    VisitEnds(g, names, visited);
    CauseCountIs(rows, confirmed, true);
    CauseCountIs(rows, confirmed, false);
  }

  // ---------------------------------------------------------------- counting findings

  function CodeCount(results: seq<Finding>, code: Code): nat {
    if results == [] then 0
    else CodeCount(results[..|results| - 1], code) + (if results[|results| - 1].code == code then 1 else 0)
  }

  lemma {:induction false} CodeCountConcat(a: seq<Finding>, b: seq<Finding>, code: Code)
    ensures CodeCount(a + b, code) == CodeCount(a, code) + CodeCount(b, code)
  {
    if b == [] {
      assert a + b == a;
    } else {
      var n := |b| - 1;
      CodeCountConcat(a, b[..n], code);
      assert (a + b)[..|a| + n] == a + b[..n];
    }
  }

  lemma {:induction false} CodeCountFlat(f: Text -> seq<Finding>, g: Text -> nat, sheets: seq<Text>, code: Code)
    requires forall sheet :: CodeCount(f(sheet), code) == g(sheet)
    ensures CodeCount(FlatMap(f, sheets), code) == Sum(g, sheets)
  {
    if sheets == [] {
    } else {
      var n := |sheets| - 1;
      CodeCountFlat(f, g, sheets[..n], code);
      CodeCountConcat(FlatMap(f, sheets[..n]), f(sheets[n]), code);
    }
  }

  lemma {:induction false} NoneCounted(results: seq<Finding>, code: Code)
    requires forall f :: f in results ==> f.code != code
    ensures CodeCount(results, code) == 0
  {
    if results == [] {
    } else {
      var n := |results| - 1;
      assert forall f :: f in results[..n] ==> f in results;
      NoneCounted(results[..n], code);
      assert results[n] in results;
    }
  }

  lemma PairCounted(f: Finding, g: Finding, code: Code)
    ensures CodeCount([f, g], code) == (if f.code == code then 1 else 0) + (if g.code == code then 1 else 0)
  {
    assert [f, g][..1] == [f] && [f][..0] == [];
    assert CodeCount([f], code) == if f.code == code then 1 else 0;
  }

  /** The code that validate_raw reports for a cause. */
  function CauseCode(confirmed: Option<Date>, carried: bool): Code {
    if carried then UnconfirmedCarryForward else CauseUnknown(confirmed.Some?)
  }

  lemma SheetCauses(rows: seq<Raw>, confirmed: Option<Date>, first: set<Date> -> Date, carried: bool, sheet: Text)
    ensures CodeCount(AllOn(rows, confirmed, first)(sheet), CauseCode(confirmed, carried))
         == CauseOn(rows, confirmed, SetPick(rows, first), carried)(sheet)
  {
    hide FindingsOn, CodeCount, MonthAmounts, JulyPeriods, After, FirstOf;
    var code, july := CauseCode(confirmed, carried), FirstOf(JulyPeriods(rows, sheet), first);
    var equations, periods := FindingsOn(rows)(sheet), PeriodFindings(rows, sheet, confirmed, july);
    AllOnIs(rows, confirmed, first, sheet);
    FindingsAreEquations(rows, sheet);
    NoneCounted(equations, code);
    CodeCountConcat(equations, periods, code);
    if Identical(rows, sheet) {
      var cause := Finding(CauseCode(confirmed, IsCarried(confirmed, july)), sheet);
      assert periods == [Finding(DuplicatePeriodWarning, sheet), cause];
      PairCounted(Finding(DuplicatePeriodWarning, sheet), cause, code);
    } else {
      NoneCounted(periods, code);
    }
  }

  /** The findings of each cause are as many as the sheets that have it by the period validate_raw picks. */
  lemma CausesReported(rows: seq<Raw>, confirmed: Option<Date>, first: set<Date> -> Date, carried: bool)
    ensures CodeCount(AllFindings(rows, confirmed, first), CauseCode(confirmed, carried))
         == CauseCount(rows, confirmed, SetPick(rows, first), carried)
  {
    hide AllOn, CauseOn, CauseCode, CodeCount, Sheets, FlatMap, Sum;
    var f, g := AllOn(rows, confirmed, first), CauseOn(rows, confirmed, SetPick(rows, first), carried);
    forall sheet ensures CodeCount(f(sheet), CauseCode(confirmed, carried)) == g(sheet) {
      SheetCauses(rows, confirmed, first, carried, sheet);
    }
    CodeCountFlat(f, g, Sheets(rows), CauseCode(confirmed, carried));
  }

  // ---------------------------------------------------------------- when the two counts agree

  /** An order of iteration begins a set with one of its own members. */
  ghost predicate Chooses(first: set<Date> -> Date) {
    forall periods: set<Date> :: periods != {} ==> first(periods) in periods
  }

  ghost function SomeOrder(): (first: set<Date> -> Date)
    ensures Chooses(first)
  {
    periods => if periods == {} then Date(1, 1, 1) else var d :| d in periods; d
  }

  /** The July periods of the sheet stand for one cause. */
  predicate OneSide(rows: seq<Raw>, sheet: Text, confirmed: Option<Date>) {
    forall d, e :: d in JulyPeriods(rows, sheet) && e in JulyPeriods(rows, sheet) ==>
      IsCarried(confirmed, Some(d)) == IsCarried(confirmed, Some(e))
  }

  lemma {:induction false} SumSame(f: Text -> nat, g: Text -> nat, s: seq<Text>)
    requires forall x :: x in s ==> f(x) == g(x)
    ensures Sum(f, s) == Sum(g, s)
  {
    if s == [] {
    } else {
      var n := |s| - 1;
      assert forall x :: x in s[..n] ==> x in s;
      SumSame(f, g, s[..n]);
      assert s[n] in s;
    }
  }

  lemma {:induction false} SumLess(f: Text -> nat, g: Text -> nat, s: seq<Text>, y: Text)
    requires forall x :: f(x) <= g(x)
    ensures Sum(f, s) <= Sum(g, s)
    ensures y in s && f(y) < g(y) ==> Sum(f, s) < Sum(g, s)
  {
    if s == [] {
    } else {
      SumLess(f, g, s[..|s| - 1], y);
      assert s == s[..|s| - 1] + [s[|s| - 1]];
    }
  }

  lemma SettledAgree(rows: seq<Raw>, confirmed: Option<Date>, first: set<Date> -> Date, carried: bool)
    requires Chooses(first) && forall sheet :: Identical(rows, sheet) ==> OneSide(rows, sheet, confirmed)
    ensures CauseCount(rows, confirmed, SetPick(rows, first), carried) == CauseCount(rows, confirmed, AuditPick(rows), carried)
  {
    hide Identical, IsCarried, FirstJuly, JulyPeriods, Sheets, Sum;
    SumSame(CauseOn(rows, confirmed, SetPick(rows, first), carried), CauseOn(rows, confirmed, AuditPick(rows), carried),
            Sheets(rows));
  }

  /** An order of iteration that begins one set with a given date. */
  function Beginning(periods: set<Date>, d: Date, otherwise: set<Date> -> Date): set<Date> -> Date {
    s => if s == periods then d else otherwise(s)
  }

  /** Beginning one set of July periods on the later side instead of the earlier one changes the count. */
  lemma SideCounts(rows: seq<Raw>, confirmed: Option<Date>, first: set<Date> -> Date, sheet: Text, d: Date, e: Date)
    requires Identical(rows, sheet) && sheet in Sheets(rows)
    requires d in JulyPeriods(rows, sheet) && !IsCarried(confirmed, Some(d)) && IsCarried(confirmed, Some(e))
    ensures CauseCount(rows, confirmed, SetPick(rows, Beginning(JulyPeriods(rows, sheet), d, first)), true)
          < CauseCount(rows, confirmed, SetPick(rows, Beginning(JulyPeriods(rows, sheet), e, first)), true)
  {
    hide Identical, IsCarried, JulyPeriods, Sheets, Sum;
    var periods := JulyPeriods(rows, sheet);
    SumLess(CauseOn(rows, confirmed, SetPick(rows, Beginning(periods, d, first)), true),
            CauseOn(rows, confirmed, SetPick(rows, Beginning(periods, e, first)), true), Sheets(rows), sheet);
  }

  /** Whatever order the sets are iterated in, validate_raw reports as many sheets with July carried forward
      as audit_year counts, if and only if on each such sheet all July periods lie on one side. */
  lemma CausesAgree(rows: seq<Raw>, confirmed: Option<Date>)
    ensures (forall first :: Chooses(first) ==>
               CodeCount(AllFindings(rows, confirmed, first), UnconfirmedCarryForward)
               == CauseCount(rows, confirmed, AuditPick(rows), true))
       <==> forall sheet :: Identical(rows, sheet) ==> OneSide(rows, sheet, confirmed)
  {
    hide AllFindings, CodeCount, CauseCount, Identical, JulyPeriods, IsCarried, AuditPick, SetPick;
    forall first ensures CodeCount(AllFindings(rows, confirmed, first), UnconfirmedCarryForward)
                      == CauseCount(rows, confirmed, SetPick(rows, first), true)
    {
      CausesReported(rows, confirmed, first, true);
    }
    if forall sheet :: Identical(rows, sheet) ==> OneSide(rows, sheet, confirmed) {
      forall first | Chooses(first)
        ensures CauseCount(rows, confirmed, SetPick(rows, first), true) == CauseCount(rows, confirmed, AuditPick(rows), true)
      {
        SettledAgree(rows, confirmed, first, true);
      }
    } else {
      var sheet :| Identical(rows, sheet) && !OneSide(rows, sheet, confirmed);
      var d, e :| d in JulyPeriods(rows, sheet) && e in JulyPeriods(rows, sheet)
                  && !IsCarried(confirmed, Some(d)) && IsCarried(confirmed, Some(e));
      var periods, any := JulyPeriods(rows, sheet), SomeOrder();
      assert Chooses(Beginning(periods, d, any)) && Chooses(Beginning(periods, e, any));
      IdenticalListed(rows, sheet);
      SideCounts(rows, confirmed, any, sheet, d, e);
    }
  }

  lemma IdenticalListed(rows: seq<Raw>, sheet: Text)
    requires Identical(rows, sheet)
    ensures sheet in Sheets(rows)
  {
    hide Sheets, MonthAmounts;
    SameMonthsExactly(rows, sheet);
    SameMonthsHasJune(rows, sheet);
    JuneSheetListed(rows, sheet);
  }
}
