/** From a published KPI value back to the accounting facts it was computed from. */
module KpiProvenance {
  import opened Options
  import opened KpiCalculator
  import opened KpiTables
  import opened KpiGuarantees
  import opened KpiPromises
  import opened KpiStates
  import opened KpiStored

  // ---------------------------------------------------------------- the facts behind an expression

  /** The facts an expression selects, leaf by leaf. */
  function Source(e: Expr, groups: Groups, facts: seq<Fact>): seq<Fact>
    decreases e, 1
  {
    if e.NotDict? || e.op.None? then []
    else if e.op.value == "account_group" then
      if e.code.CodeText? && e.code.text in groups then Selected(groups[e.code.text], facts) else []
    else if e.args.ArgsList? then SourceAll(e.args.items, groups, facts) else []
  }

  function SourceAll(items: seq<Expr>, groups: Groups, facts: seq<Fact>): seq<Fact>
    decreases items, 0
  {
    if items == [] then [] else Source(items[0], groups, facts) + SourceAll(items[1..], groups, facts)
  }

  /** Whatever the operators, the ids returned are those of the selected facts, leaf by leaf. */
  lemma {:induction false} EvaluateNames(e: Expr, groups: Groups, facts: seq<Fact>, basis: string)
    requires Evaluate(e, groups, facts, basis).Ok?
    ensures Evaluate(e, groups, facts, basis).value.ids == Ids(Source(e, groups, facts))
    decreases e, 1
  {
    hide Selected, Total;
    if e.op.value == "account_group" {
    } else {
      EvaluateAllNames(e.args.items, groups, facts, basis);
      CombineKeepsIds(e.op.value, EvaluateAll(e.args.items, groups, facts, basis).value);
    }
  }

  lemma {:induction false} EvaluateAllNames(items: seq<Expr>, groups: Groups, facts: seq<Fact>, basis: string)
    requires EvaluateAll(items, groups, facts, basis).Ok?
    ensures AllIds(EvaluateAll(items, groups, facts, basis).value) == Ids(SourceAll(items, groups, facts))
    decreases items, 0
  {
    hide Evaluate, Source;
    if items == [] {
    } else {
      EvaluateNames(items[0], groups, facts, basis);
      EvaluateAllNames(items[1..], groups, facts, basis);
      var first, rest := Source(items[0], groups, facts), SourceAll(items[1..], groups, facts);
      assert Ids(first + rest) == Ids(first) + Ids(rest);
      var values := EvaluateAll(items, groups, facts, basis).value;
      assert values[1..] == EvaluateAll(items[1..], groups, facts, basis).value;
    }
  }

  lemma CombineKeepsIds(op: string, values: seq<Value>)
    requires Combine(op, values).Ok?
    ensures Combine(op, values).value.ids == AllIds(values)
    ensures Combine(op, values).value.missing == AllMissing(values)
  {
    hide AllIds, AllMissing, Sum;
  }

  lemma {:induction false} SourceFrom(e: Expr, groups: Groups, facts: seq<Fact>)
    ensures forall f :: f in Source(e, groups, facts) ==> f in facts
    decreases e, 1
  {
    hide Selected;
    if e.NotDict? || e.op.None? {
    } else if e.op.value == "account_group" {
      if e.code.CodeText? && e.code.text in groups { SelectedFrom(groups[e.code.text], facts); }
    } else if e.args.ArgsList? {
      SourceAllFrom(e.args.items, groups, facts);
    }
  }

  lemma {:induction false} SourceAllFrom(items: seq<Expr>, groups: Groups, facts: seq<Fact>)
    ensures forall f :: f in SourceAll(items, groups, facts) ==> f in facts
    decreases items, 0
  {
    hide Source;
    if items == [] {
    } else {
      SourceFrom(items[0], groups, facts);
      SourceAllFrom(items[1..], groups, facts);
    }
  }

  lemma {:induction false} SelectedFrom(g: Group, facts: seq<Fact>)
    ensures forall f :: f in Selected(g, facts) ==> f in facts
  {
    if facts == [] {
    } else {
      SelectedFrom(g, facts[1..]);
      assert facts == [facts[0]] + facts[1..];
    }
  }

  // ---------------------------------------------------------------- only the named facts matter

  /** The facts that occur in a given list. */
  function Restrict(facts: seq<Fact>, to: seq<Fact>): (r: seq<Fact>)
    ensures forall f :: f in r <==> f in facts && f in to
  {
    if facts == [] then []
    else
      assert facts == [facts[0]] + facts[1..];
      (if facts[0] in to then [facts[0]] else []) + Restrict(facts[1..], to)
  }

  lemma {:induction false} SelectedRestrict(g: Group, facts: seq<Fact>, to: seq<Fact>)
    requires forall f :: f in Selected(g, facts) ==> f in to
    ensures Selected(g, Restrict(facts, to)) == Selected(g, facts)
  {
    if facts == [] {
    } else {
      var rest := Restrict(facts[1..], to);
      assert forall f :: f in Selected(g, facts[1..]) ==> f in Selected(g, facts);
      SelectedRestrict(g, facts[1..], to);
      assert Selects(g, facts[0]) ==> facts[0] in Selected(g, facts);
      if facts[0] in to {
        assert Restrict(facts, to) == [facts[0]] + rest && ([facts[0]] + rest)[1..] == rest;
      } else {
        assert Restrict(facts, to) == rest;
      }
    }
  }

  /** Evaluation depends on the selected facts alone: all others can be left out. */
  lemma {:induction false} EvaluateRestrict(e: Expr, groups: Groups, facts: seq<Fact>, to: seq<Fact>, basis: string)
    requires forall f :: f in Source(e, groups, facts) ==> f in to
    ensures Evaluate(e, groups, Restrict(facts, to), basis) == Evaluate(e, groups, facts, basis)
    decreases e, 1
  {
    hide Selected, Restrict, Combine;
    if e.NotDict? || e.op.None? {
    } else if e.op.value == "account_group" {
      if e.code.CodeText? && e.code.text in groups { SelectedRestrict(groups[e.code.text], facts, to); }
    } else if e.args.ArgsList? {
      EvaluateAllRestrict(e.args.items, groups, facts, to, basis);
    }
  }

  lemma {:induction false} EvaluateAllRestrict(items: seq<Expr>, groups: Groups, facts: seq<Fact>, to: seq<Fact>,
                                               basis: string)
    requires forall f :: f in SourceAll(items, groups, facts) ==> f in to
    ensures EvaluateAll(items, groups, Restrict(facts, to), basis) == EvaluateAll(items, groups, facts, basis)
    decreases items, 0
  {
    hide Evaluate, Source, Restrict;
    if items == [] {
    } else {
      var first, rest := Source(items[0], groups, facts), SourceAll(items[1..], groups, facts);
      assert forall f :: f in first || f in rest ==> f in first + rest;
      EvaluateRestrict(items[0], groups, facts, to, basis);
      EvaluateAllRestrict(items[1..], groups, facts, to, basis);
    }
  }

  // ---------------------------------------------------------------- available results

  lemma Quotient(a: real, b: real)
    requires b > 0.0
    ensures a / b * b == a
  {
  }

  /** An available KPI is the quotient of its two expressions, with a positive denominator and no group
      without facts, and every group it requires is approved. */
  lemma AvailableQuotient(d: Definition, groups: Groups, facts: seq<Fact>, preview: bool)
    requires Calculate(d, groups, facts, preview).Ok? && Calculate(d, groups, facts, preview).value.state == Available
    ensures var r := Calculate(d, groups, facts, preview).value;
      && r.value.Some? && r.numerator.Some? && r.denominator.Some? && r.denominator.value > 0.0
      && r.value.value * r.denominator.value == r.numerator.value
      && Evaluate(d.numerator, groups, facts, d.basis) == Ok(Value(r.numerator.value, r.numeratorIds, []))
      && Evaluate(d.denominator, groups, facts, d.basis) == Ok(Value(r.denominator.value, r.denominatorIds, []))
    ensures (d.approved || preview) && forall code :: code in d.required ==> code in groups && groups[code].approved
  {
    hide Evaluate, Validated, MissingGroups, Ratio;
    AvailableExactly(d, groups, facts, preview);
    hide Blank, ReasonOf;
    var n, m := Evaluate(d.numerator, groups, facts, d.basis), Evaluate(d.denominator, groups, facts, d.basis);
    assert n.Ok? && m.Ok? && Calculate(d, groups, facts, preview).value == Ratio(d, facts, n.value, m.value);
    RatioAvailable(d, facts, n.value, m.value);
  }

  lemma RatioAvailable(d: Definition, facts: seq<Fact>, n: Value, m: Value)
    requires Ratio(d, facts, n, m).state == Available
    ensures n.missing == [] && m.missing == [] && m.amount > 0.0
    ensures var r := Ratio(d, facts, n, m);
      && r.value.Some? && r.value.value * m.amount == n.amount
      && r.numerator == Some(n.amount) && r.denominator == Some(m.amount)
      && r.numeratorIds == n.ids && r.denominatorIds == m.ids
  {
    NoCodes(n.missing + m.missing);
    Quotient(n.amount, m.amount);
  }

  lemma NoCodes(codes: seq<string>)
    ensures CodeSet(codes) == {} <==> codes == []
  {
    if codes != [] { assert codes[0] in CodeSet(codes); }
  }

  predicate SingleGroup(e: Expr) {
    Validated(e) && e.op == Some("account_group")
  }

  /** Over single groups the two amounts are the totals of the facts selected. */
  lemma AvailableRatio(d: Definition, groups: Groups, facts: seq<Fact>, preview: bool)
    requires SingleGroup(d.numerator) && SingleGroup(d.denominator)
    requires Calculate(d, groups, facts, preview).Ok? && Calculate(d, groups, facts, preview).value.state == Available
    ensures var r := Calculate(d, groups, facts, preview).value;
      var above, below := Source(d.numerator, groups, facts), Source(d.denominator, groups, facts);
      && r.value.Some? && r.numerator == Some(Total(above)) && r.denominator == Some(Total(below))
      && r.denominator.value > 0.0 && r.value.value * r.denominator.value == r.numerator.value
      && r.numeratorIds == Ids(above) && r.denominatorIds == Ids(below)
  {
    hide Calculate, Selected, Total, Ids, Validated;
    AvailableQuotient(d, groups, facts, preview);
  }

  // ---------------------------------------------------------------- released facts

  predicate About(f: Fact, q: Request) {
    f.version == q.version && f.entity == q.entity && f.scopeType == q.scopeType && f.period == q.period
  }

  /** A fact of the version, entity, scope and period asked for that is published, doubly approved,
      active and confirmed: closed, not carried forward, and in a period up to which its file confirms. */
  predicate Released(f: Fact, q: Request) {
    && About(f, q) && f.versionStatus == "published" && f.accountingApproved && f.managementApproved && f.active
    && f.closing == "confirmed" && !f.carryForward
    && f.confirmedThrough.Some? && q.period <= f.confirmedThrough.value
  }

  lemma ProjectedReleased(all: seq<Fact>, q: Request)
    requires FactsFor(all, q.version, q.entity, q.scopeType, q.period).Ok?
    ensures forall f :: f in FactsFor(all, q.version, q.entity, q.scopeType, q.period).value ==> f in all && Released(f, q)
  {
    CandidatesAre(all, q.version, q.entity, q.scopeType, q.period);
    hide Candidates;
  }

  /** An amount accounts for itself: the facts named by the ids are released facts of the request, and
      evaluating the expression over them alone gives the amount and the very same ids. For a single group
      these facts are the ones it selects, and they add up to the amount. */
  ghost predicate Backed(e: Expr, groups: Groups, basis: string, ids: seq<string>, amount: real, all: seq<Fact>, q: Request) {
    exists used: seq<Fact> :: BackedBy(used, e, groups, basis, ids, amount, all, q)
  }

  ghost predicate BackedBy(used: seq<Fact>, e: Expr, groups: Groups, basis: string, ids: seq<string>, amount: real,
                     all: seq<Fact>, q: Request) {
    && (forall f :: f in used ==> f in all && Released(f, q))
    && (forall id :: id in Ids(used) <==> id in ids)
    && ids == Ids(Source(e, groups, used))
    && Evaluate(e, groups, used, basis) == Ok(Value(amount, ids, []))
    && (SingleGroup(e) ==> AddsUp(used, e, groups, ids, amount))
  }

  /** The facts are those the group selects, the ids name them one by one, and the amount is their sum. */
  predicate AddsUp(used: seq<Fact>, e: Expr, groups: Groups, ids: seq<string>, amount: real)
    requires SingleGroup(e)
  {
    e.code.text in groups && Selected(groups[e.code.text], used) == used && ids == Ids(used) && amount == Total(used)
  }

  lemma {:induction false} SelectedHolds(g: Group, facts: seq<Fact>, f: Fact)
    ensures f in Selected(g, facts) <==> f in facts && Selects(g, f)
  {
    hide Selects;
    if facts == [] {
    } else {
      SelectedHolds(g, facts[1..], f);
      assert facts == [facts[0]] + facts[1..];
    }
  }

  /** Keeping the facts that a group selects is selecting, and selecting again changes nothing. */
  lemma {:induction false} RestrictSelects(g: Group, facts: seq<Fact>, to: seq<Fact>)
    requires forall f :: f in facts ==> (f in to <==> Selects(g, f))
    ensures Restrict(facts, to) == Selected(g, facts) == Selected(g, Selected(g, facts))
  {
    hide Selects;
    if facts == [] {
    } else {
      assert facts == [facts[0]] + facts[1..];
      RestrictSelects(g, facts[1..], to);
      var rest := Selected(g, facts[1..]);
      assert ([facts[0]] + rest)[1..] == rest && [] + rest == rest;
    }
  }

  lemma GroupAddsUp(e: Expr, groups: Groups, basis: string, facts: seq<Fact>, v: Value)
    requires SingleGroup(e) && Evaluate(e, groups, facts, basis) == Ok(v) && v.missing == []
    ensures AddsUp(Restrict(facts, Source(e, groups, facts)), e, groups, v.ids, v.amount)
  {
    hide Selected, Restrict, Selects, Total, Ids;
    var g, named := groups[e.code.text], Source(e, groups, facts);
    forall f | f in facts ensures f in named <==> Selects(g, f) {
      SelectedHolds(g, facts, f);
    }
    RestrictSelects(g, facts, named);
  }

  lemma EvaluatedIsBacked(e: Expr, groups: Groups, basis: string, facts: seq<Fact>, v: Value, all: seq<Fact>, q: Request)
    requires Evaluate(e, groups, facts, basis) == Ok(v) && v.missing == []
    requires forall f :: f in facts ==> f in all && Released(f, q)
    ensures Backed(e, groups, basis, v.ids, v.amount, all, q)
  {
    hide Evaluate, Source, Restrict, Released, AddsUp, Validated;
    var named := Source(e, groups, facts);
    var used := Restrict(facts, named);
    if SingleGroup(e) { GroupAddsUp(e, groups, basis, facts, v); }
    EvaluateRestrict(e, groups, facts, named, basis);
    EvaluateNames(e, groups, facts, basis);
    EvaluateNames(e, groups, used, basis);
    SourceFrom(e, groups, facts);
    SameIds(used, named);
    assert BackedBy(used, e, groups, basis, v.ids, v.amount, all, q);
  }

  lemma SameIds(a: seq<Fact>, b: seq<Fact>)
    requires forall f :: f in a <==> f in b
    ensures forall id :: id in Ids(a) <==> id in Ids(b)
  {
    forall id ensures id in Ids(a) <==> id in Ids(b) {
      IdOf(a, id);
      IdOf(b, id);
    }
  }

  lemma IdOf(facts: seq<Fact>, id: string)
    ensures id in Ids(facts) <==> exists f :: f in facts && f.id == id
  {
    if id in Ids(facts) {
      var k :| 0 <= k < |facts| && Ids(facts)[k] == id;
      assert facts[k] in facts;
    }
    if f :| f in facts && f.id == id {
      var k :| 0 <= k < |facts| && facts[k] == f;
      assert Ids(facts)[k] == id;
    }
  }

  // ---------------------------------------------------------------- end to end

  /** A stored result accounts for itself: its definition and the groups that requires are approved (the
      definition, unless it was a preview), its value times its positive denominator is its numerator, and
      the ids of its input rows, role by role, back the two amounts. */
  ghost predicate AccountsFor(next: Kpi, row: nat, d: Definition, all: seq<Fact>, q: Request) {
    && row < |next.results|
    && var r, groups := next.results[row].result, next.registry.groups;
       && (d.approved || q.preview) && (forall code :: code in d.required ==> code in groups && groups[code].approved)
       && r.value.Some? && r.numerator.Some? && r.denominator.Some? && r.denominator.value > 0.0
       && r.value.value * r.denominator.value == r.numerator.value
       && Backed(d.numerator, groups, d.basis, StoredIds(next.inputs, row, true), r.numerator.value, all, q)
       && Backed(d.denominator, groups, d.basis, StoredIds(next.inputs, row, false), r.denominator.value, all, q)
  }

  /** Definitions under different codes have different ids. */
  predicate DistinctIds(registry: Registry) {
    forall a, b :: a in registry.definitions && b in registry.definitions && a != b ==>
      registry.definitions[a].id != registry.definitions[b].id
  }

  /** End-to-end provenance: an available result of a finished run, whatever its definition, is stored
      behind the run it was asked for and accounts for itself down to the released facts. The group its input
      rows name is the one under the top-level code of the expression, whichever groups select. */
  lemma Provenance(db: Kpi, all: seq<Fact>, q: Request, j: nat)
    requires Inv(db) && RunKpis(db, all, q).1.Finished? && j < |RunKpis(db, all, q).1.results|
    requires RunKpis(db, all, q).1.results[j].state == Available
    ensures var (next, outcome) := RunKpis(db, all, q);
      var row := |db.results| + j;
      && row < |next.results| && next.results[row].run == outcome.id
      && next.results[row].result == outcome.results[j] && !next.results[row].superseded
      && j < |q.codes| && q.codes[j] in db.registry.definitions
      && (DistinctIds(db.registry) ==> next.results[row].code == q.codes[j])
      && NamesGroups(next, row, db.registry, next.results[row].code)
      && AccountsFor(next, row, db.registry.definitions[q.codes[j]], all, q)
  {
    hide RunKpis, FactsFor, CalculateAll, Calculate, SaveAll, Started, KeyTaken, Inv, Stores, Backed, AllDescribe,
         NamesGroups;
    FinishedShape(db, all, q);
    ResultsDescribe(db.registry, all, q);
    var (next, outcome) := RunKpis(db, all, q);
    var row, d := |db.results| + j, db.registry.definitions[q.codes[j]];
    SavedRow(db, q, outcome, j);
    ResultBacked(d, db.registry.groups, all, q, outcome.results[j]);
    StoredRow(next, SaveAll(Started(db, q), outcome.id, outcome.results).0, row, outcome.id, db.registry,
              CodeOf(db.registry, d.id).value, outcome.results[j]);
  }

  lemma StoredRow(next: Kpi, saved: Kpi, row: nat, run: nat, registry: Registry, code: string, r: KpiResult)
    requires next.results == saved.results && next.inputs == saved.inputs && Stores(saved, row, run, code, r)
    requires NamesGroups(saved, row, registry, code)
    ensures NamesGroups(next, row, registry, code)
    ensures row < |next.results| && next.results[row] == ResultRow(run, code, r, false)
    ensures StoredIds(next.inputs, row, true) == r.numeratorIds && StoredIds(next.inputs, row, false) == r.denominatorIds
  {
    hide StoredIds;
  }

  lemma ResultBacked(d: Definition, groups: Groups, all: seq<Fact>, q: Request, r: KpiResult)
    requires r.state == Available && FactsFor(all, q.version, q.entity, q.scopeType, q.period).Ok?
    requires Calculate(d, groups, FactsFor(all, q.version, q.entity, q.scopeType, q.period).value, q.preview) == Ok(r)
    ensures r.definitionId == d.id
    ensures (d.approved || q.preview) && forall code :: code in d.required ==> code in groups && groups[code].approved
    ensures r.value.Some? && r.numerator.Some? && r.denominator.Some? && r.denominator.value > 0.0
    ensures r.value.value * r.denominator.value == r.numerator.value
    ensures Backed(d.numerator, groups, d.basis, r.numeratorIds, r.numerator.value, all, q)
    ensures Backed(d.denominator, groups, d.basis, r.denominatorIds, r.denominator.value, all, q)
  {
    hide FactsFor, Calculate, Evaluate, Released, Backed;
    var facts := FactsFor(all, q.version, q.entity, q.scopeType, q.period).value;
    AvailableQuotient(d, groups, facts, q.preview);
    ProjectedReleased(all, q);
    ProjectedSome(all, q);
    CalculateDescribes(d, groups, facts, q.preview);
    EvaluatedIsBacked(d.numerator, groups, d.basis, facts, Value(r.numerator.value, r.numeratorIds, []), all, q);
    EvaluatedIsBacked(d.denominator, groups, d.basis, facts, Value(r.denominator.value, r.denominatorIds, []), all, q);
  }

  lemma ProjectedSome(all: seq<Fact>, q: Request)
    requires FactsFor(all, q.version, q.entity, q.scopeType, q.period).Ok?
    ensures FactsFor(all, q.version, q.entity, q.scopeType, q.period).value != []
  {
    hide Candidates;
  }

  lemma SavedRow(db: Kpi, q: Request, outcome: RunOutcome, j: nat)
    requires Inv(db) && outcome.Finished? && outcome.id == |db.runs| && j < |outcome.results|
    requires AllDescribe(outcome.results, KeyOf(q)) && !KeyTaken(db.runs, KeyOf(q))
    requires SaveAll(Started(db, q), outcome.id, outcome.results).1
    ensures var code := CodeOf(db.registry, outcome.results[j].definitionId);
      var saved, row := SaveAll(Started(db, q), outcome.id, outcome.results).0, |db.results| + j;
      && code.Some? && Stores(saved, row, outcome.id, code.value, outcome.results[j])
      && NamesGroups(saved, row, db.registry, code.value)
  {
    hide Inv, KeyTaken, SaveAll, Stores, CodeOf, AddedBehind, NamesGroups;
    StartedKeeps(db, q);
    SaveAllStores(Started(db, q), outcome.id, outcome.results);
    assert StoresFound(SaveAll(Started(db, q), outcome.id, outcome.results).0, |db.results| + j, outcome.id,
                       db.registry, outcome.results[j]);
  }
}
