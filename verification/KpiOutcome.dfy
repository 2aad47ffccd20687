/** How a KPI request ends, told from the tables, the facts and the registry before it. */
module KpiOutcome {
  import opened Options
  import opened KpiCalculator
  import opened KpiTables
  import opened KpiGuarantees
  import opened KpiPromises
  import opened KpiProvenance
  import opened KpiStates
  import opened KpiMarks

  // ---------------------------------------------------------------- the facts project

  /** There are facts for the request, and all of them are released. */
  predicate Projects(all: seq<Fact>, q: Request) {
    (exists f :: f in all && About(f, q)) && forall f :: f in all && About(f, q) ==> Released(f, q)
  }

  function FactsOf(all: seq<Fact>, q: Request): seq<Fact> {
    Candidates(all, q.version, q.entity, q.scopeType, q.period)
  }

  lemma ProjectsExactly(all: seq<Fact>, q: Request)
    ensures FactsFor(all, q.version, q.entity, q.scopeType, q.period).Ok? <==> Projects(all, q)
    ensures Projects(all, q) ==> FactsFor(all, q.version, q.entity, q.scopeType, q.period) == Ok(FactsOf(all, q))
  {
    hide Candidates;
    CandidatesAre(all, q.version, q.entity, q.scopeType, q.period);
    var c := FactsOf(all, q);
    assert c != [] ==> c[0] in c;
  }

  /** Which of the facts for the request keep them from being projected, and which error that is: the first
      test that some fact fails. */
  lemma ProjectionRefuses(all: seq<Fact>, q: Request)
    ensures FactsFor(all, q.version, q.entity, q.scopeType, q.period)
         == (if forall f :: f in all ==> !About(f, q) then Fail(MissingData)
             else if exists f :: f in all && About(f, q) && f.versionStatus != "published" then Fail(NotPublished)
             else if exists f :: f in all && About(f, q) && !(f.accountingApproved && f.managementApproved) then Fail(ApprovalRequired)
             else if exists f :: f in all && About(f, q) && !f.active then Fail(NotActive)
             else if exists f :: f in all && About(f, q)
                                 && !(f.confirmedThrough.Some? && q.period <= f.confirmedThrough.value
                                      && f.closing == "confirmed" && !f.carryForward) then Fail(PeriodNotConfirmed)
             else Ok(FactsOf(all, q)))
  {
    hide Candidates;
    CandidatesAre(all, q.version, q.entity, q.scopeType, q.period);
    var c := FactsOf(all, q);
    assert c != [] ==> c[0] in c;
  }

  // ---------------------------------------------------------------- everything is calculated

  /** Evaluation comes upon an unknown group before any other failure. */
  predicate Escapes(d: Definition, groups: Groups, facts: seq<Fact>) {
    var n := Evaluate(d.numerator, groups, facts, d.basis);
    if n.Fail? then n.error == KeyFault else Evaluate(d.denominator, groups, facts, d.basis) == Fail(KeyFault)
  }

  predicate Calculable(d: Definition, groups: Groups, facts: seq<Fact>, preview: bool) {
    Validated(d.numerator) && Validated(d.denominator) && (MayEvaluate(d, groups, facts, preview) ==> !Escapes(d, groups, facts))
  }

  /** The failures that an accepted expression is left with. */
  predicate Ordinary(error: Failure) {
    error == BasisMismatch || error == ZeroDivisor || error == KeyFault
  }

  lemma {:induction false} ValidatedFails(e: Expr, groups: Groups, facts: seq<Fact>, basis: string)
    requires Validated(e)
    ensures Evaluate(e, groups, facts, basis).Fail? ==> Ordinary(Evaluate(e, groups, facts, basis).error)
    decreases e, 1
  {
    if e.op.value != "account_group" { AllValidatedFail(e.args.items, groups, facts, basis); }
  }

  lemma {:induction false} AllValidatedFail(items: seq<Expr>, groups: Groups, facts: seq<Fact>, basis: string)
    requires forall k :: 0 <= k < |items| ==> Validated(items[k])
    ensures EvaluateAll(items, groups, facts, basis).Fail? ==> Ordinary(EvaluateAll(items, groups, facts, basis).error)
    decreases items, 0
  {
    if items == [] {
    } else {
      ValidatedFails(items[0], groups, facts, basis);
      AllValidatedFail(items[1..], groups, facts, basis);
    }
  }

  /** Both expressions are evaluated, so that the result carries fact ids. */
  predicate Selecting(d: Definition, groups: Groups, facts: seq<Fact>, preview: bool) {
    && MayEvaluate(d, groups, facts, preview)
    && Evaluate(d.numerator, groups, facts, d.basis).Ok? && Evaluate(d.denominator, groups, facts, d.basis).Ok?
  }

  lemma CalculableExactly(d: Definition, groups: Groups, facts: seq<Fact>, preview: bool)
    ensures Calculate(d, groups, facts, preview).Ok? <==> Calculable(d, groups, facts, preview)
  {
    if Validated(d.numerator) && Validated(d.denominator) {
      ValidatedFails(d.numerator, groups, facts, d.basis);
      ValidatedFails(d.denominator, groups, facts, d.basis);
    }
    MissingExactly(d, groups);
    hide Validated, Evaluate, MissingGroups, Ratio, Blank, GroupsApproved;
  }

  lemma CalculatedIds(d: Definition, groups: Groups, facts: seq<Fact>, preview: bool)
    requires Calculate(d, groups, facts, preview).Ok?
    ensures var r, n, m := Calculate(d, groups, facts, preview).value,
                           Evaluate(d.numerator, groups, facts, d.basis), Evaluate(d.denominator, groups, facts, d.basis);
      && r.definitionId == d.id
      && (Selecting(d, groups, facts, preview) ==> r.numeratorIds == n.value.ids && r.denominatorIds == m.value.ids)
      && (!Selecting(d, groups, facts, preview) ==> r.numeratorIds == [] && r.denominatorIds == [])
  {
    MissingExactly(d, groups);
    hide Validated, Evaluate, MissingGroups, CodeSet, GroupsApproved;
  }

  /** A calculation escapes with an exception exactly when it is not accepted or comes upon an unknown group;
      a result has the ids its expressions select if both evaluate, and none otherwise. */
  lemma CalculateExactly(d: Definition, groups: Groups, facts: seq<Fact>, preview: bool)
    ensures Calculate(d, groups, facts, preview).Ok? <==> Calculable(d, groups, facts, preview)
    ensures Calculate(d, groups, facts, preview).Ok? ==>
      var r, selecting := Calculate(d, groups, facts, preview).value, Selecting(d, groups, facts, preview);
      && r.definitionId == d.id
      && r.numeratorIds == (if selecting then Ids(Source(d.numerator, groups, facts)) else [])
      && r.denominatorIds == (if selecting then Ids(Source(d.denominator, groups, facts)) else [])
  {
    hide Calculate, Calculable, Evaluate, Source, MayEvaluate;
    CalculableExactly(d, groups, facts, preview);
    if Calculate(d, groups, facts, preview).Ok? {
      CalculatedIds(d, groups, facts, preview);
      if Selecting(d, groups, facts, preview) {
        EvaluateNames(d.numerator, groups, facts, d.basis);
        EvaluateNames(d.denominator, groups, facts, d.basis);
      }
    }
  }

  lemma {:induction false} AllCalculated(registry: Registry, facts: seq<Fact>, codes: seq<string>, preview: bool)
    ensures CalculateAll(registry, facts, codes, preview).Some?
       <==> forall k :: 0 <= k < |codes| ==>
              codes[k] in registry.definitions && Calculate(registry.definitions[codes[k]], registry.groups, facts, preview).Ok?
    decreases |codes|
  {
    hide Calculate;
    if codes == [] {
    } else {
      AllCalculated(registry, facts, codes[1..], preview);
      assert forall k :: 0 < k < |codes| ==> codes[k] == codes[1..][k - 1];
    }
  }

  // ---------------------------------------------------------------- everything is saved

  /** The code under which a definition id is saved can be found, and so can the groups for its input rows. */
  predicate Savable(registry: Registry, r: KpiResult) {
    var code := CodeOf(registry, r.definitionId);
    && code.Some?
    && Traceable(registry, registry.definitions[code.value].numerator, r.numeratorIds)
    && Traceable(registry, registry.definitions[code.value].denominator, r.denominatorIds)
  }

  predicate Free(db: Kpi, run: nat, code: Option<string>) {
    forall k :: 0 <= k < |db.results| && db.results[k].run == run ==> Some(db.results[k].code) != code
  }

  predicate CodesDiffer(registry: Registry, results: seq<KpiResult>) {
    forall i, j :: 0 <= i < j < |results| ==>
      CodeOf(registry, results[i].definitionId) != CodeOf(registry, results[j].definitionId)
  }

  lemma SavedExactly(db: Kpi, run: nat, r: KpiResult)
    ensures SaveResult(db, run, r).1 <==> Savable(db.registry, r) && Free(db, run, CodeOf(db.registry, r.definitionId))
    ensures SaveResult(db, run, r).1 ==>
      var (next, code) := (SaveResult(db, run, r).0, CodeOf(db.registry, r.definitionId));
      code.Some? && next.registry == db.registry && next.results == db.results + [ResultRow(run, code.value, r, false)]
  {
    hide CodeOf, Undo, TopCode, InputRows;
  }

  lemma {:induction false} AllSaved(db: Kpi, run: nat, results: seq<KpiResult>)
    ensures SaveAll(db, run, results).1
       <==> && (forall j :: 0 <= j < |results| ==> Savable(db.registry, results[j]))
            && (forall j :: 0 <= j < |results| ==> Free(db, run, CodeOf(db.registry, results[j].definitionId)))
            && CodesDiffer(db.registry, results)
    decreases |results|
  {
    hide SaveResult, Savable, CodeOf;
    if results == [] {
    } else {
      SavedExactly(db, run, results[0]);
      if SaveResult(db, run, results[0]).1 {
        var next, rest := SaveResult(db, run, results[0]).0, results[1..];
        AllSaved(next, run, rest);
        FreeNext(db, next, run, results);
      } else {
        assert !Savable(db.registry, results[0]) || !Free(db, run, CodeOf(db.registry, results[0].definitionId));
      }
    }
  }

  /** Behind the first result the others find their codes free if they did before and differ from the first. */
  lemma FreeNext(db: Kpi, next: Kpi, run: nat, results: seq<KpiResult>)
    requires results != [] && next.registry == db.registry && CodeOf(db.registry, results[0].definitionId).Some?
    requires next.results == db.results + [ResultRow(run, CodeOf(db.registry, results[0].definitionId).value, results[0], false)]
    requires Free(db, run, CodeOf(db.registry, results[0].definitionId)) && Savable(db.registry, results[0])
    ensures var rest := results[1..];
      && (forall j :: 0 <= j < |rest| ==> Savable(db.registry, rest[j]))
      && (forall j :: 0 <= j < |rest| ==> Free(next, run, CodeOf(db.registry, rest[j].definitionId)))
      && CodesDiffer(db.registry, rest)
      <==>
      && (forall j :: 0 <= j < |results| ==> Savable(db.registry, results[j]))
      && (forall j :: 0 <= j < |results| ==> Free(db, run, CodeOf(db.registry, results[j].definitionId)))
      && CodesDiffer(db.registry, results)
  {
    hide Savable, CodeOf, Free;
    var rest := results[1..];
    assert forall j :: 0 < j < |results| ==> results[j] == rest[j - 1];
    assert forall j :: 0 <= j < |rest| ==> rest[j] == results[j + 1];
    forall code ensures Free(next, run, code) <==> Free(db, run, code) && code != CodeOf(db.registry, results[0].definitionId) {
      FreeBehind(db, next, run, code, results[0]);
    }
  }

  lemma FreeBehind(db: Kpi, next: Kpi, run: nat, code: Option<string>, first: KpiResult)
    requires CodeOf(db.registry, first.definitionId).Some?
    requires next.results == db.results + [ResultRow(run, CodeOf(db.registry, first.definitionId).value, first, false)]
    ensures Free(next, run, code) <==> Free(db, run, code) && code != CodeOf(db.registry, first.definitionId)
  {
    hide CodeOf;
    var n := |db.results|;
    assert next.results[n].run == run;
    assert forall k :: 0 <= k < n ==> next.results[k] == db.results[k];
  }

  // ---------------------------------------------------------------- how a request ends

  /** The definition is calculated without an exception, a code is found for its id, and each expression that
      selects facts has a known group under its top-level code, in the definition stored under that code. */
  predicate Succeeds(registry: Registry, code: string, facts: seq<Fact>, preview: bool) {
    && code in registry.definitions
    && var d := registry.definitions[code];
       && Calculable(d, registry.groups, facts, preview)
       && CodeOf(registry, d.id).Some?
       && (Selecting(d, registry.groups, facts, preview) ==>
            var stored := registry.definitions[CodeOf(registry, d.id).value];
            && Traced(registry, stored.numerator, Source(d.numerator, registry.groups, facts))
            && Traced(registry, stored.denominator, Source(d.denominator, registry.groups, facts)))
  }

  predicate Traced(registry: Registry, e: Expr, source: seq<Fact>) {
    source != [] ==> TopCode(e).Some? && TopCode(e).value in registry.groups
  }

  /** No two of the codes asked for are saved under one code. */
  predicate SavedApart(registry: Registry, codes: seq<string>) {
    forall i, j :: 0 <= i < j < |codes| && codes[i] in registry.definitions && codes[j] in registry.definitions ==>
      CodeOf(registry, registry.definitions[codes[i]].id) != CodeOf(registry, registry.definitions[codes[j]].id)
  }

  /** Everything asked for can be calculated and saved. */
  predicate Achievable(registry: Registry, all: seq<Fact>, q: Request) {
    && (forall k :: 0 <= k < |q.codes| ==> Succeeds(registry, q.codes[k], FactsOf(all, q), q.preview))
    && SavedApart(registry, q.codes)
  }

  lemma SavableExactly(registry: Registry, d: Definition, facts: seq<Fact>, preview: bool)
    requires Calculate(d, registry.groups, facts, preview).Ok?
    ensures Savable(registry, Calculate(d, registry.groups, facts, preview).value)
       <==> && CodeOf(registry, d.id).Some?
            && (Selecting(d, registry.groups, facts, preview) ==>
                 var stored := registry.definitions[CodeOf(registry, d.id).value];
                 && Traced(registry, stored.numerator, Source(d.numerator, registry.groups, facts))
                 && Traced(registry, stored.denominator, Source(d.denominator, registry.groups, facts)))
  {
    CalculateExactly(d, registry.groups, facts, preview);
    hide Calculate, Selecting, CodeOf, TopCode, Source;
  }

  lemma AchievableExactly(registry: Registry, all: seq<Fact>, q: Request, db: Kpi, run: nat)
    requires db.registry == registry && forall k :: 0 <= k < |db.results| ==> db.results[k].run != run
    ensures Achievable(registry, all, q)
       <==> && CalculateAll(registry, FactsOf(all, q), q.codes, q.preview).Some?
            && SaveAll(db, run, CalculateAll(registry, FactsOf(all, q), q.codes, q.preview).value).1
  {
    hide Calculate, CalculateAll, SaveAll, Savable, CodeOf, Calculable, Selecting, Traced, FactsOf;
    var facts := FactsOf(all, q);
    AllCalculated(registry, facts, q.codes, q.preview);
    forall k | 0 <= k < |q.codes| && q.codes[k] in registry.definitions
      ensures var d := registry.definitions[q.codes[k]];
        && (Calculate(d, registry.groups, facts, q.preview).Ok? <==> Calculable(d, registry.groups, facts, q.preview))
        && (Calculate(d, registry.groups, facts, q.preview).Ok? ==>
             && Calculate(d, registry.groups, facts, q.preview).value.definitionId == d.id
             && (Savable(registry, Calculate(d, registry.groups, facts, q.preview).value)
                 <==> Succeeds(registry, q.codes[k], facts, q.preview)))
    {
      var d := registry.definitions[q.codes[k]];
      CalculateExactly(d, registry.groups, facts, q.preview);
      if Calculate(d, registry.groups, facts, q.preview).Ok? { SavableExactly(registry, d, facts, q.preview); }
    }
    var results := CalculateAll(registry, facts, q.codes, q.preview);
    if results.Some? {
      AllSaved(db, run, results.value);
      assert forall k :: 0 <= k < |q.codes| ==>
        results.value[k] == Calculate(registry.definitions[q.codes[k]], registry.groups, facts, q.preview).value;
    }
  }

  lemma FreshRun(db: Kpi, q: Request)
    requires Inv(db)
    ensures forall k :: 0 <= k < |Started(db, q).results| ==> Started(db, q).results[k].run != |db.runs|
  {
  }

  lemma TakenSplits(runs: seq<RunRow>, key: Key)
    ensures KeyTaken(runs, key) <==> HasCompleted(runs, key) || Blocked(runs, key)
    ensures FindCompleted(runs, key).Some? <==> HasCompleted(runs, key)
  {
    hide FindCompleted;
    var found := FindCompleted(runs, key);
  }

  /** Each of the five ways a request can end, exactly. */
  lemma EndsExactly(db: Kpi, all: seq<Fact>, q: Request)
    requires Inv(db)
    ensures var outcome, started := RunKpis(db, all, q).1, !KeyTaken(db.runs, KeyOf(q));
      && (outcome.Reused? <==> HasCompleted(db.runs, KeyOf(q)))
      && (outcome.Duplicate? <==> Blocked(db.runs, KeyOf(q)))
      && (outcome.Unprojected? <==> started && !Projects(all, q))
      && (outcome.Finished? <==> started && Projects(all, q) && Achievable(db.registry, all, q))
      && (outcome.Crashed? <==> started && Projects(all, q) && !Achievable(db.registry, all, q))
  {
    RefusedExactly(db, all, q);
    ReusedExactly(db, all, q);
    TakenSplits(db.runs, KeyOf(q));
    if !KeyTaken(db.runs, KeyOf(q)) {
      StartedEnds(db, all, q);
      ProjectsExactly(all, q);
      FreshRun(db, q);
      AchievableExactly(db.registry, all, q, Started(db, q), |db.runs|);
    }
    hide RunKpis, Inv, KeyTaken, HasCompleted, Blocked, Projects, Achievable, CalculateAll, SaveAll, FactsFor;
  }

  lemma ReusedExactly(db: Kpi, all: seq<Fact>, q: Request)
    requires Inv(db)
    ensures RunKpis(db, all, q).1.Reused? <==> HasCompleted(db.runs, KeyOf(q))
  {
    ReusedOnly(db, all, q);
    hide RunKpis, Inv;
    if HasCompleted(db.runs, KeyOf(q)) {
      var id :| 0 <= id < |db.runs| && db.runs[id].key == KeyOf(q) && IsCompleted(db.runs[id].status);
      ReuseFound(db, all, q, id);
    }
  }

  /** The steps of a request whose key is free. */
  lemma StartedEnds(db: Kpi, all: seq<Fact>, q: Request)
    requires Inv(db) && !KeyTaken(db.runs, KeyOf(q))
    ensures var outcome, facts := RunKpis(db, all, q).1, FactsFor(all, q.version, q.entity, q.scopeType, q.period);
      if facts.Fail? then outcome.Unprojected?
      else
        var results := CalculateAll(db.registry, facts.value, q.codes, q.preview);
        if results.Some? && SaveAll(Started(db, q), |db.runs|, results.value).1 then outcome.Finished? else outcome.Crashed?
  {
    NoneCompleted(db.runs, KeyOf(q));
    hide FindCompleted, KeyTaken, FactsFor, CalculateAll, SaveAll, Inv;
  }

  // ---------------------------------------------------------------- composite expressions

  /** A numerator or denominator without a known group under its top-level code, as any composite one may be,
      cannot be saved once it selects a fact: the request crashes. */
  lemma CompositeCrashes(db: Kpi, all: seq<Fact>, q: Request, k: nat)
    requires Inv(db) && !KeyTaken(db.runs, KeyOf(q)) && Projects(all, q)
    requires k < |q.codes| && q.codes[k] in db.registry.definitions && DistinctIds(db.registry)
    requires var d := db.registry.definitions[q.codes[k]];
      && Selecting(d, db.registry.groups, FactsOf(all, q), q.preview)
      && (|| !Traced(db.registry, d.numerator, Source(d.numerator, db.registry.groups, FactsOf(all, q)))
          || !Traced(db.registry, d.denominator, Source(d.denominator, db.registry.groups, FactsOf(all, q))))
    ensures RunKpis(db, all, q).1 == Crashed
  {
    hide RunKpis, Projects, KeyTaken, Inv, Selecting, Traced, Calculable, CodeOf;
    EndsExactly(db, all, q);
    assert !Succeeds(db.registry, q.codes[k], FactsOf(all, q), q.preview);
  }

  /** A crash leaves its run running, and its key blocked until that run is superseded. */
  lemma CrashBlocks(db: Kpi, all: seq<Fact>, q: Request, steps: seq<Step>, again: seq<Fact>, p: Request)
    requires Inv(db) && RunKpis(db, all, q).1.Crashed? && SupersedeStep(|db.runs|) !in steps && KeyOf(p) == KeyOf(q)
    ensures RunKpis(db, all, q).0.runs == db.runs + [RunRow(KeyOf(q), Running, None, 1)]
    ensures RunKpis(RunAll(RunKpis(db, all, q).0, steps), again, p).1 == Duplicate
  {
    CrashShape(db, all, q);
    RunKeeps(db, all, q);
    hide RunKpis, RunAll, Inv;
    ForgottenRunBlocks(RunKpis(db, all, q).0, steps, |db.runs|, again, p);
  }

  lemma CrashShape(db: Kpi, all: seq<Fact>, q: Request)
    requires Inv(db) && RunKpis(db, all, q).1.Crashed?
    ensures RunKpis(db, all, q).0.runs == db.runs + [RunRow(KeyOf(q), Running, None, 1)]
  {
    RunPrefix(db, q);
    var (created, made) := CreateRun(db, KeyOf(q), false, None);
    hide CreateRun, FactsFor, CalculateAll, SaveAll, KeyTaken, Undo;
    var facts := FactsFor(all, q.version, q.entity, q.scopeType, q.period).value;
    var results := CalculateAll(db.registry, facts, q.codes, q.preview);
    if results.Some? {
      ResultsDescribe(db.registry, all, q);
      StartedKeeps(db, q);
      hide Inv;
      SaveAllKeeps(Started(db, q), |db.runs|, results.value);
    }
  }

  /** A sum that is accepted although it carries a code of its own: its facts come from one group, and its
      input rows name the other. */
  lemma OtherGroupNamed(registry: Registry, code: string, other: string, facts: seq<Fact>, row: nat, r: KpiResult)
    requires code in registry.groups && other in registry.groups && registry.groups[code].id != registry.groups[other].id
    requires Selected(registry.groups[code], facts) != []
    ensures var e := Dict(Some("sum"), CodeText(other), ArgsList([Dict(Some("account_group"), CodeText(code), NoArgs, false)]), false);
      var source := Source(e, registry.groups, facts);
      var rows := RoleRows(registry, e, row, true, r, Ids(source));
      && Validated(e) && source == Selected(registry.groups[code], facts)
      && rows.Some? && |rows.value| == |source| > 0
      && forall k :: 0 <= k < |rows.value| ==> rows.value[k].groupId != registry.groups[code].id
  {
    hide Selected;
    var leaf := Dict(Some("account_group"), CodeText(code), NoArgs, false);
    assert [leaf][1..] == [];
    assert Validated(leaf);
    assert SourceAll([leaf], registry.groups, facts) == Source(leaf, registry.groups, facts) + [];
  }
}
