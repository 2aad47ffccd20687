/** What an answer of the consumer projection shows: live results only, of one run, in order. */
module KpiAnswers {
  import InsertionSort
  import KeyOrder
  import Permutations
  import opened KpiCalculator
  import opened KpiTables
  import opened KpiGuarantees
  import opened KpiPromises
  import opened KpiProvenance
  import opened KpiStored

  /** Once dead, a result is in no later answer of the projection, whatever is asked. */
  lemma DeadStaysDead(db: Kpi, steps: seq<Step>, k: nat, entity: string, scopeType: string, period: Date, storeOnly: bool)
    requires Inv(db) && Dead(db, k)
    ensures Dead(RunAll(db, steps), k)
    ensures var answer := Get(RunAll(db, steps), entity, scopeType, period, storeOnly);
      answer.Some? ==> k !in answer.value.rows
  {
    RunAllSettles(db, steps);
    hide RunAll;
  }

  /** Superseding a run kills its results, and deactivating an accounting version all of its results,
      for every answer that follows. */
  lemma NeverShownAgain(db: Kpi, step: Step, k: nat, later: seq<Step>,
                        entity: string, scopeType: string, period: Date, storeOnly: bool)
    requires Inv(db) && k < |db.results|
    requires step == SupersedeStep(db.results[k].run) || step == DeactivateStep(db.results[k].result.version)
    ensures var answer := Get(RunAll(Apply(db, step), later), entity, scopeType, period, storeOnly);
      answer.Some? ==> k !in answer.value.rows
  {
    ApplyKeeps(db, step);
    assert Dead(Apply(db, step), k);
    DeadStaysDead(Apply(db, step), later, k, entity, scopeType, period, storeOnly);
  }

  // ---------------------------------------------------------------- one run behind an answer

  /** At most one accounting version is active for the entity, scope and period. */
  predicate OneActiveVersion(db: Kpi, entity: string, scopeType: string, period: Date) {
    forall i, j :: 0 <= i < |db.runs| && 0 <= j < |db.runs|
      && ActiveFor(db, db.runs[i].key, entity, scopeType, period) && ActiveFor(db, db.runs[j].key, entity, scopeType, period)
      ==> db.runs[i].key.version == db.runs[j].key.version
  }

  predicate ActiveFor(db: Kpi, key: Key, entity: string, scopeType: string, period: Date) {
    && key.entity == entity && key.scopeType == scopeType && key.period == period
    && key.version in db.projection && db.projection[key.version]
  }

  /** Then every row of an answer belongs to the run, and to the version, that its header names. */
  lemma OneRunPerAnswer(db: Kpi, entity: string, scopeType: string, period: Date, storeOnly: bool)
    requires Inv(db) && OneActiveVersion(db, entity, scopeType, period)
    ensures var answer := Get(db, entity, scopeType, period, storeOnly);
      answer.Some? ==>
        && answer.value.rows != []
        && forall k :: k in answer.value.rows ==>
             && k < |db.results| && db.results[k].run == answer.value.run
             && db.results[k].result.version == answer.value.version
             && db.runs[answer.value.run].key == Key(answer.value.version, entity, scopeType, period, "phase4-v1", "net")
  {
    var answer := Get(db, entity, scopeType, period, storeOnly);
    if answer.Some? {
      var rows := answer.value.rows;
      var first := rows[0];
      assert first in rows;
      hide ListedRows, Get;
      forall k | k in rows
        ensures k < |db.results| && db.results[k].run == answer.value.run
             && db.results[k].result.version == answer.value.version
             && db.runs[answer.value.run].key == Key(answer.value.version, entity, scopeType, period, "phase4-v1", "net")
      {
        SameRun(db, first, k, entity, scopeType, period);
      }
    }
  }

  lemma SameRun(db: Kpi, i: nat, j: nat, entity: string, scopeType: string, period: Date)
    requires Inv(db) && OneActiveVersion(db, entity, scopeType, period)
    requires Shown(db, i, entity, scopeType, period) && Shown(db, j, entity, scopeType, period)
    ensures db.results[i].run == db.results[j].run && db.results[i].result.version == db.results[j].result.version
    ensures db.runs[db.results[i].run].key == Key(db.results[i].result.version, entity, scopeType, period, "phase4-v1", "net")
  {
    hide Undo;
    var a, b := db.results[i].run, db.results[j].run;
    assert ActiveFor(db, db.runs[a].key, entity, scopeType, period);
    assert ActiveFor(db, db.runs[b].key, entity, scopeType, period);
  }

  // ---------------------------------------------------------------- the order of an answer

  /** No row comes before one whose code is earlier in a dictionary by code points. */
  ghost predicate InDictionaryOrder(results: seq<ResultRow>, rows: seq<nat>) {
    forall i, j :: 0 <= i < j < |rows| && rows[i] < |results| && rows[j] < |results| ==>
      !KeyOrder.Earlier(CodePoints(results[rows[j]].code), CodePoints(results[rows[i]].code))
  }

  lemma OrderedByCode(results: seq<ResultRow>, rows: seq<nat>)
    requires InsertionSort.Ordered(ByCode(results), rows)
    ensures InDictionaryOrder(results, rows)
  {
    hide KeyOrder.Less, KeyOrder.Earlier, CodePoints;
    forall i, j | 0 <= i < j < |rows| && rows[i] < |results| && rows[j] < |results|
      ensures !KeyOrder.Earlier(CodePoints(results[rows[j]].code), CodePoints(results[rows[i]].code))
    {
      assert ByCode(results)(rows[i], rows[j]);
      KeyOrder.LessExactly(CodePoints(results[rows[j]].code), CodePoints(results[rows[i]].code));
    }
  }

  /** A row of an answer: an available result of this entity, scope and period, not superseded, of a completed
      run, an active accounting version, a released set and an approved definition; a store manager gets three
      codes only. */
  predicate Answers(db: Kpi, k: nat, entity: string, scopeType: string, period: Date, storeOnly: bool) {
    && k < |db.results| && db.results[k].run < |db.runs|
    && db.results[k].result.entity == entity && db.results[k].result.scopeType == scopeType
    && db.results[k].result.period == period && db.results[k].result.state == Available && !db.results[k].superseded
    && db.results[k].result.definitionId in db.registry.approvedIds
    && var run := db.runs[db.results[k].run];
       && (run.status == Completed || run.status == CompletedWithWarnings)
       && run.key.definitionSet in db.registry.released
       && run.key.version in db.projection && db.projection[run.key.version]
       && (storeOnly ==>
            || db.results[k].code == "gross_profit_margin" || db.results[k].code == "operating_profit_margin"
            || db.results[k].code == "ordinary_profit_margin")
  }

  lemma AnswersHaveRow(db: Kpi, k: nat, entity: string, scopeType: string, period: Date, storeOnly: bool)
    ensures Answers(db, k, entity, scopeType, period, storeOnly) ==> k < |db.results|
  {
  }

  lemma AnswersExactly(db: Kpi, k: nat, entity: string, scopeType: string, period: Date, storeOnly: bool)
    ensures Listed(db, k, entity, scopeType, period, storeOnly)
       <==> Answers(db, k, entity, scopeType, period, storeOnly)
  {
  }

  /** The rows of an answer are all that answer the question, each once, in the order of their codes. */
  lemma AnswerInOrder(db: Kpi, entity: string, scopeType: string, period: Date, storeOnly: bool)
    ensures var answer := Get(db, entity, scopeType, period, storeOnly);
      && (answer.None? <==> forall k: nat :: !Answers(db, k, entity, scopeType, period, storeOnly))
      && (answer.Some? ==>
           && (forall k: nat :: k in answer.value.rows <==> Answers(db, k, entity, scopeType, period, storeOnly))
           && Permutations.NoRepeats(answer.value.rows)
           && InDictionaryOrder(db.results, answer.value.rows))
  {
    hide Listed, CodeNotAfter, Answers;
    forall k: nat
      ensures Answers(db, k, entity, scopeType, period, storeOnly)
         <==> k < |db.results| && Listed(db, k, entity, scopeType, period, storeOnly)
    {
      AnswersExactly(db, k, entity, scopeType, period, storeOnly);
      AnswersHaveRow(db, k, entity, scopeType, period, storeOnly);
    }
    var among := ListedAmong(db, |db.results|, entity, scopeType, period, storeOnly);
    var rows := ListedRows(db, entity, scopeType, period, storeOnly);
    AmongIncreases(db, |db.results|, entity, scopeType, period, storeOnly);
    InsertionSort.SortPermutes(ByCode(db.results), among);
    Permutations.PermutationKeeps(rows, among);
    CodesConsistent(db.results);
    InsertionSort.SortSorts(ByCode(db.results), among);
    OrderedByCode(db.results, rows);
    if rows == [] {
      assert forall k: nat :: k !in rows;
    } else {
      assert rows[0] in rows;
    }
  }

  lemma {:induction false} AmongIncreases(db: Kpi, n: nat, entity: string, scopeType: string, period: Date, storeOnly: bool)
    requires n <= |db.results|
    ensures Permutations.NoRepeats(ListedAmong(db, n, entity, scopeType, period, storeOnly))
  {
    hide Listed;
    if n == 0 {
    } else {
      AmongIncreases(db, n - 1, entity, scopeType, period, storeOnly);
      var rows := ListedAmong(db, n - 1, entity, scopeType, period, storeOnly);
      forall k | 0 <= k < |rows| ensures rows[k] < n - 1 {
        assert rows[k] in rows;
      }
    }
  }

  lemma CodesConsistent(results: seq<ResultRow>)
    ensures InsertionSort.Consistent(ByCode(results))
  {
    hide CodeAt;
    forall i: nat, j: nat ensures CodeNotAfter(results, i, j) || CodeNotAfter(results, j, i) {
      KeyOrder.NotLessConsistent(CodeAt(results, i), CodeAt(results, j), []);
    }
    forall i: nat, j: nat, k: nat | CodeNotAfter(results, i, j) && CodeNotAfter(results, j, k)
      ensures CodeNotAfter(results, i, k)
    {
      KeyOrder.NotLessConsistent(CodeAt(results, i), CodeAt(results, j), CodeAt(results, k));
    }
  }

  // ---------------------------------------------------------------- what was asked for is shown

  /** An available result of a request that has finished is in the next answer for its entity, scope and period,
      as soon as the set is released and the definition approved there. */
  lemma FinishedIsShown(db: Kpi, all: seq<Fact>, q: Request, j: nat)
    requires Inv(db) && RunKpis(db, all, q).1.Finished? && j < |RunKpis(db, all, q).1.results|
    requires RunKpis(db, all, q).1.results[j].state == Available
    requires "phase4-v1" in db.registry.released && RunKpis(db, all, q).1.results[j].definitionId in db.registry.approvedIds
    ensures var next := RunKpis(db, all, q).0;
      var answer := Get(next, q.entity, q.scopeType, q.period, false);
      answer.Some? && |db.results| + j in answer.value.rows
  {
    hide RunKpis, Get, Answers, SaveAll, Inv, KeyTaken, FactsFor, CalculateAll, AllDescribe;
    var next := RunKpis(db, all, q).0;
    FinishedRow(db, all, q, j);
    AnswerInOrder(next, q.entity, q.scopeType, q.period, false);
  }

  lemma FinishedRow(db: Kpi, all: seq<Fact>, q: Request, j: nat)
    requires Inv(db) && RunKpis(db, all, q).1.Finished? && j < |RunKpis(db, all, q).1.results|
    requires RunKpis(db, all, q).1.results[j].state == Available
    requires "phase4-v1" in db.registry.released && RunKpis(db, all, q).1.results[j].definitionId in db.registry.approvedIds
    ensures Answers(RunKpis(db, all, q).0, |db.results| + j, q.entity, q.scopeType, q.period, false)
  {
    hide RunKpis, SaveAll, Inv, KeyTaken, FactsFor, CalculateAll, Calculate, Stores, AccountsFor, NamesGroups;
    FinishedShape(db, all, q);
    Provenance(db, all, q, j);
    ResultsDescribe(db.registry, all, q);
    FinishedProjects(db, all, q);
  }

  lemma FinishedProjects(db: Kpi, all: seq<Fact>, q: Request)
    requires Inv(db) && RunKpis(db, all, q).1.Finished?
    ensures RunKpis(db, all, q).0.projection == db.projection[q.version := true]
  {
    RunPrefix(db, q);
    hide CreateRun, FactsFor, SaveAll, KeyTaken;
    var facts := FactsFor(all, q.version, q.entity, q.scopeType, q.period).value;
    var results := CalculateAll(db.registry, facts, q.codes, q.preview);
    hide CalculateAll;
    ResultsDescribe(db.registry, all, q);
    StartedKeeps(db, q);
    hide Inv;
    SaveAllKeeps(Started(db, q), |db.runs|, results.value);
  }
}
