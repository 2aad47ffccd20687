/** What the KPI engine promises over whole sequences of calls: one completed run per key, and results that
    are superseded for good. */
module KpiPromises {
  import opened Options
  import opened KpiCalculator
  import opened KpiTables
  import opened KpiGuarantees

  // ---------------------------------------------------------------- one completed run per key

  /** After any sequence of calls at most one run per key is completed, or even live. */
  lemma OneCompletedRun(steps: seq<Step>, i: nat, j: nat)
    requires i < |RunAll(EMPTY, steps).runs| && j < |RunAll(EMPTY, steps).runs|
    requires var runs := RunAll(EMPTY, steps).runs;
      runs[i].key == runs[j].key && IsLive(runs[i].status) && IsLive(runs[j].status)
    ensures i == j
  {
    InvCommitted(EMPTY);
    RunAllKeeps(EMPTY, steps);
    hide RunAll;
  }

  /** A finished run is completed, and asking for it again returns its id and changes no row. */
  lemma RepeatChangesNothing(db: Kpi, all: seq<Fact>, again: seq<Fact>, q: Request, codes: seq<string>, preview: bool)
    requires Inv(db) && RunKpis(db, all, q).1.Finished?
    ensures var (next, outcome) := RunKpis(db, all, q);
      && outcome.id < |next.runs| && next.runs[outcome.id].key == KeyOf(q) && IsCompleted(next.runs[outcome.id].status)
      && RunKpis(next, again, q.(codes := codes, preview := preview)) == (next, Reused(outcome.id))
  {
    RunKeeps(db, all, q);
    FinishedShape(db, all, q);
    hide RunKpis;
    var next, id := RunKpis(db, all, q).0, RunKpis(db, all, q).1.id;
    ReuseFound(next, again, q.(codes := codes, preview := preview), id);
  }

  lemma ReuseFound(db: Kpi, all: seq<Fact>, q: Request, id: nat)
    requires Inv(db) && id < |db.runs| && db.runs[id].key == KeyOf(q) && IsCompleted(db.runs[id].status)
    ensures RunKpis(db, all, q) == (db, Reused(id))
  {
    hide FactsFor, CalculateAll, SaveAll, Undo, FindCompleted, Matching;
    var found := FindCompleted(db.runs, KeyOf(q));
    assert found == Some(id);
  }

  /** The state in which a new run saves its results. */
  function Started(db: Kpi, q: Request): (s: Kpi)
    ensures s.registry == db.registry && s.results == db.results
  {
    Observe(db.(runs := db.runs + [RunRow(KeyOf(q), Running, None, 1)], uncommitted := {}), q.version, true)
  }

  lemma StartedKeeps(db: Kpi, q: Request)
    requires Inv(db) && !KeyTaken(db.runs, KeyOf(q))
    ensures Inv(Started(db, q)) && Started(db, q).uncommitted == {}
  {
    InsertKeeps(db, KeyOf(q), None, 1);
    InvCommitted(Started(db, q));
  }

  /** A request either changes nothing, or undoes uncommitted marks, or adds one run and some results. */
  lemma RunShape(db: Kpi, all: seq<Fact>, q: Request)
    requires Inv(db)
    ensures var (next, outcome) := RunKpis(db, all, q);
      && (outcome.Reused? ==> next == db)
      && (outcome.Duplicate? ==> next == Undo(db))
      && (!outcome.Reused? && !outcome.Duplicate? ==>
           && |next.runs| == |db.runs| + 1 && db.runs <= next.runs && next.runs[|db.runs|].key == KeyOf(q)
           && next.uncommitted <= {|db.runs|}
           && db.results <= next.results)
  {
    RunPrefix(db, q);
    var (created, made) := CreateRun(db, KeyOf(q), false, None);
    hide CreateRun, CalculateAll, FactsFor, SaveAll, Undo, KeyTaken;
    if made.Ok? && !made.value.reused {
      var projected := FactsFor(all, q.version, q.entity, q.scopeType, q.period);
      if projected.Ok? {
        StartedKeeps(db, q);
        var results := CalculateAll(db.registry, projected.value, q.codes, q.preview);
        if results.Some? {
          ResultsDescribe(db.registry, all, q);
          hide Inv;
          SaveAllKeeps(Started(db, q), made.value.id, results.value);
        }
      }
    }
  }

  /** What a finished run leaves behind. */
  lemma FinishedShape(db: Kpi, all: seq<Fact>, q: Request)
    requires Inv(db) && RunKpis(db, all, q).1.Finished?
    ensures var (next, outcome) := RunKpis(db, all, q);
      var facts := FactsFor(all, q.version, q.entity, q.scopeType, q.period);
      && outcome.id == |db.runs| && |next.runs| == |db.runs| + 1 && !KeyTaken(db.runs, KeyOf(q))
      && next.runs[outcome.id] == RunRow(KeyOf(q), Completed, None, 1)
      && facts.Ok? && CalculateAll(db.registry, facts.value, q.codes, q.preview) == Some(outcome.results)
      && var saved := SaveAll(Started(db, q), outcome.id, outcome.results);
         saved.1 && next.results == saved.0.results && next.inputs == saved.0.inputs && next.registry == db.registry
  {
    RunPrefix(db, q);
    hide CreateRun, FactsFor, SaveAll, KeyTaken;
    var facts := FactsFor(all, q.version, q.entity, q.scopeType, q.period).value;
    var results := CalculateAll(db.registry, facts, q.codes, q.preview);
    hide CalculateAll;
    ResultsDescribe(db.registry, all, q);
    StartedKeeps(db, q);
    hide Inv;
    SaveAllKeeps(Started(db, q), |db.runs|, results.value);
  }

  // ---------------------------------------------------------------- superseded results never return

  /** A result that is superseded, or whose run is not completed. */
  predicate Dead(db: Kpi, k: nat) {
    && k < |db.results| && db.results[k].run < |db.runs|
    && (db.results[k].superseded || !IsCompleted(db.runs[db.results[k].run].status))
  }

  /** No result row or run is lost or revived: results keep their run and stay superseded, runs that are
      not completed stay so. */
  predicate Settled(a: Kpi, b: Kpi) {
    && |a.results| <= |b.results| && |a.runs| <= |b.runs|
    && (forall k :: 0 <= k < |a.results| ==>
          b.results[k].run == a.results[k].run && (a.results[k].superseded ==> b.results[k].superseded))
    && (forall k :: 0 <= k < |a.runs| ==> (IsCompleted(b.runs[k].status) ==> IsCompleted(a.runs[k].status)))
  }

  lemma SettledTransitive(a: Kpi, b: Kpi, c: Kpi)
    requires Settled(a, b) && Settled(b, c)
    ensures Settled(a, c)
  {
  }

  lemma RunSettles(db: Kpi, all: seq<Fact>, q: Request)
    requires Inv(db)
    ensures Settled(db, RunKpis(db, all, q).0)
  {
    RunShape(db, all, q);
    hide RunKpis;
  }

  lemma CreateSettles(db: Kpi, key: Key, recalculate: bool, retryOf: Option<nat>)
    requires PendingMarks(db)
    ensures Settled(db, CreateRun(db, key, recalculate, retryOf).0)
  {
    hide FindCompleted, KeyTaken;
  }

  lemma ApplySettles(db: Kpi, step: Step)
    requires Inv(db)
    ensures Settled(db, Apply(db, step))
  {
    match step {
      case RunStep(all, request) => RunSettles(db, all, request);
      case CreateStep(key, recalculate, retryOf) => CreateSettles(db, key, recalculate, retryOf);
      case _ =>
    }
  }

  lemma {:induction false} RunAllSettles(db: Kpi, steps: seq<Step>)
    requires Inv(db)
    ensures Settled(db, RunAll(db, steps))
    decreases |steps|
  {
    if steps == [] {
    } else {
      ApplyKeeps(db, steps[0]);
      ApplySettles(db, steps[0]);
      RunAllSettles(Apply(db, steps[0]), steps[1..]);
      hide Apply, Settled, Inv;
      SettledTransitive(db, Apply(db, steps[0]), RunAll(Apply(db, steps[0]), steps[1..]));
    }
  }
}
