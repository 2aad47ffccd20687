/** The classes of repository.py and workflow.py: their methods change the tables statement by statement. */
module KpiRepository {
  import opened Options
  import opened KpiCalculator
  import opened KpiTables
  import opened KpiGuarantees

  /** Superseding one more run. */
  lemma OneMore(runs: seq<RunRow>, results: seq<ResultRow>, done: set<nat>, k: nat)
    requires k < |runs|
    ensures SetRun(SupersedeAll(runs, done), k, SupersededRun) == SupersedeAll(runs, done + {k})
    ensures Retract(Retract(results, done), {k}) == Retract(results, done + {k})
  {
  }

  /** A deactivation that has superseded the runs in done so far. */
  ghost function Partly(db: Kpi, version: string, done: set<nat>): Kpi {
    Observe(db, version, false).(runs := SupersedeAll(db.runs, done), results := Retract(db.results, done))
  }

  lemma PartlyStarts(db: Kpi, version: string)
    ensures Partly(db, version, {}) == Observe(db, version, false)
  {
    assert SupersedeAll(db.runs, {}) == db.runs && Retract(db.results, {}) == db.results;
  }

  class Repository {
    var runs: seq<RunRow>
    var results: seq<ResultRow>
    var inputs: seq<InputRow>
    var projection: map<string, bool>
    var registry: Registry
    var uncommitted: set<nat>
    var lastRunReused: bool

    function Snapshot(): Kpi
      reads this
    {
      Kpi(runs, results, inputs, projection, registry, uncommitted)
    }

    ghost predicate Valid()
      reads this
    {
      Inv(Snapshot())
    }

    constructor ()
      ensures Valid() && Snapshot() == EMPTY && !lastRunReused
    {
      runs, results, inputs, projection := [], [], [], map[];
      registry, uncommitted, lastRunReused := EMPTY.registry, {}, false;
      new;
      InvCommitted(EMPTY);
    }

    /** A transaction block that fails takes the uncommitted marks with it. */
    method RollBack()
      modifies this`runs, this`uncommitted
      ensures Snapshot() == Undo(old(Snapshot()))
    {
      runs := seq(|runs|, k requires 0 <= k < |runs| reads this =>
        if k in uncommitted then runs[k].(status := Running) else runs[k]);
      uncommitted := {};
    }

    method Supersede(id: nat)
      requires Valid()
      modifies this`runs, this`results, this`uncommitted
      ensures Valid() && Snapshot() == SupersedeRun(old(Snapshot()), id)
    {
      SupersedeKeeps(Snapshot(), id);
      runs := SetRun(runs, id, SupersededRun);
      results := Retract(results, {id});
      uncommitted := {};
    }

    /** The INSERT of create_run under the unique index. */
    method Insert(key: Key, retryOf: Option<nat>, attempt: nat) returns (r: Result<nat, KpiError>)
      requires Valid()
      modifies this`runs, this`uncommitted
      ensures Valid() && (Snapshot(), r) == InsertRun(old(Snapshot()), key, retryOf, attempt)
    {
      InsertKeeps(Snapshot(), key, retryOf, attempt);
      hide Inv, KeyTaken, Undo;
      if KeyTaken(runs, key) {
        RollBack();
        return Fail(DuplicateRun);
      }
      r := Ok(|runs|);
      runs := runs + [RunRow(key, Running, retryOf, attempt)];
      uncommitted := {};
    }

    method Create(key: Key, recalculate: bool, retryOf: Option<nat>) returns (r: Result<nat, KpiError>)
      requires Valid()
      modifies this
      ensures Valid()
      ensures var (next, made) := CreateRun(old(Snapshot()), key, recalculate, retryOf);
        && Snapshot() == next
        && r == (if made.Ok? then Ok(made.value.id) else Fail(made.error))
        && lastRunReused == (made.Ok? && made.value.reused)
    {
      hide Inv, FindCompleted, InsertRun;
      lastRunReused := false;
      var existing := FindCompleted(runs, key);
      if existing.Some? && !recalculate {
        lastRunReused := true;
        return Ok(existing.value);
      }
      if existing.Some? && recalculate { Supersede(existing.value); }
      var attempt := 1;
      if retryOf.Some? {
        if retryOf.value >= |runs| || runs[retryOf.value].status != Failed { return Fail(RetryRefused); }
        attempt := runs[retryOf.value].attempt + 1;
      }
      r := Insert(key, retryOf, attempt);
    }

    method ObserveVersion(version: string, active: bool)
      requires Valid()
      modifies this`projection, this`uncommitted
      ensures Valid() && Snapshot() == Observe(old(Snapshot()), version, active)
    {
      InvCommitted(Observe(Snapshot(), version, active));
      projection := projection[version := active];
      uncommitted := {};
    }

    /** The runs a deactivation supersedes are selected before the first of them changes. */
    method DeactivateVersion(version: string)
      requires Valid()
      modifies this
      ensures Valid() && Snapshot() == Deactivate(old(Snapshot()), version)
    {
      ghost var db := Snapshot();
      DeactivateKeeps(db, version);
      ObserveVersion(version, false);
      hide Inv;
      var before, k := runs, 0;
      ghost var done: set<nat> := {};
      PartlyStarts(db, version);
      while k < |before|
        invariant 0 <= k <= |before| && Valid() && before == db.runs
        invariant forall i: nat :: i in done <==> i < k && before[i].key.version == version && IsCompleted(before[i].status)
        invariant Snapshot() == Partly(db, version, done)
      {
        if before[k].key.version == version && IsCompleted(before[k].status) {
          OneMore(before, db.results, done, k);
          Supersede(k);
          done := done + {k};
        }
        k := k + 1;
      }
      assert done == CompletedOf(before, version);
    }

    /** One role of save_result: an input row per fact id; the code of the expression is looked up for
        each, so its absence shows only if there is an id. */
    method InsertInputs(e: Expr, row: nat, numerator: bool, r: KpiResult, ids: seq<string>) returns (ok: bool)
      modifies this`inputs
      ensures ok == RoleRows(registry, e, row, numerator, r, ids).Some?
      ensures ok ==> inputs == old(inputs) + RoleRows(registry, e, row, numerator, r, ids).value
    {
      var k := 0;
      while k < |ids|
        invariant 0 <= k <= |ids|
        invariant k > 0 ==> TopCode(e).Some? && TopCode(e).value in registry.groups
        invariant |inputs| == |old(inputs)| + k && inputs[..|old(inputs)|] == old(inputs)
        invariant forall j :: 0 <= j < k ==>
          inputs[|old(inputs)| + j]
          == InputRow(row, numerator, registry.groups[TopCode(e).value].id, ids[j], r.version, r.scopeType)
      {
        var code := TopCode(e);
        if code.None? || code.value !in registry.groups { return false; }
        inputs := inputs + [InputRow(row, numerator, registry.groups[code.value].id, ids[k], r.version, r.scopeType)];
        k := k + 1;
      }
      ok := true;
    }

    /** save_result */
    method Save(run: nat, r: KpiResult) returns (ok: bool)
      requires Valid() && uncommitted == {} && run < |runs| && Describes(r, runs[run].key)
      modifies this
      ensures Valid() && uncommitted == {} && (Snapshot(), ok) == SaveResult(old(Snapshot()), run, r)
      ensures runs == old(runs) && registry == old(registry) && projection == old(projection)
      ensures lastRunReused == old(lastRunReused)
    {
      hide Inv, RoleRows, CodeOf;
      SaveKeeps(Snapshot(), run, r);
      NothingPending(Snapshot());
      var found := CodeOf(registry, r.definitionId);
      if found.None? { return false; }
      var code := found.value;
      var d, before, row := registry.definitions[code], inputs, |results|;
      if exists k :: 0 <= k < |results| && results[k].run == run && results[k].code == code { return false; }
      ok := InsertInputs(d.numerator, row, true, r, r.numeratorIds);
      if ok { ok := InsertInputs(d.denominator, row, false, r, r.denominatorIds); }
      if ok { results := results + [ResultRow(run, code, r, false)]; } else { inputs := before; }
    }

    method SaveEach(run: nat, found: seq<KpiResult>) returns (ok: bool)
      requires Valid() && uncommitted == {} && run < |runs| && AllDescribe(found, runs[run].key)
      modifies this
      ensures Valid() && uncommitted == {} && (Snapshot(), ok) == SaveAll(old(Snapshot()), run, found)
      ensures runs == old(runs) && lastRunReused == old(lastRunReused)
    {
      hide Inv, SaveResult;
      var k := 0;
      ok := true;
      while ok && k < |found|
        invariant 0 <= k <= |found| && Valid() && uncommitted == {}
        invariant runs == old(runs) && registry == old(registry) && lastRunReused == old(lastRunReused)
        invariant SaveAll(old(Snapshot()), run, found)
               == if ok then SaveAll(Snapshot(), run, found[k..]) else (Snapshot(), false)
        decreases |found| - k, ok
      {
        assert found[k..][1..] == found[k + 1..];
        ok := Save(run, found[k]);
        k := k + 1;
      }
    }

    /** KpiWorkflow.run behind create_run. */
    method RunNew(id: nat, all: seq<Fact>, q: Request) returns (outcome: RunOutcome)
      requires Valid() && uncommitted == {} && id < |runs| && runs[id] == RunRow(KeyOf(q), Running, None, 1)
      modifies this
      ensures Valid() && (Snapshot(), outcome) == RunCreated(old(Snapshot()), id, all, q)
      ensures lastRunReused == old(lastRunReused) && !outcome.Reused?
    {
      hide FactsFor, SaveAll, CalculateAll, Inv;
      var projected := FactsFor(all, q.version, q.entity, q.scopeType, q.period);
      if projected.Fail? {
        MarkKeeps(Snapshot(), id);
        runs := SetRun(runs, id, Failed);
        uncommitted := uncommitted + {id};
        return Unprojected(projected.error);
      }
      ObserveVersion(q.version, true);
      var found := CalculateAll(registry, projected.value, q.codes, q.preview);
      if found.None? { return Crashed; }
      ResultsDescribe(registry, all, q);
      var ok := SaveEach(id, found.value);
      if !ok { return Crashed; }
      CompleteKeeps(Snapshot(), id);
      runs := SetRun(runs, id, Completed);
      uncommitted := {};
      outcome := Finished(id, found.value);
    }

    /** KpiWorkflow.run */
    method Run(all: seq<Fact>, q: Request) returns (outcome: RunOutcome)
      requires Valid()
      modifies this
      ensures Valid()
      ensures (Snapshot(), outcome) == RunKpis(old(Snapshot()), all, q)
      ensures lastRunReused == outcome.Reused?
    {
      RunPrefix(Snapshot(), q);
      hide CreateRun, RunCreated, Inv, KeyTaken, Undo;
      var made := Create(KeyOf(q), false, None);
      if made.Fail? { return Duplicate; }
      if lastRunReused { return Reused(made.value); }
      outcome := RunNew(made.value, all, q);
    }
  }
}
