/** The promises of the KPI engine over any sequence of its calls. */
module KpiGuarantees {
  import opened Options
  import opened KpiCalculator
  import opened KpiTables

  // ---------------------------------------------------------------- the invariant

  predicate OneLive(runs: seq<RunRow>) {
    forall i, j :: 0 <= i < j < |runs| && runs[i].key == runs[j].key ==> !(IsLive(runs[i].status) && IsLive(runs[j].status))
  }

  /** A mark not committed yet stands on a failed run. */
  predicate PendingMarks(db: Kpi) {
    forall k :: k in db.uncommitted ==> k < |db.runs| && db.runs[k].status == Failed
  }

  predicate Describes(r: KpiResult, key: Key) {
    r.version == key.version && r.entity == key.entity && r.scopeType == key.scopeType && r.period == key.period
  }

  /** Results describe what their run was asked for; input rows belong to results. */
  predicate Matching(db: Kpi) {
    && (forall k :: 0 <= k < |db.results| ==>
          db.results[k].run < |db.runs| && Describes(db.results[k].result, db.runs[db.results[k].run].key))
    && (forall k :: 0 <= k < |db.inputs| ==> db.inputs[k].result < |db.results|)
  }

  predicate DefaultKeys(runs: seq<RunRow>) {
    forall k :: 0 <= k < |runs| && IsCompleted(runs[k].status) ==>
      runs[k].key.definitionSet == "phase4-v1" && runs[k].key.basis == "net"
  }

  predicate Inv(db: Kpi) {
    OneLive(db.runs) && OneLive(Undo(db).runs) && PendingMarks(db) && Matching(db) && DefaultKeys(db.runs)
  }

  lemma NothingPending(db: Kpi)
    requires db.uncommitted == {}
    ensures Undo(db).runs == db.runs
  {
  }

  /** Once all marks are committed the invariant speaks of the present rows only. */
  lemma InvCommitted(db: Kpi)
    requires db.uncommitted == {} && OneLive(db.runs) && Matching(db) && DefaultKeys(db.runs)
    ensures Inv(db)
  {
    NothingPending(db);
  }

  /** Runs that only ever left the live statuses, and kept their keys. */
  predicate Calmer(a: seq<RunRow>, b: seq<RunRow>) {
    && |a| == |b|
    && forall k :: 0 <= k < |a| ==>
         && b[k].key == a[k].key && (IsLive(b[k].status) ==> IsLive(a[k].status))
         && (IsCompleted(b[k].status) ==> IsCompleted(a[k].status))
  }

  lemma CalmerKeeps(db: Kpi, next: Kpi)
    requires Inv(db) && Calmer(db.runs, next.runs) && next.uncommitted == {}
    requires |next.results| == |db.results| && next.inputs == db.inputs
    requires forall k :: 0 <= k < |db.results| ==>
               next.results[k].run == db.results[k].run && next.results[k].result == db.results[k].result
    ensures Inv(next)
  {
    InvCommitted(next);
  }

  lemma UndoKeeps(db: Kpi)
    requires Inv(db)
    ensures Inv(Undo(db))
  {
    assert Undo(db).uncommitted == {};
    InvCommitted(Undo(db));
  }

  lemma SupersedeKeeps(db: Kpi, id: nat)
    requires Inv(db)
    ensures Inv(SupersedeRun(db, id)) && SupersedeRun(db, id).uncommitted == {}
  {
    CalmerKeeps(db, SupersedeRun(db, id));
  }

  lemma InsertKeeps(db: Kpi, key: Key, retryOf: Option<nat>, attempt: nat)
    requires Inv(db)
    ensures Inv(InsertRun(db, key, retryOf, attempt).0)
    ensures InsertRun(db, key, retryOf, attempt).0.uncommitted == {}
  {
    UndoKeeps(db);
    if !KeyTaken(db.runs, key) {
      var next := InsertRun(db, key, retryOf, attempt).0;
      assert OneLive(next.runs) by {
        forall i, j | 0 <= i < j < |next.runs| && next.runs[i].key == next.runs[j].key
          ensures !(IsLive(next.runs[i].status) && IsLive(next.runs[j].status)) {
          assert next.runs[i] == db.runs[i];
        }
      }
      InvCommitted(next);
    }
  }

  lemma CreateKeeps(db: Kpi, key: Key, recalculate: bool, retryOf: Option<nat>)
    requires Inv(db)
    ensures Inv(CreateRun(db, key, recalculate, retryOf).0)
  {
    hide Inv, InsertRun, SupersedeRun;
    var existing := FindCompleted(db.runs, key);
    var cleared := if existing.Some? then SupersedeRun(db, existing.value) else db;
    if existing.Some? { SupersedeKeeps(db, existing.value); }
    var attempt := if retryOf.Some? && retryOf.value < |cleared.runs| then cleared.runs[retryOf.value].attempt + 1 else 1;
    InsertKeeps(cleared, key, retryOf, attempt);
  }

  lemma DeactivateKeeps(db: Kpi, version: string)
    requires Inv(db)
    ensures Inv(Deactivate(db, version))
  {
    CalmerKeeps(db, Deactivate(db, version));
  }

  // ---------------------------------------------------------------- KpiWorkflow.run

  lemma {:induction false} CandidatesAre(all: seq<Fact>, version: string, entity: string, scopeType: string, period: Date)
    ensures forall f :: f in Candidates(all, version, entity, scopeType, period)
                        <==> f in all && Asked(f, version, entity, scopeType, period)
  {
    if all == [] {
    } else {
      CandidatesAre(all[1..], version, entity, scopeType, period);
      assert all == [all[0]] + all[1..];
    }
  }

  /** Every calculated result speaks about the facts it was calculated from. */
  lemma CalculateDescribes(d: Definition, groups: Groups, facts: seq<Fact>, preview: bool)
    requires facts != [] && Calculate(d, groups, facts, preview).Ok?
    ensures var r := Calculate(d, groups, facts, preview).value;
      && r.version == facts[0].version && r.entity == facts[0].entity && r.scopeType == facts[0].scopeType
      && r.period == facts[0].period && r.definitionId == d.id
  {
    hide Validated, Evaluate, MissingGroups;
  }

  predicate AllDescribe(results: seq<KpiResult>, key: Key) {
    forall k :: 0 <= k < |results| ==> Describes(results[k], key)
  }

  lemma ResultsDescribe(registry: Registry, all: seq<Fact>, q: Request)
    requires FactsFor(all, q.version, q.entity, q.scopeType, q.period).Ok?
    requires CalculateAll(registry, FactsFor(all, q.version, q.entity, q.scopeType, q.period).value, q.codes, q.preview).Some?
    ensures AllDescribe(CalculateAll(registry, FactsFor(all, q.version, q.entity, q.scopeType, q.period).value,
                                     q.codes, q.preview).value, KeyOf(q))
  {
    var facts := FactsFor(all, q.version, q.entity, q.scopeType, q.period).value;
    CandidatesAre(all, q.version, q.entity, q.scopeType, q.period);
    assert facts[0] in facts;
    hide CalculateAll, Calculate, Candidates, FactsFor;
    var results := CalculateAll(registry, facts, q.codes, q.preview).value;
    forall k | 0 <= k < |results| ensures Describes(results[k], KeyOf(q)) {
      CalculateDescribes(registry.definitions[q.codes[k]], registry.groups, facts, q.preview);
    }
  }

  lemma SaveKeeps(db: Kpi, run: nat, r: KpiResult)
    requires Inv(db) && db.uncommitted == {} && run < |db.runs| && Describes(r, db.runs[run].key)
    ensures var next := SaveResult(db, run, r).0;
      && Inv(next) && next.uncommitted == {} && next.runs == db.runs && next.registry == db.registry
      && next.projection == db.projection && db.results <= next.results && db.inputs <= next.inputs
  {
    hide RoleRows, CodeOf;
    NothingPending(db);
    var next := SaveResult(db, run, r).0;
    InvCommitted(next);
  }

  lemma {:induction false} SaveAllKeeps(db: Kpi, run: nat, results: seq<KpiResult>)
    requires Inv(db) && db.uncommitted == {} && run < |db.runs| && AllDescribe(results, db.runs[run].key)
    ensures var next := SaveAll(db, run, results).0;
      && Inv(next) && next.uncommitted == {} && next.runs == db.runs && next.registry == db.registry
      && next.projection == db.projection && db.results <= next.results && db.inputs <= next.inputs
    decreases |results|
  {
    hide Inv, SaveResult;
    if results == [] {
    } else {
      SaveKeeps(db, run, results[0]);
      var next := SaveResult(db, run, results[0]);
      if next.1 { SaveAllKeeps(next.0, run, results[1..]); }
    }
  }

  lemma MarkKeeps(db: Kpi, id: nat)
    requires Inv(db) && db.uncommitted == {} && id < |db.runs| && db.runs[id].status == Running
    ensures Inv(MarkFailed(db, id)) && Undo(MarkFailed(db, id)) == db
  {
    NothingPending(db);
    assert Undo(MarkFailed(db, id)).runs == db.runs;
  }

  lemma CompleteKeeps(db: Kpi, id: nat)
    requires Inv(db) && db.uncommitted == {} && id < |db.runs| && IsLive(db.runs[id].status)
    requires db.runs[id].key.definitionSet == "phase4-v1" && db.runs[id].key.basis == "net"
    ensures Inv(CompleteRun(db, id))
  {
    InvCommitted(CompleteRun(db, id));
  }

  /** The state and the results of a run after calculation, before anything is saved. */
  lemma RunPrefix(db: Kpi, q: Request)
    requires Inv(db)
    ensures var made := CreateRun(db, KeyOf(q), false, None);
      && Inv(made.0)
      && (made.1.Ok? && !made.1.value.reused ==>
           && made.0 == db.(runs := db.runs + [RunRow(KeyOf(q), Running, None, 1)], uncommitted := {})
           && made.1.value.id == |db.runs| && !KeyTaken(db.runs, KeyOf(q)))
      && (made.1.Ok? && made.1.value.reused ==> made.0 == db)
      && (made.1.Fail? ==> made.0 == Undo(db))
  {
    CreateKeeps(db, KeyOf(q), false, None);
    hide Inv, FindCompleted, KeyTaken, Undo;
  }

  lemma RunKeeps(db: Kpi, all: seq<Fact>, q: Request)
    requires Inv(db)
    ensures Inv(RunKpis(db, all, q).0)
  {
    RunPrefix(db, q);
    var (created, made) := CreateRun(db, KeyOf(q), false, None);
    hide CreateRun, CalculateAll, FactsFor, SaveAll;
    if made.Ok? && !made.value.reused {
      var id := made.value.id;
      MarkKeeps(created, id);
      var projected := FactsFor(all, q.version, q.entity, q.scopeType, q.period);
      if projected.Ok? {
        var observed := Observe(created, q.version, true);
        assert Inv(observed) by { InvCommitted(observed); }
        var results := CalculateAll(db.registry, projected.value, q.codes, q.preview);
        if results.Some? {
          ResultsDescribe(db.registry, all, q);
          hide Inv;
          SaveAllKeeps(observed, id, results.value);
          CompleteKeeps(SaveAll(observed, id, results.value).0, id);
        }
      }
    }
  }

  lemma RegistryKeeps(db: Kpi, registry: Registry, ending: Ending)
    requires Inv(db)
    ensures Inv(EndBlock(db.(registry := registry), ending))
  {
    var changed := db.(registry := registry);
    assert Undo(changed).runs == Undo(db).runs;
    assert Inv(changed);
    if ending.CommittedBlock? {
      InvCommitted(Commit(changed));
    } else if ending.FailedBlock? {
      UndoKeeps(changed);
    }
  }

  lemma ApplyKeeps(db: Kpi, step: Step)
    requires Inv(db)
    ensures Inv(Apply(db, step))
  {
    match step {
      case RunStep(all, request) => RunKeeps(db, all, request);
      case CreateStep(key, recalculate, retryOf) => CreateKeeps(db, key, recalculate, retryOf);
      case SupersedeStep(id) => SupersedeKeeps(db, id);
      case ObserveStep(version, active) => InvCommitted(Observe(db, version, active));
      case DeactivateStep(version) => DeactivateKeeps(db, version);
      case RegistryStep(registry, ending) => RegistryKeeps(db, registry, ending);
    }
  }

  /** The invariant holds in every state a sequence of calls can reach. */
  lemma {:induction false} RunAllKeeps(db: Kpi, steps: seq<Step>)
    requires Inv(db)
    ensures Inv(RunAll(db, steps))
    decreases |steps|
  {
    if steps == [] {
    } else {
      ApplyKeeps(db, steps[0]);
      RunAllKeeps(Apply(db, steps[0]), steps[1..]);
    }
  }
}
