/** What the calls on runs do, row by row. */
module KpiRuns {
  import opened Options
  import opened KpiTables
  import opened KpiGuarantees
  import opened KpiMarks

  /** The results of the given runs are superseded, and all other rows are as they were. */
  predicate Retracted(before: seq<ResultRow>, after: seq<ResultRow>, ids: set<nat>) {
    && |after| == |before|
    && forall k :: 0 <= k < |before| ==>
         after[k] == if before[k].run in ids then before[k].(superseded := true) else before[k]
  }

  /** The given runs are superseded, and all others are as they were. */
  predicate RunsSuperseded(before: seq<RunRow>, after: seq<RunRow>, ids: set<nat>) {
    && |after| == |before|
    && forall k :: 0 <= k < |before| ==>
         after[k] == if k in ids then before[k].(status := SupersededRun) else before[k]
  }

  /** Superseding a run commits, and takes its results with it. */
  lemma SupersedesExactly(db: Kpi, id: nat)
    ensures var next := SupersedeRun(db, id);
      && next == db.(runs := next.runs, results := next.results, uncommitted := {})
      && RunsSuperseded(db.runs, next.runs, {id}) && Retracted(db.results, next.results, {id})
  {
  }

  /** Deactivating a version supersedes its completed runs with their results, and the projection says so. */
  lemma DeactivatesExactly(db: Kpi, version: string)
    ensures var next := Deactivate(db, version);
      var ids := set k | 0 <= k < |db.runs| && db.runs[k].key.version == version
                         && (db.runs[k].status == Completed || db.runs[k].status == CompletedWithWarnings);
      && next.projection == db.projection[version := false] && next.uncommitted == {}
      && next.inputs == db.inputs && next.registry == db.registry
      && RunsSuperseded(db.runs, next.runs, ids) && Retracted(db.results, next.results, ids)
  {
    var ids := set k | 0 <= k < |db.runs| && db.runs[k].key.version == version
                       && (db.runs[k].status == Completed || db.runs[k].status == CompletedWithWarnings);
    assert CompletedOf(db.runs, version) == ids;
  }

  /** The completed run of a key, of which there is one at most. */
  predicate CompletedRun(runs: seq<RunRow>, key: Key, id: nat) {
    id < |runs| && runs[id].key == key && (runs[id].status == Completed || runs[id].status == CompletedWithWarnings)
  }

  /** create_run without recalculation: a completed run is reused; a retry wants a failed run and counts one
      attempt more; a queued or running run of the key is in the way. */
  lemma CreatesExactly(db: Kpi, key: Key, retryOf: Option<nat>)
    requires Inv(db)
    ensures var (next, made) := CreateRun(db, key, false, retryOf);
      && (made.Ok? && made.value.reused <==> exists id :: CompletedRun(db.runs, key, id))
      && (made.Ok? && made.value.reused ==> next == db && CompletedRun(db.runs, key, made.value.id))
      && (made == Fail(RetryRefused)
          <==> (forall id :: !CompletedRun(db.runs, key, id)) && retryOf.Some?
               && !(retryOf.value < |db.runs| && db.runs[retryOf.value].status == Failed))
      && (made == Fail(RetryRefused) ==> next == db)
      && (made == Fail(DuplicateRun) <==> RetryAllowed(db.runs, retryOf) && Blocked(db.runs, key))
      && (made.Ok? && !made.value.reused ==>
           && made.value.id == |db.runs|
           && next == db.(runs := db.runs + [RunRow(key, Running, retryOf,
                                                    if retryOf.Some? then db.runs[retryOf.value].attempt + 1 else 1)],
                          uncommitted := {}))
  {
    hide FindCompleted, Undo, Matching;
    var found := FindCompleted(db.runs, key);
    if found.Some? { assert CompletedRun(db.runs, key, found.value); }
    assert KeyTaken(db.runs, key) <==> HasCompleted(db.runs, key) || Blocked(db.runs, key);
  }

  /** With recalculation the completed run is superseded first, whatever happens then. */
  lemma RecalculatesExactly(db: Kpi, key: Key, retryOf: Option<nat>, id: nat)
    requires Inv(db) && CompletedRun(db.runs, key, id)
    ensures CreateRun(db, key, true, retryOf) == CreateRun(SupersedeRun(db, id), key, false, retryOf)
    ensures CreateRun(db, key, true, retryOf).1 != Fail(DuplicateRun)
  {
    hide Undo, Matching, FindCompleted, InsertRun, SupersedeRun;
    var found := FindCompleted(db.runs, key);
    assert found == Some(id);
    FreedKey(db, id);
    NoneAfter(db, id);
    hide Inv;
    InsertsFree(SupersedeRun(db, id), key, retryOf);
  }

  lemma NoneAfter(db: Kpi, id: nat)
    requires Inv(db) && id < |db.runs| && !KeyTaken(SupersedeRun(db, id).runs, db.runs[id].key)
    ensures FindCompleted(SupersedeRun(db, id).runs, db.runs[id].key).None?
  {
    NoneCompleted(SupersedeRun(db, id).runs, db.runs[id].key);
  }

  lemma InsertsFree(db: Kpi, key: Key, retryOf: Option<nat>)
    requires !KeyTaken(db.runs, key)
    ensures forall attempt: nat :: InsertRun(db, key, retryOf, attempt).1.Ok?
  {
  }
}
