/** The mark of a failed run, which is written outside any transaction: when it is lost, and what follows. */
module KpiMarks {
  import opened Options
  import opened KpiCalculator
  import opened KpiTables
  import opened KpiGuarantees
  import opened KpiPromises

  /** A run for the key is queued or running. */
  predicate Blocked(runs: seq<RunRow>, key: Key) {
    exists k :: 0 <= k < |runs| && runs[k].key == key && (runs[k].status == Running || runs[k].status == Queued)
  }

  /** A request is refused as a duplicate exactly while a run for its key is queued or running. */
  lemma RefusedExactly(db: Kpi, all: seq<Fact>, q: Request)
    requires Inv(db)
    ensures RunKpis(db, all, q).1.Duplicate? <==> Blocked(db.runs, KeyOf(q))
  {
    hide FactsFor, CalculateAll, SaveAll, Undo, FindCompleted, Matching;
    var found := FindCompleted(db.runs, KeyOf(q));
  }

  // ---------------------------------------------------------------- what later calls do to a mark

  predicate HasCompleted(runs: seq<RunRow>, key: Key) {
    exists k :: 0 <= k < |runs| && runs[k].key == key && IsCompleted(runs[k].status)
  }

  predicate RetryAllowed(runs: seq<RunRow>, retryOf: Option<nat>) {
    retryOf.Some? ==> retryOf.value < |runs| && runs[retryOf.value].status == Failed
  }

  /** A call that ends before any transaction block: a reused run, a refused retry, a registry changed in
      memory. */
  predicate Idle(runs: seq<RunRow>, step: Step) {
    match step
    case RunStep(_, request) => HasCompleted(runs, KeyOf(request))
    case CreateStep(key, recalculate, retryOf) =>
      if HasCompleted(runs, key) then !recalculate else !RetryAllowed(runs, retryOf)
    case RegistryStep(_, ending) => ending == NoBlock
    case _ => false
  }

  /** A call whose transaction block fails: a key that is taken, or a refused change of the registry. */
  predicate Reverts(runs: seq<RunRow>, step: Step) {
    match step
    case RunStep(_, request) => Blocked(runs, KeyOf(request))
    case CreateStep(key, _, retryOf) => Blocked(runs, key) && RetryAllowed(runs, retryOf)
    case RegistryStep(_, ending) => ending == FailedBlock
    case _ => false
  }

  /** The first call that is not idle fails in its block. */
  predicate Reverted(runs: seq<RunRow>, steps: seq<Step>) {
    exists i :: 0 <= i < |steps| && Reverts(runs, steps[i]) && forall j :: 0 <= j < i ==> Idle(runs, steps[j])
  }

  lemma RevertedNext(runs: seq<RunRow>, steps: seq<Step>)
    requires steps != []
    ensures Reverted(runs, steps)
       <==> Reverts(runs, steps[0]) || (Idle(runs, steps[0]) && Reverted(runs, steps[1..]))
  {
    hide Idle, Reverts;
    if Idle(runs, steps[0]) && Reverted(runs, steps[1..]) {
      var i :| 0 <= i < |steps[1..]| && Reverts(runs, steps[1..][i])
               && forall j :: 0 <= j < i ==> Idle(runs, steps[1..][j]);
      assert Reverts(runs, steps[i + 1]);
      forall j | 0 <= j < i + 1 ensures Idle(runs, steps[j]) {
        if j > 0 { assert steps[j] == steps[1..][j - 1]; }
      }
    }
    if Reverted(runs, steps) && !Reverts(runs, steps[0]) {
      var i :| 0 <= i < |steps| && Reverts(runs, steps[i]) && forall j :: 0 <= j < i ==> Idle(runs, steps[j]);
      assert Idle(runs, steps[0]) && Reverts(runs, steps[1..][i - 1]);
      assert forall j :: 0 <= j < i - 1 ==> steps[1..][j] == steps[j + 1];
    }
  }

  lemma CreateIdle(db: Kpi, key: Key, recalculate: bool, retryOf: Option<nat>)
    requires Idle(db.runs, CreateStep(key, recalculate, retryOf))
    ensures CreateRun(db, key, recalculate, retryOf).0 == db
  {
    hide FindCompleted, InsertRun, SupersedeRun;
    var existing := FindCompleted(db.runs, key);
  }

  lemma CreateReverts(db: Kpi, key: Key, recalculate: bool, retryOf: Option<nat>)
    requires Inv(db) && Reverts(db.runs, CreateStep(key, recalculate, retryOf))
    ensures CreateRun(db, key, recalculate, retryOf).0 == Undo(db)
  {
    hide FindCompleted, SupersedeRun, Undo, Matching;
    var existing := FindCompleted(db.runs, key);
    assert existing.None?;
  }

  lemma IdleChangesNothing(db: Kpi, step: Step)
    requires Inv(db) && Idle(db.runs, step)
    ensures Apply(db, step).runs == db.runs && Apply(db, step).uncommitted == db.uncommitted
  {
    match step {
      case RunStep(all, request) =>
        var id :| 0 <= id < |db.runs| && db.runs[id].key == KeyOf(request) && IsCompleted(db.runs[id].status);
        hide RunKpis, Inv;
        ReuseFound(db, all, request, id);
      case CreateStep(key, recalculate, retryOf) => CreateIdle(db, key, recalculate, retryOf);
      case _ =>
    }
  }

  lemma RevertUndoes(db: Kpi, step: Step)
    requires Inv(db) && Reverts(db.runs, step)
    ensures Apply(db, step).runs == Undo(db).runs && Apply(db, step).uncommitted == {}
  {
    match step {
      case RunStep(all, request) =>
        RunShape(db, all, request);
        hide RunKpis, Inv;
        RefusedExactly(db, all, request);
      case CreateStep(key, recalculate, retryOf) => CreateReverts(db, key, recalculate, retryOf);
      case RegistryStep(registry, _) => assert Undo(db.(registry := registry)).runs == Undo(db).runs;
    }
  }

  /** Any other call commits: whatever was marked stays marked. */
  lemma OthersCommit(db: Kpi, step: Step, id: nat)
    requires Inv(db) && id in db.uncommitted && !Idle(db.runs, step) && !Reverts(db.runs, step)
    ensures var next := Apply(db, step);
      && id < |next.runs| && id !in next.uncommitted
      && next.runs[id] == (if step == SupersedeStep(id) then db.runs[id].(status := SupersededRun) else db.runs[id])
  {
    match step {
      case RunStep(all, request) =>
        RunShape(db, all, request);
        RefusedExactly(db, all, request);
        ReusedOnly(db, all, request);
        hide RunKpis;
      case CreateStep(key, recalculate, retryOf) => CreateCommits(db, key, recalculate, retryOf, id);
      case _ =>
    }
  }

  lemma CreateCommits(db: Kpi, key: Key, recalculate: bool, retryOf: Option<nat>, id: nat)
    requires Inv(db) && id in db.uncommitted && db.runs[id].status == Failed
    requires !Idle(db.runs, CreateStep(key, recalculate, retryOf)) && !Reverts(db.runs, CreateStep(key, recalculate, retryOf))
    ensures var next := CreateRun(db, key, recalculate, retryOf).0;
      id < |next.runs| && id !in next.uncommitted && next.runs[id] == db.runs[id]
  {
    hide FindCompleted, Undo, Matching;
    var existing := FindCompleted(db.runs, key);
    assert KeyTaken(db.runs, key) <==> HasCompleted(db.runs, key) || Blocked(db.runs, key);
    if existing.Some? { FreedKey(db, existing.value); }
  }

  lemma ReusedOnly(db: Kpi, all: seq<Fact>, q: Request)
    requires Inv(db)
    ensures RunKpis(db, all, q).1.Reused? ==> HasCompleted(db.runs, KeyOf(q))
  {
    hide FactsFor, CalculateAll, SaveAll, Undo, FindCompleted, Inv;
    var found := FindCompleted(db.runs, KeyOf(q));
  }

  /** Superseding the completed run of a key frees the key. */
  lemma FreedKey(db: Kpi, id: nat)
    requires Inv(db) && id < |db.runs| && IsCompleted(db.runs[id].status)
    ensures !KeyTaken(SupersedeRun(db, id).runs, db.runs[id].key)
  {
    hide Undo, Matching;
  }

  /** A run that is neither completed nor marked without commit is changed by one call only. */
  lemma SettledStep(db: Kpi, step: Step, id: nat)
    requires Inv(db) && id < |db.runs| && id !in db.uncommitted && !IsCompleted(db.runs[id].status)
    ensures var next := Apply(db, step);
      && id < |next.runs| && id !in next.uncommitted
      && next.runs[id] == (if step == SupersedeStep(id) then db.runs[id].(status := SupersededRun) else db.runs[id])
  {
    match step {
      case RunStep(all, request) =>
        hide RunKpis;
        RunShape(db, all, request);
      case CreateStep(key, recalculate, retryOf) => CreateSpares(db, key, recalculate, retryOf, id);
      case _ =>
    }
  }

  lemma CreateSpares(db: Kpi, key: Key, recalculate: bool, retryOf: Option<nat>, id: nat)
    requires id < |db.runs| && id !in db.uncommitted && !IsCompleted(db.runs[id].status)
    ensures var next := CreateRun(db, key, recalculate, retryOf).0;
      id < |next.runs| && id !in next.uncommitted && next.runs[id] == db.runs[id]
  {
    hide FindCompleted, KeyTaken;
    var existing := FindCompleted(db.runs, key);
  }

  /** Over any calls such a run keeps its status for good, until it is superseded itself. */
  lemma {:induction false} SettledForGood(db: Kpi, steps: seq<Step>, id: nat)
    requires Inv(db) && id < |db.runs| && id !in db.uncommitted && !IsCompleted(db.runs[id].status)
    ensures id < |RunAll(db, steps).runs|
    ensures RunAll(db, steps).runs[id]
         == (if SupersedeStep(id) in steps then db.runs[id].(status := SupersededRun) else db.runs[id])
    decreases |steps|
  {
    hide Inv, Apply;
    if steps == [] {
    } else {
      assert steps == [steps[0]] + steps[1..];
      SettledStep(db, steps[0], id);
      ApplyKeeps(db, steps[0]);
      SettledForGood(Apply(db, steps[0]), steps[1..], id);
    }
  }

  // ---------------------------------------------------------------- when a mark is lost

  lemma MarkedShape(db: Kpi, all: seq<Fact>, q: Request)
    requires Inv(db) && RunKpis(db, all, q).1.Unprojected?
    ensures var marked := RunKpis(db, all, q).0;
      marked.runs == db.runs + [RunRow(KeyOf(q), Failed, None, 1)] && |db.runs| in marked.uncommitted
  {
    hide CreateRun, FactsFor, Inv;
    RunPrefix(db, q);
  }

  /** What becomes of an uncommitted mark over any calls. */
  lemma {:induction false} MarkFate(db: Kpi, steps: seq<Step>, id: nat)
    requires Inv(db) && id in db.uncommitted && id < |db.runs| && db.runs[id].status == Failed
    ensures id < |RunAll(db, steps).runs|
    ensures RunAll(db, steps).runs[id] == db.runs[id].(status :=
              if SupersedeStep(id) in steps then SupersededRun else if Reverted(db.runs, steps) then Running else Failed)
    decreases |steps|
  {
    hide Inv, Apply, Idle, Reverts, Reverted;
    if steps == [] {
      NotReverted(db.runs);
    } else {
      var next := Apply(db, steps[0]);
      assert steps == [steps[0]] + steps[1..];
      RevertedNext(db.runs, steps);
      ApplyKeeps(db, steps[0]);
      if Idle(db.runs, steps[0]) {
        IdleOnly(db, steps[0], id);
        IdleChangesNothing(db, steps[0]);
        MarkFate(next, steps[1..], id);
      } else if Reverts(db.runs, steps[0]) {
        IdleOnly(db, steps[0], id);
        RevertUndoes(db, steps[0]);
        SettledForGood(next, steps[1..], id);
      } else {
        OthersCommit(db, steps[0], id);
        SettledForGood(next, steps[1..], id);
      }
    }
  }

  lemma NotReverted(runs: seq<RunRow>)
    ensures !Reverted(runs, [])
  {
  }

  /** No call is idle and refused at once, and superseding a run is neither. */
  lemma IdleOnly(db: Kpi, step: Step, id: nat)
    requires Inv(db) && (Idle(db.runs, step) || Reverts(db.runs, step))
    ensures step != SupersedeStep(id) && !(Idle(db.runs, step) && Reverts(db.runs, step))
  {
    hide Undo, Matching;
  }

  /** A run that fails to get its facts is marked outside any transaction. Whatever is called afterwards,
      the failed run is running again exactly if the first call that is not idle fails in its transaction
      block, which can be read off the runs as marked; in every other case the mark is there for good. */
  lemma MarkLost(db: Kpi, all: seq<Fact>, q: Request, steps: seq<Step>)
    requires Inv(db) && RunKpis(db, all, q).1.Unprojected?
    ensures var marked, id := RunKpis(db, all, q).0, |db.runs|;
      var later := RunAll(marked, steps);
      && marked.runs == db.runs + [RunRow(KeyOf(q), Failed, None, 1)]
      && id < |later.runs|
      && later.runs[id] == RunRow(KeyOf(q),
           if SupersedeStep(id) in steps then SupersededRun else if Reverted(marked.runs, steps) then Running else Failed,
           None, 1)
  {
    hide RunKpis, RunAll, Reverted, Inv;
    MarkedShape(db, all, q);
    RunKeeps(db, all, q);
    MarkFate(RunKpis(db, all, q).0, steps, |db.runs|);
  }

  // ---------------------------------------------------------------- what a lost mark blocks

  /** A run left running blocks its key: until it is superseded itself, every request for its key is
      refused, whatever else is called in between. */
  lemma ForgottenRunBlocks(db: Kpi, steps: seq<Step>, id: nat, all: seq<Fact>, q: Request)
    requires Inv(db) && id < |db.runs| && db.runs[id].key == KeyOf(q) && db.runs[id].status == Running
    requires SupersedeStep(id) !in steps
    ensures RunKpis(RunAll(db, steps), all, q).1 == Duplicate
  {
    assert id !in db.uncommitted;
    hide Inv, RunAll, RunKpis;
    SettledForGood(db, steps, id);
    RunAllKeeps(db, steps);
    RefusedExactly(RunAll(db, steps), all, q);
  }

  /** A fact that every request for its version, entity, scope and period gets. */
  function GoodFact(q: Request): Fact {
    Fact("fact", q.version, q.entity, q.scopeType, q.period, "account", 0.0, "net", "published", true, true,
         Some(q.period), "confirmed", false, true)
  }

  lemma GoodFactProjected(q: Request)
    ensures FactsFor([GoodFact(q)], q.version, q.entity, q.scopeType, q.period) == Ok([GoodFact(q)])
  {
    var facts := [GoodFact(q)];
    assert facts[1..] == [];
    assert Candidates(facts, q.version, q.entity, q.scopeType, q.period) == facts;
  }

  lemma FirstCrashes(q: Request)
    requires q.codes != []
    ensures var (next, outcome) := RunKpis(EMPTY, [GoodFact(q)], q);
      outcome == Crashed && next.runs == [RunRow(KeyOf(q), Running, None, 1)]
  {
    hide FactsFor;
    GoodFactProjected(q);
  }

  lemma FindsNoFacts(db: Kpi, p: Request)
    requires Inv(db) && !KeyTaken(db.runs, KeyOf(p))
    ensures var (next, outcome) := RunKpis(db, [], p);
      outcome.Unprojected? && next.runs == db.runs + [RunRow(KeyOf(p), Failed, None, 1)]
  {
    hide KeyTaken, FindCompleted, Inv;
    NoneCompleted(db.runs, KeyOf(p));
  }

  lemma NoneCompleted(runs: seq<RunRow>, key: Key)
    requires !KeyTaken(runs, key)
    ensures FindCompleted(runs, key).None?
  {
    hide FindCompleted;
  }

  /** A request for nothing finishes. */
  lemma FinishesEmpty(db: Kpi, p: Request)
    requires Inv(db) && !KeyTaken(db.runs, KeyOf(p)) && p.codes == []
    ensures var (next, outcome) := RunKpis(db, [GoodFact(p)], p);
      outcome.Finished? && next.runs == db.runs + [RunRow(KeyOf(p), Completed, None, 1)]
  {
    hide KeyTaken, FindCompleted, Inv, FactsFor;
    NoneCompleted(db.runs, KeyOf(p));
    GoodFactProjected(p);
  }

  /** It does happen: a request with an unknown code crashes, another one finds no facts, and repeating the
      first one makes the second run running again, so that its key is blocked too. */
  lemma MarkIsLost(q: Request, p: Request, all: seq<Fact>)
    requires q.codes != [] && KeyOf(p) != KeyOf(q)
    ensures var crashed := RunKpis(EMPTY, [GoodFact(q)], q);
      var failed := RunKpis(crashed.0, [], p);
      var repeated := RunKpis(failed.0, all, q);
      && crashed.1 == Crashed && failed.1.Unprojected? && repeated.1 == Duplicate
      && |failed.0.runs| == 2 && failed.0.runs[1].status == Failed
      && 1 < |repeated.0.runs| && repeated.0.runs[1].key == KeyOf(p) && repeated.0.runs[1].status == Running
      && RunKpis(repeated.0, all, p).1 == Duplicate
  {
    hide RunKpis, Inv;
    InvOfEmpty();
    FirstCrashes(q);
    RunKeeps(EMPTY, [GoodFact(q)], q);
    var crashed := RunKpis(EMPTY, [GoodFact(q)], q).0;
    FindsNoFacts(crashed, p);
    RunKeeps(crashed, [], p);
    var failed := RunKpis(crashed, [], p).0;
    assert crashed.runs[0].status == Running && failed.runs[0] == crashed.runs[0];
    RefusedExactly(failed, all, q);
    RunKeeps(failed, all, q);
    var repeated := RunKpis(failed, all, q).0;
    MarkLost(crashed, [], p, [RunStep(all, q)]);
    OneCall(failed, all, q);
    assert Reverts(failed.runs, [RunStep(all, q)][0]);
    RefusedExactly(repeated, all, p);
  }

  lemma OneCall(db: Kpi, all: seq<Fact>, q: Request)
    ensures RunAll(db, [RunStep(all, q)]) == RunKpis(db, all, q).0
  {
    hide RunKpis;
    assert [RunStep(all, q)][1..] == [];
  }

  /** A mark still pending is lost behind a reused run too: a crash (r), a finished run (p), a request that
      finds no facts (q), then p again, which is reused, and r again, which is refused. */
  lemma LostBehindReuse(r: Request, p: Request, q: Request, all: seq<Fact>)
    requires r.codes != [] && p.codes == []
    requires KeyOf(r) != KeyOf(p) && KeyOf(p) != KeyOf(q) && KeyOf(q) != KeyOf(r)
    ensures var crashed := RunKpis(EMPTY, [GoodFact(r)], r).0;
      var finished := RunKpis(crashed, [GoodFact(p)], p).0;
      var (failed, outcome) := RunKpis(finished, [], q);
      var later := RunAll(failed, [RunStep(all, p), RunStep(all, r)]);
      && outcome.Unprojected? && |failed.runs| == 3 && failed.runs[2].status == Failed
      && !Blocked(failed.runs, KeyOf(p))
      && 2 < |later.runs| && later.runs[2] == RunRow(KeyOf(q), Running, None, 1)
  {
    hide RunKpis, Inv, RunAll;
    InvOfEmpty();
    FirstCrashes(r);
    RunKeeps(EMPTY, [GoodFact(r)], r);
    var crashed := RunKpis(EMPTY, [GoodFact(r)], r).0;
    FinishesEmpty(crashed, p);
    RunKeeps(crashed, [GoodFact(p)], p);
    var finished := RunKpis(crashed, [GoodFact(p)], p).0;
    FindsNoFacts(finished, q);
    var failed, steps := RunKpis(finished, [], q).0, [RunStep(all, p), RunStep(all, r)];
    assert failed.runs[0].status == Running && failed.runs[1].status == Completed;
    MarkLost(finished, [], q, steps);
    assert Idle(failed.runs, steps[0]) && Reverts(failed.runs, steps[1]);
  }

  lemma InvOfEmpty()
    ensures Inv(EMPTY)
  {
    InvCommitted(EMPTY);
  }
}
