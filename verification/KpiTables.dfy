/** The tables of the KPI engine, and what calculator.py, repository.py, workflow.py and consumer.py do. */
module KpiTables {
  import InsertionSort
  import KeyOrder
  import opened Options
  import opened KpiCalculator

  // ---------------------------------------------------------------- one KPI (calculator.py)

  datatype Definition = Definition(
    id: string, version: nat, numerator: Expr, denominator: Expr, required: seq<string>, scopes: set<string>,
    basis: string, unit: string, approved: bool, validFrom: Date)

  datatype DataState = Available | Preparing | Unavailable | ValidationError

  datatype KpiResult = KpiResult(
    definitionId: string, definitionVersion: nat, version: string, entity: string, scopeType: string, period: Date,
    unit: string, value: Option<real>, state: DataState, reason: Option<string>, missing: set<string>,
    numerator: Option<real>, denominator: Option<real>, numeratorIds: seq<string>, denominatorIds: seq<string>)

  function Blank(d: Definition, facts: seq<Fact>, state: DataState, reason: string, missing: set<string>): KpiResult {
    KpiResult(d.id, d.version,
              if facts == [] then "" else facts[0].version, if facts == [] then "" else facts[0].entity,
              if facts == [] then "" else facts[0].scopeType, if facts == [] then d.validFrom else facts[0].period,
              d.unit, None, state, Some(reason), missing, None, None, [], [])
  }

  /** The text of the errors that are turned into a result. */
  function ReasonOf(error: Failure): Option<string> {
    match error
    case BasisMismatch => Some("AMOUNT_BASIS_MISMATCH")
    case ZeroDivisor => Some("ZERO_DENOMINATOR")
    case Unsupported => Some("unsupported expression")
    case _ => None
  }

  function MissingGroups(d: Definition, groups: Groups): set<string> {
    set code | code in d.required && (code !in groups || !groups[code].approved)
  }

  /** set(...) */
  function CodeSet(codes: seq<string>): set<string> {
    set code | code in codes
  }

  function Ratio(d: Definition, facts: seq<Fact>, n: Value, m: Value): KpiResult {
    var missing := CodeSet(n.missing + m.missing);
    var r := Blank(d, facts, Preparing, "MISSING_COMPONENT", missing).(
      numerator := Some(n.amount), denominator := Some(m.amount), numeratorIds := n.ids, denominatorIds := m.ids);
    if missing != {} then r
    else if m.amount == 0.0 then r.(state := Unavailable, reason := Some("ZERO_DENOMINATOR"))
    else if m.amount < 0.0 then r.(state := ValidationError, reason := Some("NEGATIVE_DENOMINATOR"))
    else r.(state := Available, reason := None, value := Some(n.amount / m.amount))
  }

  /** KpiCalculator.calculate; Fail stands for an exception that escapes. */
  function Calculate(d: Definition, groups: Groups, facts: seq<Fact>, preview: bool): Result<KpiResult, Failure> {
    if !Validated(d.numerator) || !Validated(d.denominator) then Fail(Unsupported)
    else if !d.approved && !preview then Ok(Blank(d, facts, Preparing, "DEFINITION_NOT_APPROVED", {}))
    else if MissingGroups(d, groups) != {} then
      Ok(Blank(d, facts, Preparing, "ACCOUNT_GROUP_NOT_APPROVED", MissingGroups(d, groups)))
    else if facts != [] && facts[0].scopeType !in d.scopes then
      Ok(Blank(d, facts, Unavailable, "SCOPE_NOT_APPLICABLE", {}))
    else
      var n := Evaluate(d.numerator, groups, facts, d.basis);
      var m := if n.Fail? then n else Evaluate(d.denominator, groups, facts, d.basis);
      if m.Ok? then Ok(Ratio(d, facts, n.value, m.value))
      else if ReasonOf(m.error).Some? then Ok(Blank(d, facts, ValidationError, ReasonOf(m.error).value, {}))
      else Fail(m.error)
  }

  // ---------------------------------------------------------------- core_adapter.py

  datatype ProjectionError = MissingData | NotPublished | ApprovalRequired | NotActive | PeriodNotConfirmed

  predicate Asked(f: Fact, version: string, entity: string, scopeType: string, period: Date) {
    f.version == version && f.entity == entity && f.scopeType == scopeType && f.period == period
  }

  function Candidates(facts: seq<Fact>, version: string, entity: string, scopeType: string, period: Date): seq<Fact> {
    if facts == [] then []
    else (if Asked(facts[0], version, entity, scopeType, period) then [facts[0]] else [])
         + Candidates(facts[1..], version, entity, scopeType, period)
  }

  predicate Confirmed(f: Fact, period: Date) {
    f.confirmedThrough.Some? && period <= f.confirmedThrough.value && f.closing == "confirmed" && !f.carryForward
  }

  function FactsFor(all: seq<Fact>, version: string, entity: string, scopeType: string, period: Date)
    : Result<seq<Fact>, ProjectionError>
  {
    var c := Candidates(all, version, entity, scopeType, period);
    if c == [] then Fail(MissingData)
    else if exists f :: f in c && f.versionStatus != "published" then Fail(NotPublished)
    else if exists f :: f in c && !(f.accountingApproved && f.managementApproved) then Fail(ApprovalRequired)
    else if exists f :: f in c && !f.active then Fail(NotActive)
    else if exists f :: f in c && !Confirmed(f, period) then Fail(PeriodNotConfirmed)
    else Ok(c)
  }

  // ---------------------------------------------------------------- tables (schema.sql)

  datatype RunStatus = Queued | Running | Completed | CompletedWithWarnings | Failed | SupersededRun | Cancelled

  datatype Key = Key(version: string, entity: string, scopeType: string, period: Date, definitionSet: string, basis: string)

  datatype RunRow = RunRow(key: Key, status: RunStatus, retryOf: Option<nat>, attempt: nat)

  datatype ResultRow = ResultRow(run: nat, code: string, result: KpiResult, superseded: bool)

  datatype InputRow = InputRow(result: nat, numerator: bool, groupId: string, factId: string, version: string,
                               scopeType: string)

  /** The registry as maintained elsewhere: definitions by code with the order of their dictionary, groups by
      code, the ids of the definitions
      approved in the database, and the released definition sets. */
  datatype Registry = Registry(definitions: map<string, Definition>, order: seq<string>, groups: Groups, approvedIds: set<string>,
                               released: set<string>)

  /** uncommitted: the runs whose mark "failed" was written outside any transaction block; the next
      block that commits keeps the mark, the next one that rolls back loses it. */
  datatype Kpi = Kpi(runs: seq<RunRow>, results: seq<ResultRow>, inputs: seq<InputRow>, projection: map<string, bool>,
                     registry: Registry, uncommitted: set<nat>)

  predicate IsCompleted(s: RunStatus) {
    s == Completed || s == CompletedWithWarnings
  }

  /** The statuses under the unique index on the key. */
  predicate IsLive(s: RunStatus) {
    s == Queued || s == Running || IsCompleted(s)
  }

  function SetRun(runs: seq<RunRow>, id: nat, status: RunStatus): (r: seq<RunRow>)
    ensures |r| == |runs|
    ensures forall k :: 0 <= k < |r| ==> r[k] == if k == id then runs[k].(status := status) else runs[k]
  {
    if id < |runs| then runs[id := runs[id].(status := status)] else runs
  }

  function Commit(db: Kpi): Kpi {
    db.(uncommitted := {})
  }

  function Undo(db: Kpi): Kpi {
    db.(uncommitted := {},
        runs := seq(|db.runs|, k requires 0 <= k < |db.runs| =>
          if k in db.uncommitted then db.runs[k].(status := Running) else db.runs[k]))
  }

  // ---------------------------------------------------------------- repository.py

  datatype KpiError = DuplicateRun | RetryRefused

  function FindCompleted(runs: seq<RunRow>, key: Key): (r: Option<nat>)
    ensures r.Some? ==> r.value < |runs| && runs[r.value].key == key && IsCompleted(runs[r.value].status)
    ensures r.None? ==> forall k :: 0 <= k < |runs| ==> !(runs[k].key == key && IsCompleted(runs[k].status))
  {
    if runs == [] then None
    else
      var n := |runs| - 1;
      var before := FindCompleted(runs[..n], key);
      if before.Some? then before
      else if runs[n].key == key && IsCompleted(runs[n].status) then Some(n) else None
  }

  predicate KeyTaken(runs: seq<RunRow>, key: Key) {
    exists k :: 0 <= k < |runs| && runs[k].key == key && IsLive(runs[k].status)
  }

  /** Marks the results of the runs in ids as superseded. */
  function Retract(results: seq<ResultRow>, ids: set<nat>): (r: seq<ResultRow>)
    ensures |r| == |results|
    ensures forall k :: 0 <= k < |r| ==>
              r[k] == if results[k].run in ids then results[k].(superseded := true) else results[k]
  {
    seq(|results|, k requires 0 <= k < |results| =>
      if results[k].run in ids then results[k].(superseded := true) else results[k])
  }

  function SupersedeRun(db: Kpi, id: nat): Kpi {
    Commit(db.(runs := SetRun(db.runs, id, SupersededRun), results := Retract(db.results, {id})))
  }

  /** INSERT of a running run, under the unique index. */
  function InsertRun(db: Kpi, key: Key, retryOf: Option<nat>, attempt: nat): (Kpi, Result<nat, KpiError>) {
    if KeyTaken(db.runs, key) then (Undo(db), Fail(DuplicateRun))
    else (Commit(db.(runs := db.runs + [RunRow(key, Running, retryOf, attempt)])), Ok(|db.runs|))
  }

  datatype Created = Created(id: nat, reused: bool)

  function CreateRun(db: Kpi, key: Key, recalculate: bool, retryOf: Option<nat>): (Kpi, Result<Created, KpiError>) {
    var existing := FindCompleted(db.runs, key);
    if existing.Some? && !recalculate then (db, Ok(Created(existing.value, true)))
    else
      var cleared := if existing.Some? then SupersedeRun(db, existing.value) else db;
      if retryOf.Some? && (retryOf.value >= |cleared.runs| || cleared.runs[retryOf.value].status != Failed)
      then (cleared, Fail(RetryRefused))
      else
        var attempt := if retryOf.Some? then cleared.runs[retryOf.value].attempt + 1 else 1;
        var (next, made) := InsertRun(cleared, key, retryOf, attempt);
        (next, if made.Ok? then Ok(Created(made.value, false)) else Fail(made.error))
  }

  function Observe(db: Kpi, version: string, active: bool): Kpi {
    Commit(db.(projection := db.projection[version := active]))
  }

  function CompletedOf(runs: seq<RunRow>, version: string): set<nat> {
    set k | 0 <= k < |runs| && runs[k].key.version == version && IsCompleted(runs[k].status)
  }

  function SupersedeAll(runs: seq<RunRow>, ids: set<nat>): (r: seq<RunRow>)
    ensures |r| == |runs|
    ensures forall k :: 0 <= k < |r| ==> r[k] == if k in ids then runs[k].(status := SupersededRun) else runs[k]
  {
    seq(|runs|, k requires 0 <= k < |runs| => if k in ids then runs[k].(status := SupersededRun) else runs[k])
  }

  function Deactivate(db: Kpi, version: string): Kpi {
    var ids := CompletedOf(db.runs, version);
    Observe(db, version, false).(runs := SupersedeAll(db.runs, ids), results := Retract(db.results, ids))
  }

  /** The top-level "code" of an expression. */
  function TopCode(e: Expr): Option<string> {
    if e.Dict? && e.code.CodeText? then Some(e.code.text) else None
  }

  function InputRows(result: nat, numerator: bool, group: Group, r: KpiResult, ids: seq<string>): (rows: seq<InputRow>)
    ensures |rows| == |ids|
    ensures forall k :: 0 <= k < |ids| ==>
              rows[k] == InputRow(result, numerator, group.id, ids[k], r.version, r.scopeType)
  {
    seq(|ids|, k requires 0 <= k < |ids| => InputRow(result, numerator, group.id, ids[k], r.version, r.scopeType))
  }

  predicate Traceable(registry: Registry, e: Expr, ids: seq<string>) {
    ids != [] ==> TopCode(e).Some? && TopCode(e).value in registry.groups
  }

  /** The input rows of one role; None for the KeyError of an expression without a known code. */
  function RoleRows(registry: Registry, e: Expr, result: nat, numerator: bool, r: KpiResult, ids: seq<string>)
    : (rows: Option<seq<InputRow>>)
    ensures rows.Some? ==> |rows.value| == |ids|
    ensures rows.Some? ==> forall k :: 0 <= k < |ids| ==>
              rows.value[k].result == result && rows.value[k].numerator == numerator && rows.value[k].factId == ids[k]
  {
    if !Traceable(registry, e, ids) then None
    else if ids == [] then Some([])
    else Some(InputRows(result, numerator, registry.groups[TopCode(e).value], r, ids))
  }

  /** The code of the first definition, in the order of the dictionary, that has the id. */
  function CodeWith(definitions: map<string, Definition>, order: seq<string>, id: string): (r: Option<string>)
    ensures r.Some? ==> r.value in definitions && definitions[r.value].id == id
  {
    if order == [] then None
    else if order[0] in definitions && definitions[order[0]].id == id then Some(order[0])
    else CodeWith(definitions, order[1..], id)
  }

  function CodeOf(registry: Registry, id: string): (r: Option<string>)
    ensures r.Some? ==> r.value in registry.definitions && registry.definitions[r.value].id == id
  {
    CodeWith(registry.definitions, registry.order, id)
  }

  /** One result and its input rows under a code, in one transaction. */
  function SaveUnder(db: Kpi, run: nat, code: string, r: KpiResult): (Kpi, bool)
    requires code in db.registry.definitions
  {
    var d := db.registry.definitions[code];
    var numerators := RoleRows(db.registry, d.numerator, |db.results|, true, r, r.numeratorIds);
    var denominators := RoleRows(db.registry, d.denominator, |db.results|, false, r, r.denominatorIds);
    if (exists k :: 0 <= k < |db.results| && db.results[k].run == run && db.results[k].code == code)
       || numerators.None? || denominators.None? then (Undo(db), false)
    else
      (Commit(db.(results := db.results + [ResultRow(run, code, r, false)],
                  inputs := db.inputs + numerators.value + denominators.value)), true)
  }

  /** save_result: the code is looked up by the id of the result's definition; none is an exception. */
  function SaveResult(db: Kpi, run: nat, r: KpiResult): (Kpi, bool) {
    var code := CodeOf(db.registry, r.definitionId);
    if code.None? then (Undo(db), false) else SaveUnder(db, run, code.value, r)
  }

  // ---------------------------------------------------------------- workflow.py

  datatype RunOutcome =
    | Reused(id: nat)
    | Finished(id: nat, results: seq<KpiResult>)
    | Duplicate
    | Unprojected(error: ProjectionError)
    | Crashed

  datatype Request = Request(version: string, entity: string, scopeType: string, period: Date, codes: seq<string>,
                             preview: bool)

  function KeyOf(q: Request): Key {
    Key(q.version, q.entity, q.scopeType, q.period, "phase4-v1", "net")
  }

  /** The list comprehension over the codes; None for an unknown code or an escaping exception. */
  function CalculateAll(registry: Registry, facts: seq<Fact>, codes: seq<string>, preview: bool)
    : (r: Option<seq<KpiResult>>)
    ensures r.Some? ==> |r.value| == |codes|
                        && forall k :: 0 <= k < |codes| ==>
                             codes[k] in registry.definitions
                             && Calculate(registry.definitions[codes[k]], registry.groups, facts, preview) == Ok(r.value[k])
  {
    if codes == [] then Some([])
    else if codes[0] !in registry.definitions then None
    else match Calculate(registry.definitions[codes[0]], registry.groups, facts, preview)
      case Fail(_) => None
      case Ok(first) =>
        match CalculateAll(registry, facts, codes[1..], preview)
        case None => None
        case Some(rest) => Some([first] + rest)
  }

  /** The results are saved one by one; the first failure leaves those before it in place. */
  function SaveAll(db: Kpi, run: nat, results: seq<KpiResult>): (Kpi, bool)
    decreases |results|
  {
    if results == [] then (db, true)
    else
      var (next, saved) := SaveResult(db, run, results[0]);
      if !saved then (next, false) else SaveAll(next, run, results[1..])
  }

  function MarkFailed(db: Kpi, id: nat): Kpi {
    db.(runs := SetRun(db.runs, id, Failed), uncommitted := db.uncommitted + {id})
  }

  function CompleteRun(db: Kpi, id: nat): Kpi {
    Commit(db.(runs := SetRun(db.runs, id, Completed)))
  }

  /** A run that was just created: project the facts, calculate everything, save, complete. */
  function RunCreated(db: Kpi, id: nat, all: seq<Fact>, q: Request): (Kpi, RunOutcome) {
    match FactsFor(all, q.version, q.entity, q.scopeType, q.period)
    case Fail(error) => (MarkFailed(db, id), Unprojected(error))
    case Ok(facts) =>
      var observed := Observe(db, q.version, true);
      match CalculateAll(db.registry, facts, q.codes, q.preview)
      case None => (observed, Crashed)
      case Some(results) =>
        var (saved, ok) := SaveAll(observed, id, results);
        if !ok then (saved, Crashed) else (CompleteRun(saved, id), Finished(id, results))
  }

  function RunKpis(db: Kpi, all: seq<Fact>, q: Request): (Kpi, RunOutcome) {
    var (created, made) := CreateRun(db, KeyOf(q), false, None);
    if made.Fail? then (created, Duplicate)
    else if made.value.reused then (created, Reused(made.value.id))
    else RunCreated(created, made.value.id, all, q)
  }

  // ---------------------------------------------------------------- consumer.py

  /** The rows the projection selects for one entity, scope and period. */
  predicate Shown(db: Kpi, k: nat, entity: string, scopeType: string, period: Date) {
    && k < |db.results| && db.results[k].run < |db.runs|
    && var row, run := db.results[k], db.runs[db.results[k].run];
       && row.result.entity == entity && row.result.scopeType == scopeType && row.result.period == period
       && IsCompleted(run.status)
       && run.key.definitionSet in db.registry.released && row.result.definitionId in db.registry.approvedIds
       && run.key.version in db.projection && db.projection[run.key.version]
       && !row.superseded && row.result.state == Available
  }

  const STORE_KPIS: set<string> := {"gross_profit_margin", "operating_profit_margin", "ordinary_profit_margin"}

  /** A code as its code points, which is how the database orders it. */
  function CodePoints(code: string): (r: seq<int>)
    ensures |r| == |code|
  {
    seq(|code|, k requires 0 <= k < |code| => code[k] as int)
  }

  function CodeAt(results: seq<ResultRow>, i: nat): seq<int> {
    if i < |results| then CodePoints(results[i].code) else []
  }

  predicate CodeNotAfter(results: seq<ResultRow>, i: nat, j: nat) {
    !KeyOrder.Less(CodeAt(results, j), CodeAt(results, i))
  }

  /** ORDER BY kpi_code, over positions. */
  function ByCode(results: seq<ResultRow>): (nat, nat) -> bool {
    (i: nat, j: nat) => CodeNotAfter(results, i, j)
  }

  predicate Listed(db: Kpi, k: nat, entity: string, scopeType: string, period: Date, storeOnly: bool) {
    Shown(db, k, entity, scopeType, period) && (storeOnly ==> db.results[k].code in STORE_KPIS)
  }

  /** The listed rows among the first n. */
  function ListedAmong(db: Kpi, n: nat, entity: string, scopeType: string, period: Date, storeOnly: bool): (r: seq<nat>)
    requires n <= |db.results|
    ensures forall k: nat :: k in r <==> k < n && Listed(db, k, entity, scopeType, period, storeOnly)
  {
    if n == 0 then []
    else
      var rows := ListedAmong(db, n - 1, entity, scopeType, period, storeOnly);
      if Listed(db, n - 1, entity, scopeType, period, storeOnly) then rows + [n - 1] else rows
  }

  /** The listed rows in the order of their codes. */
  function ListedRows(db: Kpi, entity: string, scopeType: string, period: Date, storeOnly: bool): (r: seq<nat>)
    ensures forall k: nat :: k in r <==> k < |db.results| && Listed(db, k, entity, scopeType, period, storeOnly)
  {
    var rows := ListedAmong(db, |db.results|, entity, scopeType, period, storeOnly);
    InsertionSort.SortPermutes(ByCode(db.results), rows);
    InsertionSort.Sort(ByCode(db.results), rows)
  }

  /** What the projection returns: the run named in the header, and the rows; None if there are none. */
  datatype Answer = Answer(run: nat, version: string, rows: seq<nat>)

  function Get(db: Kpi, entity: string, scopeType: string, period: Date, storeOnly: bool): Option<Answer> {
    var rows := ListedRows(db, entity, scopeType, period, storeOnly);
    if rows == [] then None
    else
      assert rows[0] in rows;
      Some(Answer(db.results[rows[0]].run, db.results[rows[0]].result.version, rows))
  }

  // ---------------------------------------------------------------- runs

  /** How a change of the registry leaves the transaction that is open: the calls that change it run in a
      block, which commits or rolls back; assigning to the dictionaries opens none. */
  datatype Ending = NoBlock | CommittedBlock | FailedBlock

  /** One public call, or a change of the registry. */
  datatype Step =
    | RunStep(all: seq<Fact>, request: Request)
    | CreateStep(key: Key, recalculate: bool, retryOf: Option<nat>)
    | SupersedeStep(id: nat)
    | ObserveStep(version: string, active: bool)
    | DeactivateStep(version: string)
    | RegistryStep(registry: Registry, ending: Ending)

  function EndBlock(db: Kpi, ending: Ending): Kpi {
    match ending
    case NoBlock => db
    case CommittedBlock => Commit(db)
    case FailedBlock => Undo(db)
  }

  function Apply(db: Kpi, step: Step): Kpi {
    match step
    case RunStep(all, request) => RunKpis(db, all, request).0
    case CreateStep(key, recalculate, retryOf) => CreateRun(db, key, recalculate, retryOf).0
    case SupersedeStep(id) => SupersedeRun(db, id)
    case ObserveStep(version, active) => Observe(db, version, active)
    case DeactivateStep(version) => Deactivate(db, version)
    case RegistryStep(registry, ending) => EndBlock(db.(registry := registry), ending)
  }

  function RunAll(db: Kpi, steps: seq<Step>): Kpi
    decreases |steps|
  {
    if steps == [] then db else RunAll(Apply(db, steps[0]), steps[1..])
  }

  const EMPTY := Kpi([], [], [], map[], Registry(map[], [], map[], {}, {}), {})
}
