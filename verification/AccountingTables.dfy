/** The tables of the accounting core and what each operation of workflow.py does to them. */
module AccountingTables {
  import opened Options

  // ---------------------------------------------------------------- actors (domain.py, auth.py)

  datatype Role =
    | AccountingAdmin | AccountingReviewer | ManagementApprover | ExecutiveViewer
    | DepartmentManager | StoreManager | FranchiseOwner | Employee

  datatype ActorScope = AllGroup | LegalEntity | Department | Store | FranchiseCompany | SelfOnly | NoScope

  datatype Actor = Actor(id: string, role: Role, scope: ActorScope, scopeIds: set<string>, trusted: bool)

  function ScopeName(s: ActorScope): string {
    match s
    case AllGroup => "all_group"
    case LegalEntity => "legal_entity"
    case Department => "department"
    case Store => "store"
    case FranchiseCompany => "franchise_company"
    case SelfOnly => "self_only"
    case NoScope => "none"
  }

  predicate HasRole(actor: Actor, roles: set<Role>) {
    actor.trusted && actor.role in roles
  }

  predicate CanAccess(actor: Actor, scopeType: string, scopeId: string) {
    && actor.trusted && actor.role != Employee && actor.scope != NoScope
    && if actor.scope == AllGroup
       then actor.role in {AccountingAdmin, AccountingReviewer, ManagementApprover, ExecutiveViewer}
       else ScopeName(actor.scope) == scopeType && scopeId in actor.scopeIds
  }

  // ---------------------------------------------------------------- rows (schema.sql)

  /** The id of a row is its position in its table. */
  type Id = nat

  /** yyyymmdd */
  type Date = int

  datatype Kind = Draft | Revision | Final | RollbackRestore

  datatype Status =
    | Imported | Validated | AccountingApproved | ManagementApproved
    | AccountingRejected | ManagementRejected | Published | Superseded

  /** What a version is for: one scope and one month. */
  datatype Slot = Slot(scopeType: string, scopeId: string, year: int, month: int)

  datatype Version = Version(
    number: nat, kind: Kind, slot: Slot, prior: Option<Id>, supersedes: Option<Id>, restores: Option<Id>,
    file: Id, status: Status, createdBy: Actor)

  datatype Stage = Accounting | Management

  datatype Approval = Approval(version: Id, stage: Stage, approved: bool, reason: string, actor: Actor)

  datatype Publication = Publication(version: Id, slot: Slot, live: bool, supersedes: Option<Id>, actor: Actor)

  datatype Content = Content(
    rawValue: Id, sourceFile: Id, account: string, entity: string, scopeType: string, scopeId: string,
    period: Date, net: string, tax: Option<string>, gross: Option<string>, taxBasis: string)

  datatype Fact = Fact(version: Id, content: Content, status: string)

  datatype Audit = Audit(actor: string, action: string, target: Id, reason: string)

  datatype ImportFile = ImportFile(detected: Option<Date>, confirmedThrough: Option<Date>, blocked: bool)

  datatype RawValue = RawValue(entityName: string, statementType: string, accountName: string)

  /** Tables this component only reads: files, raw values, approved mappings, and the versions that
      have a blocking validation result. */
  datatype Reference = Reference(
    files: map<Id, ImportFile>, raws: map<Id, RawValue>, entities: set<string>,
    accounts: set<(string, string, string)>, blocking: set<Id>)

  datatype Db = Db(
    versions: seq<Version>, approvals: seq<Approval>, publications: seq<Publication>, facts: seq<Fact>,
    audits: seq<Audit>, reference: Reference)

  datatype Error =
    | Unauthorized | NotFound | UnknownType | Constraint | BlockingRemain | NotImported | ReasonRequired
    | UnknownStage | WrongState | NotApproved | MappingMissing | PeriodUnconfirmed | PeriodAfterConfirmed
    | Conflict | NotRollbackable

  const PUBLISHED := "published"
  const VALIDATED := "validated"

  // ---------------------------------------------------------------- create_version

  /** MAX(version_number) over one slot, 0 if it has no version. */
  function MaxNumber(versions: seq<Version>, slot: Slot): nat {
    if versions == [] then 0
    else
      var last, before := versions[|versions| - 1], MaxNumber(versions[..|versions| - 1], slot);
      if last.slot == slot && last.number > before then last.number else before
  }

  /** version_label is unique in the whole table, and it is made of the year, the month, the kind and
      the number, but not of the scope. */
  predicate LabelTaken(versions: seq<Version>, slot: Slot, kind: Kind, number: nat) {
    exists k :: 0 <= k < |versions| && versions[k].slot.year == slot.year && versions[k].slot.month == slot.month
                && versions[k].kind == kind && versions[k].number == number
  }

  predicate Refers(versions: seq<Version>, id: Option<Id>) {
    id.Some? ==> id.value < |versions|
  }

  function CreateError(db: Db, file: Id, slot: Slot, kind: Option<Kind>, actor: Actor,
                       prior: Option<Id>, supersedes: Option<Id>, restores: Option<Id>): Option<Error> {
    if !HasRole(actor, {AccountingAdmin}) || !CanAccess(actor, slot.scopeType, slot.scopeId) then Some(Unauthorized)
    else if kind.None? then Some(UnknownType)
    else if file !in db.reference.files || !Refers(db.versions, prior) || !Refers(db.versions, supersedes)
         || !Refers(db.versions, restores) || LabelTaken(db.versions, slot, kind.value, MaxNumber(db.versions, slot) + 1)
    then Some(Constraint)
    else None
  }

  function CreateVersion(db: Db, file: Id, slot: Slot, kind: Option<Kind>, actor: Actor,
                         prior: Option<Id>, supersedes: Option<Id>, restores: Option<Id>): (Db, Result<Id, Error>) {
    var error := CreateError(db, file, slot, kind, actor, prior, supersedes, restores);
    if error.Some? then (db, Fail(error.value))
    else
      var version := Version(MaxNumber(db.versions, slot) + 1, kind.value, slot, prior, supersedes, restores, file,
                             Imported, actor);
      var id := |db.versions|;
      (db.(versions := db.versions + [version],
           audits := db.audits + [Audit(actor.id, "version_created", id, "new immutable version")]), Ok(id))
  }

  // ---------------------------------------------------------------- validate_version

  function SetStatus(versions: seq<Version>, id: Id, status: Status): (r: seq<Version>)
    requires id < |versions|
    ensures |r| == |versions|
    ensures forall k :: 0 <= k < |r| ==> r[k] == if k == id then versions[k].(status := status) else versions[k]
  {
    versions[id := versions[id].(status := status)]
  }

  function ValidateError(db: Db, id: Id, actor: Actor): Option<Error> {
    if !HasRole(actor, {AccountingAdmin, AccountingReviewer}) then Some(Unauthorized)
    else if id >= |db.versions| then Some(NotFound)
    else if !CanAccess(actor, db.versions[id].slot.scopeType, db.versions[id].slot.scopeId) then Some(Unauthorized)
    else if id in db.reference.blocking then Some(BlockingRemain)
    else if db.versions[id].status != Imported then Some(NotImported)
    else None
  }

  function ValidateVersion(db: Db, id: Id, actor: Actor): (Db, Result<(), Error>) {
    var error := ValidateError(db, id, actor);
    if error.Some? then (db, Fail(error.value))
    else
      (db.(versions := SetStatus(db.versions, id, Validated),
           audits := db.audits + [Audit(actor.id, "validated", id, "blocking validation count is zero")]), Ok(()))
  }

  // ---------------------------------------------------------------- approve

  /** str.isspace */
  predicate IsSpace(c: char) {
    var u := c as int;
    || 0x09 <= u <= 0x0D || 0x1C <= u <= 0x20 || u == 0x85 || u == 0xA0 || u == 0x1680 || 0x2000 <= u <= 0x200A
    || u == 0x2028 || u == 0x2029 || u == 0x202F || u == 0x205F || u == 0x3000
  }

  /** reason.strip() is empty. */
  predicate BlankReason(reason: string) {
    forall k :: 0 <= k < |reason| ==> IsSpace(reason[k])
  }

  function StageOf(stage: string): Option<Stage> {
    if stage == "accounting" then Some(Accounting) else if stage == "management" then Some(Management) else None
  }

  function Reviewer(stage: Stage): Role {
    if stage == Accounting then AccountingReviewer else ManagementApprover
  }

  function Awaiting(stage: Stage): Status {
    if stage == Accounting then Validated else AccountingApproved
  }

  function Decided(stage: Stage, approved: bool): Status {
    if stage == Accounting then (if approved then AccountingApproved else AccountingRejected)
    else (if approved then ManagementApproved else ManagementRejected)
  }

  /** The schema admits only the decisions "approved" and "rejected". */
  function ApproveError(db: Db, id: Id, stage: string, decision: string, reason: string, actor: Actor): Option<Error> {
    if BlankReason(reason) then Some(ReasonRequired)
    else if id >= |db.versions| then Some(NotFound)
    else if !CanAccess(actor, db.versions[id].slot.scopeType, db.versions[id].slot.scopeId) then Some(Unauthorized)
    else match StageOf(stage)
      case None => Some(UnknownStage)
      case Some(s) =>
        if !HasRole(actor, {Reviewer(s)}) then Some(Unauthorized)
        else if db.versions[id].status != Awaiting(s) then Some(WrongState)
        else if decision != "approved" && decision != "rejected" then Some(Constraint)
        else None
  }

  function Approve(db: Db, id: Id, stage: string, decision: string, reason: string, actor: Actor)
    : (Db, Result<(), Error>)
  {
    var error := ApproveError(db, id, stage, decision, reason, actor);
    if error.Some? then (db, Fail(error.value))
    else
      var s, approved := StageOf(stage).value, decision == "approved";
      (db.(versions := SetStatus(db.versions, id, Decided(s, approved)),
           approvals := db.approvals + [Approval(id, s, approved, reason, actor)],
           audits := db.audits + [Audit(actor.id, stage + "_" + decision, id, reason)]), Ok(()))
  }

  // ---------------------------------------------------------------- publish

  /** The live publication of a slot that the query finds first. */
  function FirstLive(publications: seq<Publication>, slot: Slot): (r: Option<Id>)
    ensures r.Some? ==> r.value < |publications| && publications[r.value].slot == slot && publications[r.value].live
    ensures r.None? ==> forall k :: 0 <= k < |publications| ==> !(publications[k].slot == slot && publications[k].live)
  {
    if publications == [] then None
    else
      var n := |publications| - 1;
      var before := FirstLive(publications[..n], slot);
      if before.Some? then before
      else if publications[n].slot == slot && publications[n].live then Some(n) else None
  }

  /** A fact of the version lacks its raw value, an approved entity or an approved account mapping. */
  predicate Unmapped(reference: Reference, fact: Fact) {
    var raw := fact.content.rawValue;
    raw in reference.raws
    && (reference.raws[raw].entityName !in reference.entities
        || (reference.raws[raw].statementType, reference.raws[raw].accountName, fact.content.account)
           !in reference.accounts)
  }

  function FirstOfMonth(slot: Slot): Date {
    slot.year * 10000 + slot.month * 100 + 1
  }

  function PublishableError(db: Db, id: Id): Option<Error>
    requires id < |db.versions|
  {
    var version := db.versions[id];
    var files, expected := db.reference.files, FirstOfMonth(version.slot);
    if version.status != ManagementApproved then Some(NotApproved)
    else if id in db.reference.blocking then Some(BlockingRemain)
    else if exists k :: 0 <= k < |db.facts| && db.facts[k].version == id && Unmapped(db.reference, db.facts[k])
    then Some(MappingMissing)
    else if version.slot.month < 1 || version.slot.month > 12 then Some(PeriodUnconfirmed)
    else if version.file !in files || files[version.file].detected != Some(expected) || files[version.file].blocked
    then Some(PeriodUnconfirmed)
    else if files[version.file].confirmedThrough.None? || expected > files[version.file].confirmedThrough.value
    then Some(PeriodAfterConfirmed)
    else None
  }

  /** The errors raised inside the transaction: the conflict, and the trigger that keeps published
      facts from being updated. */
  function TransactionError(db: Db, id: Id): Option<Error>
    requires id < |db.versions|
  {
    var active := FirstLive(db.publications, db.versions[id].slot);
    if active.Some? && db.versions[id].supersedes != Some(db.publications[active.value].version) then Some(Conflict)
    else if exists k :: 0 <= k < |db.facts| && db.facts[k].version == id && db.facts[k].status == PUBLISHED
    then Some(Constraint)
    else None
  }

  function PublishError(db: Db, id: Id, actor: Actor): Option<Error> {
    if !HasRole(actor, {AccountingAdmin}) then Some(Unauthorized)
    else if id >= |db.versions| then Some(NotFound)
    else if !CanAccess(actor, db.versions[id].slot.scopeType, db.versions[id].slot.scopeId) then Some(Unauthorized)
    else if PublishableError(db, id).Some? then PublishableError(db, id)
    else TransactionError(db, id)
  }

  function PublishFacts(facts: seq<Fact>, id: Id): (r: seq<Fact>)
    ensures |r| == |facts|
    ensures forall k :: 0 <= k < |r| ==>
              r[k] == if facts[k].version == id then facts[k].(status := PUBLISHED) else facts[k]
  {
    seq(|facts|, k requires 0 <= k < |facts| =>
      if facts[k].version == id then facts[k].(status := PUBLISHED) else facts[k])
  }

  /** The publications and versions after the active publication, if any, has made way. */
  function Retire(publications: seq<Publication>, active: Option<Id>): (r: seq<Publication>)
    requires active.Some? ==> active.value < |publications|
    ensures |r| == |publications|
    ensures forall k :: 0 <= k < |r| ==>
              r[k] == if active == Some(k) then publications[k].(live := false) else publications[k]
  {
    if active.Some? then publications[active.value := publications[active.value].(live := false)] else publications
  }

  function SupersedeOwner(versions: seq<Version>, publications: seq<Publication>, active: Option<Id>): (r: seq<Version>)
    requires active.Some? ==> active.value < |publications|
    ensures |r| == |versions|
  {
    if active.Some? && publications[active.value].version < |versions|
    then SetStatus(versions, publications[active.value].version, Superseded) else versions
  }

  function Publish(db: Db, id: Id, actor: Actor): (Db, Result<Id, Error>) {
    var error := PublishError(db, id, actor);
    if error.Some? then (db, Fail(error.value))
    else
      var slot := db.versions[id].slot;
      var active := FirstLive(db.publications, slot);
      (db.(versions := SetStatus(SupersedeOwner(db.versions, db.publications, active), id, Published),
           publications := Retire(db.publications, active) + [Publication(id, slot, true, active, actor)],
           facts := PublishFacts(db.facts, id),
           audits := db.audits + [Audit(actor.id, "published", id, "explicit publication")]),
       Ok(|db.publications|))
  }

  // ---------------------------------------------------------------- rollback

  /** The facts of one version copied to another, in table order. */
  function Copies(facts: seq<Fact>, from: Id, to: Id): seq<Fact> {
    if facts == [] then []
    else
      var n := |facts| - 1;
      Copies(facts[..n], from, to)
      + (if facts[n].version == from then [facts[n].(version := to, status := VALIDATED)] else [])
  }

  function CopyFacts(db: Db, from: Id, to: Id): Db
    requires to < |db.versions|
  {
    db.(facts := db.facts + Copies(db.facts, from, to), versions := SetStatus(db.versions, to, Validated))
  }

  function RollbackError(db: Db, bad: Id, restore: Id, accounting: Actor, management: Actor, publisher: Actor)
    : Option<Error>
  {
    if bad >= |db.versions| || restore >= |db.versions| then Some(NotFound)
    else
      var slot := db.versions[bad].slot;
      if exists a :: a in [accounting, management, publisher] && !CanAccess(a, slot.scopeType, slot.scopeId)
      then Some(Unauthorized)
      else if db.versions[bad].status != Published || db.versions[restore].status != Superseded
      then Some(NotRollbackable)
      else None
  }

  /** The last three calls of a rollback: both approvals and the publication. */
  function Release(db: Db, id: Id, accounting: Actor, management: Actor, publisher: Actor, reason: string)
    : (Db, Result<Id, Error>)
  {
    var (reviewed, first) := Approve(db, id, "accounting", "approved", reason, accounting);
    if first.Fail? then (reviewed, Fail(first.error))
    else
      var (approved, second) := Approve(reviewed, id, "management", "approved", reason, management);
      if second.Fail? then (approved, Fail(second.error)) else Publish(approved, id, publisher)
  }

  function Rollback(db: Db, bad: Id, restore: Id, accounting: Actor, management: Actor, publisher: Actor, reason: string)
    : (Db, Result<Id, Error>)
  {
    var error := RollbackError(db, bad, restore, accounting, management, publisher);
    if error.Some? then (db, Fail(error.value))
    else
      var (created, made) := CreateVersion(db, db.versions[restore].file, db.versions[bad].slot, Some(RollbackRestore),
                                          publisher, Some(bad), Some(bad), Some(restore));
      if made.Fail? then (created, made)
      else
        var (released, outcome) := Release(CopyFacts(created, restore, made.value), made.value,
                                           accounting, management, publisher, reason);
        if outcome.Fail? then (released, Fail(outcome.error))
        else
          (released.(audits := released.audits + [Audit(publisher.id, "rollback", made.value, reason)]), made)
  }

  // ---------------------------------------------------------------- runs

  /** One public call, or a change made elsewhere: a fact row inserted, or the read-only tables changed. */
  datatype Step =
    | CreateStep(file: Id, slot: Slot, kind: Option<Kind>, actor: Actor,
                 prior: Option<Id>, supersedes: Option<Id>, restores: Option<Id>)
    | ValidateStep(version: Id, actor: Actor)
    | ApproveStep(version: Id, stage: string, decision: string, reason: string, actor: Actor)
    | PublishStep(version: Id, actor: Actor)
    | RollbackStep(bad: Id, restore: Id, accounting: Actor, management: Actor, publisher: Actor, reason: string)
    | ImportStep(fact: Fact)
    | ReferenceStep(reference: Reference)

  function Apply(db: Db, step: Step): Db {
    match step
    case CreateStep(file, slot, kind, actor, prior, supersedes, restores) =>
      CreateVersion(db, file, slot, kind, actor, prior, supersedes, restores).0
    case ValidateStep(version, actor) => ValidateVersion(db, version, actor).0
    case ApproveStep(version, stage, decision, reason, actor) =>
      Approve(db, version, stage, decision, reason, actor).0
    case PublishStep(version, actor) => Publish(db, version, actor).0
    case RollbackStep(bad, restore, accounting, management, publisher, reason) =>
      Rollback(db, bad, restore, accounting, management, publisher, reason).0
    case ImportStep(fact) =>
      if fact.version < |db.versions| then db.(facts := db.facts + [fact]) else db
    case ReferenceStep(reference) => db.(reference := reference)
  }

  function Run(db: Db, steps: seq<Step>): Db
    decreases |steps|
  {
    if steps == [] then db else Run(Apply(db, steps[0]), steps[1..])
  }

  const NO_REFERENCE := Reference(map[], map[], {}, {}, {})
  const EMPTY := Db([], [], [], [], [], NO_REFERENCE)
}
