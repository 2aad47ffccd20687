/** The rules of the accounting core, field by field: who is let in, what is mapped, what each call asks for
    and in which order, and what it writes. */
module AccountingRules {
  import opened Options
  import opened AccountingTables

  // ---------------------------------------------------------------- actors

  /** The scopes that are granted id by id, with the name each has in a version. */
  const GRANTED: map<ActorScope, string> :=
    map[LegalEntity := "legal_entity", Department := "department", Store := "store",
        FranchiseCompany := "franchise_company", SelfOnly := "self_only"]

  const CENTRAL: set<Role> := {AccountingAdmin, AccountingReviewer, ManagementApprover, ExecutiveViewer}

  /** A trusted actor, not an employee, who acts for the whole group from a central role or for this very
      scope. */
  predicate LetIn(actor: Actor, slot: Slot) {
    && actor.trusted && actor.role != Employee
    && if actor.scope == AllGroup then actor.role in CENTRAL
       else actor.scope in GRANTED && GRANTED[actor.scope] == slot.scopeType && slot.scopeId in actor.scopeIds
  }

  lemma AccessExactly(actor: Actor, slot: Slot)
    ensures CanAccess(actor, slot.scopeType, slot.scopeId) <==> LetIn(actor, slot)
  {
  }

  /** A trusted actor in the role. */
  predicate Acts(actor: Actor, role: Role) {
    actor.trusted && actor.role == role
  }

  // ---------------------------------------------------------------- facts and months

  /** The entity and the account that a fact was made from are approved mappings, the latter to the account
      of the fact. */
  predicate Mapped(reference: Reference, fact: Fact) {
    fact.content.rawValue in reference.raws ==>
      var raw := reference.raws[fact.content.rawValue];
      && raw.entityName in reference.entities
      && (raw.statementType, raw.accountName, fact.content.account) in reference.accounts
  }

  lemma MappedExactly(reference: Reference, fact: Fact)
    ensures Unmapped(reference, fact) <==> !Mapped(reference, fact)
  {
  }

  /** The date compared is the first day of the month of the slot. */
  lemma FirstDay(slot: Slot)
    requires 1 <= slot.month <= 12
    ensures FirstOfMonth(slot) % 100 == 1 && FirstOfMonth(slot) / 100 % 100 == slot.month
    ensures FirstOfMonth(slot) / 10000 == slot.year
  {
  }

  /** A new version has the number behind the highest of its slot. */
  lemma {:induction false} NextNumber(versions: seq<Version>, slot: Slot)
    ensures forall v :: v in versions && v.slot == slot ==> v.number < MaxNumber(versions, slot) + 1
    ensures MaxNumber(versions, slot) == 0 || exists v :: v in versions && v.slot == slot && v.number == MaxNumber(versions, slot)
  {
    if versions == [] {
    } else {
      var n := |versions| - 1;
      NextNumber(versions[..n], slot);
      assert versions == versions[..n] + [versions[n]];
      if MaxNumber(versions[..n], slot) != 0 {
        var v :| v in versions[..n] && v.slot == slot && v.number == MaxNumber(versions[..n], slot);
        assert v in versions;
      }
    }
  }

  // ---------------------------------------------------------------- what each call asks for

  /** Something a call asks for, and the error raised if it is not so. */
  datatype Demand = Demand(met: bool, otherwise: Error)

  /** The error of the first demand that is not met. */
  function Refusal(demands: seq<Demand>): Option<Error> {
    if demands == [] then None
    else if !demands[0].met then Some(demands[0].otherwise)
    else Refusal(demands[1..])
  }

  /** No other version has the year, month and kind of this one and the same number, in whatever scope. */
  predicate LabelFree(versions: seq<Version>, slot: Slot, kind: Kind, number: nat) {
    forall v :: v in versions ==> (v.slot.year, v.slot.month, v.kind, v.number) != (slot.year, slot.month, kind, number)
  }

  predicate Known(versions: seq<Version>, id: Option<Id>) {
    id == None || id.value < |versions|
  }

  /** create_version: an admin of the scope, a known type, references that exist, a free label. */
  lemma CreateAsks(db: Db, file: Id, slot: Slot, kind: Option<Kind>, actor: Actor,
                   prior: Option<Id>, supersedes: Option<Id>, restores: Option<Id>)
    ensures CreateError(db, file, slot, kind, actor, prior, supersedes, restores)
         == Refusal([Demand(Acts(actor, AccountingAdmin) && LetIn(actor, slot), Unauthorized),
                     Demand(kind.Some?, UnknownType),
                     Demand(file in db.reference.files && Known(db.versions, prior) && Known(db.versions, supersedes)
                            && Known(db.versions, restores), Constraint),
                     Demand(kind.Some? ==> LabelFree(db.versions, slot, kind.value, MaxNumber(db.versions, slot) + 1), Constraint)])
  {
    hide CanAccess, LetIn, MaxNumber;
    AccessExactly(actor, slot);
    if kind.Some? {
      var number := MaxNumber(db.versions, slot) + 1;
      if LabelTaken(db.versions, slot, kind.value, number) {
        var k :| 0 <= k < |db.versions| && db.versions[k].slot.year == slot.year && db.versions[k].slot.month == slot.month
                 && db.versions[k].kind == kind.value && db.versions[k].number == number;
        assert db.versions[k] in db.versions;
      }
    }
    Four(Demand(Acts(actor, AccountingAdmin) && LetIn(actor, slot), Unauthorized), Demand(kind.Some?, UnknownType),
         Demand(file in db.reference.files && Known(db.versions, prior) && Known(db.versions, supersedes)
                && Known(db.versions, restores), Constraint),
         Demand(kind.Some? ==> LabelFree(db.versions, slot, kind.value, MaxNumber(db.versions, slot) + 1), Constraint));
  }

  lemma First(demand: Demand, rest: seq<Demand>)
    ensures Refusal([demand] + rest) == if demand.met then Refusal(rest) else Some(demand.otherwise)
  {
    assert ([demand] + rest)[1..] == rest;
  }

  lemma Two(a: Demand, b: Demand)
    ensures Refusal([a, b]) == if !a.met then Some(a.otherwise) else if !b.met then Some(b.otherwise) else None
  {
    assert [a, b] == [a] + [b] && [b] == [b] + [];
    First(a, [b]);
    First(b, []);
  }

  lemma Four(a: Demand, b: Demand, c: Demand, d: Demand)
    ensures Refusal([a, b, c, d])
         == if !a.met then Some(a.otherwise) else if !b.met then Some(b.otherwise) else if !c.met then Some(c.otherwise)
            else if !d.met then Some(d.otherwise) else None
  {
    assert [a, b, c, d] == [a] + [b, c, d] && [b, c, d] == [b] + [c, d];
    First(a, [b, c, d]);
    First(b, [c, d]);
    Two(c, d);
  }

  lemma Three(a: Demand, b: Demand, c: Demand)
    ensures Refusal([a, b, c])
         == if !a.met then Some(a.otherwise) else if !b.met then Some(b.otherwise)
            else if !c.met then Some(c.otherwise) else None
  {
    assert [a, b, c] == [a] + [b, c];
    First(a, [b, c]);
    Two(b, c);
  }

  lemma Five(a: Demand, b: Demand, c: Demand, d: Demand, e: Demand)
    ensures Refusal([a, b, c, d, e]) == if a.met then Refusal([b, c, d, e]) else Some(a.otherwise)
  {
    assert [a, b, c, d, e] == [a] + [b, c, d, e];
    First(a, [b, c, d, e]);
  }

  /** The slot of a version; what an unknown version is asked for beyond being known does not matter. */
  predicate LetInTo(db: Db, id: Id, actor: Actor) {
    id < |db.versions| ==> LetIn(actor, db.versions[id].slot)
  }

  predicate Stands(db: Db, id: Id, status: Status) {
    id < |db.versions| ==> db.versions[id].status == status
  }

  lemma KnownAccess(db: Db, id: Id, actor: Actor)
    ensures id < |db.versions| ==>
      (CanAccess(actor, db.versions[id].slot.scopeType, db.versions[id].slot.scopeId) <==> LetInTo(db, id, actor))
  {
    hide CanAccess, LetIn;
    if id < |db.versions| { AccessExactly(actor, db.versions[id].slot); }
  }

  /** validate_version: an admin or reviewer, a known version of a scope he is let in to, no blocking result,
      and a version that was only imported. */
  lemma ValidateAsks(db: Db, id: Id, actor: Actor)
    ensures ValidateError(db, id, actor)
         == Refusal([Demand(Acts(actor, AccountingAdmin) || Acts(actor, AccountingReviewer), Unauthorized),
                     Demand(id < |db.versions|, NotFound), Demand(LetInTo(db, id, actor), Unauthorized),
                     Demand(id !in db.reference.blocking, BlockingRemain), Demand(Stands(db, id, Imported), NotImported)])
  {
    KnownAccess(db, id, actor);
    hide CanAccess, LetInTo;
    Five(Demand(Acts(actor, AccountingAdmin) || Acts(actor, AccountingReviewer), Unauthorized),
         Demand(id < |db.versions|, NotFound), Demand(LetInTo(db, id, actor), Unauthorized),
         Demand(id !in db.reference.blocking, BlockingRemain), Demand(Stands(db, id, Imported), NotImported));
    Four(Demand(id < |db.versions|, NotFound), Demand(LetInTo(db, id, actor), Unauthorized),
         Demand(id !in db.reference.blocking, BlockingRemain), Demand(Stands(db, id, Imported), NotImported));
  }

  /** The white space of str.isspace: the controls from tab to carriage return and the four separators, the blank,
      and the spaces of other scripts. */
  const SPACES: set<int> :=
    {0x09, 0x0A, 0x0B, 0x0C, 0x0D, 0x1C, 0x1D, 0x1E, 0x1F, 0x20, 0x85, 0xA0, 0x1680, 0x2000, 0x2001, 0x2002, 0x2003,
     0x2004, 0x2005, 0x2006, 0x2007, 0x2008, 0x2009, 0x200A, 0x2028, 0x2029, 0x202F, 0x205F, 0x3000}

  /** A reason with something besides white space in it. */
  predicate Reasoned(reason: string) {
    exists k :: 0 <= k < |reason| && reason[k] as int !in SPACES
  }

  lemma BlankExactly(reason: string)
    ensures BlankReason(reason) <==> !Reasoned(reason)
  {
    forall k | 0 <= k < |reason| ensures IsSpace(reason[k]) <==> reason[k] as int in SPACES {
      SpaceExactly(reason[k]);
    }
    hide IsSpace, SPACES;
  }

  lemma SpaceExactly(c: char)
    ensures IsSpace(c) <==> c as int in SPACES
  {
  }

  /** Who decides at a stage, and on a version of which status. */
  const STAGES: map<string, (Role, Status)> :=
    map["accounting" := (AccountingReviewer, Validated), "management" := (ManagementApprover, AccountingApproved)]

  lemma Decisions(stage: string)
    ensures StageOf(stage).Some? <==> stage in STAGES
    ensures StageOf(stage).Some? ==> STAGES[stage] == (Reviewer(StageOf(stage).value), Awaiting(StageOf(stage).value))
  {
  }

  /** approve: a reason, a known version of a scope the actor is let in to, a known stage with its role and the
      status it decides on, and a decision the schema admits. */
  lemma ApproveAsks(db: Db, id: Id, stage: string, decision: string, reason: string, actor: Actor)
    ensures ApproveError(db, id, stage, decision, reason, actor)
         == Refusal([Demand(Reasoned(reason), ReasonRequired), Demand(id < |db.versions|, NotFound),
                     Demand(LetInTo(db, id, actor), Unauthorized), Demand(stage in STAGES, UnknownStage)]
                    + [Demand(stage in STAGES ==> Acts(actor, STAGES[stage].0), Unauthorized),
                       Demand(stage in STAGES ==> Stands(db, id, STAGES[stage].1), WrongState),
                       Demand(decision == "approved" || decision == "rejected", Constraint)])
  {
    KnownAccess(db, id, actor);
    Decisions(stage);
    BlankExactly(reason);
    hide CanAccess, LetInTo, BlankReason, Reasoned, StageOf, Reviewer, Awaiting, STAGES;
    FourThen([Demand(Reasoned(reason), ReasonRequired), Demand(id < |db.versions|, NotFound),
              Demand(LetInTo(db, id, actor), Unauthorized), Demand(stage in STAGES, UnknownStage)],
             [Demand(stage in STAGES ==> Acts(actor, STAGES[stage].0), Unauthorized),
              Demand(stage in STAGES ==> Stands(db, id, STAGES[stage].1), WrongState),
              Demand(decision == "approved" || decision == "rejected", Constraint)]);
    Four(Demand(Reasoned(reason), ReasonRequired), Demand(id < |db.versions|, NotFound),
         Demand(LetInTo(db, id, actor), Unauthorized), Demand(stage in STAGES, UnknownStage));
    Three(Demand(stage in STAGES ==> Acts(actor, STAGES[stage].0), Unauthorized),
          Demand(stage in STAGES ==> Stands(db, id, STAGES[stage].1), WrongState),
          Demand(decision == "approved" || decision == "rejected", Constraint));
  }

  lemma {:induction false} FourThen(a: seq<Demand>, b: seq<Demand>)
    ensures Refusal(a + b) == if Refusal(a).Some? then Refusal(a) else Refusal(b)
  {
    if a == [] {
      assert a + b == b;
    } else {
      assert (a + b)[1..] == a[1..] + b;
      FourThen(a[1..], b);
    }
  }

  /** The file of the version was detected as this very month, nothing blocks its publication, and it is
      confirmed up to this month at least. */
  predicate Detected(files: map<Id, ImportFile>, v: Version) {
    && v.file in files && files[v.file].detected == Some(FirstOfMonth(v.slot)) && !files[v.file].blocked
  }

  predicate ConfirmedUpTo(files: map<Id, ImportFile>, v: Version) {
    v.file in files && files[v.file].confirmedThrough.Some? && FirstOfMonth(v.slot) <= files[v.file].confirmedThrough.value
  }

  /** What publication asks of the version itself, after role and scope. */
  lemma PublishableAsks(db: Db, id: Id)
    requires id < |db.versions|
    ensures var v, files := db.versions[id], db.reference.files;
      PublishableError(db, id)
      == Refusal([Demand(v.status == ManagementApproved, NotApproved), Demand(id !in db.reference.blocking, BlockingRemain),
                  Demand(forall f :: f in db.facts && f.version == id ==> Mapped(db.reference, f), MappingMissing),
                  Demand(1 <= v.slot.month <= 12 && Detected(files, v), PeriodUnconfirmed)]
                 + [Demand(ConfirmedUpTo(files, v), PeriodAfterConfirmed)])
  {
    var v, files := db.versions[id], db.reference.files;
    FactsMapped(db, id);
    hide Unmapped, Mapped, FirstOfMonth;
    var mapped := forall f :: f in db.facts && f.version == id ==> Mapped(db.reference, f);
    FourThen([Demand(v.status == ManagementApproved, NotApproved), Demand(id !in db.reference.blocking, BlockingRemain),
              Demand(mapped, MappingMissing), Demand(1 <= v.slot.month <= 12 && Detected(files, v), PeriodUnconfirmed)],
             [Demand(ConfirmedUpTo(files, v), PeriodAfterConfirmed)]);
    Four(Demand(v.status == ManagementApproved, NotApproved), Demand(id !in db.reference.blocking, BlockingRemain),
         Demand(mapped, MappingMissing), Demand(1 <= v.slot.month <= 12 && Detected(files, v), PeriodUnconfirmed));
    assert [Demand(ConfirmedUpTo(files, v), PeriodAfterConfirmed)] == [Demand(ConfirmedUpTo(files, v), PeriodAfterConfirmed)] + [];
    First(Demand(ConfirmedUpTo(files, v), PeriodAfterConfirmed), []);
  }

  lemma FactsMapped(db: Db, id: Id)
    ensures (exists k :: 0 <= k < |db.facts| && db.facts[k].version == id && Unmapped(db.reference, db.facts[k]))
       <==> !(forall f :: f in db.facts && f.version == id ==> Mapped(db.reference, f))
  {
    hide Unmapped, Mapped;
    forall f ensures Unmapped(db.reference, f) <==> !Mapped(db.reference, f) {
      MappedExactly(db.reference, f);
    }
  }

  /** A publication of the slot that is live belongs to the version named as superseded, and no fact of the
      version is published yet. */
  predicate FollowsLive(db: Db, id: Id)
    requires id < |db.versions|
  {
    var live := FirstLive(db.publications, db.versions[id].slot);
    live.Some? ==> db.versions[id].supersedes == Some(db.publications[live.value].version)
  }

  /** publish: an admin, a known version of a scope he is let in to, one that may be published, the version
      named as superseded behind the live publication, and facts not published before. */
  lemma PublishAsks(db: Db, id: Id, actor: Actor)
    ensures PublishError(db, id, actor)
         == (if !Acts(actor, AccountingAdmin) then Some(Unauthorized)
             else if id >= |db.versions| then Some(NotFound)
             else if !LetIn(actor, db.versions[id].slot) then Some(Unauthorized)
             else if PublishableError(db, id).Some? then PublishableError(db, id)
             else Refusal([Demand(FollowsLive(db, id), Conflict),
                           Demand(forall f :: f in db.facts && f.version == id ==> f.status != PUBLISHED, Constraint)]))
  {
    KnownAccess(db, id, actor);
    hide CanAccess, LetIn, PublishableError, FirstLive;
    if id < |db.versions| {
      Two(Demand(FollowsLive(db, id), Conflict),
          Demand(forall f :: f in db.facts && f.version == id ==> f.status != PUBLISHED, Constraint));
    }
  }

  /** rollback, before anything is written: both versions are known, all three actors are let in to the scope
      of the bad one, and it is published while the other one is superseded. */
  lemma RollbackAsks(db: Db, bad: Id, restore: Id, accounting: Actor, management: Actor, publisher: Actor)
    ensures RollbackError(db, bad, restore, accounting, management, publisher)
         == Refusal([Demand(bad < |db.versions| && restore < |db.versions|, NotFound),
                     Demand(LetInTo(db, bad, accounting) && LetInTo(db, bad, management) && LetInTo(db, bad, publisher), Unauthorized),
                     Demand(Stands(db, bad, Published) && Stands(db, restore, Superseded), NotRollbackable)])
  {
    KnownAccess(db, bad, accounting);
    KnownAccess(db, bad, management);
    KnownAccess(db, bad, publisher);
    hide CanAccess, LetInTo;
    assert accounting in [accounting, management, publisher] && management in [accounting, management, publisher]
        && publisher in [accounting, management, publisher];
    Three(Demand(bad < |db.versions| && restore < |db.versions|, NotFound),
          Demand(LetInTo(db, bad, accounting) && LetInTo(db, bad, management) && LetInTo(db, bad, publisher), Unauthorized),
          Demand(Stands(db, bad, Published) && Stands(db, restore, Superseded), NotRollbackable));
  }

  // ---------------------------------------------------------------- what each call writes

  /** The rows of a table from the n-th on. */
  predicate Adds<T(==)>(before: seq<T>, after: seq<T>, rows: seq<T>) {
    |after| == |before| + |rows| && after[..|before|] == before && after[|before|..] == rows
  }

  /** Only the status of one version changes. */
  predicate Moves(before: seq<Version>, after: seq<Version>, id: Id, from: Status, to: Status) {
    && |after| == |before| && id < |before| && before[id].status == from && after[id] == before[id].(status := to)
    && forall v :: 0 <= v < |before| && v != id ==> after[v] == before[v]
  }

  /** A new version is imported, has the next number of its slot and is made by the actor; the audit log says so. */
  lemma CreateWrites(db: Db, file: Id, slot: Slot, kind: Option<Kind>, actor: Actor,
                     prior: Option<Id>, supersedes: Option<Id>, restores: Option<Id>)
    ensures var (next, made) := CreateVersion(db, file, slot, kind, actor, prior, supersedes, restores);
      && next == db.(versions := next.versions, audits := next.audits)
      && (made.Fail? ==> next == db)
      && (made.Ok? ==>
           && made.value == |db.versions| && kind.Some?
           && Adds(db.versions, next.versions, [Version(MaxNumber(db.versions, slot) + 1, kind.value, slot, prior, supersedes,
                                                        restores, file, Imported, actor)])
           && Adds(db.audits, next.audits, [Audit(actor.id, "version_created", |db.versions|, "new immutable version")]))
  {
    hide LabelTaken, CanAccess, MaxNumber;
  }

  lemma ValidateWrites(db: Db, id: Id, actor: Actor)
    ensures var (next, done) := ValidateVersion(db, id, actor);
      && next == db.(versions := next.versions, audits := next.audits)
      && (done.Fail? ==> next == db)
      && (done.Ok? ==> Moves(db.versions, next.versions, id, Imported, Validated)
                       && Adds(db.audits, next.audits, [Audit(actor.id, "validated", id, "blocking validation count is zero")]))
  {
    hide CanAccess;
  }

  /** A decision moves the version on at its stage, and is kept with its reason and its actor. */
  lemma ApproveWrites(db: Db, id: Id, stage: string, decision: string, reason: string, actor: Actor)
    ensures var (next, done) := Approve(db, id, stage, decision, reason, actor);
      && next == db.(versions := next.versions, approvals := next.approvals, audits := next.audits)
      && (done.Fail? ==> next == db)
      && (done.Ok? ==>
           && Adds(db.approvals, next.approvals, [Approval(id, if stage == "accounting" then Accounting else Management,
                                                           decision == "approved", reason, actor)])
           && Adds(db.audits, next.audits, [Audit(actor.id, stage + "_" + decision, id, reason)])
           && (stage == "accounting" ==>
                Moves(db.versions, next.versions, id, Validated,
                      if decision == "approved" then AccountingApproved else AccountingRejected))
           && (stage != "accounting" ==>
                stage == "management"
                && Moves(db.versions, next.versions, id, AccountingApproved,
                         if decision == "approved" then ManagementApproved else ManagementRejected)))
  {
    hide CanAccess, BlankReason;
  }

  /** A publication is live and names the one it takes over from, which is live no more; its version is
      published, the one before it superseded, and all facts of the version are published. */
  lemma PublishWrites(db: Db, id: Id, actor: Actor)
    ensures var (next, done) := Publish(db, id, actor);
      && next == db.(versions := next.versions, publications := next.publications, facts := next.facts, audits := next.audits)
      && (done.Fail? ==> next == db)
      && (done.Ok? ==>
           && done.value == |db.publications| && id < |db.versions|
           && var active := FirstLive(db.publications, db.versions[id].slot);
              && |next.publications| == |db.publications| + 1
              && next.publications[|db.publications|] == Publication(id, db.versions[id].slot, true, active, actor)
              && (forall k :: 0 <= k < |db.publications| ==>
                    next.publications[k] == if active == Some(k) then db.publications[k].(live := false) else db.publications[k])
              && Adds(db.audits, next.audits, [Audit(actor.id, "published", id, "explicit publication")])
              && |next.facts| == |db.facts|
              && (forall k :: 0 <= k < |db.facts| ==>
                    next.facts[k] == if db.facts[k].version == id then db.facts[k].(status := PUBLISHED) else db.facts[k])
              && |next.versions| == |db.versions|
              && (forall v :: 0 <= v < |db.versions| ==>
                    next.versions[v]
                    == if v == id then db.versions[v].(status := Published)
                       else if active.Some? && db.publications[active.value].version == v
                       then db.versions[v].(status := Superseded) else db.versions[v]))
  {
    hide CanAccess, PublishableError, FirstLive;
  }

  /** A rollback leaves a version behind that restores the old one in place of the bad one, with the file of the
      former, the slot of the latter and the next number; its two approvals, and five rows of audit. */
  lemma RollbackWrites(db: Db, bad: Id, restore: Id, accounting: Actor, management: Actor, publisher: Actor, reason: string)
    requires Rollback(db, bad, restore, accounting, management, publisher, reason).1.Ok?
    ensures var next, n := Rollback(db, bad, restore, accounting, management, publisher, reason).0, |db.versions|;
      && bad < n && restore < n && n < |next.versions|
      && next.versions[n] == Version(MaxNumber(db.versions, db.versions[bad].slot) + 1, RollbackRestore, db.versions[bad].slot,
                                     Some(bad), Some(bad), Some(restore), db.versions[restore].file, Published, publisher)
      && Adds(db.approvals, next.approvals, [Approval(n, Accounting, true, reason, accounting),
                                             Approval(n, Management, true, reason, management)])
      && Adds(db.audits, next.audits, [Audit(publisher.id, "version_created", n, "new immutable version"),
                                       Audit(accounting.id, "accounting_approved", n, reason),
                                       Audit(management.id, "management_approved", n, reason),
                                       Audit(publisher.id, "published", n, "explicit publication"),
                                       Audit(publisher.id, "rollback", n, reason)])
  {
    hide CreateVersion, CopyFacts, Release, CanAccess, Adds, MaxNumber;
    var slot, file, n := db.versions[bad].slot, db.versions[restore].file, |db.versions|;
    CreateWrites(db, file, slot, Some(RollbackRestore), publisher, Some(bad), Some(bad), Some(restore));
    var created := CreateVersion(db, file, slot, Some(RollbackRestore), publisher, Some(bad), Some(bad), Some(restore)).0;
    LastAdded(db.versions, created.versions);
    CopyWrites(created, restore, n);
    ReleaseWrites(CopyFacts(created, restore, n), n, accounting, management, publisher, reason);
    var released := Release(CopyFacts(created, restore, n), n, accounting, management, publisher, reason).0;
    var a, b, c := Audit(publisher.id, "version_created", n, "new immutable version"),
                   [Audit(accounting.id, "accounting_approved", n, reason), Audit(management.id, "management_approved", n, reason),
                    Audit(publisher.id, "published", n, "explicit publication")], Audit(publisher.id, "rollback", n, reason);
    AddsMore(db.audits, created.audits, released.audits, [a], b);
    AddsMore(db.audits, released.audits, released.audits + [c], [a] + b, [c]);
    assert [a] + b + [c] == [a, b[0], b[1], b[2], c];
  }

  lemma AddsMore<T>(first: seq<T>, second: seq<T>, third: seq<T>, x: seq<T>, y: seq<T>)
    requires Adds(first, second, x) && (third == second + y || Adds(second, third, y))
    ensures Adds(first, third, x + y)
  {
    assert third == third[..|second|] + third[|second|..];
    assert third == first + x + y;
  }

  lemma LastAdded(before: seq<Version>, after: seq<Version>)
    ensures forall v :: Adds(before, after, [v]) ==> |after| == |before| + 1 && after[|before|] == v
  {
    forall v | Adds(before, after, [v]) ensures |after| == |before| + 1 && after[|before|] == v {
      assert after[|before|..][0] == v;
    }
  }

  lemma CopyWrites(db: Db, from: Id, to: Id)
    requires to < |db.versions|
    ensures var next := CopyFacts(db, from, to);
      && next == db.(facts := next.facts, versions := next.versions)
      && |next.versions| == |db.versions| && next.versions[to] == db.versions[to].(status := Validated)
  {
  }

  lemma ReleaseWrites(db: Db, id: Id, accounting: Actor, management: Actor, publisher: Actor, reason: string)
    requires id < |db.versions| && Release(db, id, accounting, management, publisher, reason).1.Ok?
    ensures var next := Release(db, id, accounting, management, publisher, reason).0;
      && |next.versions| == |db.versions| && next.versions[id] == db.versions[id].(status := Published)
      && Adds(db.approvals, next.approvals, [Approval(id, Accounting, true, reason, accounting),
                                             Approval(id, Management, true, reason, management)])
      && Adds(db.audits, next.audits, [Audit(accounting.id, "accounting_approved", id, reason),
                                       Audit(management.id, "management_approved", id, reason),
                                       Audit(publisher.id, "published", id, "explicit publication")])
  {
    hide Approve, Publish, Adds, FirstLive;
    ApproveWrites(db, id, "accounting", "approved", reason, accounting);
    var reviewed := Approve(db, id, "accounting", "approved", reason, accounting).0;
    ApproveWrites(reviewed, id, "management", "approved", reason, management);
    var approved := Approve(reviewed, id, "management", "approved", reason, management).0;
    PublishWrites(approved, id, publisher);
    var next := Publish(approved, id, publisher).0;
    var a, b, c := Audit(accounting.id, "accounting_approved", id, reason), Audit(management.id, "management_approved", id, reason),
                   Audit(publisher.id, "published", id, "explicit publication");
    assert "accounting" + "_" + "approved" == "accounting_approved";
    assert "management" + "_" + "approved" == "management_approved";
    AddsMore(db.audits, reviewed.audits, approved.audits, [a], [b]);
    AddsMore(db.audits, approved.audits, next.audits, [a] + [b], [c]);
    assert [a] + [b] + [c] == [a, b, c];
    var p, q := Approval(id, Accounting, true, reason, accounting), Approval(id, Management, true, reason, management);
    AddsMore(db.approvals, reviewed.approvals, approved.approvals, [p], [q]);
    assert [p] + [q] == [p, q];
  }
}
