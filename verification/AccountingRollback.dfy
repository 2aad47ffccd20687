/** What a rollback restores, what a rejected one leaves alone, and what no run ever undoes. */
module AccountingRollback {
  import opened Options
  import opened AccountingTables
  import opened AccountingInvariants

  // ---------------------------------------------------------------- facts and their readers

  /** The contents of a version's facts, in table order. */
  function Contents(facts: seq<Fact>, version: Id): seq<Content> {
    if facts == [] then []
    else
      var n := |facts| - 1;
      Contents(facts[..n], version) + (if facts[n].version == version then [facts[n].content] else [])
  }

  /** accounting_consumer_facts: the rows consumers see. */
  predicate Visible(db: Db, k: nat) {
    && k < |db.facts| && db.facts[k].status == PUBLISHED
    && db.facts[k].version < |db.versions| && db.versions[db.facts[k].version].status == Published
    && (exists p :: 0 <= p < |db.publications| && db.publications[p].live && db.publications[p].version == db.facts[k].version)
    && var files, file := db.reference.files, db.facts[k].content.sourceFile;
       file in files && files[file].confirmedThrough.Some?
       && db.facts[k].content.period <= files[file].confirmedThrough.value
  }

  lemma {:induction false} ContentsConcat(a: seq<Fact>, b: seq<Fact>, version: Id)
    ensures Contents(a + b, version) == Contents(a, version) + Contents(b, version)
    decreases |b|
  {
    if b == [] {
      assert a + b == a;
    } else {
      var ab := a + b;
      assert ab[..|ab| - 1] == a + b[..|b| - 1];
      ContentsConcat(a, b[..|b| - 1], version);
    }
  }

  lemma {:induction false} CopiesContents(facts: seq<Fact>, from: Id, to: Id)
    ensures Contents(Copies(facts, from, to), to) == Contents(facts, from)
  {
    if facts == [] {
    } else {
      var n := |facts| - 1;
      var last := if facts[n].version == from then [facts[n].(version := to, status := VALIDATED)] else [];
      CopiesContents(facts[..n], from, to);
      ContentsConcat(Copies(facts[..n], from, to), last, to);
      if last != [] { assert last[..0] == []; }
    }
  }

  lemma {:induction false} NoContents(facts: seq<Fact>, version: Id)
    requires forall k :: 0 <= k < |facts| ==> facts[k].version != version
    ensures Contents(facts, version) == []
  {
    if facts == [] {
    } else {
      NoContents(facts[..|facts| - 1], version);
    }
  }

  lemma {:induction false} SameContents(a: seq<Fact>, b: seq<Fact>, version: Id)
    requires |a| == |b|
    requires forall k :: 0 <= k < |a| ==> a[k].version == b[k].version && a[k].content == b[k].content
    ensures Contents(a, version) == Contents(b, version)
  {
    if a == [] {
    } else {
      SameContents(a[..|a| - 1], b[..|b| - 1], version);
    }
  }

  // ---------------------------------------------------------------- nothing is undone

  /** The statuses a version can still take. */
  predicate Onward(a: Status, b: Status) {
    a == b || match a
              case Imported => true
              case Validated => b != Imported
              case AccountingApproved => b in {ManagementApproved, ManagementRejected, Published, Superseded}
              case ManagementApproved => b in {Published, Superseded}
              case Published => b == Superseded
              case _ => false
  }

  /** Every row of a is still there in b; versions only moved onward, facts were at most published,
      publications at most retired, approvals and the audit log only grew. */
  predicate Extends(a: Db, b: Db) {
    && |a.versions| <= |b.versions| && |a.facts| <= |b.facts| && |a.publications| <= |b.publications|
    && a.approvals <= b.approvals && a.audits <= b.audits
    && (forall v :: 0 <= v < |a.versions| ==>
          b.versions[v] == a.versions[v].(status := b.versions[v].status)
          && Onward(a.versions[v].status, b.versions[v].status))
    && (forall k :: 0 <= k < |a.facts| ==> b.facts[k] == a.facts[k] || b.facts[k] == a.facts[k].(status := PUBLISHED))
    && (forall k :: 0 <= k < |a.publications| ==>
          b.publications[k] == a.publications[k] || b.publications[k] == a.publications[k].(live := false))
  }

  lemma ExtendsTransitive(a: Db, b: Db, c: Db)
    requires Extends(a, b) && Extends(b, c)
    ensures Extends(a, c)
  {
  }

  lemma CreateExtends(db: Db, file: Id, slot: Slot, kind: Option<Kind>, actor: Actor,
                      prior: Option<Id>, supersedes: Option<Id>, restores: Option<Id>)
    ensures Extends(db, CreateVersion(db, file, slot, kind, actor, prior, supersedes, restores).0)
  {
  }

  lemma PublishExtends(db: Db, id: Id, actor: Actor)
    requires Inv(db)
    ensures Extends(db, Publish(db, id, actor).0)
  {
    if PublishError(db, id, actor).None? {
      LiveIsLatest(db.versions, db.publications, db.versions[id].slot);
      LatestOwner(db.versions, db.publications, db.versions[id].slot);
      hide TransactionError, CanAccess, FirstLive, Predecessor, Evidence, Chain, Owners;
    }
  }

  lemma CopyExtends(db: Db, from: Id, to: Id)
    requires to < |db.versions| && db.versions[to].status == Imported
    ensures Extends(db, CopyFacts(db, from, to))
  {
  }

  lemma ReleaseExtends(db: Db, id: Id, accounting: Actor, management: Actor, publisher: Actor, reason: string)
    requires Inv(db)
    ensures Extends(db, Release(db, id, accounting, management, publisher, reason).0)
  {
    hide Inv, Approve, Publish, Extends;
    var reviewed := Approve(db, id, "accounting", "approved", reason, accounting).0;
    var approved := Approve(reviewed, id, "management", "approved", reason, management).0;
    ApproveKeeps(db, id, "accounting", "approved", reason, accounting);
    ApproveKeeps(reviewed, id, "management", "approved", reason, management);
    ApproveExtends(db, id, "accounting", "approved", reason, accounting);
    ApproveExtends(reviewed, id, "management", "approved", reason, management);
    PublishExtends(approved, id, publisher);
    ExtendsTransitive(db, reviewed, approved);
    ExtendsTransitive(db, approved, Publish(approved, id, publisher).0);
  }

  lemma AuditExtends(db: Db, audit: Audit)
    ensures Extends(db, db.(audits := db.audits + [audit]))
    ensures Extends(db, db)
  {
  }

  lemma RollbackExtends(db: Db, bad: Id, restore: Id, accounting: Actor, management: Actor, publisher: Actor, reason: string)
    requires Inv(db)
    ensures Extends(db, Rollback(db, bad, restore, accounting, management, publisher, reason).0)
  {
    var audit := Audit(publisher.id, "rollback", |db.versions|, reason);
    AuditExtends(db, audit);
    if RollbackError(db, bad, restore, accounting, management, publisher).None? {
      var file, slot := db.versions[restore].file, db.versions[bad].slot;
      var created := CreateVersion(db, file, slot, Some(RollbackRestore), publisher, Some(bad), Some(bad), Some(restore));
      CreateExtends(db, file, slot, Some(RollbackRestore), publisher, Some(bad), Some(bad), Some(restore));
      CreateKeeps(db, file, slot, Some(RollbackRestore), publisher, Some(bad), Some(bad), Some(restore));
      hide Inv, CreateError, RollbackError, Release, Extends;
      if created.1.Ok? {
        var id, copied := created.1.value, CopyFacts(created.0, restore, created.1.value);
        CopyKeeps(created.0, restore, id);
        CopyExtends(created.0, restore, id);
        hide CopyFacts, CreateVersion;
        var released := Release(copied, id, accounting, management, publisher, reason).0;
        ReleaseExtends(copied, id, accounting, management, publisher, reason);
        AuditExtends(released, audit);
        ExtendsTransitive(db, created.0, copied);
        ExtendsTransitive(db, copied, released);
        ExtendsTransitive(db, released, released.(audits := released.audits + [audit]));
      }
    }
  }

  lemma ApproveExtends(db: Db, id: Id, stage: string, decision: string, reason: string, actor: Actor)
    ensures Extends(db, Approve(db, id, stage, decision, reason, actor).0)
  {
    hide BlankReason, CanAccess;
  }

  lemma ApplyExtends(db: Db, step: Step)
    requires Inv(db)
    ensures Extends(db, Apply(db, step))
  {
    match step {
      case CreateStep(file, slot, kind, actor, prior, supersedes, restores) =>
        CreateExtends(db, file, slot, kind, actor, prior, supersedes, restores);
      case ValidateStep(version, actor) =>
      case ApproveStep(version, stage, decision, reason, actor) =>
        ApproveExtends(db, version, stage, decision, reason, actor);
      case PublishStep(version, actor) => PublishExtends(db, version, actor);
      case RollbackStep(bad, restore, accounting, management, publisher, reason) =>
        RollbackExtends(db, bad, restore, accounting, management, publisher, reason);
      case ImportStep(fact) =>
      case ReferenceStep(reference) =>
    }
  }

  /** No run ever undoes anything: rejected and superseded versions stay so, published facts are
      immutable, approvals, publications and audit entries are never lost. */
  lemma {:induction false} RunExtends(db: Db, steps: seq<Step>)
    requires Inv(db)
    ensures Extends(db, Run(db, steps))
    decreases |steps|
  {
    if steps == [] {
      assert Extends(db, db);
    } else {
      ApplyKeeps(db, steps[0]);
      ApplyExtends(db, steps[0]);
      RunExtends(Apply(db, steps[0]), steps[1..]);
      hide Extends, Apply;
      ExtendsTransitive(db, Apply(db, steps[0]), Run(Apply(db, steps[0]), steps[1..]));
    }
  }
}
