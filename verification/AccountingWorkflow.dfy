/** The class of workflow.py: its methods change the tables statement by statement. */
module AccountingWorkflow {
  import opened Options
  import opened AccountingTables
  import opened AccountingInvariants

  class Workflow {
    var versions: seq<Version>
    var approvals: seq<Approval>
    var publications: seq<Publication>
    var facts: seq<Fact>
    var audits: seq<Audit>
    var reference: Reference

    function Snapshot(): Db
      reads this
    {
      Db(versions, approvals, publications, facts, audits, reference)
    }

    ghost predicate Valid()
      reads this
    {
      Inv(Snapshot())
    }

    constructor ()
      ensures Valid() && Snapshot() == EMPTY
    {
      versions, approvals, publications, facts, audits := [], [], [], [], [];
      reference := NO_REFERENCE;
    }

    method Create(file: Id, slot: Slot, kind: Option<Kind>, actor: Actor,
                  prior: Option<Id>, supersedes: Option<Id>, restores: Option<Id>) returns (r: Result<Id, Error>)
      requires Valid()
      modifies this
      ensures Valid()
      ensures (Snapshot(), r) == CreateVersion(old(Snapshot()), file, slot, kind, actor, prior, supersedes, restores)
    {
      hide Inv, CanAccess, MaxNumber, LabelTaken, HasRole, Refers;
      CreateKeeps(Snapshot(), file, slot, kind, actor, prior, supersedes, restores);
      if !HasRole(actor, {AccountingAdmin}) || !CanAccess(actor, slot.scopeType, slot.scopeId) { return Fail(Unauthorized); }
      var number := MaxNumber(versions, slot) + 1;
      if kind.None? { return Fail(UnknownType); }
      if file !in reference.files || !Refers(versions, prior) || !Refers(versions, supersedes)
         || !Refers(versions, restores) || LabelTaken(versions, slot, kind.value, number) {
        return Fail(Constraint);
      }
      var id := |versions|;
      versions := versions + [Version(number, kind.value, slot, prior, supersedes, restores, file, Imported, actor)];
      audits := audits + [Audit(actor.id, "version_created", id, "new immutable version")];
      r := Ok(id);
    }

    method Validate(id: Id, actor: Actor) returns (r: Result<(), Error>)
      requires Valid()
      modifies this
      ensures Valid()
      ensures (Snapshot(), r) == ValidateVersion(old(Snapshot()), id, actor)
    {
      ValidateKeeps(Snapshot(), id, actor);
      hide Inv, CanAccess;
      if !HasRole(actor, {AccountingAdmin, AccountingReviewer}) { return Fail(Unauthorized); }
      if id >= |versions| { return Fail(NotFound); }
      if !CanAccess(actor, versions[id].slot.scopeType, versions[id].slot.scopeId) { return Fail(Unauthorized); }
      if id in reference.blocking { return Fail(BlockingRemain); }
      if versions[id].status != Imported { return Fail(NotImported); }
      versions := SetStatus(versions, id, Validated);
      audits := audits + [Audit(actor.id, "validated", id, "blocking validation count is zero")];
      r := Ok(());
    }

    method Decide(id: Id, stage: string, decision: string, reason: string, actor: Actor) returns (r: Result<(), Error>)
      requires Valid()
      modifies this
      ensures Valid()
      ensures (Snapshot(), r) == Approve(old(Snapshot()), id, stage, decision, reason, actor)
    {
      ApproveKeeps(Snapshot(), id, stage, decision, reason, actor);
      hide Inv, CanAccess, BlankReason;
      if BlankReason(reason) { return Fail(ReasonRequired); }
      if id >= |versions| { return Fail(NotFound); }
      if !CanAccess(actor, versions[id].slot.scopeType, versions[id].slot.scopeId) { return Fail(Unauthorized); }
      var s := StageOf(stage);
      if s.None? { return Fail(UnknownStage); }
      if !HasRole(actor, {Reviewer(s.value)}) { return Fail(Unauthorized); }
      if versions[id].status != Awaiting(s.value) { return Fail(WrongState); }
      var before := versions;
      versions := SetStatus(versions, id, Decided(s.value, decision == "approved"));
      if decision != "approved" && decision != "rejected" {
        versions := before;
        return Fail(Constraint);
      }
      approvals := approvals + [Approval(id, s.value, decision == "approved", reason, actor)];
      audits := audits + [Audit(actor.id, stage + "_" + decision, id, reason)];
      r := Ok(());
    }

    /** Marks the facts of a version as published, row by row; the trigger aborts it on the first fact that
        is published already. */
    method UpdateFacts(id: Id) returns (aborted: bool)
      modifies this`facts
      ensures aborted <==> exists k :: 0 <= k < |old(facts)| && old(facts)[k].version == id && old(facts)[k].status == PUBLISHED
      ensures !aborted ==> facts == PublishFacts(old(facts), id)
    {
      var k := 0;
      while k < |facts|
        invariant 0 <= k <= |facts| == |old(facts)|
        invariant forall j :: 0 <= j < k ==> !(old(facts)[j].version == id && old(facts)[j].status == PUBLISHED)
        invariant forall j :: 0 <= j < k ==> facts[j] == PublishFacts(old(facts), id)[j]
        invariant facts[k..] == old(facts)[k..]
      {
        assert facts[k] == facts[k..][0] == old(facts)[k];
        assert facts[k + 1..] == facts[k..][1..];
        if facts[k].version == id {
          if facts[k].status == PUBLISHED { return true; }
          facts := facts[k := facts[k].(status := PUBLISHED)];
        }
        k := k + 1;
      }
      aborted := false;
    }

    /** The active publication and the version behind it make way. */
    method RetireActive(active: Option<Id>)
      requires active.Some? ==> active.value < |publications|
      modifies this`versions, this`publications
      ensures publications == Retire(old(publications), active)
      ensures versions == SupersedeOwner(old(versions), old(publications), active)
    {
      if active.Some? {
        publications := publications[active.value := publications[active.value].(live := false)];
        if publications[active.value].version < |versions| {
          versions := SetStatus(versions, publications[active.value].version, Superseded);
        }
      }
    }

    /** The transaction of publish; an abort restores the tables. */
    method PublishTransaction(id: Id, actor: Actor) returns (r: Result<Id, Error>)
      requires id < |versions|
      modifies this
      ensures var db := old(Snapshot());
        var active := FirstLive(db.publications, db.versions[id].slot);
        if TransactionError(db, id).Some? then r == Fail(TransactionError(db, id).value) && Snapshot() == db
        else
          r == Ok(|db.publications|)
          && Snapshot() == db.(
            versions := SetStatus(SupersedeOwner(db.versions, db.publications, active), id, Published),
            publications := Retire(db.publications, active)
                            + [Publication(id, db.versions[id].slot, true, active, actor)],
            facts := PublishFacts(db.facts, id),
            audits := db.audits + [Audit(actor.id, "published", id, "explicit publication")])
    {
      hide FirstLive, PublishFacts;
      var slot, before, beforeVersions, beforeFacts := versions[id].slot, publications, versions, facts;
      var active := FirstLive(publications, slot);
      if active.Some? && versions[id].supersedes != Some(publications[active.value].version) { return Fail(Conflict); }
      RetireActive(active);
      hide SupersedeOwner, Retire;
      versions := SetStatus(versions, id, Published);
      var aborted := UpdateFacts(id);
      if aborted {
        publications, versions, facts := before, beforeVersions, beforeFacts;
        return Fail(Constraint);
      }
      r := Ok(|publications|);
      publications := publications + [Publication(id, slot, true, active, actor)];
      audits := audits + [Audit(actor.id, "published", id, "explicit publication")];
    }

    method PublishVersion(id: Id, actor: Actor) returns (r: Result<Id, Error>)
      requires Valid()
      modifies this
      ensures Valid()
      ensures (Snapshot(), r) == Publish(old(Snapshot()), id, actor)
    {
      PublishKeeps(Snapshot(), id, actor);
      hide Inv, CanAccess, PublishableError, TransactionError, FirstLive;
      if !HasRole(actor, {AccountingAdmin}) { return Fail(Unauthorized); }
      if id >= |versions| { return Fail(NotFound); }
      if !CanAccess(actor, versions[id].slot.scopeType, versions[id].slot.scopeId) { return Fail(Unauthorized); }
      var refused := PublishableError(Snapshot(), id);
      if refused.Some? { return Fail(refused.value); }
      r := PublishTransaction(id, actor);
    }

    /** The loop of a rollback: it inserts one copy per fact selected before. */
    method InsertCopies(from: Id, to: Id)
      modifies this`facts
      ensures facts == old(facts) + Copies(old(facts), from, to)
    {
      var rows, k := facts, 0;
      while k < |rows|
        invariant 0 <= k <= |rows|
        invariant facts == rows + Copies(rows[..k], from, to)
      {
        assert rows[..k + 1][..k] == rows[..k];
        if rows[k].version == from {
          facts := facts + [rows[k].(version := to, status := VALIDATED)];
        }
        k := k + 1;
      }
      assert rows[..k] == rows;
    }

    /** The last three calls of a rollback. */
    method ReleaseVersion(id: Id, accounting: Actor, management: Actor, publisher: Actor, reason: string)
      returns (r: Result<Id, Error>)
      requires Valid()
      modifies this
      ensures Valid()
      ensures (Snapshot(), r) == Release(old(Snapshot()), id, accounting, management, publisher, reason)
    {
      hide Inv, Approve, Publish;
      var first := Decide(id, "accounting", "approved", reason, accounting);
      if first.Fail? { return Fail(first.error); }
      var second := Decide(id, "management", "approved", reason, management);
      if second.Fail? { return Fail(second.error); }
      r := PublishVersion(id, publisher);
    }

    /** A rollback up to its last three calls: the new version with its copied facts, validated. */
    method Prepare(bad: Id, restore: Id, publisher: Actor) returns (r: Result<Id, Error>)
      requires Valid() && bad < |versions| && restore < |versions|
      modifies this
      ensures Valid()
      ensures var db := old(Snapshot());
        var made := CreateVersion(db, db.versions[restore].file, db.versions[bad].slot, Some(RollbackRestore),
                                  publisher, Some(bad), Some(bad), Some(restore));
        r == made.1 && (r.Ok? ==> r.value < |made.0.versions|)
        && Snapshot() == if r.Ok? then CopyFacts(made.0, restore, r.value) else made.0
    {
      r := Create(versions[restore].file, versions[bad].slot, Some(RollbackRestore), publisher,
                  Some(bad), Some(bad), Some(restore));
      if r.Fail? { return; }
      ghost var created := Snapshot();
      hide Inv, CreateError;
      InsertCopies(restore, r.value);
      versions := SetStatus(versions, r.value, Validated);
      CopyKeeps(created, restore, r.value);
    }

    method RollBack(bad: Id, restore: Id, accounting: Actor, management: Actor, publisher: Actor, reason: string)
      returns (r: Result<Id, Error>)
      requires Valid()
      modifies this
      ensures Valid()
      ensures (Snapshot(), r) == Rollback(old(Snapshot()), bad, restore, accounting, management, publisher, reason)
    {
      hide Inv, RollbackError, CreateVersion, CopyFacts, Release;
      RollbackKeeps(Snapshot(), bad, restore, accounting, management, publisher, reason);
      var error := RollbackError(Snapshot(), bad, restore, accounting, management, publisher);
      if error.Some? { return Fail(error.value); }
      RollbackVersions(Snapshot(), bad, restore, accounting, management, publisher);
      r := Prepare(bad, restore, publisher);
      if r.Fail? { return; }
      var released := ReleaseVersion(r.value, accounting, management, publisher, reason);
      if released.Fail? { return Fail(released.error); }
      audits := audits + [Audit(publisher.id, "rollback", r.value, reason)];
    }
  }
}
