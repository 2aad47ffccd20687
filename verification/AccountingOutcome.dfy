/** Exactly when a rollback goes through: what each of its stages still asks for. */
module AccountingOutcome {
  import opened Options
  import opened AccountingTables
  import opened AccountingInvariants
  import opened AccountingGuarantees
  import opened AccountingRules

  /** The file behind a version of the slot confirms its month. */
  predicate MonthConfirmed(reference: Reference, file: Id, slot: Slot) {
    && file in reference.files && 1 <= slot.month <= 12
    && reference.files[file].detected == Some(FirstOfMonth(slot)) && !reference.files[file].blocked
    && reference.files[file].confirmedThrough.Some? && FirstOfMonth(slot) <= reference.files[file].confirmedThrough.value
  }

  predicate AllMapped(reference: Reference, facts: seq<Fact>, version: Id) {
    forall k :: 0 <= k < |facts| && facts[k].version == version ==> Mapped(reference, facts[k])
  }

  /** What publication asks of a version besides its approvals and its place in the chain. */
  predicate Publishable(db: Db, id: Id)
    requires id < |db.versions|
  {
    && id !in db.reference.blocking && AllMapped(db.reference, db.facts, id)
    && MonthConfirmed(db.reference, db.versions[id].file, db.versions[id].slot)
  }

  lemma PublishableExactly(db: Db, id: Id)
    requires id < |db.versions|
    ensures PublishableError(db, id).None? <==> db.versions[id].status == ManagementApproved && Publishable(db, id)
  {
    hide Unmapped, Mapped;
    forall k | 0 <= k < |db.facts| ensures Unmapped(db.reference, db.facts[k]) <==> !Mapped(db.reference, db.facts[k]) {
      MappedExactly(db.reference, db.facts[k]);
    }
  }

  lemma ApproveExactly(db: Db, id: Id, stage: Stage, reason: string, actor: Actor)
    requires id < |db.versions| && CanAccess(actor, db.versions[id].slot.scopeType, db.versions[id].slot.scopeId)
    requires db.versions[id].status == Awaiting(stage)
    ensures var name := if stage == Accounting then "accounting" else "management";
      var next := Approve(db, id, name, "approved", reason, actor);
      && (next.1.Ok? <==> !BlankReason(reason) && HasRole(actor, {Reviewer(stage)}))
      && (next.1.Ok? ==> next.0.versions == SetStatus(db.versions, id, Decided(stage, true)))
  {
    hide BlankReason, CanAccess;
  }

  /** The last three calls succeed exactly when the reason, the roles and the publication are in order. */
  lemma ReleaseExactly(db: Db, id: Id, accounting: Actor, management: Actor, publisher: Actor, reason: string)
    requires id < |db.versions| && db.versions[id].status == Validated
    requires forall a :: a in [accounting, management, publisher] ==>
               CanAccess(a, db.versions[id].slot.scopeType, db.versions[id].slot.scopeId)
    requires TransactionError(db, id).None?
    ensures Release(db, id, accounting, management, publisher, reason).1.Ok?
       <==> && !BlankReason(reason) && HasRole(accounting, {AccountingReviewer})
            && HasRole(management, {ManagementApprover}) && HasRole(publisher, {AccountingAdmin})
            && Publishable(db, id)
  {
    hide BlankReason, CanAccess, Approve, PublishableError, TransactionError, Publishable;
    var reviewed := Approve(db, id, "accounting", "approved", reason, accounting).0;
    var approved := Approve(reviewed, id, "management", "approved", reason, management).0;
    assert accounting in [accounting, management, publisher] && management in [accounting, management, publisher]
        && publisher in [accounting, management, publisher];
    ApproveExactly(db, id, Accounting, reason, accounting);
    if Approve(db, id, "accounting", "approved", reason, accounting).1.Ok? {
      ApproveShape(db, id, "accounting", "approved", reason, accounting);
      ApproveExactly(reviewed, id, Management, reason, management);
      if Approve(reviewed, id, "management", "approved", reason, management).1.Ok? {
        ApproveShape(reviewed, id, "management", "approved", reason, management);
        PublishableExactly(approved, id);
        StillInOrder(db, approved, id);
      }
    }
  }

  lemma StillInOrder(db: Db, approved: Db, id: Id)
    requires id < |db.versions| == |approved.versions| && approved.facts == db.facts
    requires approved.publications == db.publications && approved.reference == db.reference
    requires approved.versions[id] == db.versions[id].(status := approved.versions[id].status)
    ensures Publishable(approved, id) <==> Publishable(db, id)
    ensures TransactionError(approved, id) == TransactionError(db, id)
  {
    hide FirstLive, AllMapped, MonthConfirmed;
  }

  /** All that a rollback asks for, in terms of the tables before it. */
  predicate InOrder(db: Db, bad: Id, restore: Id, accounting: Actor, management: Actor, publisher: Actor, reason: string) {
    && bad < |db.versions| && db.versions[bad].status == Published
    && restore < |db.versions| && db.versions[restore].status == Superseded
    && LetIn(accounting, db.versions[bad].slot) && LetIn(management, db.versions[bad].slot)
    && LetIn(publisher, db.versions[bad].slot)
    && !BlankReason(reason) && HasRole(accounting, {AccountingReviewer})
    && HasRole(management, {ManagementApprover}) && HasRole(publisher, {AccountingAdmin})
    && var slot, file := db.versions[bad].slot, db.versions[restore].file;
       && !TakenElsewhere(db.versions, slot, RollbackRestore)
       && MonthConfirmed(db.reference, file, slot)
       && |db.versions| !in db.reference.blocking && AllMapped(db.reference, db.facts, restore)
  }

  lemma RollbackAllowed(db: Db, bad: Id, restore: Id, accounting: Actor, management: Actor, publisher: Actor)
    ensures RollbackError(db, bad, restore, accounting, management, publisher).None?
       <==> && bad < |db.versions| && db.versions[bad].status == Published
            && restore < |db.versions| && db.versions[restore].status == Superseded
            && LetIn(accounting, db.versions[bad].slot) && LetIn(management, db.versions[bad].slot)
            && LetIn(publisher, db.versions[bad].slot)
  {
    hide LetIn, RollbackError;
    RollbackAsks(db, bad, restore, accounting, management, publisher);
    Three(Demand(bad < |db.versions| && restore < |db.versions|, NotFound),
          Demand(LetInTo(db, bad, accounting) && LetInTo(db, bad, management) && LetInTo(db, bad, publisher), Unauthorized),
          Demand(Stands(db, bad, Published) && Stands(db, restore, Superseded), NotRollbackable));
  }

  lemma CreateExactly(db: Db, bad: Id, restore: Id, publisher: Actor)
    requires bad < |db.versions| && restore < |db.versions|
    requires CanAccess(publisher, db.versions[bad].slot.scopeType, db.versions[bad].slot.scopeId)
    ensures CreateError(db, db.versions[restore].file, db.versions[bad].slot, Some(RollbackRestore),
                        publisher, Some(bad), Some(bad), Some(restore)).None?
       <==> && HasRole(publisher, {AccountingAdmin}) && db.versions[restore].file in db.reference.files
            && !TakenElsewhere(db.versions, db.versions[bad].slot, RollbackRestore)
  {
    hide CanAccess, MaxNumber;
    MaxBounds(db.versions, db.versions[bad].slot);
  }

  /** The copies are mapped exactly when the facts they copy are, and none is published yet. */
  lemma CopiesMapped(db: Db, restore: Id)
    requires RowsBelong(db)
    ensures var n := |db.versions|;
      var all := db.facts + Copies(db.facts, restore, n);
      && (AllMapped(db.reference, all, n) <==> AllMapped(db.reference, db.facts, restore))
      && (forall k :: 0 <= k < |all| && all[k].version == n ==> all[k].status != PUBLISHED)
  {
    hide Mapped;
    var n := |db.versions|;
    CopiesAre(db.facts, restore, n);
    CopiesKeepMapping(db.reference, db.facts, restore, n);
    var copies := Copies(db.facts, restore, n);
    var all := db.facts + copies;
    forall k | 0 <= k < |all| ensures all[k] == if k < |db.facts| then db.facts[k] else copies[k - |db.facts|] {}
    if AllMapped(db.reference, all, n) {
      forall k | 0 <= k < |copies| ensures Mapped(db.reference, copies[k]) {
        assert all[|db.facts| + k] == copies[k];
      }
    }
  }

  lemma MappedSplit(reference: Reference, before: seq<Fact>, fact: Fact, version: Id)
    ensures AllMapped(reference, before + [fact], version)
       <==> AllMapped(reference, before, version) && (fact.version == version ==> Mapped(reference, fact))
  {
    hide Mapped;
    var all := before + [fact];
    assert all[|before|] == fact && forall k :: 0 <= k < |before| ==> all[k] == before[k];
  }

  lemma {:induction false} CopiesKeepMapping(reference: Reference, facts: seq<Fact>, from: Id, to: Id)
    ensures AllMapped(reference, Copies(facts, from, to), to) <==> AllMapped(reference, facts, from)
  {
    hide AllMapped;
    if facts == [] {
      NothingMapped(reference, from);
      NothingMapped(reference, to);
    } else {
      var n := |facts| - 1;
      var some, last := Copies(facts[..n], from, to), facts[n].(version := to, status := VALIDATED);
      CopiesKeepMapping(reference, facts[..n], from, to);
      MappedSplit(reference, facts[..n], facts[n], from);
      MappedSplit(reference, some, last, to);
      assert facts == facts[..n] + [facts[n]];
      assert some + [] == some;
    }
  }

  lemma NothingMapped(reference: Reference, version: Id)
    ensures AllMapped(reference, [], version)
  {
  }

  lemma StopsEarly(db: Db, bad: Id, restore: Id, accounting: Actor, management: Actor, publisher: Actor, reason: string)
    requires RollbackError(db, bad, restore, accounting, management, publisher).Some?
      || CreateError(db, db.versions[restore].file, db.versions[bad].slot, Some(RollbackRestore),
                     publisher, Some(bad), Some(bad), Some(restore)).Some?
    ensures Rollback(db, bad, restore, accounting, management, publisher, reason).1.Fail?
  {
    hide RollbackError, CreateError, Release, CopyFacts;
  }

  /** Nothing stands in the way of publishing the new version but its own facts and file. */
  lemma PreparedInOrder(db: Db, bad: Id, restore: Id, publisher: Actor)
    requires Inv(db) && bad < |db.versions| && restore < |db.versions| && db.versions[bad].status == Published
    requires CreateError(db, db.versions[restore].file, db.versions[bad].slot, Some(RollbackRestore),
                         publisher, Some(bad), Some(bad), Some(restore)).None?
    ensures var base, n := Prepared(db, bad, restore, publisher), |db.versions|;
      && n < |base.versions| && base.versions[n].status == Validated && base.versions[n].slot == db.versions[bad].slot
      && TransactionError(base, n).None?
      && (Publishable(base, n)
          <==> && n !in db.reference.blocking && AllMapped(db.reference, db.facts, restore)
               && MonthConfirmed(db.reference, db.versions[restore].file, db.versions[bad].slot))
  {
    hide Prepared, FirstLive, AllMapped, MonthConfirmed, CreateError, Copies, Chain, Owners, Evidence;
    NoConflictAhead(db, bad);
    PreparedShape(db, bad, restore, publisher);
    CopiesMapped(db, restore);
  }

  /** A rollback succeeds exactly when everything it asks for was in order before it began. */
  lemma RollbackSucceeds(db: Db, bad: Id, restore: Id, accounting: Actor, management: Actor, publisher: Actor,
                         reason: string)
    requires Inv(db)
    ensures Rollback(db, bad, restore, accounting, management, publisher, reason).1.Ok?
       <==> InOrder(db, bad, restore, accounting, management, publisher, reason)
  {
    hide Inv, RollbackError, Rollback, CreateError, Release, Publishable, TransactionError, BlankReason, AllMapped,
      MonthConfirmed, TakenElsewhere, Prepared, LetIn;
    RollbackAllowed(db, bad, restore, accounting, management, publisher);
    if RollbackError(db, bad, restore, accounting, management, publisher).None? {
      RollbackReady(db, bad, restore, accounting, management, publisher);
      CreateExactly(db, bad, restore, publisher);
      if CreateError(db, db.versions[restore].file, db.versions[bad].slot, Some(RollbackRestore),
                     publisher, Some(bad), Some(bad), Some(restore)).None? {
        RollbackParts(db, bad, restore, accounting, management, publisher, reason);
        PreparedInOrder(db, bad, restore, publisher);
        ReleaseExactly(Prepared(db, bad, restore, publisher), |db.versions|, accounting, management, publisher, reason);
      } else {
        StopsEarly(db, bad, restore, accounting, management, publisher, reason);
        FileConfirmed(db.reference, db.versions[restore].file, db.versions[bad].slot);
      }
    } else {
      StopsEarly(db, bad, restore, accounting, management, publisher, reason);
    }
  }

  /** A rollback only republishes what was published before: the version it restores was superseded, had a
      publication of its own, and carries both positive approvals. */
  lemma RestoredWasPublished(db: Db, bad: Id, restore: Id, accounting: Actor, management: Actor, publisher: Actor,
                             reason: string)
    requires Inv(db) && Rollback(db, bad, restore, accounting, management, publisher, reason).1.Ok?
    ensures restore < |db.versions| && db.versions[restore].status == Superseded
    ensures exists k :: 0 <= k < |db.publications| && db.publications[k].version == restore && !db.publications[k].live
    ensures var trail := Trail(db.approvals, restore);
      |trail| == 2 && Vouches(trail[0], Accounting, true) && Vouches(trail[1], Management, true)
  {
    hide Rollback, Chain, Trail, Vouches, InOrder;
    RollbackSucceeds(db, bad, restore, accounting, management, publisher, reason);
    RestoredStatus(db, bad, restore, accounting, management, publisher, reason);
    assert HasPublication(db.publications, restore);
    var k :| 0 <= k < |db.publications| && db.publications[k].version == restore;
    assert OwnerStatus(db.versions, db.publications, k);
    assert Documented(Trail(db.approvals, restore), db.versions[restore].status);
  }

  lemma RestoredStatus(db: Db, bad: Id, restore: Id, accounting: Actor, management: Actor, publisher: Actor, reason: string)
    requires InOrder(db, bad, restore, accounting, management, publisher, reason)
    ensures restore < |db.versions| && db.versions[restore].status == Superseded
  {
  }

  lemma FileConfirmed(reference: Reference, file: Id, slot: Slot)
    ensures MonthConfirmed(reference, file, slot) ==> file in reference.files
  {
  }

  lemma RollbackReady(db: Db, bad: Id, restore: Id, accounting: Actor, management: Actor, publisher: Actor)
    requires RollbackError(db, bad, restore, accounting, management, publisher).None?
    ensures bad < |db.versions| && restore < |db.versions| && db.versions[bad].status == Published
    ensures forall a :: a in [accounting, management, publisher] ==>
              CanAccess(a, db.versions[bad].slot.scopeType, db.versions[bad].slot.scopeId)
    ensures CanAccess(publisher, db.versions[bad].slot.scopeType, db.versions[bad].slot.scopeId)
  {
    hide CanAccess;
    assert publisher in [accounting, management, publisher];
  }
}
