/** The promises of the accounting core, stated over runs and over whole rollbacks. */
module AccountingGuarantees {
  import opened Options
  import opened AccountingTables
  import opened AccountingInvariants
  import opened AccountingRollback

  // ---------------------------------------------------------------- publications of a run

  lemma EmptyHolds()
    ensures Inv(EMPTY)
  {
  }

  /** In every reachable state, what was ever published carries one accounting approval and then one
      management approval, reasoned and given by the two reviewing roles, and was published by an
      admin: three different people, when nobody acts in two roles. */
  lemma PublishedProof(steps: seq<Step>, k: nat)
    requires k < |Run(EMPTY, steps).publications|
    ensures var db := Run(EMPTY, steps);
      var p := db.publications[k];
      var trail := Trail(db.approvals, p.version);
      && |trail| == 2 && Vouches(trail[0], Accounting, true) && Vouches(trail[1], Management, true)
      && HasRole(p.actor, {AccountingAdmin})
      && (OneRoleEach([trail[0].actor, trail[1].actor, p.actor])
          ==> DistinctPeople([trail[0].actor, trail[1].actor, p.actor]))
  {
    EmptyHolds();
    RunKeeps(EMPTY, steps);
    var db := Run(EMPTY, steps);
    hide Run, Chain, Linked, Trail;
    assert OwnerStatus(db.versions, db.publications, k);
    assert Documented(Trail(db.approvals, db.publications[k].version), db.versions[db.publications[k].version].status);
  }

  predicate OneRoleEach(actors: seq<Actor>) {
    forall i, j :: 0 <= i < |actors| && 0 <= j < |actors| && actors[i].id == actors[j].id ==> actors[i].role == actors[j].role
  }

  predicate DistinctPeople(actors: seq<Actor>) {
    forall i, j :: 0 <= i < j < |actors| ==> actors[i].id != actors[j].id
  }

  /** In every reachable state the publications of a slot form one chain, only its last link is live,
      and a version is published exactly when it owns that link. */
  lemma OneChain(steps: seq<Step>)
    ensures var db := Run(EMPTY, steps);
      && Placed(db.versions, db.publications) && Chain(db.versions, db.publications)
      && forall v :: 0 <= v < |db.versions| ==>
           (db.versions[v].status == Published
            <==> var last := Latest(db.publications, db.versions[v].slot);
                 last.Some? && db.publications[last.value].version == v)
  {
    EmptyHolds();
    RunKeeps(EMPTY, steps);
    var db := Run(EMPTY, steps);
    hide Run, Predecessor, Evidence;
    forall v | 0 <= v < |db.versions|
      ensures db.versions[v].status == Published
         <==> var last := Latest(db.publications, db.versions[v].slot);
              last.Some? && db.publications[last.value].version == v
    {
      LatestOwner(db.versions, db.publications, db.versions[v].slot);
      if db.versions[v].status == Published { LiveVersion(db.versions, db.publications, v); }
    }
  }

  /** A version whose status is published owns the last publication of its slot. */
  lemma LiveVersion(versions: seq<Version>, publications: seq<Publication>, v: Id)
    requires Placed(versions, publications) && Chain(versions, publications) && Owners(versions, publications)
    requires v < |versions| && versions[v].status == Published
    ensures var last := Latest(publications, versions[v].slot);
      last.Some? && publications[last.value].version == v
  {
    hide Predecessor;
    assert HasPublication(publications, v);
    var k: nat :| k < |publications| && publications[k].version == v;
    assert OwnerStatus(versions, publications, k) && Linked(versions, publications, k);
  }

  /** The period of the fact is confirmed by the file it came from. */
  predicate PeriodConfirmed(db: Db, f: Fact) {
    && f.content.sourceFile in db.reference.files
    && db.reference.files[f.content.sourceFile].confirmedThrough.Some?
    && f.content.period <= db.reference.files[f.content.sourceFile].confirmedThrough.value
  }

  /** Over any run, what consumers see is exactly the published facts of published versions in confirmed
      periods; each such version carries both approvals, and there is one at most for a scope and month. */
  lemma SeenIsApproved(steps: seq<Step>, i: nat, j: nat)
    requires i < |Run(EMPTY, steps).facts| && j < |Run(EMPTY, steps).facts|
    ensures var db := Run(EMPTY, steps);
      var v, w := db.facts[i].version, db.facts[j].version;
      && v < |db.versions| && w < |db.versions|
      && (Visible(db, i)
          <==> db.facts[i].status == "published" && db.versions[v].status == Published && PeriodConfirmed(db, db.facts[i]))
      && (Visible(db, i) ==>
            var trail := Trail(db.approvals, v);
            |trail| == 2 && Vouches(trail[0], Accounting, true) && Vouches(trail[1], Management, true))
      && (Visible(db, i) && Visible(db, j) && db.versions[v].slot == db.versions[w].slot ==> v == w)
  {
    EmptyHolds();
    RunKeeps(EMPTY, steps);
    var db := Run(EMPTY, steps);
    hide Run, Chain, Linked, Trail, Vouches, Latest;
    var v, w := db.facts[i].version, db.facts[j].version;
    assert Documented(Trail(db.approvals, v), db.versions[v].status);
    if db.versions[v].status == Published {
      assert HasPublication(db.publications, v);
      var k: nat :| k < |db.publications| && db.publications[k].version == v;
      assert OwnerStatus(db.versions, db.publications, k);
      LiveVersion(db.versions, db.publications, v);
    }
    if db.versions[w].status == Published { LiveVersion(db.versions, db.publications, w); }
  }

  /** The version that the version behind publication k names as superseded. */
  function Named(db: Db, k: nat): Option<Id>
    requires k < |db.publications|
  {
    var v := db.publications[k].version;
    if v < |db.versions| then db.versions[v].supersedes else None
  }

  /** No two publications that follow another one supersede the same version. */
  lemma NoSharedPredecessor(steps: seq<Step>, i: nat, j: nat)
    requires i < j < |Run(EMPTY, steps).publications|
    requires Run(EMPTY, steps).publications[i].supersedes.Some? && Run(EMPTY, steps).publications[j].supersedes.Some?
    ensures var db := Run(EMPTY, steps);
      Named(db, i).Some? && Named(db, j).Some? && Named(db, i) != Named(db, j)
  {
    EmptyHolds();
    RunKeeps(EMPTY, steps);
    var db := Run(EMPTY, steps);
    hide Run, Predecessor, Evidence;
    assert Linked(db.versions, db.publications, i) && Linked(db.versions, db.publications, j);
    var a, b := db.publications[i].supersedes.value, db.publications[j].supersedes.value;
    assert db.publications[a].slot == db.publications[i].slot && db.publications[b].slot == db.publications[j].slot;
  }

  // ---------------------------------------------------------------- rollback

  /** The state of a rollback before its last three calls: the new version exists, validated, and holds
      copies of the restored facts. */
  function Prepared(db: Db, bad: Id, restore: Id, publisher: Actor): Db
    requires bad < |db.versions| && restore < |db.versions|
  {
    var created := CreateVersion(db, db.versions[restore].file, db.versions[bad].slot, Some(RollbackRestore),
                                 publisher, Some(bad), Some(bad), Some(restore));
    if created.1.Ok? then CopyFacts(created.0, restore, created.1.value) else db
  }

  predicate NewVersion(db: Db, base: Db, bad: Id, restore: Id) {
    var n := |db.versions|;
    && |base.versions| == n + 1 && base.versions[..n] == db.versions
    && bad < n && base.versions[n].slot == db.versions[bad].slot && base.versions[n].supersedes == Some(bad)
    && restore < n && base.versions[n].file == db.versions[restore].file && base.versions[n].restores == Some(restore)
  }

  lemma PreparedShape(db: Db, bad: Id, restore: Id, publisher: Actor)
    requires bad < |db.versions| && restore < |db.versions|
    requires CreateError(db, db.versions[restore].file, db.versions[bad].slot, Some(RollbackRestore),
                         publisher, Some(bad), Some(bad), Some(restore)).None?
    ensures var base := Prepared(db, bad, restore, publisher);
      && NewVersion(db, base, bad, restore) && base.versions[|db.versions|].status == Validated
      && base.publications == db.publications && base.reference == db.reference
      && base.facts == db.facts + Copies(db.facts, restore, |db.versions|)
  {
    hide LabelTaken, MaxNumber, Copies;
  }

  /** Approving never touches publications, facts or other versions. */
  lemma ApproveShape(db: Db, id: Id, stage: string, decision: string, reason: string, actor: Actor)
    requires id < |db.versions|
    ensures var next := Approve(db, id, stage, decision, reason, actor);
      && next.0 == db.(versions := next.0.versions, approvals := next.0.approvals, audits := next.0.audits)
      && next.0.versions == SetStatus(db.versions, id, next.0.versions[id].status)
      && (next.1.Fail? ==> next.0 == db && next.1.error != Conflict)
      && (next.1.Ok? ==> !IsPublic(next.0.versions[id].status))
  {
    hide BlankReason, CanAccess;
    assert db.versions == SetStatus(db.versions, id, db.versions[id].status);
  }

  /** A failed release leaves all but the one version's unpublished status; a successful one publishes it. */
  lemma ReleaseShape(db: Db, id: Id, accounting: Actor, management: Actor, publisher: Actor, reason: string)
    requires id < |db.versions| && !IsPublic(db.versions[id].status)
    requires var active := FirstLive(db.publications, db.versions[id].slot);
      active.Some? ==> db.versions[id].supersedes == Some(db.publications[active.value].version)
    ensures var next := Release(db, id, accounting, management, publisher, reason);
      && next.1 != Fail(Conflict)
      && (next.1.Fail? ==>
           && next.0.publications == db.publications && next.0.facts == db.facts && next.0.reference == db.reference
           && |next.0.versions| == |db.versions| && !IsPublic(next.0.versions[id].status)
           && next.0.versions == SetStatus(db.versions, id, next.0.versions[id].status))
      && (next.1.Ok? ==>
           var active := FirstLive(db.publications, db.versions[id].slot);
           && next.0.publications == Retire(db.publications, active)
                                     + [Publication(id, db.versions[id].slot, true, active, publisher)]
           && next.0.facts == PublishFacts(db.facts, id)
           && next.0.versions == SetStatus(SupersedeOwner(db.versions, db.publications, active), id, Published))
  {
    hide Approve, CanAccess, FirstLive;
    var reviewed := Approve(db, id, "accounting", "approved", reason, accounting).0;
    var approved := Approve(reviewed, id, "management", "approved", reason, management).0;
    ApproveShape(db, id, "accounting", "approved", reason, accounting);
    ApproveShape(reviewed, id, "management", "approved", reason, management);
    PublishShape(approved, id, publisher);
    hide Publish;
    var active := FirstLive(db.publications, db.versions[id].slot);
    assert SetStatus(SupersedeOwner(approved.versions, db.publications, active), id, Published)
        == SetStatus(SupersedeOwner(db.versions, db.publications, active), id, Published);
  }

  lemma PublishShape(db: Db, id: Id, actor: Actor)
    requires id < |db.versions|
    requires var active := FirstLive(db.publications, db.versions[id].slot);
      active.Some? ==> db.versions[id].supersedes == Some(db.publications[active.value].version)
    ensures var next := Publish(db, id, actor);
      && next.1 != Fail(Conflict)
      && (next.1.Fail? ==> next.0 == db)
      && (next.1.Ok? ==>
           var active := FirstLive(db.publications, db.versions[id].slot);
           && next.0.publications == Retire(db.publications, active)
                                     + [Publication(id, db.versions[id].slot, true, active, actor)]
           && next.0.facts == PublishFacts(db.facts, id)
           && next.0.versions == SetStatus(SupersedeOwner(db.versions, db.publications, active), id, Published))
  {
    hide CanAccess, FirstLive;
  }

  /** When a rollback starts, the version to supersede owns the live publication of its slot. */
  lemma NoConflictAhead(db: Db, bad: Id)
    requires Inv(db) && bad < |db.versions| && db.versions[bad].status == Published
    ensures var active := FirstLive(db.publications, db.versions[bad].slot);
      active.Some? && db.publications[active.value].version == bad
  {
    hide Evidence, Predecessor;
    LiveIsLatest(db.versions, db.publications, db.versions[bad].slot);
    LiveVersion(db.versions, db.publications, bad);
  }

  lemma RollbackParts(db: Db, bad: Id, restore: Id, accounting: Actor, management: Actor, publisher: Actor, reason: string)
    requires Inv(db) && RollbackError(db, bad, restore, accounting, management, publisher).None?
    requires CreateError(db, db.versions[restore].file, db.versions[bad].slot, Some(RollbackRestore),
                         publisher, Some(bad), Some(bad), Some(restore)).None?
    ensures var base, n := Prepared(db, bad, restore, publisher), |db.versions|;
      var released := Release(base, n, accounting, management, publisher, reason);
      var next := Rollback(db, bad, restore, accounting, management, publisher, reason);
      && next.1 == (if released.1.Ok? then Ok(n) else Fail(released.1.error))
      && next.0.(audits := []) == released.0.(audits := [])
  {
    hide Release, LabelTaken, MaxNumber, Copies, CanAccess, Inv;
  }

  /** A rollback that goes through was neither rejected at first nor on creation. */
  lemma RollbackReaches(db: Db, bad: Id, restore: Id, accounting: Actor, management: Actor, publisher: Actor, reason: string)
    requires Rollback(db, bad, restore, accounting, management, publisher, reason).1.Ok?
    ensures bad < |db.versions| && restore < |db.versions| && db.versions[bad].status == Published
    ensures RollbackError(db, bad, restore, accounting, management, publisher).None?
    ensures CreateError(db, db.versions[restore].file, db.versions[bad].slot, Some(RollbackRestore),
                        publisher, Some(bad), Some(bad), Some(restore)).None?
  {
    hide Release, CanAccess;
  }

  /** What a rollback that stops before its last three calls stops with. */
  lemma RollbackStops(db: Db, bad: Id, restore: Id, accounting: Actor, management: Actor, publisher: Actor, reason: string)
    ensures var error := RollbackError(db, bad, restore, accounting, management, publisher);
      error.Some? ==> error.value != Conflict
                      && Rollback(db, bad, restore, accounting, management, publisher, reason).1 == Fail(error.value)
    ensures RollbackError(db, bad, restore, accounting, management, publisher).None? ==>
      bad < |db.versions| && restore < |db.versions|
      && var error := CreateError(db, db.versions[restore].file, db.versions[bad].slot, Some(RollbackRestore),
                                  publisher, Some(bad), Some(bad), Some(restore));
         error.Some? ==> error.value != Conflict
                         && Rollback(db, bad, restore, accounting, management, publisher, reason).1 == Fail(error.value)
  {
    hide Release, CanAccess, LabelTaken, MaxNumber;
  }

  /** A rollback never fails on the conflict of publications. */
  lemma RollbackNeverConflicts(db: Db, bad: Id, restore: Id, accounting: Actor, management: Actor, publisher: Actor,
                               reason: string)
    requires Inv(db)
    ensures Rollback(db, bad, restore, accounting, management, publisher, reason).1 != Fail(Conflict)
  {
    hide Release, Rollback, Prepared, FirstLive, Inv, RollbackError, CreateError;
    RollbackStops(db, bad, restore, accounting, management, publisher, reason);
    if RollbackError(db, bad, restore, accounting, management, publisher).None? {
      RollbackVersions(db, bad, restore, accounting, management, publisher);
    }
    if RollbackError(db, bad, restore, accounting, management, publisher).None?
       && CreateError(db, db.versions[restore].file, db.versions[bad].slot, Some(RollbackRestore),
                      publisher, Some(bad), Some(bad), Some(restore)).None? {
      NoConflictAhead(db, bad);
      PreparedShape(db, bad, restore, publisher);
      RollbackParts(db, bad, restore, accounting, management, publisher, reason);
      ReleaseShape(Prepared(db, bad, restore, publisher), |db.versions|, accounting, management, publisher, reason);
    }
  }

  /** A successful rollback publishes a new version in place of the bad one and touches no other. */
  lemma RollbackReplaces(db: Db, bad: Id, restore: Id, accounting: Actor, management: Actor, publisher: Actor,
                         reason: string)
    requires Inv(db)
    requires Rollback(db, bad, restore, accounting, management, publisher, reason).1.Ok?
    ensures var next, n := Rollback(db, bad, restore, accounting, management, publisher, reason).0, |db.versions|;
      && Rollback(db, bad, restore, accounting, management, publisher, reason).1.value == n
      && bad < n && restore < n && |next.versions| == n + 1
      && next.versions[n].status == Published && next.versions[n].slot == db.versions[bad].slot
      && next.versions[n].supersedes == Some(bad) && next.versions[n].restores == Some(restore)
      && next.versions[bad] == db.versions[bad].(status := Superseded)
      && (forall v :: 0 <= v < n && v != bad ==> next.versions[v] == db.versions[v])
  {
    hide Release, Rollback, Prepared, FirstLive, Inv, RollbackError, CreateError, Copies, Retire, PublishFacts;
    RollbackReaches(db, bad, restore, accounting, management, publisher, reason);
    var n, base := |db.versions|, Prepared(db, bad, restore, publisher);
    NoConflictAhead(db, bad);
    PreparedShape(db, bad, restore, publisher);
    RollbackParts(db, bad, restore, accounting, management, publisher, reason);
    ReleaseShape(base, n, accounting, management, publisher, reason);
  }

  /** The new version has exactly the facts of the version it restores, in the same order, all of them
      published; its publication is live and the only other one that changes is that of the bad version. */
  lemma RollbackRestores(db: Db, bad: Id, restore: Id, accounting: Actor, management: Actor, publisher: Actor,
                         reason: string)
    requires Inv(db)
    requires Rollback(db, bad, restore, accounting, management, publisher, reason).1.Ok?
    ensures var next, n := Rollback(db, bad, restore, accounting, management, publisher, reason).0, |db.versions|;
      && Contents(next.facts, n) == Contents(db.facts, restore)
      && (forall k :: 0 <= k < |next.facts| && next.facts[k].version == n ==> next.facts[k].status == PUBLISHED)
      && |next.publications| == |db.publications| + 1
      && next.publications[|db.publications|].live && next.publications[|db.publications|].version == n
      && (forall k :: 0 <= k < |db.publications| && db.publications[k].version != bad ==>
            next.publications[k] == db.publications[k])
  {
    hide Release, Rollback, Prepared, FirstLive, Inv, RollbackError, CreateError, Copies, Contents, SupersedeOwner, SetStatus;
    RollbackReaches(db, bad, restore, accounting, management, publisher, reason);
    var n, base := |db.versions|, Prepared(db, bad, restore, publisher);
    NoConflictAhead(db, bad);
    PreparedShape(db, bad, restore, publisher);
    RollbackParts(db, bad, restore, accounting, management, publisher, reason);
    RestoredContents(db, restore);
    ReleaseShape(base, n, accounting, management, publisher, reason);
    SameContents(base.facts, PublishFacts(base.facts, n), n);
  }

  /** The facts copied for a version nobody referred to yet are all the facts it has. */
  lemma RestoredContents(db: Db, restore: Id)
    requires Inv(db)
    ensures Contents(db.facts + Copies(db.facts, restore, |db.versions|), |db.versions|) == Contents(db.facts, restore)
  {
    hide Chain, Owners, Evidence;
    var n := |db.versions|;
    ContentsConcat(db.facts, Copies(db.facts, restore, n), n);
    NoContents(db.facts, n);
    CopiesContents(db.facts, restore, n);
  }

  /** All a rejected rollback can leave behind: one unpublished version and its facts. */
  predicate Leftover(db: Db, next: Db) {
    && next.publications == db.publications && next.reference == db.reference
    && db.versions <= next.versions && db.facts <= next.facts
    && (forall v :: |db.versions| <= v < |next.versions| ==> next.versions[v].status != Published)
    && (forall k :: |db.facts| <= k < |next.facts| ==> next.facts[k].version >= |db.versions|)
  }

  lemma RejectedLeftover(db: Db, bad: Id, restore: Id, accounting: Actor, management: Actor, publisher: Actor,
                         reason: string)
    requires Inv(db) && RollbackError(db, bad, restore, accounting, management, publisher).None?
    requires CreateError(db, db.versions[restore].file, db.versions[bad].slot, Some(RollbackRestore),
                         publisher, Some(bad), Some(bad), Some(restore)).None?
    requires Rollback(db, bad, restore, accounting, management, publisher, reason).1.Fail?
    ensures Leftover(db, Rollback(db, bad, restore, accounting, management, publisher, reason).0)
  {
    hide Release, Rollback, Prepared, FirstLive, RollbackError, CreateError, Copies, Inv, Retire, SupersedeOwner, PublishFacts;
    RollbackVersions(db, bad, restore, accounting, management, publisher);
    var n, base := |db.versions|, Prepared(db, bad, restore, publisher);
    NoConflictAhead(db, bad);
    PreparedShape(db, bad, restore, publisher);
    RollbackParts(db, bad, restore, accounting, management, publisher, reason);
    CopiesAre(db.facts, restore, n);
    ReleaseShape(base, n, accounting, management, publisher, reason);
  }

  /** A rejected rollback, at whichever stage, leaves every publication, every earlier version, every
      fact row and everything consumers see as they were. */
  lemma RejectedRollbackHarmless(db: Db, bad: Id, restore: Id, accounting: Actor, management: Actor, publisher: Actor,
                                 reason: string)
    requires Inv(db)
    requires Rollback(db, bad, restore, accounting, management, publisher, reason).1.Fail?
    ensures var next := Rollback(db, bad, restore, accounting, management, publisher, reason).0;
      && next.publications == db.publications && db.versions <= next.versions && db.facts <= next.facts
      && forall k: nat :: Visible(next, k) <==> Visible(db, k)
  {
    hide Visible, Release, Chain, Owners, Evidence;
    var next := Rollback(db, bad, restore, accounting, management, publisher, reason).0;
    assert Leftover(db, next) by {
      if RollbackError(db, bad, restore, accounting, management, publisher).None?
         && CreateError(db, db.versions[restore].file, db.versions[bad].slot, Some(RollbackRestore),
                        publisher, Some(bad), Some(bad), Some(restore)).None? {
        hide Rollback, RollbackError, CreateError;
        RejectedLeftover(db, bad, restore, accounting, management, publisher, reason);
      }
    }
    hide Rollback;
    SameVisible(db, next);
  }

  lemma SameVisible(db: Db, next: Db)
    requires RowsBelong(db)
    requires Leftover(db, next)
    ensures forall k: nat :: Visible(next, k) <==> Visible(db, k)
  {
    forall k: nat ensures Visible(next, k) <==> Visible(db, k) {
      if k < |db.facts| {
        assert next.facts[k] == db.facts[k];
        assert next.versions[db.facts[k].version] == db.versions[db.facts[k].version];
      }
    }
  }

  // ---------------------------------------------------------------- version labels

  lemma {:induction false} MaxBounds(versions: seq<Version>, slot: Slot)
    ensures forall k :: 0 <= k < |versions| && versions[k].slot == slot ==> versions[k].number <= MaxNumber(versions, slot)
  {
    if versions == [] {
    } else {
      MaxBounds(versions[..|versions| - 1], slot);
    }
  }

  /** A version of the same month, kind and number in another scope. */
  predicate TakenElsewhere(versions: seq<Version>, slot: Slot, kind: Kind) {
    exists k :: 0 <= k < |versions| && versions[k].slot != slot
                && versions[k].slot.year == slot.year && versions[k].slot.month == slot.month
                && versions[k].kind == kind && versions[k].number == MaxNumber(versions, slot) + 1
  }

  /** The label of a version does not name its scope and must be unique, so an admin's new version is
      refused exactly when another scope already has the same kind and number in that month. */
  lemma RefusedForLabel(db: Db, file: Id, slot: Slot, kind: Kind, actor: Actor,
                        prior: Option<Id>, supersedes: Option<Id>, restores: Option<Id>)
    requires HasRole(actor, {AccountingAdmin}) && CanAccess(actor, slot.scopeType, slot.scopeId)
    requires file in db.reference.files
    requires Refers(db.versions, prior) && Refers(db.versions, supersedes) && Refers(db.versions, restores)
    ensures CreateVersion(db, file, slot, Some(kind), actor, prior, supersedes, restores).1 == Fail(Constraint)
       <==> TakenElsewhere(db.versions, slot, kind)
  {
    hide CanAccess, MaxNumber;
    MaxBounds(db.versions, slot);
  }

  /** Two stores cannot both open a draft for the same month. */
  lemma SecondStoreRefused(file: Id, admin: Actor, a: string, b: string, year: int, month: int, files: map<Id, ImportFile>)
    requires a != b && admin.trusted && admin.role == AccountingAdmin && admin.scope == AllGroup && file in files
    ensures var start := EMPTY.(reference := NO_REFERENCE.(files := files));
      var first := CreateVersion(start, file, Slot("store", a, year, month), Some(Draft), admin, None, None, None);
      first.1 == Ok(0)
      && CreateVersion(first.0, file, Slot("store", b, year, month), Some(Draft), admin, None, None, None).1
         == Fail(Constraint)
  {
    var start := EMPTY.(reference := NO_REFERENCE.(files := files));
    var first := CreateVersion(start, file, Slot("store", a, year, month), Some(Draft), admin, None, None, None);
    var slot := Slot("store", b, year, month);
    assert first.0.versions[..0] == [];
    assert first.1 == Ok(0) && first.0.versions[0].number == 1 && MaxNumber(first.0.versions, slot) == 0;
    hide CreateVersion;
    RefusedForLabel(first.0, file, slot, Draft, admin, None, None, None);
  }
}
