/** What every reachable state of the accounting core satisfies, and what no call ever undoes. */
module AccountingInvariants {
  import opened Options
  import opened AccountingTables

  // ---------------------------------------------------------------- the invariant

  /** The last publication of a slot among the first n. */
  function Predecessor(publications: seq<Publication>, slot: Slot, n: nat): (r: Option<Id>)
    requires n <= |publications|
    ensures r.Some? ==> r.value < n && publications[r.value].slot == slot
                        && forall k :: r.value < k < n ==> publications[k].slot != slot
    ensures r.None? ==> forall k :: 0 <= k < n ==> publications[k].slot != slot
  {
    if n == 0 then None
    else if publications[n - 1].slot == slot then Some(n - 1)
    else Predecessor(publications, slot, n - 1)
  }

  function Latest(publications: seq<Publication>, slot: Slot): Option<Id> {
    Predecessor(publications, slot, |publications|)
  }

  /** Every publication belongs to a version of its slot, every fact and approval to a version. */
  predicate Placed(versions: seq<Version>, publications: seq<Publication>) {
    forall k :: 0 <= k < |publications| ==>
      publications[k].version < |versions| && versions[publications[k].version].slot == publications[k].slot
  }

  predicate RowsBelong(db: Db) {
    && (forall k :: 0 <= k < |db.facts| ==> db.facts[k].version < |db.versions|)
    && (forall k :: 0 <= k < |db.approvals| ==> db.approvals[k].version < |db.versions|)
  }

  /** Link k of the chain of its slot: it names the publication before it, the version behind it names
      the version before it, and it is live just when no publication of the slot comes after it. */
  predicate Linked(versions: seq<Version>, publications: seq<Publication>, k: nat)
    requires Placed(versions, publications) && k < |publications|
  {
    var p := publications[k];
    var before := Predecessor(publications, p.slot, k);
    && p.supersedes == before
    && (p.live <==> Latest(publications, p.slot) == Some(k))
    && (before.Some? ==> versions[p.version].supersedes == Some(publications[before.value].version))
  }

  /** The publications of one slot form a single chain in the order of insertion. */
  predicate Chain(versions: seq<Version>, publications: seq<Publication>)
    requires Placed(versions, publications)
  {
    forall k :: 0 <= k < |publications| ==> Linked(versions, publications, k)
  }

  predicate IsPublic(status: Status) {
    status == Published || status == Superseded
  }

  /** A version is published at most once, and its status says whether that publication is live. */
  predicate Owners(versions: seq<Version>, publications: seq<Publication>)
    requires Placed(versions, publications)
  {
    && PublishedOnce(publications)
    && (forall k :: 0 <= k < |publications| ==> OwnerStatus(versions, publications, k))
    && (forall v :: 0 <= v < |versions| && IsPublic(versions[v].status) ==> HasPublication(publications, v))
  }

  predicate PublishedOnce(publications: seq<Publication>) {
    forall i, j :: 0 <= i < j < |publications| ==> publications[i].version != publications[j].version
  }

  predicate OwnerStatus(versions: seq<Version>, publications: seq<Publication>, k: nat)
    requires Placed(versions, publications) && k < |publications|
  {
    versions[publications[k].version].status == if publications[k].live then Published else Superseded
  }

  predicate HasPublication(publications: seq<Publication>, v: Id) {
    exists k :: 0 <= k < |publications| && publications[k].version == v
  }

  /** The approvals of one version, oldest first. */
  function Trail(approvals: seq<Approval>, version: Id): seq<Approval> {
    if approvals == [] then []
    else
      var n := |approvals| - 1;
      Trail(approvals[..n], version) + (if approvals[n].version == version then [approvals[n]] else [])
  }

  predicate Vouches(a: Approval, stage: Stage, approved: bool) {
    a.stage == stage && a.approved == approved && !BlankReason(a.reason) && HasRole(a.actor, {Reviewer(stage)})
  }

  /** The approvals a version has, given its status. */
  predicate Documented(trail: seq<Approval>, status: Status) {
    match status
    case Imported => trail == []
    case Validated => trail == []
    case AccountingApproved => |trail| == 1 && Vouches(trail[0], Accounting, true)
    case AccountingRejected => |trail| == 1 && Vouches(trail[0], Accounting, false)
    case ManagementRejected =>
      |trail| == 2 && Vouches(trail[0], Accounting, true) && Vouches(trail[1], Management, false)
    case _ =>
      |trail| == 2 && Vouches(trail[0], Accounting, true) && Vouches(trail[1], Management, true)
  }

  predicate Evidence(versions: seq<Version>, approvals: seq<Approval>) {
    forall v :: 0 <= v < |versions| ==> Documented(Trail(approvals, v), versions[v].status)
  }

  predicate ByAdmins(publications: seq<Publication>) {
    forall k :: 0 <= k < |publications| ==> HasRole(publications[k].actor, {AccountingAdmin})
  }

  predicate Inv(db: Db) {
    && RowsBelong(db) && Placed(db.versions, db.publications)
    && Chain(db.versions, db.publications) && Owners(db.versions, db.publications)
    && Evidence(db.versions, db.approvals) && ByAdmins(db.publications)
  }

  // ---------------------------------------------------------------- steps that do not publish

  /** The same versions but for their statuses, and perhaps more; no status becomes or stops being public. */
  predicate Quiet(a: seq<Version>, b: seq<Version>) {
    && |a| <= |b|
    && (forall v :: 0 <= v < |a| ==> b[v] == a[v].(status := b[v].status))
    && (forall v :: 0 <= v < |b| && IsPublic(b[v].status) ==> v < |a|)
    && (forall v :: 0 <= v < |a| && (IsPublic(a[v].status) || IsPublic(b[v].status)) ==> b[v].status == a[v].status)
  }

  lemma ChainStays(a: seq<Version>, b: seq<Version>, publications: seq<Publication>)
    requires Placed(a, publications) && Chain(a, publications) && Owners(a, publications) && Quiet(a, b)
    ensures Placed(b, publications) && Chain(b, publications) && Owners(b, publications)
  {
    assert Placed(b, publications);
    assert Chain(b, publications) by {
      hide Owners, Predecessor;
      forall k | 0 <= k < |publications| ensures Linked(b, publications, k) {
        assert Linked(a, publications, k);
      }
    }
    assert Owners(b, publications) by {
      hide Linked, Predecessor;
      forall k | 0 <= k < |publications| ensures OwnerStatus(b, publications, k) {
        assert OwnerStatus(a, publications, k);
      }
      forall v | 0 <= v < |b| && IsPublic(b[v].status) ensures HasPublication(publications, v) {
        assert IsPublic(a[v].status);
      }
    }
  }

  lemma {:induction false} NoTrail(approvals: seq<Approval>, version: Id)
    requires forall k :: 0 <= k < |approvals| ==> approvals[k].version != version
    ensures Trail(approvals, version) == []
  {
    if approvals == [] {
    } else {
      NoTrail(approvals[..|approvals| - 1], version);
    }
  }

  lemma TrailGrows(approvals: seq<Approval>, a: Approval, version: Id)
    ensures Trail(approvals + [a], version) == Trail(approvals, version) + (if a.version == version then [a] else [])
  {
    assert (approvals + [a])[..|approvals|] == approvals;
  }

  lemma CreateKeeps(db: Db, file: Id, slot: Slot, kind: Option<Kind>, actor: Actor,
                    prior: Option<Id>, supersedes: Option<Id>, restores: Option<Id>)
    requires Inv(db)
    ensures Inv(CreateVersion(db, file, slot, kind, actor, prior, supersedes, restores).0)
  {
    hide LabelTaken, MaxNumber, Chain, Owners;
    var next := CreateVersion(db, file, slot, kind, actor, prior, supersedes, restores).0;
    ChainStays(db.versions, next.versions, db.publications);
    NoTrail(db.approvals, |db.versions|);
  }

  /** Two statuses that ask for the same approvals. */
  predicate SameProof(a: Status, b: Status) {
    || (a == Imported && b == Validated)
    || (a == ManagementApproved && b == Published)
    || (a == Published && b == Superseded)
  }

  lemma EvidenceStays(versions: seq<Version>, approvals: seq<Approval>, id: Id, status: Status)
    requires Evidence(versions, approvals) && id < |versions| && SameProof(versions[id].status, status)
    ensures Evidence(SetStatus(versions, id, status), approvals)
  {
    hide Trail, Vouches;
    var after := SetStatus(versions, id, status);
    forall v | 0 <= v < |after| ensures Documented(Trail(approvals, v), after[v].status) {
      assert Documented(Trail(approvals, v), versions[v].status);
    }
  }

  lemma EvidenceGrows(versions: seq<Version>, approvals: seq<Approval>, a: Approval)
    requires Evidence(versions, approvals) && a.version < |versions|
    requires versions[a.version].status == Awaiting(a.stage) && Vouches(a, a.stage, a.approved)
    ensures Evidence(SetStatus(versions, a.version, Decided(a.stage, a.approved)), approvals + [a])
  {
    hide Trail, Vouches;
    var after := SetStatus(versions, a.version, Decided(a.stage, a.approved));
    forall v | 0 <= v < |after| ensures Documented(Trail(approvals + [a], v), after[v].status) {
      assert Documented(Trail(approvals, v), versions[v].status);
      TrailGrows(approvals, a, v);
    }
  }

  lemma ValidateKeeps(db: Db, id: Id, actor: Actor)
    requires Inv(db)
    ensures Inv(ValidateVersion(db, id, actor).0)
  {
    if ValidateError(db, id, actor).None? {
      hide Chain, Owners, Evidence, CanAccess;
      ChainStays(db.versions, SetStatus(db.versions, id, Validated), db.publications);
      EvidenceStays(db.versions, db.approvals, id, Validated);
    }
  }

  lemma ApproveKeeps(db: Db, id: Id, stage: string, decision: string, reason: string, actor: Actor)
    requires Inv(db)
    ensures Inv(Approve(db, id, stage, decision, reason, actor).0)
  {
    if ApproveError(db, id, stage, decision, reason, actor).None? {
      var s, approved := StageOf(stage).value, decision == "approved";
      hide Chain, Owners, Evidence, CanAccess, BlankReason, StageOf;
      ChainStays(db.versions, SetStatus(db.versions, id, Decided(s, approved)), db.publications);
      EvidenceGrows(db.versions, db.approvals, Approval(id, s, approved, reason, actor));
    }
  }

  lemma CopyKeeps(db: Db, from: Id, to: Id)
    requires Inv(db) && to < |db.versions| && db.versions[to].status == Imported
    ensures Inv(CopyFacts(db, from, to))
  {
    hide Chain, Owners, Evidence;
    CopiesAre(db.facts, from, to);
    ChainStays(db.versions, SetStatus(db.versions, to, Validated), db.publications);
    EvidenceStays(db.versions, db.approvals, to, Validated);
  }

  lemma {:induction false} CopiesAre(facts: seq<Fact>, from: Id, to: Id)
    ensures forall k :: 0 <= k < |Copies(facts, from, to)| ==>
              Copies(facts, from, to)[k].version == to && Copies(facts, from, to)[k].status == VALIDATED
  {
    if facts == [] {
    } else {
      CopiesAre(facts[..|facts| - 1], from, to);
    }
  }

  // ---------------------------------------------------------------- publishing

  /** The first live publication of a slot is the last one of its chain. */
  lemma LiveIsLatest(versions: seq<Version>, publications: seq<Publication>, slot: Slot)
    requires Placed(versions, publications) && Chain(versions, publications)
    ensures FirstLive(publications, slot) == Latest(publications, slot)
  {
    hide FirstLive, Predecessor;
    var live, last := FirstLive(publications, slot), Latest(publications, slot);
    if live.Some? { assert Linked(versions, publications, live.value); }
    if last.Some? { assert Linked(versions, publications, last.value); }
  }

  /** The last publication of a slot is live and its version has the status published. */
  lemma LatestOwner(versions: seq<Version>, publications: seq<Publication>, slot: Slot)
    requires Placed(versions, publications) && Chain(versions, publications) && Owners(versions, publications)
    ensures var k := Latest(publications, slot);
      k.Some? ==> publications[k.value].live && publications[k.value].slot == slot
                  && versions[publications[k.value].version].status == Published
  {
    hide Predecessor;
    var k := Latest(publications, slot);
    if k.Some? {
      assert Linked(versions, publications, k.value) && OwnerStatus(versions, publications, k.value);
    }
  }

  lemma {:induction false} PredecessorSame(a: seq<Publication>, b: seq<Publication>, slot: Slot, n: nat)
    requires n <= |a| && n <= |b| && forall k :: 0 <= k < n ==> a[k].slot == b[k].slot
    ensures Predecessor(a, slot, n) == Predecessor(b, slot, n)
  {
    if n > 0 { PredecessorSame(a, b, slot, n - 1); }
  }

  /** Retiring the last publication of a slot and adding the next one keeps the chain. */
  lemma ChainGrows(a: seq<Version>, b: seq<Version>, publications: seq<Publication>, p: Publication)
    requires Placed(a, publications) && Chain(a, publications)
    requires |a| == |b| && forall v :: 0 <= v < |a| ==> b[v] == a[v].(status := b[v].status)
    requires p.version < |b| && b[p.version].slot == p.slot
    requires p.live && p.supersedes == Latest(publications, p.slot)
    requires p.supersedes.Some? ==> b[p.version].supersedes == Some(publications[p.supersedes.value].version)
    ensures Placed(b, Retire(publications, p.supersedes) + [p])
    ensures Chain(b, Retire(publications, p.supersedes) + [p])
  {
    var n, next := |publications|, Retire(publications, p.supersedes) + [p];
    assert Placed(b, next);
    forall k | 0 <= k <= n ensures Linked(b, next, k) {
      PredecessorsGrow(publications, p, next[k].slot, k);
      hide Predecessor, Chain, Placed;
      if k < n { LinkStays(a, b, publications, p, k); }
    }
  }

  lemma PredecessorsGrow(publications: seq<Publication>, p: Publication, slot: Slot, k: nat)
    requires k <= |publications| && (p.supersedes.Some? ==> p.supersedes.value < |publications|)
    ensures var next := Retire(publications, p.supersedes) + [p];
      && Predecessor(next, slot, k) == Predecessor(publications, slot, k)
      && Latest(next, slot) == if slot == p.slot then Some(|publications|) else Latest(publications, slot)
  {
    var next := Retire(publications, p.supersedes) + [p];
    PredecessorSame(publications, next, slot, k);
    PredecessorSame(publications, next, slot, |publications|);
  }

  lemma LinkStays(a: seq<Version>, b: seq<Version>, publications: seq<Publication>, p: Publication, k: nat)
    requires Placed(a, publications) && Chain(a, publications) && k < |publications|
    requires |a| == |b| && forall v :: 0 <= v < |a| ==> b[v] == a[v].(status := b[v].status)
    requires p.supersedes == Latest(publications, p.slot)
    requires Placed(b, Retire(publications, p.supersedes) + [p])
    ensures Linked(b, Retire(publications, p.supersedes) + [p], k)
  {
    var next := Retire(publications, p.supersedes) + [p];
    PredecessorsGrow(publications, p, publications[k].slot, k);
    hide Predecessor;
    assert Linked(a, publications, k);
    var before := Predecessor(publications, publications[k].slot, k);
    if before.Some? { assert next[before.value].version == publications[before.value].version; }
  }

  /** The version published takes over from the one that owned the live publication. */
  lemma OwnersChange(versions: seq<Version>, publications: seq<Publication>, p: Publication)
    requires Placed(versions, publications) && Chain(versions, publications) && Owners(versions, publications)
    requires p.version < |versions| && !IsPublic(versions[p.version].status) && p.live
    requires versions[p.version].slot == p.slot && p.supersedes == Latest(publications, p.slot)
    requires Placed(Retired(versions, publications, p), Retire(publications, p.supersedes) + [p])
    ensures Owners(Retired(versions, publications, p), Retire(publications, p.supersedes) + [p])
  {
    var n, after, next := |publications|, Retired(versions, publications, p), Retire(publications, p.supersedes) + [p];
    hide Predecessor, Chain;
    forall k | 0 <= k < n ensures publications[k].version != p.version && next[k].version == publications[k].version {
      assert OwnerStatus(versions, publications, k);
    }
    assert next[n] == p;
    forall k | 0 <= k <= n ensures OwnerStatus(after, next, k) {
      if k < n { assert OwnerStatus(versions, publications, k); }
    }
    hide OwnerStatus;
    forall v | 0 <= v < |after| && IsPublic(after[v].status) ensures HasPublication(next, v) {
      if v == p.version { assert next[n].version == v; } else { StillOwned(versions, publications, p, v); }
    }
  }

  lemma StillOwned(versions: seq<Version>, publications: seq<Publication>, p: Publication, v: Id)
    requires Placed(versions, publications) && Owners(versions, publications)
    requires p.version < |versions| && (p.supersedes.Some? ==> p.supersedes.value < |publications|)
    requires v < |versions| && v != p.version && IsPublic(Retired(versions, publications, p)[v].status)
    ensures HasPublication(Retire(publications, p.supersedes) + [p], v)
  {
    hide OwnerStatus, PublishedOnce;
    assert HasPublication(publications, v);
    var k: nat :| k < |publications| && publications[k].version == v;
    assert (Retire(publications, p.supersedes) + [p])[k].version == v;
  }

  function Retired(versions: seq<Version>, publications: seq<Publication>, p: Publication): seq<Version>
    requires p.version < |versions| && (p.supersedes.Some? ==> p.supersedes.value < |publications|)
  {
    SetStatus(SupersedeOwner(versions, publications, p.supersedes), p.version, Published)
  }

  lemma PublishKeeps(db: Db, id: Id, actor: Actor)
    requires Inv(db)
    ensures Inv(Publish(db, id, actor).0)
  {
    if PublishError(db, id, actor).None? {
      var p := Publication(id, db.versions[id].slot, true, FirstLive(db.publications, db.versions[id].slot), actor);
      LiveIsLatest(db.versions, db.publications, p.slot);
      var after := Retired(db.versions, db.publications, p);
      ChainGrows(db.versions, after, db.publications, p);
      OwnersChange(db.versions, db.publications, p);
      PublishEvidence(db, p);
    }
  }

  lemma PublishEvidence(db: Db, p: Publication)
    requires Inv(db) && p.version < |db.versions| && db.versions[p.version].status == ManagementApproved
    requires p.supersedes == Latest(db.publications, p.slot) && HasRole(p.actor, {AccountingAdmin})
    ensures Evidence(Retired(db.versions, db.publications, p), db.approvals)
    ensures ByAdmins(Retire(db.publications, p.supersedes) + [p])
  {
    LatestOwner(db.versions, db.publications, p.slot);
    hide Predecessor, Evidence, Chain, Owners;
    if p.supersedes.Some? {
      EvidenceStays(db.versions, db.approvals, db.publications[p.supersedes.value].version, Superseded);
    }
    EvidenceStays(SupersedeOwner(db.versions, db.publications, p.supersedes), db.approvals, p.version, Published);
  }

  // ---------------------------------------------------------------- every reachable state

  lemma ReleaseKeeps(db: Db, id: Id, accounting: Actor, management: Actor, publisher: Actor, reason: string)
    requires Inv(db)
    ensures Inv(Release(db, id, accounting, management, publisher, reason).0)
  {
    hide Inv, Approve, Publish;
    var reviewed := Approve(db, id, "accounting", "approved", reason, accounting).0;
    ApproveKeeps(db, id, "accounting", "approved", reason, accounting);
    ApproveKeeps(reviewed, id, "management", "approved", reason, management);
    PublishKeeps(Approve(reviewed, id, "management", "approved", reason, management).0, id, publisher);
  }

  /** The versions of a rollback that is not rejected at first. */
  lemma RollbackVersions(db: Db, bad: Id, restore: Id, accounting: Actor, management: Actor, publisher: Actor)
    requires RollbackError(db, bad, restore, accounting, management, publisher).None?
    ensures bad < |db.versions| && restore < |db.versions| && db.versions[bad].status == Published
  {
  }

  lemma RollbackKeeps(db: Db, bad: Id, restore: Id, accounting: Actor, management: Actor, publisher: Actor, reason: string)
    requires Inv(db)
    ensures Inv(Rollback(db, bad, restore, accounting, management, publisher, reason).0)
  {
    if RollbackError(db, bad, restore, accounting, management, publisher).None? {
      var file, slot := db.versions[restore].file, db.versions[bad].slot;
      var created := CreateVersion(db, file, slot, Some(RollbackRestore), publisher, Some(bad), Some(bad), Some(restore));
      CreateKeeps(db, file, slot, Some(RollbackRestore), publisher, Some(bad), Some(bad), Some(restore));
      hide Inv, CreateError, RollbackError, Release;
      if created.1.Ok? {
        var id, copied := created.1.value, CopyFacts(created.0, restore, created.1.value);
        CopyKeeps(created.0, restore, id);
        hide CopyFacts, CreateVersion;
        ReleaseKeeps(copied, id, accounting, management, publisher, reason);
        AuditIrrelevant(Release(copied, id, accounting, management, publisher, reason).0,
                        Audit(publisher.id, "rollback", id, reason));
      }
    }
  }

  lemma AuditIrrelevant(db: Db, audit: Audit)
    requires Inv(db)
    ensures Inv(db.(audits := db.audits + [audit]))
  {
  }

  lemma ApplyKeeps(db: Db, step: Step)
    requires Inv(db)
    ensures Inv(Apply(db, step))
  {
    match step {
      case CreateStep(file, slot, kind, actor, prior, supersedes, restores) =>
        CreateKeeps(db, file, slot, kind, actor, prior, supersedes, restores);
      case ValidateStep(version, actor) => ValidateKeeps(db, version, actor);
      case ApproveStep(version, stage, decision, reason, actor) =>
        ApproveKeeps(db, version, stage, decision, reason, actor);
      case PublishStep(version, actor) => PublishKeeps(db, version, actor);
      case RollbackStep(bad, restore, accounting, management, publisher, reason) =>
        RollbackKeeps(db, bad, restore, accounting, management, publisher, reason);
      case ImportStep(fact) =>
      case ReferenceStep(reference) =>
    }
  }

  /** The invariant holds in every state a run can reach. */
  lemma {:induction false} RunKeeps(db: Db, steps: seq<Step>)
    requires Inv(db)
    ensures Inv(Run(db, steps))
    decreases |steps|
  {
    if steps == [] {
    } else {
      ApplyKeeps(db, steps[0]);
      RunKeeps(Apply(db, steps[0]), steps[1..]);
    }
  }
}
