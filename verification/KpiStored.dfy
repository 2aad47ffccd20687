/** What saving leaves in the tables: each result with exactly its own fact ids. */
module KpiStored {
  import opened KpiCalculator
  import opened KpiTables
  import opened KpiGuarantees

  /** The fact ids stored for one role of one result row, in order of insertion. */
  function StoredIds(inputs: seq<InputRow>, result: nat, numerator: bool): seq<string> {
    if inputs == [] then []
    else
      var n := |inputs| - 1;
      StoredIds(inputs[..n], result, numerator)
      + (if inputs[n].result == result && inputs[n].numerator == numerator then [inputs[n].factId] else [])
  }

  lemma {:induction false} StoredConcat(a: seq<InputRow>, b: seq<InputRow>, result: nat, numerator: bool)
    ensures StoredIds(a + b, result, numerator) == StoredIds(a, result, numerator) + StoredIds(b, result, numerator)
    decreases |b|
  {
    if b == [] {
      assert a + b == a;
    } else {
      var ab := a + b;
      assert ab[..|ab| - 1] == a + b[..|b| - 1];
      StoredConcat(a, b[..|b| - 1], result, numerator);
    }
  }

  lemma {:induction false} StoredNone(inputs: seq<InputRow>, result: nat, numerator: bool)
    requires forall k :: 0 <= k < |inputs| ==> inputs[k].result != result || inputs[k].numerator != numerator
    ensures StoredIds(inputs, result, numerator) == []
  {
    if inputs == [] {
    } else {
      StoredNone(inputs[..|inputs| - 1], result, numerator);
    }
  }

  lemma {:induction false} StoredAll(inputs: seq<InputRow>, result: nat, numerator: bool, ids: seq<string>)
    requires |inputs| == |ids|
    requires forall k :: 0 <= k < |inputs| ==>
               inputs[k].result == result && inputs[k].numerator == numerator && inputs[k].factId == ids[k]
    ensures StoredIds(inputs, result, numerator) == ids
  {
    if inputs == [] {
    } else {
      var n := |inputs| - 1;
      StoredAll(inputs[..n], result, numerator, ids[..n]);
      assert ids == ids[..n] + [ids[n]];
    }
  }

  /** The rows of one role store the ids of that role and no others. */
  lemma RoleStored(registry: Registry, e: Expr, result: nat, numerator: bool, r: KpiResult, ids: seq<string>)
    requires RoleRows(registry, e, result, numerator, r, ids).Some?
    ensures var rows := RoleRows(registry, e, result, numerator, r, ids).value;
      && StoredIds(rows, result, numerator) == ids && StoredIds(rows, result, !numerator) == []
      && forall k :: 0 <= k < |rows| ==> rows[k].result == result
  {
    var rows := RoleRows(registry, e, result, numerator, r, ids).value;
    StoredAll(rows, result, numerator, ids);
    StoredNone(rows, result, !numerator);
  }

  /** The rows of one role of a result name the group under the top-level code of the expression, and the
      accounting version and scope of the result. */
  predicate GroupsStored(inputs: seq<InputRow>, result: nat, numerator: bool, e: Expr, groups: Groups, r: KpiResult) {
    forall k :: 0 <= k < |inputs| && inputs[k].result == result && inputs[k].numerator == numerator ==>
      && e.Dict? && e.code.CodeText? && e.code.text in groups && inputs[k].groupId == groups[e.code.text].id
      && inputs[k].version == r.version && inputs[k].scopeType == r.scopeType
  }

  lemma RoleGroups(registry: Registry, e: Expr, result: nat, numerator: bool, r: KpiResult, ids: seq<string>)
    requires RoleRows(registry, e, result, numerator, r, ids).Some?
    ensures GroupsStored(RoleRows(registry, e, result, numerator, r, ids).value, result, numerator, e, registry.groups, r)
  {
  }

  /** Both roles of a result name the groups of the definition under the code. */
  predicate NamesGroups(db: Kpi, row: nat, registry: Registry, code: string) {
    && code in registry.definitions && row < |db.results|
    && GroupsStored(db.inputs, row, true, registry.definitions[code].numerator, registry.groups, db.results[row].result)
    && GroupsStored(db.inputs, row, false, registry.definitions[code].denominator, registry.groups, db.results[row].result)
  }

  predicate Stores(db: Kpi, row: nat, run: nat, code: string, r: KpiResult) {
    && row < |db.results| && db.results[row] == ResultRow(run, code, r, false)
    && StoredIds(db.inputs, row, true) == r.numeratorIds && StoredIds(db.inputs, row, false) == r.denominatorIds
  }

  /** Result rows were appended, and input rows for results from a given row on. */
  predicate AddedBehind(db: Kpi, next: Kpi, from: nat) {
    && db.results <= next.results && db.inputs <= next.inputs
    && forall k :: |db.inputs| <= k < |next.inputs| ==> next.inputs[k].result >= from
  }

  lemma RowsStored(inputs: seq<InputRow>, a: seq<InputRow>, b: seq<InputRow>, row: nat, above: seq<string>, below: seq<string>)
    requires forall k :: 0 <= k < |inputs| ==> inputs[k].result != row
    requires StoredIds(a, row, true) == above && StoredIds(a, row, false) == []
    requires StoredIds(b, row, true) == [] && StoredIds(b, row, false) == below
    ensures StoredIds(inputs + a + b, row, true) == above && StoredIds(inputs + a + b, row, false) == below
  {
    hide StoredIds;
    StoredNone(inputs, row, true);
    StoredNone(inputs, row, false);
    StoredConcat(inputs, a, row, true);
    StoredConcat(inputs, a, row, false);
    StoredConcat(inputs + a, b, row, true);
    StoredConcat(inputs + a, b, row, false);
  }

  lemma SaveShape(db: Kpi, run: nat, code: string, r: KpiResult)
    requires code in db.registry.definitions && SaveUnder(db, run, code, r).1
    ensures var next, d, row := SaveUnder(db, run, code, r).0, db.registry.definitions[code], |db.results|;
      var a := RoleRows(db.registry, d.numerator, row, true, r, r.numeratorIds);
      var b := RoleRows(db.registry, d.denominator, row, false, r, r.denominatorIds);
      && a.Some? && b.Some? && next.inputs == db.inputs + a.value + b.value
      && next.results == db.results + [ResultRow(run, code, r, false)]
  {
    hide RoleRows, Undo;
  }

  /** Input rows so far belong to result rows so far. */
  predicate InputsBelong(db: Kpi) {
    forall k :: 0 <= k < |db.inputs| ==> db.inputs[k].result < |db.results|
  }

  lemma MatchingBelongs(db: Kpi)
    requires Matching(db)
    ensures InputsBelong(db)
  {
    hide Describes;
  }

  lemma UnderStores(db: Kpi, run: nat, code: string, r: KpiResult)
    requires InputsBelong(db) && code in db.registry.definitions && SaveUnder(db, run, code, r).1
    ensures Stores(SaveUnder(db, run, code, r).0, |db.results|, run, code, r)
  {
    hide RoleRows, StoredIds, SaveUnder;
    SaveShape(db, run, code, r);
    var d, row := db.registry.definitions[code], |db.results|;
    RoleStored(db.registry, d.numerator, row, true, r, r.numeratorIds);
    RoleStored(db.registry, d.denominator, row, false, r, r.denominatorIds);
    var a := RoleRows(db.registry, d.numerator, row, true, r, r.numeratorIds).value;
    var b := RoleRows(db.registry, d.denominator, row, false, r, r.denominatorIds).value;
    RowsStored(db.inputs, a, b, row, r.numeratorIds, r.denominatorIds);
  }

  lemma UnderAdds(db: Kpi, run: nat, code: string, r: KpiResult)
    requires code in db.registry.definitions && SaveUnder(db, run, code, r).1
    ensures var next := SaveUnder(db, run, code, r).0;
      |next.results| == |db.results| + 1 && AddedBehind(db, next, |db.results|)
  {
    hide RoleRows, StoredIds, SaveUnder;
    SaveShape(db, run, code, r);
    var d, row := db.registry.definitions[code], |db.results|;
    RoleStored(db.registry, d.numerator, row, true, r, r.numeratorIds);
    RoleStored(db.registry, d.denominator, row, false, r, r.denominatorIds);
  }

  lemma UnderGroups(db: Kpi, run: nat, code: string, r: KpiResult)
    requires InputsBelong(db) && code in db.registry.definitions && SaveUnder(db, run, code, r).1
    ensures NamesGroups(SaveUnder(db, run, code, r).0, |db.results|, db.registry, code)
  {
    hide SaveUnder, RoleRows;
    SaveShape(db, run, code, r);
    var d, row := db.registry.definitions[code], |db.results|;
    RoleGroups(db.registry, d.numerator, row, true, r, r.numeratorIds);
    RoleGroups(db.registry, d.denominator, row, false, r, r.denominatorIds);
  }

  /** A saved result is stored under the code found for its definition, behind all earlier rows. */
  lemma SaveStores(db: Kpi, run: nat, r: KpiResult)
    requires Matching(db) && SaveResult(db, run, r).1
    ensures var next, code := SaveResult(db, run, r).0, CodeOf(db.registry, r.definitionId);
      && code.Some? && Stores(next, |db.results|, run, code.value, r)
      && NamesGroups(next, |db.results|, db.registry, code.value)
      && |next.results| == |db.results| + 1 && AddedBehind(db, next, |db.results|)
  {
    hide Matching, SaveUnder, CodeOf, Stores, AddedBehind, NamesGroups;
    MatchingBelongs(db);
    var code := CodeOf(db.registry, r.definitionId);
    UnderStores(db, run, code.value, r);
    UnderGroups(db, run, code.value, r);
    UnderAdds(db, run, code.value, r);
  }

  /** Rows added later for other results do not disturb what is stored for this one. */
  lemma StoresStay(db: Kpi, next: Kpi, row: nat, run: nat, code: string, r: KpiResult)
    requires Stores(db, row, run, code, r) && AddedBehind(db, next, row + 1)
    ensures Stores(next, row, run, code, r)
  {
    hide StoredIds;
    var more := next.inputs[|db.inputs|..];
    assert next.inputs == db.inputs + more;
    StoredConcat(db.inputs, more, row, true);
    StoredConcat(db.inputs, more, row, false);
    StoredNone(more, row, true);
    StoredNone(more, row, false);
  }

  lemma GroupsStay(db: Kpi, next: Kpi, row: nat, registry: Registry, code: string)
    requires NamesGroups(db, row, registry, code) && AddedBehind(db, next, row + 1)
    ensures NamesGroups(next, row, registry, code)
  {
    forall k | 0 <= k < |next.inputs| && next.inputs[k].result == row ensures k < |db.inputs| && next.inputs[k] == db.inputs[k] {
    }
  }

  /** Each of the results is stored from the given row on. */
  predicate StoresAll(db: Kpi, from: nat, run: nat, registry: Registry, results: seq<KpiResult>) {
    forall j :: 0 <= j < |results| ==> StoresFound(db, from + j, run, registry, results[j])
  }

  predicate StoresFound(db: Kpi, row: nat, run: nat, registry: Registry, r: KpiResult) {
    && CodeOf(registry, r.definitionId).Some? && Stores(db, row, run, CodeOf(registry, r.definitionId).value, r)
    && NamesGroups(db, row, registry, CodeOf(registry, r.definitionId).value)
  }

  lemma {:induction false} SaveAllStores(db: Kpi, run: nat, results: seq<KpiResult>)
    requires Inv(db) && db.uncommitted == {} && run < |db.runs| && AllDescribe(results, db.runs[run].key)
    requires SaveAll(db, run, results).1
    ensures var next := SaveAll(db, run, results).0;
      AddedBehind(db, next, |db.results|) && StoresAll(next, |db.results|, run, db.registry, results)
    decreases |results|
  {
    hide SaveResult, Inv, Stores, NamesGroups, Describes, AddedBehind, StoresAll, CodeOf;
    if results == [] {
      NothingAdded(db, run);
    } else {
      InvMatches(db);
      SaveKeeps(db, run, results[0]);
      SaveStores(db, run, results[0]);
      var first := SaveResult(db, run, results[0]).0;
      SaveAllStores(first, run, results[1..]);
      Chained(db, first, SaveAll(db, run, results).0, run, results);
    }
  }

  lemma InvMatches(db: Kpi)
    requires Inv(db)
    ensures Matching(db)
  {
  }

  lemma NothingAdded(db: Kpi, run: nat)
    ensures AddedBehind(db, db, |db.results|) && StoresAll(db, |db.results|, run, db.registry, [])
  {
  }

  /** The first result saved is stored, the later ones are stored behind it. */
  lemma Chained(db: Kpi, first: Kpi, next: Kpi, run: nat, results: seq<KpiResult>)
    requires results != [] && |first.results| == |db.results| + 1
    requires AddedBehind(db, first, |db.results|) && AddedBehind(first, next, |first.results|)
    requires StoresFound(first, |db.results|, run, db.registry, results[0])
    requires StoresAll(next, |first.results|, run, db.registry, results[1..])
    ensures AddedBehind(db, next, |db.results|)
    ensures StoresAll(next, |db.results|, run, db.registry, results)
  {
    hide Stores, NamesGroups, CodeOf, AddedBehind;
    AddedTwice(db, first, next);
    StoresStay(first, next, |db.results|, run, CodeOf(db.registry, results[0].definitionId).value, results[0]);
    GroupsStay(first, next, |db.results|, db.registry, CodeOf(db.registry, results[0].definitionId).value);
    forall j | 0 <= j < |results| ensures StoresFound(next, |db.results| + j, run, db.registry, results[j]) {
      if j > 0 { assert StoresFound(next, |first.results| + (j - 1), run, db.registry, results[1..][j - 1]); }
    }
  }

  lemma AddedTwice(db: Kpi, first: Kpi, next: Kpi)
    requires AddedBehind(db, first, |db.results|) && AddedBehind(first, next, |first.results|)
    ensures AddedBehind(db, next, |db.results|)
  {
  }
}
