/** The review of store names exported by app-v2.js and returned by a person as CSV. */
module StoreMatch {
  import opened Options
  import opened JsStrings
  import opened CsvReaders
  import opened CsvRoundTrip
  import opened Permutations

  datatype Export = Export(store: Text, corporation: Text, state: Text)

  const HEADER: Row := [Lit("店舗候補"), Lit("法人"), Lit("現在状態"), Lit("確認依頼"), Lit("確認結果"), Lit("正しい店舗名"), Lit("本番投入")]
  const REQUEST: Text := Lit("弥生P/Lシート名と店舗マスター名の対応を確認")
  const UNDECIDED: Text := Lit("確認済み/別名/除外")
  const CONFIRMED: Text := Lit("確認済み")
  const ALIAS: Text := Lit("別名")
  const EXCLUDED: Text := Lit("除外")
  const DISABLED: Text := Lit("disabled")

  // ---------------------------------------------------------------- the export

  function Line(e: Export, status: Text, name: Text): (r: Row)
    ensures |r| == 7
  {
    [e.store, e.corporation, e.state, REQUEST, status, name, DISABLED]
  }

  /** buildFinancialStoreMatchCsv */
  function BuildCsv(exported: seq<Export>): Text {
    Print(Always, [HEADER] + seq(|exported|, k requires 0 <= k < |exported| => Line(exported[k], UNDECIDED, [])))
  }

  // ---------------------------------------------------------------- the review

  function TripleKey(store: Text, corporation: Text, state: Text): Text {
    store + [NUL] + corporation + [NUL] + state
  }

  function KeyOf(e: Export): Text {
    TripleKey(e.store, e.corporation, e.state)
  }

  /** The names known to the review: the keys of the P/L rows, and the normalisation of names, which
      stands for normalizeStoreCandidateName. */
  datatype Names = Names(known: set<Text>, normalize: Text -> Text)

  datatype Verdict = IsAlias(store: Text, target: Text) | IsExcluded(store: Text) | IsConfirmed

  datatype Review =
    | FormatInvalid
    | Mismatch
    | LocalEvidence(aliasCount: nat, excludedCount: nat, aliases: map<Text, Text>, excluded: set<Text>)

  predicate Formatted(values: Row) {
    |values| == |HEADER| && values[3] == REQUEST && values[6] == DISABLED
  }

  function Decide(values: Row, names: Names): Option<Verdict>
    requires Formatted(values)
  {
    var store, status, name := names.normalize(values[0]), values[4], values[5];
    if status == ALIAS then
      var target := names.normalize(name);
      if target == [] || target !in names.known then None else Some(IsAlias(store, target))
    else if status == EXCLUDED then
      if name != [] then None else Some(IsExcluded(store))
    else if status != CONFIRMED || name != [] then None
    else Some(IsConfirmed)
  }

  /** Assigning this property of a plain object stores nothing. */
  const PROTO: Text := Lit("__proto__")

  function Record(r: Review, v: Verdict): (noted: Review)
    requires r.LocalEvidence?
    ensures noted.LocalEvidence?
  {
    match v
    case IsAlias(store, target) =>
      r.(aliasCount := r.aliasCount + 1, aliases := if store == PROTO then r.aliases else r.aliases[store := target])
    case IsExcluded(store) =>
      r.(excludedCount := r.excludedCount + 1, excluded := if store == PROTO then r.excluded else r.excluded + {store})
    case IsConfirmed => r
  }

  const NOTHING := LocalEvidence(0, 0, map[], {})

  function Walk(body: seq<Row>, expected: set<Text>, so: Review, names: Names): Review
    requires so.LocalEvidence?
    decreases |body|
  {
    if body == [] then (if expected == {} then so else Mismatch)
    else if !Formatted(body[0]) then FormatInvalid
    else
      var key := TripleKey(body[0][0], body[0][1], body[0][2]);
      if key !in expected || Decide(body[0], names).None? then Mismatch
      else Walk(body[1..], expected - {key}, Record(so, Decide(body[0], names).value), names)
  }

  function Keys(exported: seq<Export>): (r: seq<Text>)
    ensures |r| == |exported|
    ensures forall k :: 0 <= k < |exported| ==> r[k] == KeyOf(exported[k])
  {
    seq(|exported|, k requires 0 <= k < |exported| => KeyOf(exported[k]))
  }

  /** validateFinancialStoreMatchReviewCsv on the rows read. */
  function ReviewRows(rows: seq<Row>, exported: seq<Export>, names: Names): Review {
    if rows == [] || rows[0] != HEADER then FormatInvalid
    else if |rows| - 1 != |exported| then FormatInvalid
    else Walk(rows[1..], ToSet(Keys(exported)), NOTHING, names)
  }

  method ReviewCsv(text: Text, exported: seq<Export>, names: Names) returns (r: Review)
    ensures r == match Read(Local, text)
                 case None => FormatInvalid
                 case Some(rows) => ReviewRows(rows, exported, names)
  {
    var read := ReadLocal(text);
    hide Read, ToSet, Keys, TripleKey, Lit, PROTO;
    if read.None? { return FormatInvalid; }
    var rows := read.value;
    if rows == [] || rows[0] != HEADER { return FormatInvalid; }
    var body := rows[1..];
    if |body| != |exported| { return FormatInvalid; }
    var expected := ToSet(Keys(exported));
    var aliases: map<Text, Text>, excluded: set<Text>, aliasCount, excludedCount, k := map[], {}, 0, 0, 0;
    while k < |body|
      invariant 0 <= k <= |body|
      invariant Walk(body[k..], expected, LocalEvidence(aliasCount, excludedCount, aliases, excluded), names)
             == ReviewRows(rows, exported, names)
    {
      var values := body[k];
      assert body[k..][1..] == body[k + 1..];
      if !Formatted(values) { return FormatInvalid; }
      var key := TripleKey(values[0], values[1], values[2]);
      if key !in expected { return Mismatch; }
      expected := expected - {key};
      var store := names.normalize(values[0]);
      if values[4] == ALIAS {
        var target := names.normalize(values[5]);
        if target == [] || target !in names.known { return Mismatch; }
        if store != PROTO { aliases := aliases[store := target]; }
        aliasCount := aliasCount + 1;
      } else if values[4] == EXCLUDED {
        if values[5] != [] { return Mismatch; }
        if store != PROTO { excluded := excluded + {store}; }
        excludedCount := excludedCount + 1;
      } else if values[4] != CONFIRMED || values[5] != [] {
        return Mismatch;
      }
      k := k + 1;
    }
    if expected != {} { return Mismatch; }
    r := LocalEvidence(aliasCount, excludedCount, aliases, excluded);
  }

  // ---------------------------------------------------------------- what acceptance means

  /** What a person may answer: another name for a known store, or nothing but exclusion or confirmation. */
  predicate ValidAnswer(status: Text, name: Text, names: Names) {
    || (status == ALIAS && names.normalize(name) != [] && names.normalize(name) in names.known)
    || ((status == EXCLUDED || status == CONFIRMED) && name == [])
  }

  /** A row of seven cells that leaves the request and the switch as exported and holds a valid answer. */
  predicate Acceptable(values: Row, names: Names) {
    |values| == 7 && values[3] == REQUEST && values[6] == DISABLED && ValidAnswer(values[4], values[5], names)
  }

  lemma StatusesDiffer()
    ensures ALIAS != EXCLUDED && ALIAS != CONFIRMED && EXCLUDED != CONFIRMED
  {
    assert ALIAS[0] != EXCLUDED[0] && |CONFIRMED| != |ALIAS| && |CONFIRMED| != |EXCLUDED|;
  }

  /** Those are the rows for which the program has a decision. */
  lemma AcceptableExactly(values: Row, names: Names)
    ensures Acceptable(values, names) <==> Formatted(values) && Decide(values, names).Some?
  {
    StatusesDiffer();
    hide REQUEST, DISABLED, ALIAS, EXCLUDED, CONFIRMED;
  }

  lemma AllDecided(body: seq<Row>, names: Names)
    ensures AllAcceptable(body, names)
       <==> forall k :: 0 <= k < |body| ==> Formatted(body[k]) && Decide(body[k], names).Some?
  {
    hide Acceptable, Formatted, Decide;
    forall k | 0 <= k < |body| ensures Acceptable(body[k], names) <==> Formatted(body[k]) && Decide(body[k], names).Some? {
      AcceptableExactly(body[k], names);
    }
  }

  predicate AllAcceptable(body: seq<Row>, names: Names) {
    forall k :: 0 <= k < |body| ==> Acceptable(body[k], names)
  }

  function RowKey(values: Row): Text {
    if |values| < 3 then [] else TripleKey(values[0], values[1], values[2])
  }

  function RowKeys(body: seq<Row>): (r: seq<Text>)
    ensures |r| == |body|
    ensures forall k :: 0 <= k < |body| ==> r[k] == RowKey(body[k])
  {
    seq(|body|, k requires 0 <= k < |body| => RowKey(body[k]))
  }

  /** The tally over rows that are all acceptable. */
  function Tally(body: seq<Row>, so: Review, names: Names): (r: Review)
    requires AllAcceptable(body, names) && so.LocalEvidence?
    ensures r.LocalEvidence?
    decreases |body|
  {
    AllDecided(body, names);
    if body == [] then so else Tally(body[1..], Record(so, Decide(body[0], names).value), names)
  }

  lemma RowKeysUnfold(body: seq<Row>)
    requires body != []
    ensures RowKeys(body) == [RowKey(body[0])] + RowKeys(body[1..])
  {
    hide *;
  }

  lemma AcceptableUnfold(body: seq<Row>, names: Names)
    requires body != []
    ensures AllAcceptable(body, names) <==> Acceptable(body[0], names) && AllAcceptable(body[1..], names)
  {
    assert body == [body[0]] + body[1..];
  }

  lemma WalkOne(body: seq<Row>, expected: set<Text>, so: Review, names: Names)
    requires so.LocalEvidence? && body != []
    ensures Walk(body, expected, so, names).LocalEvidence?
        ==> Acceptable(body[0], names) && RowKey(body[0]) in expected
    ensures Formatted(body[0]) && Decide(body[0], names).Some? && RowKey(body[0]) in expected ==>
              Walk(body, expected, so, names)
              == Walk(body[1..], expected - {RowKey(body[0])}, Record(so, Decide(body[0], names).value), names)
  {
    AcceptableExactly(body[0], names);
    hide Decide, Record, Acceptable, REQUEST, DISABLED;
  }

  lemma WalkNone(expected: set<Text>, so: Review, names: Names)
    requires so.LocalEvidence?
    ensures Walk([], expected, so, names).LocalEvidence? <==> expected == {}
    ensures expected == {} ==> Walk([], expected, so, names) == so == Tally([], so, names)
    ensures NoRepeats(RowKeys([])) && ToSet(RowKeys([])) == {} && AllAcceptable([], names)
  {
  }

  /** The walk deletes each key it meets; it ends well when the rows use up the expected keys. */
  lemma {:induction false} WalkAccepts(body: seq<Row>, expected: set<Text>, so: Review, names: Names)
    requires so.LocalEvidence?
    ensures Walk(body, expected, so, names).LocalEvidence?
       <==> AllAcceptable(body, names) && NoRepeats(RowKeys(body)) && ToSet(RowKeys(body)) == expected
    ensures AllAcceptable(body, names) && Walk(body, expected, so, names).LocalEvidence? ==>
              Walk(body, expected, so, names) == Tally(body, so, names)
    decreases |body|
  {
    hide NoRepeats, ToSet, AllAcceptable, Acceptable, Decide, Record, RowKeys, RowKey, Walk, Formatted;
    if body == [] {
      WalkNone(expected, so, names);
    } else {
      WalkOne(body, expected, so, names);
      var key, rest := RowKey(body[0]), RowKeys(body[1..]);
      AcceptableUnfold(body, names);
      RowKeysUnfold(body);
      ConsUses(key, rest, expected);
      AcceptableExactly(body[0], names);
      if Acceptable(body[0], names) {
        WalkAccepts(body[1..], expected - {key}, Record(so, Decide(body[0], names).value), names);
      }
    }
  }

  lemma ConsUses(key: Text, rest: seq<Text>, expected: set<Text>)
    ensures NoRepeats([key] + rest) && ToSet([key] + rest) == expected
       <==> key in expected && NoRepeats(rest) && ToSet(rest) == expected - {key}
  {
    var all := [key] + rest;
    assert all[1..] == rest;
    assert ToSet(all) == {key} + ToSet(rest);
    if NoRepeats(all) {
      forall k | 0 <= k < |rest| ensures rest[k] != key {
        assert all[0] != all[k + 1];
      }
      assert forall i, j :: 0 <= i < j < |rest| ==> rest[i] == all[i + 1] && rest[j] == all[j + 1];
    }
    if NoRepeats(rest) && ToSet(rest) == expected - {key} {
      assert key !in ToSet(rest);
      assert NoRepeats(all);
    }
  }

  /** What a return is accepted for, in terms of the keys alone. */
  ghost predicate Complete(rows: seq<Row>, exported: seq<Export>, names: Names) {
    && rows != [] && rows[0] == HEADER
    && AllAcceptable(rows[1..], names)
    && NoRepeats(Keys(exported))
    && multiset(RowKeys(rows[1..])) == multiset(Keys(exported))
  }

  lemma AcceptsByKey(rows: seq<Row>, exported: seq<Export>, names: Names)
    ensures ReviewRows(rows, exported, names).LocalEvidence? <==> Complete(rows, exported, names)
    ensures Complete(rows, exported, names) ==> ReviewRows(rows, exported, names) == Tally(rows[1..], NOTHING, names)
  {
    hide Walk, Tally, AllAcceptable;
    if rows != [] && rows[0] == HEADER {
      var body, keys := rows[1..], Keys(exported);
      WalkAccepts(body, ToSet(keys), NOTHING, names);
      SizeOfSet(keys);
      SizeOfSet(RowKeys(body));
      if |body| == |exported| && NoRepeats(RowKeys(body)) && ToSet(RowKeys(body)) == ToSet(keys) {
        assert forall x :: x in RowKeys(body) <==> x in ToSet(RowKeys(body));
        assert forall x :: x in keys <==> x in ToSet(keys);
        SameElementsPermute(RowKeys(body), keys);
      }
      if multiset(RowKeys(body)) == multiset(keys) {
        PermutationKeeps(RowKeys(body), keys);
      }
    }
  }

  // ---------------------------------------------------------------- triples and their keys

  function TripleOf(values: Row): Export {
    if |values| < 3 then Export([], [], []) else Export(values[0], values[1], values[2])
  }

  function Triples(body: seq<Row>): (r: seq<Export>)
    ensures |r| == |body|
    ensures forall k :: 0 <= k < |body| ==> r[k] == TripleOf(body[k])
  {
    seq(|body|, k requires 0 <= k < |body| => TripleOf(body[k]))
  }

  predicate NulFree(e: Export) {
    NUL !in e.store && NUL !in e.corporation && NUL !in e.state
  }

  /** Cutting two texts at their first separator. */
  lemma FirstCut(a: Text, x: Text, b: Text, y: Text)
    requires NUL !in a && NUL !in b && a + [NUL] + x == b + [NUL] + y
    ensures a == b && x == y
  {
    var t, u := a + [NUL] + x, b + [NUL] + y;
    assert t[|a|] == NUL == u[|b|];
    assert forall k :: 0 <= k < |a| ==> t[k] == a[k];
    assert forall k :: 0 <= k < |b| ==> u[k] == b[k];
    assert |a| == |b|;
    assert a == t[..|a|] && b == u[..|b|];
    assert x == t[|a| + 1..] && y == u[|b| + 1..];
  }

  function Nuls(t: Text): nat {
    multiset(t)[NUL]
  }

  lemma KeyNuls(e: Export)
    ensures Nuls(KeyOf(e)) == 2 + Nuls(e.store) + Nuls(e.corporation) + Nuls(e.state)
  {
    assert multiset(KeyOf(e)) == multiset(e.store) + multiset([NUL]) + multiset(e.corporation) + multiset([NUL])
                               + multiset(e.state);
  }

  lemma KeyNulFree(e: Export, f: Export)
    requires NulFree(e) && KeyOf(e) == KeyOf(f)
    ensures NulFree(f)
  {
    hide KeyOf;
    KeyNuls(e);
    KeyNuls(f);
  }

  /** Among all triples, one without NUL is the only one with its key. */
  lemma KeyTells(e: Export, f: Export)
    requires NulFree(e) && KeyOf(e) == KeyOf(f)
    ensures e == f
  {
    KeyNulFree(e, f);
    var tail, other := e.corporation + [NUL] + e.state, f.corporation + [NUL] + f.state;
    assert KeyOf(e) == e.store + [NUL] + tail && KeyOf(f) == f.store + [NUL] + other;
    FirstCut(e.store, tail, f.store, other);
    FirstCut(e.corporation, e.state, f.corporation, f.state);
  }

  lemma KeysOfTriples(body: seq<Row>)
    requires forall k :: 0 <= k < |body| ==> |body[k]| >= 3
    ensures RowKeys(body) == Keys(Triples(body))
  {
  }

  lemma DropKeys(s: seq<Export>, k: nat)
    requires k < |s|
    ensures Keys(Drop(s, k)) == Drop(Keys(s), k)
  {
  }

  lemma {:induction false} PermutedKeys(a: seq<Export>, b: seq<Export>)
    requires multiset(a) == multiset(b)
    ensures multiset(Keys(a)) == multiset(Keys(b))
    decreases |a|
  {
    hide *;
    if a == [] {
      assert b == [] by { assert |multiset(b)| == |b|; }
    } else {
      var k := PermutationStep(a, b);
      PermutedKeys(Drop(a, 0), Drop(b, k));
      DropKeys(a, 0);
      DropKeys(b, k);
      PermutationPutBack(Keys(a), Keys(b), k);
    }
  }

  lemma DistinctKeys(exported: seq<Export>)
    requires forall e :: e in exported ==> NulFree(e)
    ensures NoRepeats(Keys(exported)) <==> NoRepeats(exported)
  {
    forall i, j | 0 <= i < j < |exported| ensures Keys(exported)[i] == Keys(exported)[j] <==> exported[i] == exported[j] {
      assert exported[i] in exported;
      if Keys(exported)[i] == Keys(exported)[j] { KeyTells(exported[i], exported[j]); }
    }
  }

  /** Against triples without NUL and without repetition, comparing keys is comparing triples. */
  lemma KeysDecide(returned: seq<Export>, exported: seq<Export>)
    requires (forall e :: e in exported ==> NulFree(e)) && NoRepeats(exported)
    ensures multiset(Keys(returned)) == multiset(Keys(exported)) <==> multiset(returned) == multiset(exported)
  {
    if multiset(returned) == multiset(exported) {
      PermutedKeys(returned, exported);
    } else if multiset(Keys(returned)) == multiset(Keys(exported)) {
      DistinctKeys(exported);
      PermutationKeeps(Keys(returned), Keys(exported));
      assert NoRepeats(returned) by {
        forall i, j | 0 <= i < j < |returned| ensures returned[i] != returned[j] {
          assert Keys(returned)[i] != Keys(returned)[j];
        }
      }
      forall e ensures e in returned <==> e in exported {
        if e in returned {
          var k :| 0 <= k < |returned| && returned[k] == e;
          assert Keys(returned)[k] in ToSet(Keys(exported));
          var j :| 0 <= j < |exported| && Keys(exported)[j] == Keys(returned)[k];
          KeyTells(exported[j], e);
        }
        if e in exported {
          var j :| 0 <= j < |exported| && exported[j] == e;
          assert Keys(exported)[j] in ToSet(Keys(returned));
          var k :| 0 <= k < |returned| && Keys(returned)[k] == Keys(exported)[j];
          KeyTells(e, returned[k]);
        }
      }
      SameElementsPermute(returned, exported);
    }
  }

  // ---------------------------------------------------------------- main results

  /** The rows whose confirmation column holds the given status. */
  function WithStatus(body: seq<Row>, status: Text): nat {
    if body == [] then 0
    else WithStatus(body[1..], status) + (if Formatted(body[0]) && body[0][4] == status then 1 else 0)
  }

  /** A return is evidence exactly when no triple was exported twice, every returned row is decided
      validly, and the returned triples are a permutation of the exported ones. */
  lemma ReviewAccepts(rows: seq<Row>, exported: seq<Export>, names: Names)
    requires forall e :: e in exported ==> NulFree(e)
    ensures ReviewRows(rows, exported, names).LocalEvidence?
       <==> && rows != [] && rows[0] == HEADER
            && AllAcceptable(rows[1..], names)
            && NoRepeats(exported)
            && multiset(Triples(rows[1..])) == multiset(exported)
  {
    hide ReviewRows, Tally;
    AcceptsByKey(rows, exported, names);
    DistinctKeys(exported);
    if rows != [] && AllAcceptable(rows[1..], names) && NoRepeats(exported) {
      forall k | 0 <= k < |rows[1..]| ensures |rows[1..][k]| >= 3 {
        assert Acceptable(rows[1..][k], names);
      }
      KeysOfTriples(rows[1..]);
      KeysDecide(Triples(rows[1..]), exported);
    }
  }

  lemma {:induction false} TallyCounts(body: seq<Row>, so: Review, names: Names)
    requires AllAcceptable(body, names) && so.LocalEvidence?
    ensures Tally(body, so, names).aliasCount == so.aliasCount + WithStatus(body, ALIAS)
    ensures Tally(body, so, names).excludedCount == so.excludedCount + WithStatus(body, EXCLUDED)
    ensures |body| == WithStatus(body, ALIAS) + WithStatus(body, EXCLUDED) + WithStatus(body, CONFIRMED)
    decreases |body|
  {
    if body == [] {
    } else {
      assert Acceptable(body[0], names);
      assert ALIAS[0] != EXCLUDED[0] && |CONFIRMED| != |ALIAS| && |CONFIRMED| != |EXCLUDED|;
      TallyCounts(body[1..], Record(so, Decide(body[0], names).value), names);
    }
  }

  /** The two counts reported are the numbers of rows so marked; the other rows are confirmed. */
  lemma EvidenceCounts(rows: seq<Row>, exported: seq<Export>, names: Names)
    requires ReviewRows(rows, exported, names).LocalEvidence?
    ensures var r := ReviewRows(rows, exported, names);
      && r.aliasCount == WithStatus(rows[1..], ALIAS)
      && r.excludedCount == WithStatus(rows[1..], EXCLUDED)
      && |exported| == r.aliasCount + r.excludedCount + WithStatus(rows[1..], CONFIRMED)
  {
    hide Tally, WithStatus, Walk;
    AcceptsByKey(rows, exported, names);
    TallyCounts(rows[1..], NOTHING, names);
  }

  /** The normalised store names of the rows with the given status, but for the one that is never stored. */
  function Marked(body: seq<Row>, status: Text, names: Names): set<Text> {
    if body == [] then {}
    else
      var rest := Marked(body[1..], status, names);
      if Formatted(body[0]) && body[0][4] == status && names.normalize(body[0][0]) != PROTO
      then rest + {names.normalize(body[0][0])} else rest
  }

  lemma {:induction false} TallyRecords(body: seq<Row>, so: Review, names: Names)
    requires AllAcceptable(body, names) && so.LocalEvidence?
    ensures Tally(body, so, names).aliases.Keys == so.aliases.Keys + Marked(body, ALIAS, names)
    ensures Tally(body, so, names).excluded == so.excluded + Marked(body, EXCLUDED, names)
    ensures so.aliases.Values <= names.known ==> Tally(body, so, names).aliases.Values <= names.known
    decreases |body|
  {
    if body == [] {
    } else {
      assert Acceptable(body[0], names);
      assert ALIAS[0] != EXCLUDED[0] && |CONFIRMED| != |ALIAS| && |CONFIRMED| != |EXCLUDED|;
      TallyRecords(body[1..], Record(so, Decide(body[0], names).value), names);
    }
  }

  /** What the review hands to the P/L match: exactly the marked names, each alias with a known target. */
  lemma EvidenceRecords(rows: seq<Row>, exported: seq<Export>, names: Names)
    requires ReviewRows(rows, exported, names).LocalEvidence?
    ensures ReviewRows(rows, exported, names).aliases.Keys == Marked(rows[1..], ALIAS, names)
    ensures ReviewRows(rows, exported, names).aliases.Values <= names.known
    ensures ReviewRows(rows, exported, names).excluded == Marked(rows[1..], EXCLUDED, names)
  {
    hide Tally, Marked, Walk;
    AcceptsByKey(rows, exported, names);
    TallyRecords(rows[1..], NOTHING, names);
  }

  /** The normalised target of the last row that marks a store as another name. */
  function LastTarget(body: seq<Row>, store: Text, names: Names): Option<Text> {
    if body == [] then None
    else
      var last := body[|body| - 1];
      if Formatted(last) && last[4] == ALIAS && names.normalize(last[0]) == store then Some(names.normalize(last[5]))
      else LastTarget(body[..|body| - 1], store, names)
  }

  lemma {:induction false} LastOfCons(values: Row, rest: seq<Row>, store: Text, names: Names)
    ensures LastTarget([values] + rest, store, names)
         == if LastTarget(rest, store, names).Some? then LastTarget(rest, store, names)
            else LastTarget([values], store, names)
    decreases |rest|
  {
    hide Formatted, ALIAS;
    var all := [values] + rest;
    if rest == [] {
      assert all == [values];
    } else {
      assert all[..|all| - 1] == [values] + rest[..|rest| - 1];
      LastOfCons(values, rest[..|rest| - 1], store, names);
    }
  }

  lemma {:induction false} TallyTargets(body: seq<Row>, so: Review, names: Names, store: Text)
    requires AllAcceptable(body, names) && so.LocalEvidence? && store != PROTO
    ensures var aliases, target := Tally(body, so, names).aliases, LastTarget(body, store, names);
      && (target.Some? ==> store in aliases && aliases[store] == target.value)
      && (target.None? ==> (store in aliases <==> store in so.aliases)
                           && (store in aliases ==> aliases[store] == so.aliases[store]))
    decreases |body|
  {
    if body == [] {
    } else {
      AllDecided(body, names);
      StatusesDiffer();
      hide AllAcceptable, Acceptable, LastTarget, ALIAS, EXCLUDED, CONFIRMED, REQUEST, DISABLED, PROTO;
      var next := Record(so, Decide(body[0], names).value);
      OneTarget(body[0], store, names);
      LastOfCons(body[0], body[1..], store, names);
      assert [body[0]] + body[1..] == body;
      AcceptableUnfold(body, names);
      TallyTargets(body[1..], next, names, store);
    }
  }

  lemma OneTarget(values: Row, store: Text, names: Names)
    ensures LastTarget([values], store, names)
         == if Formatted(values) && values[4] == ALIAS && names.normalize(values[0]) == store
            then Some(names.normalize(values[5])) else None
  {
    assert [values][..0] == [];
  }

  /** Each alias handed on leads to the normalised name typed last for its store. */
  lemma AliasTargets(rows: seq<Row>, exported: seq<Export>, names: Names, store: Text)
    requires ReviewRows(rows, exported, names).LocalEvidence? && store in ReviewRows(rows, exported, names).aliases
    ensures LastTarget(rows[1..], store, names) == Some(ReviewRows(rows, exported, names).aliases[store])
  {
    hide Tally, LastTarget, Walk, Marked, Lit;
    AcceptsByKey(rows, exported, names);
    EvidenceRecords(rows, exported, names);
    NeverMarked(rows[1..], ALIAS, names);
    TallyTargets(rows[1..], NOTHING, names, store);
  }

  lemma {:induction false} NeverMarked(body: seq<Row>, status: Text, names: Names)
    ensures PROTO !in Marked(body, status, names)
  {
    hide PROTO;
    if body == [] {
    } else {
      NeverMarked(body[1..], status, names);
    }
  }

  // ---------------------------------------------------------------- which refusal

  /** The first k rows are acceptable and use up different keys of the export. */
  predicate PassedUpTo(body: seq<Row>, k: nat, expected: set<Text>, names: Names)
    requires k <= |body|
  {
    && (forall j :: 0 <= j < k ==> Acceptable(body[j], names) && RowKey(body[j]) in expected)
    && (forall i, j :: 0 <= i < j < k ==> RowKey(body[i]) != RowKey(body[j]))
  }

  /** The request, the switch or the number of cells was changed. */
  predicate Misshapen(values: Row) {
    |values| != 7 || values[3] != REQUEST || values[6] != DISABLED
  }

  lemma PassedUnfold(body: seq<Row>, k: nat, expected: set<Text>, names: Names)
    requires 0 < k <= |body|
    ensures PassedUpTo(body, k, expected, names)
       <==> && Acceptable(body[0], names) && RowKey(body[0]) in expected
            && PassedUpTo(body[1..], k - 1, expected - {RowKey(body[0])}, names)
  {
    hide Acceptable, RowKey;
    var rest := body[1..];
    assert forall j :: 0 <= j < |rest| ==> rest[j] == body[j + 1];
    if PassedUpTo(rest, k - 1, expected - {RowKey(body[0])}, names) && Acceptable(body[0], names) && RowKey(body[0]) in expected {
      forall j | 0 < j < k ensures Acceptable(body[j], names) && RowKey(body[j]) in expected - {RowKey(body[0])} {
        assert body[j] == rest[j - 1];
      }
      forall i, j | 0 <= i < j < k ensures RowKey(body[i]) != RowKey(body[j]) {
        if i > 0 { assert body[i] == rest[i - 1] && body[j] == rest[j - 1]; }
      }
    }
    if PassedUpTo(body, k, expected, names) {
      forall j | 0 <= j < k - 1 ensures RowKey(rest[j]) in expected - {RowKey(body[0])} {
        assert RowKey(body[0]) != RowKey(body[j + 1]);
      }
    }
  }

  ghost predicate FirstMisshapen(body: seq<Row>, expected: set<Text>, names: Names) {
    exists k :: 0 <= k < |body| && Misshapen(body[k]) && PassedUpTo(body, k, expected, names)
  }

  lemma FirstUnfold(body: seq<Row>, expected: set<Text>, names: Names)
    requires body != []
    ensures FirstMisshapen(body, expected, names)
       <==> || Misshapen(body[0])
            || (Acceptable(body[0], names) && RowKey(body[0]) in expected
                && FirstMisshapen(body[1..], expected - {RowKey(body[0])}, names))
  {
    hide Acceptable, RowKey, Misshapen, PassedUpTo;
    var rest, left := body[1..], expected - {RowKey(body[0])};
    NothingPassed(body, expected, names);
    if FirstMisshapen(body, expected, names) {
      var k :| 0 <= k < |body| && Misshapen(body[k]) && PassedUpTo(body, k, expected, names);
      if k > 0 {
        PassedUnfold(body, k, expected, names);
        assert rest[k - 1] == body[k];
      }
    }
    if Acceptable(body[0], names) && RowKey(body[0]) in expected && FirstMisshapen(rest, left, names) {
      var k :| 0 <= k < |rest| && Misshapen(rest[k]) && PassedUpTo(rest, k, left, names);
      PassedUnfold(body, k + 1, expected, names);
      assert body[k + 1] == rest[k];
    }
  }

  lemma NothingPassed(body: seq<Row>, expected: set<Text>, names: Names)
    ensures PassedUpTo(body, 0, expected, names)
  {
  }

  lemma {:induction false} WalkRefuses(body: seq<Row>, expected: set<Text>, so: Review, names: Names)
    requires so.LocalEvidence?
    ensures Walk(body, expected, so, names).FormatInvalid? <==> FirstMisshapen(body, expected, names)
    decreases |body|
  {
    hide FirstMisshapen, Decide, Record, RowKey, Lit, REQUEST, DISABLED;
    if body == [] {
      NoneMisshapen(expected, names);
    } else {
      AcceptableExactly(body[0], names);
      FirstUnfold(body, expected, names);
      hide Acceptable;
      KeyOfRow(body[0]);
      if Acceptable(body[0], names) && RowKey(body[0]) in expected {
        WalkRefuses(body[1..], expected - {RowKey(body[0])}, Record(so, Decide(body[0], names).value), names);
      }
    }
  }

  lemma KeyOfRow(values: Row)
    ensures Formatted(values) ==> RowKey(values) == TripleKey(values[0], values[1], values[2])
  {
  }

  lemma NoneMisshapen(expected: set<Text>, names: Names)
    ensures !FirstMisshapen([], expected, names)
  {
  }

  /** A return that is no evidence is refused for its format exactly when its header or number of rows is
      wrong, or a row was changed in shape before any other row is at fault; else as a mismatch. */
  lemma RefusedExactly(rows: seq<Row>, exported: seq<Export>, names: Names)
    ensures ReviewRows(rows, exported, names).FormatInvalid?
       <==> || rows == [] || rows[0] != HEADER || |rows| != |exported| + 1
            || FirstMisshapen(rows[1..], ToSet(Keys(exported)), names)
  {
    hide FirstMisshapen, Walk, Lit;
    if rows != [] && rows[0] == HEADER && |rows| == |exported| + 1 {
      WalkRefuses(rows[1..], ToSet(Keys(exported)), NOTHING, names);
    }
  }

  /** The answer given for one exported line. */
  datatype Answer = Answer(about: Export, status: Text, name: Text)

  function Filled(answers: seq<Answer>): (r: seq<Row>)
    ensures |r| == |answers|
    ensures forall k :: 0 <= k < |answers| ==> r[k] == Line(answers[k].about, answers[k].status, answers[k].name)
  {
    seq(|answers|, k requires 0 <= k < |answers| => Line(answers[k].about, answers[k].status, answers[k].name))
  }

  function Abouts(answers: seq<Answer>): (r: seq<Export>)
    ensures |r| == |answers|
    ensures forall k :: 0 <= k < |answers| ==> r[k] == answers[k].about
  {
    seq(|answers|, k requires 0 <= k < |answers| => answers[k].about)
  }

  /** The file a reviewer returns: the exported table, the lines in any order and filled in. */
  function ReturnCsv(answers: seq<Answer>): Text {
    Print(Always, [HEADER] + Filled(answers))
  }

  lemma ReturnReads(answers: seq<Answer>)
    ensures Read(Local, ReturnCsv(answers)) == Some([HEADER] + Filled(answers))
  {
    var rows := [HEADER] + Filled(answers);
    forall k | 0 <= k < |rows| ensures rows[k] != [] && NonEmpty(rows[k]) {
      assert |rows[k]| == 7 && rows[k][3] != [];
    }
    PrintThenRead(Always, Local, rows);
  }

  lemma FilledShape(answers: seq<Answer>)
    ensures Triples(Filled(answers)) == Abouts(answers)
    ensures forall k :: 0 <= k < |answers| ==> Formatted(Filled(answers)[k])
  {
  }

  lemma AnswersAcceptable(answers: seq<Answer>, names: Names)
    ensures AllAcceptable(Filled(answers), names)
       <==> forall k :: 0 <= k < |answers| ==> ValidAnswer(answers[k].status, answers[k].name, names)
  {
    hide ValidAnswer, REQUEST, DISABLED;
    forall k | 0 <= k < |answers|
      ensures Acceptable(Filled(answers)[k], names) <==> ValidAnswer(answers[k].status, answers[k].name, names)
    {
    }
  }

  /** Through the printer and the reader, whatever the names hold: the exported lines, returned in any
      order, are evidence exactly when every answer is valid and no two lines share a key; without NUL in the
      names that is to say that no triple was exported twice. */
  lemma ReturnAccepted(exported: seq<Export>, answers: seq<Answer>, names: Names)
    requires multiset(Abouts(answers)) == multiset(exported)
    ensures Read(Local, ReturnCsv(answers)) == Some([HEADER] + Filled(answers))
    ensures ReviewRows([HEADER] + Filled(answers), exported, names).LocalEvidence?
       <==> NoRepeats(Keys(exported)) && forall k :: 0 <= k < |answers| ==> ValidAnswer(answers[k].status, answers[k].name, names)
    ensures (forall e :: e in exported ==> NulFree(e)) ==> (NoRepeats(Keys(exported)) <==> NoRepeats(exported))
  {
    ReturnReads(answers);
    FilledShape(answers);
    var rows := [HEADER] + Filled(answers);
    assert rows[1..] == Filled(answers) && rows[0] == HEADER;
    assert forall k :: 0 <= k < |answers| ==> |Filled(answers)[k]| >= 3;
    hide *;
    hide Filled, Abouts, Triples, Formatted, NoRepeats, NulFree;
    KeysOfTriples(Filled(answers));
    PermutedKeys(Abouts(answers), exported);
    AcceptsByKey(rows, exported, names);
    AnswersAcceptable(answers, names);
    if forall e :: e in exported ==> NulFree(e) { DistinctKeys(exported); }
  }

  /** The export itself, sent back untouched, is refused unless there was nothing to review. */
  lemma UntouchedRefused(exported: seq<Export>, names: Names)
    ensures var answers := seq(|exported|, k requires 0 <= k < |exported| => Answer(exported[k], UNDECIDED, []));
      && BuildCsv(exported) == ReturnCsv(answers)
      && (ReviewRows([HEADER] + Filled(answers), exported, names).LocalEvidence? <==> exported == [])
  {
    var answers := seq(|exported|, k requires 0 <= k < |exported| => Answer(exported[k], UNDECIDED, []));
    assert Filled(answers) == seq(|exported|, k requires 0 <= k < |exported| => Line(exported[k], UNDECIDED, []));
    var rows := [HEADER] + Filled(answers);
    assert rows[1..] == Filled(answers);
    AcceptsByKey(rows, exported, names);
    if exported != [] {
      assert rows[1..][0] == Line(exported[0], UNDECIDED, []);
      assert !Acceptable(rows[1..][0], names);
    } else {
      assert RowKeys(rows[1..]) == [] == Keys(exported);
    }
  }

  // ---------------------------------------------------------------- names that hold NUL

  /** Another triple with the same key: the triple cut at a NUL of its own. */
  lemma Recut(e: Export) returns (other: Export)
    requires !NulFree(e)
    ensures other != e && KeyOf(other) == KeyOf(e)
  {
    if NUL in e.store {
      var a, b := CutAt(e.store);
      other := Export(a, b + [NUL] + e.corporation, e.state);
      assert (a + [NUL] + b) + [NUL] + e.corporation + [NUL] + e.state
          == a + [NUL] + (b + [NUL] + e.corporation) + [NUL] + e.state;
      assert |a| < |e.store|;
    } else if NUL in e.corporation {
      var a, b := CutAt(e.corporation);
      other := Export(e.store, a, b + [NUL] + e.state);
      assert e.store + [NUL] + (a + [NUL] + b) + [NUL] + e.state == e.store + [NUL] + a + [NUL] + (b + [NUL] + e.state);
      assert |a| < |e.corporation|;
    } else {
      var a, b := CutAt(e.state);
      other := Export(e.store + [NUL] + e.corporation, a, b);
      assert e.store + [NUL] + e.corporation + [NUL] + (a + [NUL] + b)
          == (e.store + [NUL] + e.corporation) + [NUL] + a + [NUL] + b;
      assert |a| < |e.state|;
    }
  }

  lemma CutAt(t: Text) returns (a: Text, b: Text)
    requires NUL in t
    ensures t == a + [NUL] + b
  {
    var k :| 0 <= k < |t| && t[k] == NUL;
    a, b := t[..k], t[k + 1..];
  }

  function ConfirmedAll(exported: seq<Export>): (r: seq<Answer>)
    ensures |r| == |exported|
    ensures forall k :: 0 <= k < |exported| ==> r[k] == Answer(exported[k], CONFIRMED, [])
  {
    seq(|exported|, k requires 0 <= k < |exported| => Answer(exported[k], CONFIRMED, []))
  }

  /** A return that confirms every line is accepted whenever its keys are the exported ones, once each. */
  lemma ConfirmedAccepted(returned: seq<Export>, exported: seq<Export>, names: Names)
    requires Keys(returned) == Keys(exported) && NoRepeats(Keys(exported))
    ensures ReviewRows([HEADER] + Filled(ConfirmedAll(returned)), exported, names).LocalEvidence?
    ensures Triples(Filled(ConfirmedAll(returned))) == returned
  {
    hide ReviewRows, Keys, NoRepeats, KeyOf, HEADER;
    var body := Filled(ConfirmedAll(returned));
    var rows := [HEADER] + body;
    assert rows[1..] == body && rows[0] == HEADER;
    forall k | 0 <= k < |body| ensures Acceptable(body[k], names) {
      ConfirmedAcceptable(returned[k], names);
    }
    assert Triples(body) == returned;
    KeysOfTriples(body);
    AcceptsByKey(rows, exported, names);
  }

  lemma ConfirmedAcceptable(e: Export, names: Names)
    ensures Acceptable(Line(e, CONFIRMED, []), names)
  {
    assert |ALIAS| != |CONFIRMED| && |EXCLUDED| != |CONFIRMED|;
  }

  /** Everything the review takes for this export is a permutation of what was exported. */
  ghost predicate OnlyPermutations(exported: seq<Export>, names: Names) {
    forall rows :: ReviewRows(rows, exported, names).LocalEvidence? ==> multiset(Triples(rows[1..])) == multiset(exported)
  }

  /** The review takes permutations only if and only if no exported name holds NUL, or two lines share a
      key and nothing is taken at all. */
  lemma NulExactly(exported: seq<Export>, names: Names)
    ensures OnlyPermutations(exported, names)
       <==> (forall e :: e in exported ==> NulFree(e)) || !NoRepeats(Keys(exported))
  {
    hide Walk, Keys, NoRepeats, NulFree, Triples, Filled, ConfirmedAll, HEADER;
    if forall e :: e in exported ==> NulFree(e) {
      forall rows | ReviewRows(rows, exported, names).LocalEvidence?
        ensures multiset(Triples(rows[1..])) == multiset(exported)
      {
        ReviewAccepts(rows, exported, names);
      }
    } else if !NoRepeats(Keys(exported)) {
      forall rows ensures !ReviewRows(rows, exported, names).LocalEvidence? {
        AcceptsByKey(rows, exported, names);
      }
    } else {
      var rows := NulLetsThrough(exported, names);
    }
  }

  /** With a NUL in some name, whichever column it is in, a return that was never exported is taken. */
  lemma NulLetsThrough(exported: seq<Export>, names: Names) returns (rows: seq<Row>)
    requires NoRepeats(Keys(exported)) && exists e :: e in exported && !NulFree(e)
    ensures rows != [] && ReviewRows(rows, exported, names).LocalEvidence?
    ensures multiset(Triples(rows[1..])) != multiset(exported)
  {
    hide ReviewRows, NoRepeats, NulFree, KeyOf, Filled, HEADER;
    var i :| 0 <= i < |exported| && !NulFree(exported[i]);
    var other := Recut(exported[i]);
    var returned := exported[i := other];
    assert Keys(returned) == Keys(exported);
    ConfirmedAccepted(returned, exported, names);
    rows := [HEADER] + Filled(ConfirmedAll(returned));
    assert rows[1..] == Filled(ConfirmedAll(returned));
    ReplacedDiffers(exported, i, other);
  }

  lemma ReplacedDiffers(s: seq<Export>, i: nat, other: Export)
    requires i < |s| && other != s[i]
    ensures multiset(s[i := other]) != multiset(s)
  {
    hide *;
    DropRemoves(s, i);
    DropRemoves(s[i := other], i);
    assert Drop(s[i := other], i) == Drop(s, i) by { DropSame(s, i, other); }
    assert multiset(s)[s[i]] == multiset(Drop(s, i))[s[i]] + 1;
    assert multiset(s[i := other])[s[i]] == multiset(Drop(s, i))[s[i]];
  }

  lemma DropSame(s: seq<Export>, i: nat, other: Export)
    requires i < |s|
    ensures Drop(s[i := other], i) == Drop(s, i)
  {
  }

  /** In short: with a NUL in the store name, a triple that was never exported is accepted. */
  lemma NulConfuses(a: Text, b: Text, c: Text, d: Text, names: Names)
    ensures var exported, returned := [Export(a + [NUL] + b, c, d)], [Export(a, b + [NUL] + c, d)];
      && returned != exported
      && ReviewRows([HEADER] + Filled(ConfirmedAll(returned)), exported, names).LocalEvidence?
  {
    hide ReviewRows, Filled, ConfirmedAll, HEADER;
    var exported, returned := [Export(a + [NUL] + b, c, d)], [Export(a, b + [NUL] + c, d)];
    assert (a + [NUL] + b) + [NUL] + c + [NUL] + d == a + [NUL] + (b + [NUL] + c) + [NUL] + d;
    assert Keys(returned) == Keys(exported);
    assert |a| < |a + [NUL] + b|;
    ConfirmedAccepted(returned, exported, names);
  }
}
