/** Versioned canonical facts: dbf-business-data-contract.js, promoteCanonicalVersion and the monthly projection. */
module CanonicalFacts {
  import opened Options
  import opened JsStrings

  const APPROVED: Text := Lit("approved")
  const PROMOTED: Text := Lit("promoted")
  const QUARANTINED: Text := Lit("quarantined")
  const CLOSED: Text := Lit("closed")

  /** A metric code: a key of STORE_MONTHLY_METRICS, a name that every plain object inherits, or any other. */
  datatype Metric =
    | TotalSales | TechnicalSales | RetailSales | MidSales | EcAllocatedSales
    | TotalCustomers | NewCustomers | ExistingCustomers
    | TotalUnitPrice | TechnicalUnitPrice
    | TotalRepeatRate | NewRepeatRate | SecondRepeatRate | ThirdRepeatRate | FixedRepeatRate
    | TotalProductivity | TechnicalProductivity | RetailPurchaseRate | OperatingProfit
    | Inherited(name: Text)
    | Unlisted(name: Text)

  /** What a fact says, as against where it stands among the versions of its grain. */
  datatype Content = Content(id: Text, grain: Text, month: Text, store: Text, metric: Metric, value: real,
                             definition: Text, status: Text, batchStatus: Text, validationStatus: Text)

  datatype Fact = Fact(content: Content, batch: Text, version: nat, active: bool, corrects: Option<Text>,
                       supersededAt: Option<Text>)

  /** An empty correctionOf is a batch that corrects no other. */
  datatype Batch = Batch(id: Text, approved: bool, status: Text, correctionOf: Text, promotedAt: Text)

  datatype Promotion = Promotion(promoted: Fact, superseded: Option<Fact>)

  datatype Refusal = ApprovalRequired | QuarantinedRow | DuplicateActive

  // ---------------------------------------------------------------- promoting

  predicate IsCurrent(f: Fact, grain: Text) {
    f.content.grain == grain && f.active
  }

  /** Array.prototype.find: the first active fact of the grain. */
  function Current(facts: seq<Fact>, grain: Text): (r: Option<nat>)
    ensures r.Some? ==> r.value < |facts| && IsCurrent(facts[r.value], grain)
    ensures r.None? ==> forall k :: 0 <= k < |facts| ==> !IsCurrent(facts[k], grain)
  {
    if facts == [] then None
    else if IsCurrent(facts[0], grain) then Some(0)
    else match Current(facts[1..], grain)
      case None => None
      case Some(i) => Some(i + 1)
  }

  function Superseded(f: Fact, batch: Batch): Fact {
    f.(active := false, supersededAt := Some(batch.promotedAt))
  }

  /** A correction names the fact it corrects; an empty id reads as none. */
  function Named(id: Text): Option<Text> {
    if id == [] then None else Some(id)
  }

  /** The new version, after the current one if there is one. */
  function Next(candidate: Content, batch: Batch, current: Option<Fact>): Fact {
    match current
    case None => Fact(candidate, batch.id, 1, true, None, None)
    case Some(f) => Fact(candidate, batch.id, f.version + 1, true, Named(f.content.id), None)
  }

  function Promote(batch: Batch, candidate: Content, facts: seq<Fact>): Result<Promotion, Refusal> {
    if !batch.approved || batch.status != APPROVED then Fail(ApprovalRequired)
    else if candidate.validationStatus == QUARANTINED then Fail(QuarantinedRow)
    else match Current(facts, candidate.grain)
      case None => Ok(Promotion(Next(candidate, batch, None), None))
      case Some(i) =>
        if batch.correctionOf == [] then Fail(DuplicateActive)
        else Ok(Promotion(Next(candidate, batch, Some(facts[i])), Some(Superseded(facts[i], batch))))
  }

  /** An active fact of the grain. */
  predicate Live(f: Fact, grain: Text) {
    f.active && f.content.grain == grain
  }

  /** A promotion wants an approved batch, a row that is not quarantined, and a correction if the grain has an
      active fact; the promoted fact is active, next in number, and names the one it corrects, which is retired. */
  lemma PromotesExactly(batch: Batch, candidate: Content, facts: seq<Fact>)
    ensures var r := Promote(batch, candidate, facts);
      && (r == Fail(ApprovalRequired) <==> !(batch.approved && batch.status == Lit("approved")))
      && (r == Fail(QuarantinedRow)
          <==> batch.approved && batch.status == Lit("approved") && candidate.validationStatus == Lit("quarantined"))
      && (r == Fail(DuplicateActive)
          <==> && batch.approved && batch.status == Lit("approved") && candidate.validationStatus != Lit("quarantined")
               && (exists f :: f in facts && Live(f, candidate.grain)) && batch.correctionOf == [])
      && (r.Ok? ==> r.value.promoted.content == candidate && r.value.promoted.batch == batch.id && r.value.promoted.active)
      && (r.Ok? && (forall f :: f in facts ==> !Live(f, candidate.grain)) ==>
           r.value.promoted.version == 1 && r.value.promoted.corrects == None && r.value.superseded == None)
      && (r.Ok? && (exists f :: f in facts && Live(f, candidate.grain)) ==>
           exists k :: 0 <= k < |facts| && Live(facts[k], candidate.grain)
             && (forall j :: 0 <= j < k ==> !Live(facts[j], candidate.grain))
             && r.value.promoted.version == facts[k].version + 1
             && r.value.promoted.corrects == (if facts[k].content.id == [] then None else Some(facts[k].content.id))
             && r.value.superseded == Some(facts[k].(active := false, supersededAt := Some(batch.promotedAt))))
  {
    hide Lit, Current;
    FirstLive(facts, candidate.grain);
    var current := Current(facts, candidate.grain);
    if current.Some? {
      assert facts[current.value] in facts && Live(facts[current.value], candidate.grain);
    }
    assert forall k :: 0 <= k < |facts| ==> (IsCurrent(facts[k], candidate.grain) <==> Live(facts[k], candidate.grain));
  }

  lemma {:induction false} FirstLive(facts: seq<Fact>, grain: Text)
    ensures var current := Current(facts, grain);
      current.Some? ==> forall j :: 0 <= j < current.value ==> !Live(facts[j], grain)
  {
    if facts == [] {
    } else {
      FirstLive(facts[1..], grain);
      assert forall j :: 0 < j < |facts| ==> facts[j] == facts[1..][j - 1];
    }
  }

  datatype Call = Call(batch: Batch, candidate: Content)

  /** Putting a result back: the superseded fact in its place, the promoted one at the end. */
  function Apply(facts: seq<Fact>, call: Call): seq<Fact> {
    match Promote(call.batch, call.candidate, facts)
    case Fail(_) => facts
    case Ok(p) =>
      match Current(facts, call.candidate.grain)
      case None => facts + [p.promoted]
      case Some(i) => (if p.superseded.Some? then facts[i := p.superseded.value] else facts) + [p.promoted]
  }

  function Run(calls: seq<Call>): seq<Fact> {
    if calls == [] then [] else Apply(Run(calls[..|calls| - 1]), calls[|calls| - 1])
  }

  // ---------------------------------------------------------------- the history of one grain

  function History(facts: seq<Fact>, grain: Text): seq<Fact> {
    if facts == [] then []
    else
      var last := facts[|facts| - 1];
      History(facts[..|facts| - 1], grain) + (if last.content.grain == grain then [last] else [])
  }

  /** Versions 1 to n, only the last active, each correction naming the fact before it if that has an id. */
  predicate Chained(h: seq<Fact>) {
    forall k :: 0 <= k < |h| ==> LinkAt(h, k)
  }

  predicate LinkAt(h: seq<Fact>, k: int)
    requires 0 <= k < |h|
  {
    && h[k].version == k + 1
    && (h[k].active <==> k == |h| - 1)
    && h[k].corrects == (if k == 0 then None else Named(h[k - 1].content.id))
  }

  /** What a call does to the history of its own grain. */
  function Extend(h: seq<Fact>, call: Call): seq<Fact> {
    if !call.batch.approved || call.batch.status != APPROVED || call.candidate.validationStatus == QUARANTINED then h
    else if h == [] then [Next(call.candidate, call.batch, None)]
    else if call.batch.correctionOf == [] then h
    else
      var last := h[|h| - 1];
      h[..|h| - 1] + [Superseded(last, call.batch), Next(call.candidate, call.batch, Some(last))]
  }

  function ExtendAll(calls: seq<Call>, grain: Text): seq<Fact> {
    if calls == [] then []
    else
      var h, call := ExtendAll(calls[..|calls| - 1], grain), calls[|calls| - 1];
      if call.candidate.grain == grain then Extend(h, call) else h
  }

  lemma {:induction false} HistoryHolds(facts: seq<Fact>, grain: Text, f: Fact)
    ensures f in History(facts, grain) <==> f in facts && f.content.grain == grain
  {
    if facts == [] {
    } else {
      var n := |facts| - 1;
      HistoryHolds(facts[..n], grain, f);
      assert facts == facts[..n] + [facts[n]];
    }
  }

  /** The place in its history of the fact at position i. */
  function Rank(facts: seq<Fact>, i: nat): nat
    requires i < |facts|
  {
    |History(facts[..i], facts[i].content.grain)|
  }

  lemma {:induction false} HistoryUpdate(facts: seq<Fact>, i: nat, f: Fact, grain: Text)
    requires i < |facts| && f.content.grain == facts[i].content.grain
    ensures f.content.grain == grain ==>
              && Rank(facts, i) < |History(facts, grain)| && History(facts, grain)[Rank(facts, i)] == facts[i]
              && History(facts[i := f], grain) == History(facts, grain)[Rank(facts, i) := f]
    ensures f.content.grain != grain ==> History(facts[i := f], grain) == History(facts, grain)
  {
    var n := |facts| - 1;
    if i < n {
      HistoryUpdate(facts[..n], i, f, grain);
      assert facts[..n][..i] == facts[..i];
      assert facts[i := f][..n] == facts[..n][i := f];
    } else {
      assert facts[i := f][..n] == facts[..n];
    }
  }

  lemma HistoryAppend(facts: seq<Fact>, f: Fact, grain: Text)
    ensures History(facts + [f], grain) == History(facts, grain) + (if f.content.grain == grain then [f] else [])
  {
    assert (facts + [f])[..|facts|] == facts;
  }

  lemma CurrentRank(facts: seq<Fact>, i: nat, grain: Text)
    requires Chained(History(facts, grain)) && i < |facts| && IsCurrent(facts[i], grain)
    ensures Rank(facts, i) == |History(facts, grain)| - 1
  {
    HistoryUpdate(facts, i, facts[i], grain);
    assert LinkAt(History(facts, grain), Rank(facts, i));
  }

  lemma HistoryHasCurrent(facts: seq<Fact>, grain: Text)
    requires Chained(History(facts, grain)) && History(facts, grain) != []
    ensures Current(facts, grain).Some?
  {
    hide History, Current;
    var h := History(facts, grain);
    assert LinkAt(h, |h| - 1);
    HistoryHolds(facts, grain, h[|h| - 1]);
    assert IsCurrent(h[|h| - 1], grain);
  }

  /** In a chained history the current fact is the last one. */
  lemma CurrentIsLast(facts: seq<Fact>, grain: Text)
    requires Chained(History(facts, grain))
    ensures Current(facts, grain).None? <==> History(facts, grain) == []
    ensures Current(facts, grain).Some? ==>
              && Rank(facts, Current(facts, grain).value) == |History(facts, grain)| - 1
              && facts[Current(facts, grain).value] == History(facts, grain)[|History(facts, grain)| - 1]
  {
    hide History, Current, Chained;
    match Current(facts, grain)
    case Some(i) =>
      HistoryUpdate(facts, i, facts[i], grain);
      CurrentRank(facts, i, grain);
    case None =>
      if History(facts, grain) != [] {
        HistoryHasCurrent(facts, grain);
      }
  }

  lemma OneMore(h: seq<Fact>, candidate: Content, batch: Batch)
    requires Chained(h) && h != []
    ensures var last := h[|h| - 1];
      Chained(h[..|h| - 1] + [Superseded(last, batch), Next(candidate, batch, Some(last))])
  {
    var n, last := |h|, h[|h| - 1];
    var r := h[..n - 1] + [Superseded(last, batch), Next(candidate, batch, Some(last))];
    forall k | 0 <= k < |r| ensures LinkAt(r, k) {
      assert LinkAt(h, if k < n then k else n - 1);
      if k < n - 1 {
        assert r[k] == h[k] && (k > 0 ==> r[k - 1] == h[k - 1]);
      } else if k == n - 1 {
        assert r[k] == Superseded(h[k], batch) && (k > 0 ==> r[k - 1] == h[k - 1]);
      } else {
        assert r[k] == Next(candidate, batch, Some(last)) && r[k - 1] == Superseded(last, batch);
      }
    }
  }

  lemma ExtendChains(h: seq<Fact>, call: Call)
    requires Chained(h)
    ensures Chained(Extend(h, call))
  {
    hide APPROVED, QUARANTINED, Chained;
    FirstVersion(call);
    if h != [] { OneMore(h, call.candidate, call.batch); }
  }

  lemma FirstVersion(call: Call)
    ensures Chained([Next(call.candidate, call.batch, None)])
  {
  }

  /** One call, seen from one grain: the grain's history is extended, or not touched at all. */
  lemma ApplyHistory(facts: seq<Fact>, call: Call, grain: Text)
    requires Chained(History(facts, call.candidate.grain))
    ensures History(Apply(facts, call), grain)
         == if call.candidate.grain == grain then Extend(History(facts, grain), call) else History(facts, grain)
  {
    hide History, Chained, Current, Rank;
    var own := call.candidate.grain;
    CurrentIsLast(facts, own);
    match Promote(call.batch, call.candidate, facts)
    case Fail(_) =>
    case Ok(p) =>
      match Current(facts, own)
      case None => HistoryAppend(facts, p.promoted, grain);
      case Some(i) =>
        var f := Superseded(facts[i], call.batch);
        HistoryUpdate(facts, i, f, grain);
        HistoryAppend(facts[i := f], p.promoted, grain);
  }

  // ---------------------------------------------------------------- whole runs

  /** After any calls in any order every grain's history is a chain, and is what its own calls alone
      make of it. */
  lemma {:induction false} RunHistory(calls: seq<Call>, grain: Text)
    ensures History(Run(calls), grain) == ExtendAll(calls, grain)
    ensures Chained(History(Run(calls), grain))
  {
    if calls == [] {
    } else {
      hide History, Chained, Extend, Apply;
      var n := |calls| - 1;
      var call := calls[n];
      RunHistory(calls[..n], grain);
      RunHistory(calls[..n], call.candidate.grain);
      ApplyHistory(Run(calls[..n]), call, grain);
      ExtendChains(ExtendAll(calls[..n], grain), call);
    }
  }

  function CallsFor(calls: seq<Call>, grain: Text): seq<Call> {
    if calls == [] then []
    else
      var own, last := CallsFor(calls[..|calls| - 1], grain), calls[|calls| - 1];
      if last.candidate.grain == grain then own + [last] else own
  }

  lemma {:induction false} ExtendOwn(calls: seq<Call>, grain: Text)
    ensures ExtendAll(CallsFor(calls, grain), grain) == ExtendAll(calls, grain)
    ensures forall c :: c in CallsFor(calls, grain) ==> c.candidate.grain == grain
  {
    if calls == [] {
    } else {
      hide Extend;
      var n := |calls| - 1;
      var own := CallsFor(calls[..n], grain);
      ExtendOwn(calls[..n], grain);
      assert (own + [calls[n]])[..|own|] == own;
    }
  }

  /** Grains do not interfere: two runs whose calls for a grain agree, however they are interleaved with
      other calls, give that grain the same history. */
  lemma GrainsIndependent(a: seq<Call>, b: seq<Call>, grain: Text)
    requires CallsFor(a, grain) == CallsFor(b, grain)
    ensures History(Run(a), grain) == History(Run(b), grain)
  {
    hide History, Run, ExtendAll, Chained;
    RunHistory(a, grain);
    RunHistory(b, grain);
    ExtendOwn(a, grain);
    ExtendOwn(b, grain);
  }

  /** Exactly one active fact for each grain ever promoted. */
  lemma OneActive(calls: seq<Call>, grain: Text)
    ensures forall i, j :: 0 <= i < j < |Run(calls)| && IsCurrent(Run(calls)[i], grain) ==> !IsCurrent(Run(calls)[j], grain)
    ensures (exists f :: f in Run(calls) && f.content.grain == grain)
       <==> (exists i :: 0 <= i < |Run(calls)| && IsCurrent(Run(calls)[i], grain))
  {
    var facts := Run(calls);
    RunHistory(calls, grain);
    hide Run, ExtendAll;
    forall i, j | 0 <= i < j < |facts| && IsCurrent(facts[i], grain) ensures !IsCurrent(facts[j], grain) {
      if IsCurrent(facts[j], grain) {
        CurrentRank(facts, i, grain);
        CurrentRank(facts, j, grain);
        RankGrows(facts, i, j, grain);
      }
    }
    CurrentIsLast(facts, grain);
    if f :| f in facts && f.content.grain == grain {
      HistoryHolds(facts, grain, f);
    }
  }

  lemma RankGrows(facts: seq<Fact>, i: nat, j: nat, grain: Text)
    requires i < j < |facts| && facts[i].content.grain == facts[j].content.grain == grain
    ensures Rank(facts, i) < Rank(facts, j)
  {
    var before := facts[..j];
    HistoryUpdate(before, i, before[i], grain);
    assert before[..i] == facts[..i];
  }

  /** The same facts and possibly more; only the last of h may have been retired meanwhile. */
  predicate Continues(h: seq<Fact>, later: seq<Fact>) {
    && |h| <= |later|
    && forall k :: 0 <= k < |h| ==>
         later[k] == h[k] || (k == |h| - 1 && later[k].(active := h[k].active, supersededAt := h[k].supersededAt) == h[k])
  }

  lemma ExtendContinues(h: seq<Fact>, later: seq<Fact>, call: Call)
    requires Continues(h, later)
    ensures Continues(h, Extend(later, call))
  {
  }

  /** Promoted content is never rewritten: further calls only add versions and retire the last one. */
  lemma {:induction false} NothingRewritten(calls: seq<Call>, more: seq<Call>, grain: Text)
    ensures Continues(History(Run(calls), grain), History(Run(calls + more), grain))
  {
    hide Run, History, Extend, Chained, Continues;
    RunHistory(calls, grain);
    RunHistory(calls + more, grain);
    if more == [] {
      assert calls + more == calls;
      Unchanged(ExtendAll(calls, grain));
    } else {
      var n := |more| - 1;
      NothingRewritten(calls, more[..n], grain);
      RunHistory(calls + more[..n], grain);
      assert (calls + more)[..|calls| + n] == calls + more[..n];
      ExtendContinues(ExtendAll(calls, grain), ExtendAll(calls + more[..n], grain), more[n]);
    }
  }

  lemma Unchanged(h: seq<Fact>)
    ensures Continues(h, h)
  {
  }

  // ---------------------------------------------------------------- the monthly projection

  datatype Query = Query(month: Text, metrics: seq<Metric>, stores: seq<Text>, allowed: set<Text>)

  datatype Shown = Shown(store: Text, metric: Metric, value: real, definition: Text, confirmed: bool)

  /** An empty request asks for everything allowed. */
  function Requested(asked: seq<Text>, allowed: set<Text>): set<Text> {
    if asked == [] then allowed else set x | x in asked && x in allowed
  }

  /** All listed metrics if none is asked for, else those asked for that the lookup finds; it finds the
      inherited names too. */
  predicate RequestedMetric(m: Metric, asked: seq<Metric>) {
    !m.Unlisted? && if asked == [] then !m.Inherited? else m in asked
  }

  predicate Wanted(f: Fact, q: Query) {
    && f.content.month == q.month && f.active && f.content.batchStatus == PROMOTED
    && f.content.store in Requested(q.stores, q.allowed) && RequestedMetric(f.content.metric, q.metrics)
  }

  function Show(f: Fact): Shown {
    Shown(f.content.store, f.content.metric, f.content.value, f.content.definition, f.content.status == CLOSED)
  }

  function Shows(facts: seq<Fact>, q: Query): seq<Shown> {
    if facts == [] then []
    else
      var before, last := Shows(facts[..|facts| - 1], q), facts[|facts| - 1];
      if Wanted(last, q) then before + [Show(last)] else before
  }

  /** storeOperationsMonthlyFactsV1; None is the exception for a malformed month. */
  function Monthly(facts: seq<Fact>, q: Query): Option<seq<Shown>> {
    if IsMonth(q.month) then Some(Shows(facts, q)) else None
  }

  predicate SameCell(f: Fact, g: Fact) {
    f.content.month == g.content.month && f.content.store == g.content.store && f.content.metric == g.content.metric
  }

  /** Within the month, store and metric determine the grain. */
  ghost predicate GrainByStoreAndMetric(facts: seq<Fact>, month: Text) {
    forall f, g :: f in facts && g in facts && f.content.month == month && SameCell(f, g) ==>
      f.content.grain == g.content.grain
  }

  ghost predicate OnePerGrain(facts: seq<Fact>) {
    forall i, j :: 0 <= i < j < |facts| && facts[i].active && facts[j].active ==>
      facts[i].content.grain != facts[j].content.grain
  }

  lemma {:induction false} ShowsHold(facts: seq<Fact>, q: Query, s: Shown)
    ensures s in Shows(facts, q) <==> exists f :: f in facts && Wanted(f, q) && Show(f) == s
  {
    hide Wanted, Show;
    if facts == [] {
    } else {
      var n := |facts| - 1;
      ShowsHold(facts[..n], q, s);
      assert facts == facts[..n] + [facts[n]];
    }
  }

  lemma WantedIsActive(f: Fact, q: Query)
    requires Wanted(f, q)
    ensures f.active && f.content.month == q.month
  {
    hide Requested, RequestedMetric;
  }

  predicate SamePlace(a: Shown, b: Shown) {
    a.store == b.store && a.metric == b.metric
  }

  ghost predicate Places(rows: seq<Shown>) {
    forall i, j :: 0 <= i < j < |rows| ==> !SamePlace(rows[i], rows[j])
  }

  lemma LastIsNew(facts: seq<Fact>, q: Query, s: Shown)
    requires facts != [] && OnePerGrain(facts) && GrainByStoreAndMetric(facts, q.month)
    requires Wanted(facts[|facts| - 1], q) && s in Shows(facts[..|facts| - 1], q)
    ensures !SamePlace(s, Show(facts[|facts| - 1]))
  {
    hide Wanted, Shows;
    var n := |facts| - 1;
    ShowsHold(facts[..n], q, s);
    var f :| f in facts[..n] && Wanted(f, q) && Show(f) == s;
    var k :| 0 <= k < n && facts[..n][k] == f;
    WantedIsActive(f, q);
    WantedIsActive(facts[n], q);
    var last := facts[n];
    assert facts[k] == f && f in facts && last in facts;
    assert f.content.grain != last.content.grain;
    assert !SameCell(f, last);
  }

  lemma {:induction false} ShowsDistinct(facts: seq<Fact>, q: Query)
    requires OnePerGrain(facts) && GrainByStoreAndMetric(facts, q.month)
    ensures Places(Shows(facts, q))
  {
    hide Wanted, SamePlace;
    if facts == [] {
    } else {
      var n := |facts| - 1;
      var before := Shows(facts[..n], q);
      Fewer(facts, q.month);
      ShowsDistinct(facts[..n], q);
      if Wanted(facts[n], q) {
        forall i | 0 <= i < |before| ensures !SamePlace(before[i], Show(facts[n])) {
          LastIsNew(facts, q, before[i]);
        }
      }
    }
  }

  lemma Fewer(facts: seq<Fact>, month: Text)
    requires facts != [] && OnePerGrain(facts) && GrainByStoreAndMetric(facts, month)
    ensures OnePerGrain(facts[..|facts| - 1]) && GrainByStoreAndMetric(facts[..|facts| - 1], month)
  {
    hide SameCell;
    assert forall f :: f in facts[..|facts| - 1] ==> f in facts;
  }

  /** The fact is the current, promoted one of the month, of a store that is allowed and, if stores are asked
      for, asked for, and of a metric that is asked for; if none is, of one of those listed. */
  predicate Answers(f: Fact, q: Query) {
    && f.content.month == q.month && f.active && f.content.batchStatus == Lit("promoted")
    && f.content.store in q.allowed && (q.stores == [] || f.content.store in q.stores)
    && !f.content.metric.Unlisted?
    && (q.metrics == [] ==> !f.content.metric.Inherited?)
    && (q.metrics != [] ==> f.content.metric in q.metrics)
  }

  /** A row says of a fact its store, metric, value and definition, and whether it is closed. */
  predicate Tells(s: Shown, f: Fact) {
    && s.store == f.content.store && s.metric == f.content.metric && s.value == f.content.value
    && s.definition == f.content.definition && (s.confirmed <==> f.content.status == Lit("closed"))
  }

  lemma WantedExactly(f: Fact, q: Query, s: Shown)
    ensures Wanted(f, q) <==> Answers(f, q)
    ensures Show(f) == s <==> Tells(s, f)
  {
    hide Lit;
  }

  /** Over the facts of any run, the projection shows each store and metric at most once, and exactly
      those whose current fact is wanted. */
  lemma ProjectionIsAFunction(calls: seq<Call>, q: Query)
    requires IsMonth(q.month) && GrainByStoreAndMetric(Run(calls), q.month)
    ensures Monthly(Run(calls), q).Some?
    ensures var rows := Monthly(Run(calls), q).value;
      && (forall i, j :: 0 <= i < j < |rows| ==> rows[i].store != rows[j].store || rows[i].metric != rows[j].metric)
      && (forall s :: s in rows <==> exists f :: f in Run(calls) && Answers(f, q) && Tells(s, f))
  {
    hide Run, Wanted, Shows, Show, Answers, Tells;
    var facts := Run(calls);
    forall i, j | 0 <= i < j < |facts| && facts[i].active && facts[j].active
      ensures facts[i].content.grain != facts[j].content.grain
    {
      OneActive(calls, facts[i].content.grain);
      assert IsCurrent(facts[i], facts[i].content.grain);
    }
    ShowsDistinct(facts, q);
    forall s ensures s in Shows(facts, q) <==> exists f :: f in facts && Answers(f, q) && Tells(s, f) {
      ShowsHold(facts, q, s);
      forall f ensures (Wanted(f, q) && Show(f) == s) <==> (Answers(f, q) && Tells(s, f)) {
        WantedExactly(f, q, s);
      }
    }
    var rows := Shows(facts, q);
    forall i, j | 0 <= i < j < |rows| ensures rows[i].store != rows[j].store || rows[i].metric != rows[j].metric {
      assert !SamePlace(rows[i], rows[j]);
    }
  }

  /** The month has to be written as a month, else there is no projection. */
  lemma MonthlyExactly(facts: seq<Fact>, q: Query)
    ensures Monthly(facts, q).Some? <==> IsMonth(q.month)
    ensures Monthly(facts, q).Some? ==> Monthly(facts, q).value == Shows(facts, q)
  {
  }

  /** The rows come in the order of the facts. */
  lemma ShowsNext(before: seq<Fact>, f: Fact, q: Query)
    ensures |Shows(before + [f], q)| == |Shows(before, q)| + (if Answers(f, q) then 1 else 0)
    ensures Shows(before, q) <= Shows(before + [f], q)
    ensures Answers(f, q) ==> Tells(Shows(before + [f], q)[|Shows(before, q)|], f)
  {
    hide Wanted, Show, Answers, Tells;
    assert (before + [f])[..|before|] == before;
    WantedExactly(f, q, Show(f));
  }
}
