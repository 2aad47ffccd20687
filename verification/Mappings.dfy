/** accounting_core/validation.py, validate_mappings. */
module Mappings {
  import opened Dates
  import opened Options
  import opened PyStrings
  import opened Folds

  datatype MappingStatus = Unmapped | Proposed | Approved | Rejected | Inactive

  datatype StatementType = Bs | Pl

  datatype Fact = Fact(sheet: Text, entity: Text, period: Option<Date>, account: Option<Text>, statement: StatementType,
                       context: Option<Text>, entityStatus: MappingStatus, accountStatus: MappingStatus)

  datatype Key = Key(entity: Text, period: Date, account: Text, statement: StatementType, context: Option<Text>)

  datatype Kind = EntityNotApproved | AccountNotApproved | DuplicateFact

  datatype Result = Result(kind: Kind, sheet: Text)

  /** The duplicate key, once both the period and the account are resolved. */
  function KeyOf(f: Fact): Option<Key> {
    if f.period.Some? && f.account.Some? then
      Some(Key(f.entity, f.period.value, f.account.value, f.statement, f.context))
    else None
  }

  predicate Unapproved(f: Fact, kind: Kind) {
    match kind
    case EntityNotApproved => f.entityStatus != Approved
    case AccountNotApproved => f.accountStatus != Approved
    case DuplicateFact => false
  }

  /** Some fact of the sheet lacks the approval. */
  predicate Affected(facts: seq<Fact>, kind: Kind, sheet: Text) {
    exists k :: 0 <= k < |facts| && facts[k].sheet == sheet && Unapproved(facts[k], kind)
  }

  predicate Keyed(facts: seq<Fact>, key: Key) {
    exists k :: 0 <= k < |facts| && KeyOf(facts[k]) == Some(key)
  }

  /** What the fact after the given ones adds to the results. */
  function Adds(before: seq<Fact>, f: Fact, kind: Kind): seq<Result> {
    var reported :=
      if kind == DuplicateFact then KeyOf(f).Some? && Keyed(before, KeyOf(f).value)
      else Unapproved(f, kind) && !Affected(before, kind, f.sheet);
    if reported then [Result(kind, f.sheet)] else []
  }

  function Results(facts: seq<Fact>): seq<Result> {
    if facts == [] then []
    else
      var before, f := facts[..|facts| - 1], facts[|facts| - 1];
      Results(before) + Adds(before, f, EntityNotApproved) + Adds(before, f, AccountNotApproved)
      + Adds(before, f, DuplicateFact)
  }

  /** Both facts have a period and an account, and agree in these, in entity, statement and context. */
  predicate Duplicates(f: Fact, g: Fact) {
    && f.period.Some? && g.period.Some? && f.period.value == g.period.value
    && f.account.Some? && g.account.Some? && f.account.value == g.account.value
    && f.entity == g.entity && f.statement == g.statement && f.context == g.context
  }

  lemma KeysMeet(f: Fact, g: Fact)
    ensures KeyOf(f).Some? && KeyOf(f) == KeyOf(g) <==> Duplicates(f, g)
  {
  }

  /** What a fact adds: a finding for each approval it is the first of its sheet to lack, and one if it
      duplicates an earlier fact, in this order. */
  lemma FactAdds(before: seq<Fact>, f: Fact)
    ensures Results(before + [f])
         == Results(before)
          + (if f.entityStatus != Approved && !exists g :: g in before && g.sheet == f.sheet && g.entityStatus != Approved
             then [Result(EntityNotApproved, f.sheet)] else [])
          + (if f.accountStatus != Approved && !exists g :: g in before && g.sheet == f.sheet && g.accountStatus != Approved
             then [Result(AccountNotApproved, f.sheet)] else [])
          + (if exists g :: g in before && Duplicates(g, f) then [Result(DuplicateFact, f.sheet)] else [])
  {
    hide KeyOf, Duplicates, Results;
    var facts := before + [f];
    assert facts[..|before|] == before && facts[..|before| + 1] == facts && facts[|before|] == f;
    ResultsNext(facts, |before|);
    forall g ensures KeyOf(f).Some? && KeyOf(g) == KeyOf(f) <==> Duplicates(g, f) {
      KeysMeet(g, f);
    }
    if exists g :: g in before && Duplicates(g, f) {
      var g :| g in before && Duplicates(g, f);
      var k :| 0 <= k < |before| && before[k] == g;
      assert KeyOf(before[k]) == Some(KeyOf(f).value);
    }
  }

  lemma ResultsNext(facts: seq<Fact>, k: nat)
    requires k < |facts|
    ensures Results(facts[..k + 1])
         == Results(facts[..k]) + Adds(facts[..k], facts[k], EntityNotApproved)
          + Adds(facts[..k], facts[k], AccountNotApproved) + Adds(facts[..k], facts[k], DuplicateFact)
  {
    hide Adds;
    assert facts[..k + 1][..k] == facts[..k];
  }

  lemma AffectedNext(facts: seq<Fact>, k: nat, kind: Kind, sheet: Text)
    requires k < |facts|
    ensures Affected(facts[..k + 1], kind, sheet)
       <==> Affected(facts[..k], kind, sheet) || (facts[k].sheet == sheet && Unapproved(facts[k], kind))
  {
    hide Unapproved;
    var now, next := facts[..k], facts[..k + 1];
    assert next == now + [facts[k]];
    assert next[k] == facts[k];
  }

  lemma KeyedNext(facts: seq<Fact>, k: nat, key: Key)
    requires k < |facts|
    ensures Keyed(facts[..k + 1], key) <==> Keyed(facts[..k], key) || KeyOf(facts[k]) == Some(key)
  {
    hide KeyOf;
    var now, next := facts[..k], facts[..k + 1];
    assert next == now + [facts[k]];
    assert next[k] == facts[k];
  }

  /** The emitted set of the loop: the mapping findings already made. */
  ghost predicate Emitted(facts: seq<Fact>, emitted: set<Result>) {
    forall kind, sheet :: Result(kind, sheet) in emitted <==> Affected(facts, kind, sheet)
  }

  ghost predicate Seen(facts: seq<Fact>, seen: set<Key>) {
    forall key :: key in seen <==> Keyed(facts, key)
  }

  /** The findings a fact calls for, made before or not. */
  function Marks(f: Fact): set<Result> {
    (if Unapproved(f, EntityNotApproved) then {Result(EntityNotApproved, f.sheet)} else {})
    + (if Unapproved(f, AccountNotApproved) then {Result(AccountNotApproved, f.sheet)} else {})
  }

  lemma MarksHold(f: Fact, kind: Kind, sheet: Text)
    ensures Result(kind, sheet) in Marks(f) <==> f.sheet == sheet && Unapproved(f, kind)
  {
  }

  lemma EmittedNext(facts: seq<Fact>, k: nat, emitted: set<Result>)
    requires k < |facts| && Emitted(facts[..k], emitted)
    ensures Emitted(facts[..k + 1], emitted + Marks(facts[k]))
  {
    hide Affected, Unapproved, Marks;
    forall kind, sheet
      ensures Result(kind, sheet) in emitted + Marks(facts[k]) <==> Affected(facts[..k + 1], kind, sheet)
    {
      MarksHold(facts[k], kind, sheet);
      AffectedNext(facts, k, kind, sheet);
    }
  }

  lemma SeenNext(facts: seq<Fact>, k: nat, seen: set<Key>)
    requires k < |facts| && Seen(facts[..k], seen)
    ensures Seen(facts[..k + 1], if KeyOf(facts[k]).Some? then seen + {KeyOf(facts[k]).value} else seen)
  {
    hide Keyed;
    forall key ensures Keyed(facts[..k + 1], key) <==> Keyed(facts[..k], key) || KeyOf(facts[k]) == Some(key) {
      KeyedNext(facts, k, key);
    }
  }

  method ValidateMappings(facts: seq<Fact>) returns (results: seq<Result>)
    ensures results == Results(facts)
  {
    hide Affected, Keyed, Unapproved, KeyOf, Results;
    results := [];
    var seen: set<Key>, emitted: set<Result> := {}, {};
    LoopStarts(facts);
    for k := 0 to |facts|
      invariant results == Results(facts[..k]) && Seen(facts[..k], seen) && Emitted(facts[..k], emitted)
    {
      var fact := facts[k];
      ghost var emittedBefore := emitted;
      if Unapproved(fact, EntityNotApproved) {
        var key := Result(EntityNotApproved, fact.sheet);
        if key !in emitted {
          emitted := emitted + {key};
          results := results + [key];
        }
      }
      if Unapproved(fact, AccountNotApproved) {
        var key := Result(AccountNotApproved, fact.sheet);
        if key !in emitted {
          emitted := emitted + {key};
          results := results + [key];
        }
      }
      ResultsNext(facts, k);
      assert emitted == emittedBefore + Marks(fact);
      EmittedNext(facts, k, emittedBefore);
      SeenNext(facts, k, seen);
      if KeyOf(fact).Some? {
        if KeyOf(fact).value in seen { results := results + [Result(DuplicateFact, fact.sheet)]; }
        seen := seen + {KeyOf(fact).value};
      }
    }
    assert facts[..|facts|] == facts;
  }

  lemma LoopStarts(facts: seq<Fact>)
    ensures Results(facts[..0]) == [] && Seen(facts[..0], {}) && Emitted(facts[..0], {})
  {
  }

  // ---------------------------------------------------------------- how much is reported

  function Count(results: seq<Result>, r: Result): nat {
    multiset(results)[r]
  }

  lemma CountNext(facts: seq<Fact>, n: nat, r: Result)
    requires n < |facts|
    ensures Count(Results(facts[..n + 1]), r)
         == Count(Results(facts[..n]), r) + Count(Adds(facts[..n], facts[n], EntityNotApproved), r)
          + Count(Adds(facts[..n], facts[n], AccountNotApproved), r) + Count(Adds(facts[..n], facts[n], DuplicateFact), r)
  {
    hide Results, Adds;
    ResultsNext(facts, n);
  }

  lemma AddsCount(before: seq<Fact>, f: Fact, kind: Kind, r: Result)
    ensures r.kind != kind ==> Count(Adds(before, f, kind), r) == 0
    ensures kind != DuplicateFact && r.kind == kind ==>
              Count(Adds(before, f, kind), r)
              == if f.sheet == r.sheet && Unapproved(f, kind) && !Affected(before, kind, r.sheet) then 1 else 0
  {
    hide Affected, Keyed, Unapproved, KeyOf;
  }

  /** Each sheet lacking an approval is reported once for that approval, however its facts are ordered. */
  lemma {:induction false} ReportedOnce(facts: seq<Fact>, kind: Kind, sheet: Text)
    requires kind != DuplicateFact
    ensures Count(Results(facts), Result(kind, sheet)) == if Affected(facts, kind, sheet) then 1 else 0
  {
    if facts == [] {
    } else {
      hide Affected, Unapproved, Results, Adds, Count;
      var n, r := |facts| - 1, Result(kind, sheet);
      ReportedOnce(facts[..n], kind, sheet);
      CountNext(facts, n, r);
      AddsCount(facts[..n], facts[n], EntityNotApproved, r);
      AddsCount(facts[..n], facts[n], AccountNotApproved, r);
      AddsCount(facts[..n], facts[n], DuplicateFact, r);
      AffectedNext(facts, n, kind, sheet);
      assert facts[..n + 1] == facts;
    }
  }

  function OfKind(results: seq<Result>, kind: Kind): nat {
    if results == [] then 0
    else OfKind(results[..|results| - 1], kind) + (if results[|results| - 1].kind == kind then 1 else 0)
  }

  lemma {:induction false} OfKindConcat(a: seq<Result>, b: seq<Result>, kind: Kind)
    ensures OfKind(a + b, kind) == OfKind(a, kind) + OfKind(b, kind)
  {
    if b == [] {
      assert a + b == a;
    } else {
      var n := |b| - 1;
      OfKindConcat(a, b[..n], kind);
      assert (a + b)[..|a| + n] == a + b[..n];
    }
  }

  /** The facts whose period and account are both resolved. */
  function KeyedFacts(facts: seq<Fact>): nat {
    Sum(Resolved, facts)
  }

  function Resolved(f: Fact): nat {
    if KeyOf(f).Some? then 1 else 0
  }

  function Keys(facts: seq<Fact>): (r: set<Key>)
    ensures forall key :: key in r <==> Keyed(facts, key)
  {
    if facts == [] then {}
    else
      var before, f := facts[..|facts| - 1], facts[|facts| - 1];
      var rest := Keys(before);
      KeyedNext(facts, |facts| - 1, if KeyOf(f).Some? then KeyOf(f).value else Key([], Date(0, 0, 0), [], Bs, None));
      assert facts[..|facts|] == facts;
      assert forall key :: Keyed(facts, key) <==> Keyed(before, key) || KeyOf(f) == Some(key);
      if KeyOf(f).Some? then rest + {KeyOf(f).value} else rest
  }

  predicate Repeats(before: seq<Fact>, f: Fact) {
    KeyOf(f).Some? && Keyed(before, KeyOf(f).value)
  }

  lemma KeysNext(facts: seq<Fact>)
    requires facts != []
    ensures var before, f := facts[..|facts| - 1], facts[|facts| - 1];
      KeyedFacts(facts) - |Keys(facts)| == KeyedFacts(before) - |Keys(before)| + (if Repeats(before, f) then 1 else 0)
  {
    hide Keyed, KeyOf;
    var before, f := facts[..|facts| - 1], facts[|facts| - 1];
    assert KeyedFacts(facts) == KeyedFacts(before) + Resolved(f);
    if KeyOf(f).Some? {
      var key := KeyOf(f).value;
      assert Keys(facts) == Keys(before) + {key};
      assert key in Keys(before) <==> Keyed(before, key);
      assert key in Keys(before) ==> Keys(facts) == Keys(before);
    } else {
      assert Keys(facts) == Keys(before);
    }
  }

  lemma AddsDuplicates(before: seq<Fact>, f: Fact, kind: Kind)
    ensures OfKind(Adds(before, f, kind), DuplicateFact)
         == if kind == DuplicateFact && Repeats(before, f) then 1 else 0
  {
    hide Affected, Keyed, Unapproved, KeyOf;
    assert [Result(kind, f.sheet)][..0] == [];
  }

  /** Duplicates reported: keyed facts less distinct keys. */
  lemma {:induction false} DuplicatesCounted(facts: seq<Fact>)
    ensures OfKind(Results(facts), DuplicateFact) == KeyedFacts(facts) - |Keys(facts)|
  {
    if facts == [] {
      NothingCounted();
    } else {
      hide Results, Keys, KeyedFacts, Repeats, Adds, OfKind;
      var n := |facts| - 1;
      var before, f := facts[..n], facts[n];
      DuplicatesCounted(before);
      KeysNext(facts);
      ResultsNext(facts, n);
      assert facts[..n + 1] == facts;
      var e, a, d := Adds(before, f, EntityNotApproved), Adds(before, f, AccountNotApproved), Adds(before, f, DuplicateFact);
      OfKindConcat(Results(before) + e + a, d, DuplicateFact);
      OfKindConcat(Results(before) + e, a, DuplicateFact);
      OfKindConcat(Results(before), e, DuplicateFact);
      AddsDuplicates(before, f, EntityNotApproved);
      AddsDuplicates(before, f, AccountNotApproved);
      AddsDuplicates(before, f, DuplicateFact);
    }
  }

  lemma NothingCounted()
    ensures OfKind(Results([]), DuplicateFact) == 0 == KeyedFacts([]) == |Keys([])|
  {
  }

  lemma SameMembers(a: seq<Fact>, b: seq<Fact>)
    requires multiset(a) == multiset(b)
    ensures forall f :: f in a <==> f in b
  {
    assert forall f :: f in a <==> f in multiset(a);
    assert forall f :: f in b <==> f in multiset(b);
  }

  lemma AffectedByMembers(facts: seq<Fact>, kind: Kind, sheet: Text)
    ensures Affected(facts, kind, sheet) <==> exists f :: f in facts && f.sheet == sheet && Unapproved(f, kind)
  {
    hide Unapproved;
  }

  lemma KeyedByMembers(facts: seq<Fact>, key: Key)
    ensures Keyed(facts, key) <==> exists f :: f in facts && KeyOf(f) == Some(key)
  {
    hide KeyOf;
  }

  /** Reordering the facts changes neither the number of duplicates nor any mapping finding. */
  lemma OrderFree(a: seq<Fact>, b: seq<Fact>)
    requires multiset(a) == multiset(b)
    ensures OfKind(Results(a), DuplicateFact) == OfKind(Results(b), DuplicateFact)
    ensures forall r: Result :: r.kind != DuplicateFact ==> Count(Results(a), r) == Count(Results(b), r)
  {
    hide Affected, Keyed, Unapproved, KeyOf, Results, OfKind, Sum, Count;
    SameMembers(a, b);
    DuplicatesCounted(a);
    DuplicatesCounted(b);
    SumPermutes(Resolved, a, b);
    forall key ensures Keyed(a, key) <==> Keyed(b, key) {
      KeyedByMembers(a, key);
      KeyedByMembers(b, key);
    }
    assert Keys(a) == Keys(b);
    forall r: Result | r.kind != DuplicateFact ensures Count(Results(a), r) == Count(Results(b), r) {
      ReportedOnce(a, r.kind, r.sheet);
      ReportedOnce(b, r.kind, r.sheet);
      AffectedByMembers(a, r.kind, r.sheet);
      AffectedByMembers(b, r.kind, r.sheet);
    }
  }

  /** The sheet named by a duplicate does depend on the order: it is that of the later fact. */
  lemma DuplicateNamesTheLater(f: Fact, g: Fact)
    requires KeyOf(f).Some? && KeyOf(f) == KeyOf(g) && f.sheet != g.sheet
    requires f.entityStatus == f.accountStatus == g.entityStatus == g.accountStatus == Approved
    ensures Results([f, g]) == [Result(DuplicateFact, g.sheet)]
    ensures Results([g, f]) == [Result(DuplicateFact, f.sheet)]
  {
    hide KeyOf;
    ResultsOfTwo(f, g);
    ResultsOfTwo(g, f);
  }

  lemma ResultsOfTwo(f: Fact, g: Fact)
    requires KeyOf(f).Some? && KeyOf(f) == KeyOf(g)
    requires f.entityStatus == f.accountStatus == g.entityStatus == g.accountStatus == Approved
    ensures Results([f, g]) == [Result(DuplicateFact, g.sheet)]
  {
    hide KeyOf;
    assert [f, g][..1] == [f] && [f][..0] == [];
    assert Results([f]) == [];
    assert [f][0] == f;
  }
}
