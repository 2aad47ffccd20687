/** The KPI expression language of calculator.py over exact numbers, and one KPI's calculation. */
module KpiCalculator {
  import opened Options
  import Permutations

  type Date = int

  /** What a JSON document can hold where an expression is expected. */
  datatype Expr =
    | NotDict
    | Dict(op: Option<string>, code: CodeField, args: ArgsField, otherKeys: bool)

  datatype CodeField = NoCode | CodeText(text: string) | CodeOther

  datatype ArgsField = NoArgs | ArgsList(items: seq<Expr>) | ArgsOther

  datatype Fact = Fact(
    id: string, version: string, entity: string, scopeType: string, period: Date, account: string, amount: real,
    basis: string, versionStatus: string, accountingApproved: bool, managementApproved: bool,
    confirmedThrough: Option<Date>, closing: string, carryForward: bool, active: bool)

  datatype Group = Group(id: string, approved: bool, members: set<string>, effectiveFrom: Date, effectiveTo: Option<Date>)

  type Groups = map<string, Group>

  // ---------------------------------------------------------------- validate_expression

  const OPERATORS: set<string> := {"account_group", "add", "subtract", "divide", "absolute", "average", "sum"}

  predicate Validated(e: Expr)
    decreases e
  {
    && e.Dict? && e.op.Some? && e.op.value in OPERATORS
    && if e.op.value == "account_group" then e.code.CodeText? && e.args.NoArgs? && !e.otherKeys
       else
         && e.args.ArgsList? && e.args.items != []
         && (e.op.value in {"subtract", "divide"} ==> |e.args.items| == 2)
         && (e.op.value == "absolute" ==> |e.args.items| == 1)
         && forall k :: 0 <= k < |e.args.items| ==> Validated(e.args.items[k])
  }

  // ---------------------------------------------------------------- _evaluate

  /** BasisMismatch, ZeroDivisor and Unsupported are ValueErrors, which the caller turns into a result;
      the others escape. */
  datatype Failure = BasisMismatch | ZeroDivisor | Unsupported | KeyFault | IndexFault | TypeFault | UndefinedAverage

  datatype Value = Value(amount: real, ids: seq<string>, missing: seq<string>)

  predicate Selects(g: Group, f: Fact) {
    && f.account in g.members && g.effectiveFrom <= f.period
    && (g.effectiveTo.None? || f.period <= g.effectiveTo.value)
  }

  function Selected(g: Group, facts: seq<Fact>): seq<Fact> {
    if facts == [] then []
    else (if Selects(g, facts[0]) then [facts[0]] else []) + Selected(g, facts[1..])
  }

  function Total(facts: seq<Fact>): real {
    if facts == [] then 0.0 else facts[0].amount + Total(facts[1..])
  }

  function Ids(facts: seq<Fact>): (r: seq<string>)
    ensures |r| == |facts|
    ensures forall k :: 0 <= k < |facts| ==> r[k] == facts[k].id
  {
    seq(|facts|, k requires 0 <= k < |facts| => facts[k].id)
  }

  function EvaluateGroup(code: string, g: Group, facts: seq<Fact>, basis: string): Result<Value, Failure> {
    var selected := Selected(g, facts);
    if selected == [] then Ok(Value(0.0, [], [code]))
    else if exists k :: 0 <= k < |selected| && selected[k].basis != basis then Fail(BasisMismatch)
    else Ok(Value(Total(selected), Ids(selected), []))
  }

  function Evaluate(e: Expr, groups: Groups, facts: seq<Fact>, basis: string): Result<Value, Failure>
    decreases e, 1
  {
    if e.NotDict? then Fail(TypeFault)
    else if e.op.None? then Fail(KeyFault)
    else if e.op.value == "account_group" then
      if !e.code.CodeText? || e.code.text !in groups then Fail(KeyFault)
      else EvaluateGroup(e.code.text, groups[e.code.text], facts, basis)
    else match e.args
      case NoArgs => Fail(KeyFault)
      case ArgsOther => Fail(TypeFault)
      case ArgsList(items) =>
        match EvaluateAll(items, groups, facts, basis)
        case Fail(error) => Fail(error)
        case Ok(values) => Combine(e.op.value, values)
  }

  /** The list comprehension over the arguments: the first failure is raised. */
  function EvaluateAll(items: seq<Expr>, groups: Groups, facts: seq<Fact>, basis: string)
    : (r: Result<seq<Value>, Failure>)
    ensures r.Ok? ==> |r.value| == |items|
    decreases items, 0
  {
    if items == [] then Ok([])
    else match Evaluate(items[0], groups, facts, basis)
      case Fail(error) => Fail(error)
      case Ok(first) =>
        match EvaluateAll(items[1..], groups, facts, basis)
        case Fail(error) => Fail(error)
        case Ok(rest) => Ok([first] + rest)
  }

  function Sum(values: seq<Value>): real {
    if values == [] then 0.0 else values[0].amount + Sum(values[1..])
  }

  function AllIds(values: seq<Value>): seq<string> {
    if values == [] then [] else values[0].ids + AllIds(values[1..])
  }

  function AllMissing(values: seq<Value>): seq<string> {
    if values == [] then [] else values[0].missing + AllMissing(values[1..])
  }

  function Combine(op: string, values: seq<Value>): Result<Value, Failure> {
    if op == "sum" || op == "add" then Ok(Value(Sum(values), AllIds(values), AllMissing(values)))
    else if op == "subtract" then
      if |values| < 2 then Fail(IndexFault)
      else Ok(Value(values[0].amount - values[1].amount, AllIds(values), AllMissing(values)))
    else if op == "divide" then
      if |values| < 2 then Fail(IndexFault)
      else if values[1].amount == 0.0 then Fail(ZeroDivisor)
      else Ok(Value(values[0].amount / values[1].amount, AllIds(values), AllMissing(values)))
    else if op == "absolute" then
      if |values| < 1 then Fail(IndexFault)
      else Ok(Value(if values[0].amount < 0.0 then -values[0].amount else values[0].amount,
                    AllIds(values), AllMissing(values)))
    else if op == "average" then
      if values == [] then Fail(UndefinedAverage)
      else Ok(Value(Sum(values) / (|values| as real), AllIds(values), AllMissing(values)))
    else Fail(Unsupported)
  }

  // ---------------------------------------------------------------- validated expressions are total

  predicate Known(e: Expr, groups: Groups)
    decreases e
  {
    e.Dict? ==>
      && (e.op == Some("account_group") && e.code.CodeText? ==> e.code.text in groups)
      && (e.args.ArgsList? ==> forall k :: 0 <= k < |e.args.items| ==> Known(e.args.items[k], groups))
  }

  /** An accepted expression over known groups evaluates; all that is left to go wrong is a fact on the
      wrong basis or a zero divisor. */
  lemma {:induction false} AcceptedEvaluates(e: Expr, groups: Groups, facts: seq<Fact>, basis: string)
    requires Validated(e) && Known(e, groups)
    ensures var r := Evaluate(e, groups, facts, basis);
      r.Fail? ==> r.error == BasisMismatch || r.error == ZeroDivisor
    decreases e, 1
  {
    if e.op.value != "account_group" {
      AcceptedEvaluateAll(e.args.items, groups, facts, basis);
    }
  }

  lemma {:induction false} AcceptedEvaluateAll(items: seq<Expr>, groups: Groups, facts: seq<Fact>, basis: string)
    requires forall k :: 0 <= k < |items| ==> Validated(items[k]) && Known(items[k], groups)
    ensures var r := EvaluateAll(items, groups, facts, basis);
      r.Fail? ==> r.error == BasisMismatch || r.error == ZeroDivisor
    decreases items, 0
  {
    if items == [] {
    } else {
      AcceptedEvaluates(items[0], groups, facts, basis);
      AcceptedEvaluateAll(items[1..], groups, facts, basis);
    }
  }

  // ---------------------------------------------------------------- linear expressions

  /** Built from account groups with add, sum, subtract and average only. */
  predicate Linear(e: Expr)
    decreases e
  {
    && e.Dict? && e.op.Some? && e.op.value in {"account_group", "add", "sum", "subtract", "average"}
    && (e.args.ArgsList? ==> forall k :: 0 <= k < |e.args.items| ==> Linear(e.args.items[k]))
  }

  function Times(a: real, b: real): real {
    a * b
  }

  datatype Leaf = Leaf(code: string, weight: real)

  function Scale(factor: real, leaves: seq<Leaf>): (r: seq<Leaf>)
    ensures |r| == |leaves|
    ensures forall k :: 0 <= k < |leaves| ==> r[k] == Leaf(leaves[k].code, Times(factor, leaves[k].weight))
  {
    seq(|leaves|, k requires 0 <= k < |leaves| => Leaf(leaves[k].code, Times(factor, leaves[k].weight)))
  }

  /** The account groups of an expression, left to right, each with its weight in the result. */
  function Leaves(e: Expr): seq<Leaf>
    requires Validated(e)
    decreases e, 1
  {
    var op := e.op.value;
    if op == "account_group" then [Leaf(e.code.text, 1.0)]
    else if op == "subtract" then
      Leaves(e.args.items[0]) + Scale(-1.0, Leaves(e.args.items[1]))
    else if op == "average" then LeavesOf(e.args.items, 1.0 / (|e.args.items| as real))
    else LeavesOf(e.args.items, 1.0)
  }

  function LeavesOf(items: seq<Expr>, factor: real): seq<Leaf>
    requires forall k :: 0 <= k < |items| ==> Validated(items[k])
    decreases items, 0
  {
    if items == [] then [] else Scale(factor, Leaves(items[0])) + LeavesOf(items[1..], factor)
  }

  predicate KnownLeaves(leaves: seq<Leaf>, groups: Groups) {
    forall k :: 0 <= k < |leaves| ==> leaves[k].code in groups
  }

  /** The sum over the leaves of weight times the total of the selected facts. */
  function Weighted(leaves: seq<Leaf>, groups: Groups, facts: seq<Fact>): real
    requires KnownLeaves(leaves, groups)
  {
    if leaves == [] then 0.0
    else Times(leaves[0].weight, Total(Selected(groups[leaves[0].code], facts))) + Weighted(leaves[1..], groups, facts)
  }

  /** The ids of the selected facts, leaf by leaf. */
  function LeafIds(leaves: seq<Leaf>, groups: Groups, facts: seq<Fact>): seq<string>
    requires KnownLeaves(leaves, groups)
  {
    if leaves == [] then []
    else Ids(Selected(groups[leaves[0].code], facts)) + LeafIds(leaves[1..], groups, facts)
  }

  predicate OnBasis(facts: seq<Fact>, basis: string) {
    forall f :: f in facts ==> f.basis == basis
  }

  lemma {:induction false} SelectedOnBasis(g: Group, facts: seq<Fact>, basis: string)
    requires OnBasis(facts, basis)
    ensures OnBasis(Selected(g, facts), basis)
  {
    if facts == [] {
    } else {
      assert forall f :: f in facts[1..] ==> f in facts;
      SelectedOnBasis(g, facts[1..], basis);
    }
  }

  lemma {:induction false} WeightedConcat(a: seq<Leaf>, b: seq<Leaf>, groups: Groups, facts: seq<Fact>)
    requires KnownLeaves(a, groups) && KnownLeaves(b, groups)
    ensures KnownLeaves(a + b, groups)
    ensures Weighted(a + b, groups, facts) == Weighted(a, groups, facts) + Weighted(b, groups, facts)
    decreases |a|
  {
    hide Selected, Total, Times;
    if a == [] {
      assert a + b == b;
    } else {
      assert (a + b)[1..] == a[1..] + b;
      WeightedConcat(a[1..], b, groups, facts);
    }
  }

  lemma {:induction false} LeafIdsConcat(a: seq<Leaf>, b: seq<Leaf>, groups: Groups, facts: seq<Fact>)
    requires KnownLeaves(a, groups) && KnownLeaves(b, groups) && KnownLeaves(a + b, groups)
    ensures LeafIds(a + b, groups, facts) == LeafIds(a, groups, facts) + LeafIds(b, groups, facts)
    decreases |a|
  {
    hide Selected, Ids;
    if a == [] {
      assert a + b == b;
    } else {
      assert (a + b)[1..] == a[1..] + b && KnownLeaves(a[1..], groups);
      LeafIdsConcat(a[1..], b, groups, facts);
    }
  }

  lemma {:induction false} WeightedScale(factor: real, leaves: seq<Leaf>, groups: Groups, facts: seq<Fact>)
    requires KnownLeaves(leaves, groups)
    ensures KnownLeaves(Scale(factor, leaves), groups)
    ensures Weighted(Scale(factor, leaves), groups, facts) == Times(factor, Weighted(leaves, groups, facts))
    ensures LeafIds(Scale(factor, leaves), groups, facts) == LeafIds(leaves, groups, facts)
    decreases |leaves|
  {
    if leaves == [] {
    } else {
      hide Selected, Total, Ids;
      var scaled := Scale(factor, leaves);
      assert scaled[1..] == Scale(factor, leaves[1..]);
      WeightedScale(factor, leaves[1..], groups, facts);
      var total := Total(Selected(groups[leaves[0].code], facts));
      Distribute(factor, leaves[0].weight, total, Weighted(leaves[1..], groups, facts));
      hide Times;
      assert Weighted(scaled, groups, facts)
          == Times(scaled[0].weight, total) + Weighted(scaled[1..], groups, facts);
    }
  }

  lemma Distribute(f: real, w: real, t: real, rest: real)
    ensures Times(Times(f, w), t) + Times(f, rest) == Times(f, Times(w, t) + rest)
    ensures Times(f, t + rest) == Times(f, t) + Times(f, rest)
  {
  }

  /** A value is what the leaves of its expression say. */
  predicate Means(v: Value, leaves: seq<Leaf>, groups: Groups, facts: seq<Fact>) {
    && KnownLeaves(leaves, groups)
    && v.amount == Weighted(leaves, groups, facts) && v.ids == LeafIds(leaves, groups, facts)
  }

  /** The arguments' values under one factor, added up. */
  lemma {:induction false} FactorSum(items: seq<Expr>, values: seq<Value>, factor: real, groups: Groups, facts: seq<Fact>)
    requires |items| == |values| && forall k :: 0 <= k < |items| ==> Validated(items[k])
    requires forall k :: 0 <= k < |items| ==> Means(values[k], Leaves(items[k]), groups, facts)
    ensures KnownLeaves(LeavesOf(items, factor), groups)
    ensures Times(factor, Sum(values)) == Weighted(LeavesOf(items, factor), groups, facts)
    ensures AllIds(values) == LeafIds(LeavesOf(items, factor), groups, facts)
    decreases |items|
  {
    hide Leaves, Scale, Weighted, LeafIds, KnownLeaves, Validated;
    if items == [] {
      NoLeaves(groups, facts);
    } else {
      var first, rest := Leaves(items[0]), LeavesOf(items[1..], factor);
      assert Means(values[0], first, groups, facts);
      FactorSum(items[1..], values[1..], factor, groups, facts);
      WeightedScale(factor, first, groups, facts);
      WeightedConcat(Scale(factor, first), rest, groups, facts);
      LeafIdsConcat(Scale(factor, first), rest, groups, facts);
      Distribute(factor, 0.0, values[0].amount, Sum(values[1..]));
      hide Times;
    }
  }

  lemma NoLeaves(groups: Groups, facts: seq<Fact>)
    ensures KnownLeaves([], groups) && Weighted([], groups, facts) == 0.0 && LeafIds([], groups, facts) == []
  {
  }

  predicate Usable(e: Expr, groups: Groups) {
    Validated(e) && Known(e, groups) && Linear(e)
  }

  lemma {:induction false} LinearAll(items: seq<Expr>, groups: Groups, facts: seq<Fact>, basis: string)
    requires OnBasis(facts, basis) && forall k :: 0 <= k < |items| ==> Usable(items[k], groups)
    ensures var r := EvaluateAll(items, groups, facts, basis);
      r.Ok? && forall k :: 0 <= k < |items| ==> Usable(items[k], groups) && Means(r.value[k], Leaves(items[k]), groups, facts)
    decreases items, 0
  {
    hide Means, Leaves, Validated, Known, Linear;
    if items == [] {
    } else {
      assert Usable(items[0], groups);
      LinearValue(items[0], groups, facts, basis);
      LinearAll(items[1..], groups, facts, basis);
    }
  }

  /** A linear expression over facts of one basis has a value: the weighted sum over its leaves of the
      facts they select; the ids it returns are those of the selected facts, leaf by leaf. */
  lemma {:induction false} LinearValue(e: Expr, groups: Groups, facts: seq<Fact>, basis: string)
    requires Usable(e, groups) && OnBasis(facts, basis)
    ensures Evaluate(e, groups, facts, basis).Ok?
    ensures Means(Evaluate(e, groups, facts, basis).value, Leaves(e), groups, facts)
    decreases e, 1
  {
    if e.op.value == "account_group" {
      GroupValue(e, groups, facts, basis);
    } else {
      var items := e.args.items;
      LinearAll(items, groups, facts, basis);
      CombineValue(e, EvaluateAll(items, groups, facts, basis).value, groups, facts);
    }
  }

  lemma GroupValue(e: Expr, groups: Groups, facts: seq<Fact>, basis: string)
    requires Usable(e, groups) && OnBasis(facts, basis) && e.op.value == "account_group"
    ensures Evaluate(e, groups, facts, basis).Ok?
    ensures Means(Evaluate(e, groups, facts, basis).value, Leaves(e), groups, facts)
  {
    var g, leaves := groups[e.code.text], Leaves(e);
    SelectedOnBasis(g, facts, basis);
    NoLeaves(groups, facts);
    hide Selected;
    assert leaves == [Leaf(e.code.text, 1.0)] && leaves[1..] == [];
  }

  lemma CombineValue(e: Expr, values: seq<Value>, groups: Groups, facts: seq<Fact>)
    requires Usable(e, groups) && e.op.value != "account_group" && |values| == |e.args.items|
    requires forall k :: 0 <= k < |values| ==> Means(values[k], Leaves(e.args.items[k]), groups, facts)
    ensures Combine(e.op.value, values).Ok?
    ensures Means(Combine(e.op.value, values).value, Leaves(e), groups, facts)
  {
    var op, items := e.op.value, e.args.items;
    hide Means, Known, Linear, Weighted, LeafIds, LeavesOf;
    if op == "subtract" {
      SubtractValue(values[0], values[1], Leaves(items[0]), Leaves(items[1]), groups, facts);
      AllIdsOfTwo(values);
      MeansIntro(Combine(op, values).value, Leaves(e), groups, facts);
    } else {
      FactorSum(items, values, if op == "average" then 1.0 / (|items| as real) else 1.0, groups, facts);
      MeansFactor(op, items, values, groups, facts);
    }
  }

  lemma MeansFactor(op: string, items: seq<Expr>, values: seq<Value>, groups: Groups, facts: seq<Fact>)
    requires op in {"add", "sum", "average"} && items != [] && |items| == |values|
    requires forall k :: 0 <= k < |items| ==> Validated(items[k])
    requires var leaves := LeavesOf(items, if op == "average" then 1.0 / (|items| as real) else 1.0);
      && KnownLeaves(leaves, groups)
      && Times(if op == "average" then 1.0 / (|items| as real) else 1.0, Sum(values)) == Weighted(leaves, groups, facts)
      && AllIds(values) == LeafIds(leaves, groups, facts)
    ensures Combine(op, values).Ok?
    ensures Means(Combine(op, values).value, LeavesOf(items, if op == "average" then 1.0 / (|items| as real) else 1.0),
                  groups, facts)
  {
    hide LeavesOf, Weighted, LeafIds, Sum, AllIds, KnownLeaves, Validated;
  }

  lemma SubtractValue(x: Value, y: Value, a: seq<Leaf>, b: seq<Leaf>, groups: Groups, facts: seq<Fact>)
    requires Means(x, a, groups, facts) && Means(y, b, groups, facts)
    ensures KnownLeaves(a + Scale(-1.0, b), groups)
    ensures Weighted(a + Scale(-1.0, b), groups, facts) == x.amount - y.amount
    ensures LeafIds(a + Scale(-1.0, b), groups, facts) == x.ids + y.ids
  {
    hide Weighted, LeafIds, KnownLeaves, Scale;
    WeightedScale(-1.0, b, groups, facts);
    WeightedConcat(a, Scale(-1.0, b), groups, facts);
    LeafIdsConcat(a, Scale(-1.0, b), groups, facts);
  }

  lemma MeansIntro(v: Value, leaves: seq<Leaf>, groups: Groups, facts: seq<Fact>)
    requires KnownLeaves(leaves, groups)
    requires v.amount == Weighted(leaves, groups, facts) && v.ids == LeafIds(leaves, groups, facts)
    ensures Means(v, leaves, groups, facts)
  {
  }

  lemma AllIdsOfTwo(values: seq<Value>)
    requires |values| == 2
    ensures AllIds(values) == values[0].ids + values[1].ids
  {
    assert AllIds(values[1..]) == values[1].ids + AllIds(values[1..][1..]);
  }

  // ---------------------------------------------------------------- additivity and order

  lemma {:induction false} SelectedConcat(g: Group, a: seq<Fact>, b: seq<Fact>)
    ensures Selected(g, a + b) == Selected(g, a) + Selected(g, b)
    decreases |a|
  {
    if a == [] {
      assert a + b == b;
    } else {
      assert (a + b)[1..] == a[1..] + b;
      SelectedConcat(g, a[1..], b);
    }
  }

  lemma {:induction false} TotalConcat(a: seq<Fact>, b: seq<Fact>)
    ensures Total(a + b) == Total(a) + Total(b)
    decreases |a|
  {
    if a == [] {
      assert a + b == b;
    } else {
      assert (a + b)[1..] == a[1..] + b;
      TotalConcat(a[1..], b);
    }
  }

  lemma {:induction false} WeightedAdds(leaves: seq<Leaf>, groups: Groups, a: seq<Fact>, b: seq<Fact>)
    requires KnownLeaves(leaves, groups)
    ensures Weighted(leaves, groups, a + b) == Weighted(leaves, groups, a) + Weighted(leaves, groups, b)
    decreases |leaves|
  {
    hide Times, Selected, Total;
    if leaves == [] {
    } else {
      var g := groups[leaves[0].code];
      SelectedConcat(g, a, b);
      TotalConcat(Selected(g, a), Selected(g, b));
      WeightedAdds(leaves[1..], groups, a, b);
      Distribute(leaves[0].weight, 0.0, Total(Selected(g, a)), Total(Selected(g, b)));
    }
  }

  /** Splitting the facts splits the value. */
  lemma LinearAdds(e: Expr, groups: Groups, a: seq<Fact>, b: seq<Fact>, basis: string)
    requires Usable(e, groups) && OnBasis(a, basis) && OnBasis(b, basis)
    ensures Evaluate(e, groups, a + b, basis).Ok? && Evaluate(e, groups, a, basis).Ok? && Evaluate(e, groups, b, basis).Ok?
    ensures Evaluate(e, groups, a + b, basis).value.amount
         == Evaluate(e, groups, a, basis).value.amount + Evaluate(e, groups, b, basis).value.amount
  {
    hide Validated, Known, Linear, Leaves, Evaluate, Weighted;
    LinearValue(e, groups, a + b, basis);
    LinearValue(e, groups, a, basis);
    LinearValue(e, groups, b, basis);
    WeightedAdds(Leaves(e), groups, a, b);
  }

  lemma LinearMoves(e: Expr, groups: Groups, p: seq<Fact>, x: Fact, q: seq<Fact>, basis: string)
    requires Usable(e, groups) && OnBasis(p, basis) && OnBasis(q, basis) && x.basis == basis
    ensures Evaluate(e, groups, p + ([x] + q), basis).Ok? && Evaluate(e, groups, [x] + (p + q), basis).Ok?
    ensures Evaluate(e, groups, p + ([x] + q), basis).value.amount
         == Evaluate(e, groups, [x] + (p + q), basis).value.amount
  {
    hide Evaluate, Usable;
    LinearAdds(e, groups, p, [x] + q, basis);
    LinearAdds(e, groups, [x], q, basis);
    LinearAdds(e, groups, p, q, basis);
    LinearAdds(e, groups, [x], p + q, basis);
  }

  /** Reordering the facts does not change the value. */
  lemma {:induction false} LinearReorders(e: Expr, groups: Groups, a: seq<Fact>, b: seq<Fact>, basis: string)
    requires Usable(e, groups) && OnBasis(a, basis) && OnBasis(b, basis) && multiset(a) == multiset(b)
    ensures Evaluate(e, groups, a, basis).Ok? && Evaluate(e, groups, b, basis).Ok?
    ensures Evaluate(e, groups, a, basis).value.amount == Evaluate(e, groups, b, basis).value.amount
    decreases |a|
  {
    hide Evaluate, Usable;
    if a == [] {
      assert |b| == |multiset(b)| == 0;
      LinearAdds(e, groups, a, b, basis);
    } else {
      var x := a[0];
      var p, q := Around(a, b);
      assert a == [x] + a[1..];
      LinearReorders(e, groups, a[1..], p + q, basis);
      LinearMoves(e, groups, p, x, q, basis);
      LinearAdds(e, groups, [x], a[1..], basis);
      LinearAdds(e, groups, [x], p + q, basis);
    }
  }

  /** Where the first fact of a list stands in a reordering of it. */
  lemma Around(a: seq<Fact>, b: seq<Fact>) returns (p: seq<Fact>, q: seq<Fact>)
    requires a != [] && multiset(a) == multiset(b)
    ensures b == p + ([a[0]] + q) && multiset(p + q) == multiset(a[1..])
    ensures forall f :: f in p + q ==> f in b
  {
    var k := Permutations.PermutationStep(a, b);
    p, q := b[..k], b[k + 1..];
    assert Permutations.Drop(a, 0) == a[1..];
  }
}
