/** One KPI, condition by condition: what is accepted, what is selected, what each operator gives, and which
    state and reason a calculation ends with. */
module KpiStates {
  import opened Options
  import opened KpiCalculator
  import opened KpiTables

  // ---------------------------------------------------------------- accepted expressions

  /** An expression as it is meant, apart from how it is written down. */
  datatype Tree =
    | OfGroup(code: string)
    | Many(op: string, parts: seq<Tree>)
    | Pair(op: string, first: Tree, second: Tree)
    | Magnitude(of: Tree)

  /** The document writes down the tree: a group has nothing but its code, an operator its arguments. */
  ghost predicate Writes(e: Expr, t: Tree)
    decreases t
  {
    match t
    case OfGroup(code) => e == Dict(Some("account_group"), CodeText(code), NoArgs, false)
    case Many(op, parts) =>
      && op in {"add", "sum", "average"} && parts != []
      && e.Dict? && e.op == Some(op) && e.args.ArgsList? && |e.args.items| == |parts|
      && forall k :: 0 <= k < |parts| ==> Writes(e.args.items[k], parts[k])
    case Pair(op, first, second) =>
      && op in {"subtract", "divide"}
      && e.Dict? && e.op == Some(op) && e.args.ArgsList? && |e.args.items| == 2
      && Writes(e.args.items[0], first) && Writes(e.args.items[1], second)
    case Magnitude(of) =>
      && e.Dict? && e.op == Some("absolute") && e.args.ArgsList? && |e.args.items| == 1 && Writes(e.args.items[0], of)
  }

  lemma {:induction false} WrittenIsAccepted(e: Expr, t: Tree)
    requires Writes(e, t)
    ensures Validated(e)
    decreases t
  {
    match t {
      case OfGroup(_) =>
      case Many(_, parts) =>
        forall k | 0 <= k < |parts| ensures Validated(e.args.items[k]) { WrittenIsAccepted(e.args.items[k], parts[k]); }
      case Pair(_, first, second) =>
        WrittenIsAccepted(e.args.items[0], first);
        WrittenIsAccepted(e.args.items[1], second);
      case Magnitude(of) => WrittenIsAccepted(e.args.items[0], of);
    }
  }

  lemma {:induction false} AcceptedIsWritten(e: Expr) returns (t: Tree)
    requires Validated(e)
    ensures Writes(e, t)
    decreases e, 1
  {
    if e.op.value == "account_group" {
      t := OfGroup(e.code.text);
    } else {
      var parts := AllWritten(e.args.items);
      if e.op.value in {"subtract", "divide"} {
        t := Pair(e.op.value, parts[0], parts[1]);
      } else if e.op.value == "absolute" {
        t := Magnitude(parts[0]);
      } else {
        t := Many(e.op.value, parts);
      }
    }
  }

  lemma {:induction false} AllWritten(items: seq<Expr>) returns (parts: seq<Tree>)
    requires forall k :: 0 <= k < |items| ==> Validated(items[k])
    ensures |parts| == |items| && forall k :: 0 <= k < |items| ==> Writes(items[k], parts[k])
    decreases items, 0
  {
    parts := [];
    if items != [] {
      var first := AcceptedIsWritten(items[0]);
      var rest := AllWritten(items[1..]);
      parts := [first] + rest;
      forall k | 0 <= k < |items| ensures Writes(items[k], parts[k]) {
        if k > 0 { assert items[k] == items[1..][k - 1] && parts[k] == rest[k - 1]; }
      }
    }
  }

  /** The documents accepted are those that write down a tree. */
  lemma AcceptedExactly(e: Expr)
    ensures Validated(e) <==> exists t :: Writes(e, t)
  {
    hide Validated, Writes;
    if Validated(e) {
      var t := AcceptedIsWritten(e);
      assert Writes(e, t);
    }
    if exists t :: Writes(e, t) {
      var t :| Writes(e, t);
      WrittenIsAccepted(e, t);
    }
  }

  // ---------------------------------------------------------------- groups and operators

  /** The account of the fact belongs to the group, which is in effect in the period of the fact. */
  predicate InGroup(g: Group, f: Fact) {
    && f.account in g.members && g.effectiveFrom <= f.period
    && (g.effectiveTo.Some? ==> f.period <= g.effectiveTo.value)
  }

  lemma {:induction false} SelectedExactly(g: Group, facts: seq<Fact>, f: Fact)
    ensures f in Selected(g, facts) <==> f in facts && InGroup(g, f)
    ensures (forall x :: x in facts ==> InGroup(g, x)) ==> Selected(g, facts) == facts
  {
    if facts == [] {
    } else {
      assert facts == [facts[0]] + facts[1..];
      SelectedExactly(g, facts[1..], f);
      assert forall x :: x in facts[1..] ==> x in facts;
      assert [facts[0]] + facts[1..] == facts && facts[0] in facts;
    }
  }

  /** A group without facts in it gives zero and is missing; facts on another basis are an error; else the
      facts add up. */
  lemma GroupExactly(code: string, g: Group, facts: seq<Fact>, basis: string)
    ensures var r, found := EvaluateGroup(code, g, facts, basis), Selected(g, facts);
      && ((forall f :: f in facts ==> !InGroup(g, f)) <==> r == Ok(Value(0.0, [], [code])))
      && (r.Fail? <==> exists f :: f in facts && InGroup(g, f) && f.basis != basis)
      && (r.Fail? ==> r.error == BasisMismatch)
      && (r.Ok? && r.value.missing == [] ==> r.value == Value(Total(found), Ids(found), []))
      && (r.Ok? && r.value.missing != [] ==> r == Ok(Value(0.0, [], [code])))
  {
    var found := Selected(g, facts);
    forall f ensures f in found <==> f in facts && InGroup(g, f) { SelectedExactly(g, facts, f); }
    hide Selected, InGroup;
    if found != [] { assert found[0] in found; }
    if exists k :: 0 <= k < |found| && found[k].basis != basis {
      var k :| 0 <= k < |found| && found[k].basis != basis;
      assert found[k] in found;
    }
  }

  lemma Share(a: real, n: real)
    requires n != 0.0
    ensures a / n * n == a
  {
  }

  /** What each operator gives of its arguments, and when it fails. */
  predicate Gives(op: string, values: seq<Value>, r: Result<Value, Failure>) {
    match r
    case Fail(error) => op == "divide" && |values| == 2 && values[1].amount == 0.0 && error == ZeroDivisor
    case Ok(v) =>
      && (op in {"add", "sum"} ==> v.amount == Sum(values))
      && (op == "average" ==> v.amount * (|values| as real) == Sum(values))
      && (op == "subtract" ==> |values| == 2 && v.amount + values[1].amount == values[0].amount)
      && (op == "divide" ==> |values| == 2 && values[1].amount != 0.0 && v.amount * values[1].amount == values[0].amount)
      && (op == "absolute" ==> |values| == 1 && v.amount >= 0.0
                               && (v.amount == values[0].amount || v.amount == -values[0].amount))
  }

  /** The operators mean what they are called; ids and missing codes are those of all arguments. */
  lemma OperatorMeans(op: string, values: seq<Value>)
    requires op in OPERATORS && op != "account_group" && values != []
    requires (op in {"subtract", "divide"} ==> |values| == 2) && (op == "absolute" ==> |values| == 1)
    ensures Gives(op, values, Combine(op, values))
    ensures Combine(op, values).Ok? ==>
      Combine(op, values).value.ids == AllIds(values) && Combine(op, values).value.missing == AllMissing(values)
  {
    hide Sum, AllIds, AllMissing;
    if op == "average" {
      AverageMeans(values);
    } else if op == "divide" {
      DivideMeans(values);
    }
  }

  lemma AverageMeans(values: seq<Value>)
    requires values != []
    ensures Gives("average", values, Combine("average", values))
  {
    hide Sum, AllIds, AllMissing;
    Share(Sum(values), |values| as real);
  }

  lemma DivideMeans(values: seq<Value>)
    requires |values| == 2
    ensures Gives("divide", values, Combine("divide", values))
  {
    hide Sum, AllIds, AllMissing;
    if values[1].amount != 0.0 { Share(values[0].amount, values[1].amount); }
  }

  // ---------------------------------------------------------------- what is missing

  /** The group occurs in the tree. */
  predicate Names(t: Tree, code: string) {
    match t
    case OfGroup(c) => c == code
    case Many(_, parts) => exists k :: 0 <= k < |parts| && Names(parts[k], code)
    case Pair(_, first, second) => Names(first, code) || Names(second, code)
    case Magnitude(of) => Names(of, code)
  }

  predicate WithoutFacts(groups: Groups, facts: seq<Fact>, code: string) {
    code in groups && forall f :: f in facts ==> !InGroup(groups[code], f)
  }

  lemma {:induction false} AllMissingHas(values: seq<Value>, code: string)
    ensures code in AllMissing(values) <==> exists k :: 0 <= k < |values| && code in values[k].missing
  {
    if values == [] {
    } else {
      AllMissingHas(values[1..], code);
      assert forall k :: 0 < k < |values| ==> values[k] == values[1..][k - 1];
    }
  }

  lemma {:induction false} ValuesAre(items: seq<Expr>, groups: Groups, facts: seq<Fact>, basis: string)
    requires EvaluateAll(items, groups, facts, basis).Ok?
    ensures forall k :: 0 <= k < |items| ==>
      Evaluate(items[k], groups, facts, basis) == Ok(EvaluateAll(items, groups, facts, basis).value[k])
  {
    hide Evaluate;
    if items == [] {
    } else {
      ValuesAre(items[1..], groups, facts, basis);
      assert forall k :: 0 < k < |items| ==> items[k] == items[1..][k - 1];
    }
  }

  /** What an expression misses are the groups it names for which there is no fact. */
  lemma {:induction false} MissingLeaves(e: Expr, t: Tree, groups: Groups, facts: seq<Fact>, basis: string, code: string)
    requires Writes(e, t) && Evaluate(e, groups, facts, basis).Ok?
    ensures code in Evaluate(e, groups, facts, basis).value.missing <==> Names(t, code) && WithoutFacts(groups, facts, code)
    decreases t
  {
    hide Combine, EvaluateGroup, EvaluateAll, InGroup;
    match t {
      case OfGroup(c) => GroupExactly(c, groups[c], facts, basis);
      case Many(_, parts) =>
        ArgumentsMissing(e, groups, facts, basis, code);
        forall k | 0 <= k < |parts| { MissingLeaves(e.args.items[k], parts[k], groups, facts, basis, code); }
      case Pair(_, first, second) =>
        ArgumentsMissing(e, groups, facts, basis, code);
        MissingLeaves(e.args.items[0], first, groups, facts, basis, code);
        MissingLeaves(e.args.items[1], second, groups, facts, basis, code);
      case Magnitude(of) =>
        ArgumentsMissing(e, groups, facts, basis, code);
        MissingLeaves(e.args.items[0], of, groups, facts, basis, code);
    }
  }

  lemma ArgumentsMissing(e: Expr, groups: Groups, facts: seq<Fact>, basis: string, code: string)
    requires e.Dict? && e.op.Some? && e.op.value != "account_group" && e.args.ArgsList?
    requires Evaluate(e, groups, facts, basis).Ok?
    ensures forall k :: 0 <= k < |e.args.items| ==> Evaluate(e.args.items[k], groups, facts, basis).Ok?
    ensures code in Evaluate(e, groups, facts, basis).value.missing
       <==> exists k :: 0 <= k < |e.args.items| && code in Evaluate(e.args.items[k], groups, facts, basis).value.missing
  {
    var values := EvaluateAll(e.args.items, groups, facts, basis).value;
    ValuesAre(e.args.items, groups, facts, basis);
    AllMissingHas(values, code);
    CombineKeepsMissing(e.op.value, values);
    hide Combine, EvaluateAll, AllMissing;
  }

  lemma CombineKeepsMissing(op: string, values: seq<Value>)
    requires Combine(op, values).Ok?
    ensures Combine(op, values).value.missing == AllMissing(values)
  {
    hide AllIds, AllMissing, Sum;
  }

  // ---------------------------------------------------------------- state and reason

  /** Every group the definition requires is there and approved. */
  predicate GroupsApproved(d: Definition, groups: Groups) {
    forall code :: code in d.required ==> code in groups && groups[code].approved
  }

  predicate InScope(d: Definition, facts: seq<Fact>) {
    facts != [] ==> facts[0].scopeType in d.scopes
  }

  /** Nothing keeps the expressions from being evaluated. */
  predicate MayEvaluate(d: Definition, groups: Groups, facts: seq<Fact>, preview: bool) {
    (d.approved || preview) && GroupsApproved(d, groups) && InScope(d, facts)
  }

  predicate Ends(r: KpiResult, state: DataState, reason: string) {
    r.state == state && r.reason == Some(reason)
  }

  lemma MissingExactly(d: Definition, groups: Groups)
    ensures MissingGroups(d, groups) == {} <==> GroupsApproved(d, groups)
    ensures forall code :: code in MissingGroups(d, groups)
                           <==> code in d.required && (code in groups ==> !groups[code].approved)
  {
    if !GroupsApproved(d, groups) {
      var code :| code in d.required && !(code in groups && groups[code].approved);
      assert code in MissingGroups(d, groups);
    }
  }

  /** The states of a calculation that does not evaluate anything. */
  lemma UnevaluatedExactly(d: Definition, groups: Groups, facts: seq<Fact>, preview: bool)
    requires Calculate(d, groups, facts, preview).Ok?
    ensures var r := Calculate(d, groups, facts, preview).value;
      && (Ends(r, Preparing, "DEFINITION_NOT_APPROVED") <==> !d.approved && !preview)
      && (Ends(r, Preparing, "ACCOUNT_GROUP_NOT_APPROVED") <==> (d.approved || preview) && !GroupsApproved(d, groups))
      && (Ends(r, Preparing, "ACCOUNT_GROUP_NOT_APPROVED") ==>
           forall code :: code in r.missing <==> code in d.required && (code in groups ==> !groups[code].approved))
      && (Ends(r, Unavailable, "SCOPE_NOT_APPLICABLE")
          <==> (d.approved || preview) && GroupsApproved(d, groups) && !InScope(d, facts))
      && (!MayEvaluate(d, groups, facts, preview) ==>
           r.value == r.numerator == r.denominator == None && r.numeratorIds == r.denominatorIds == [])
  {
    MissingExactly(d, groups);
    hide Validated, Evaluate, MissingGroups, GroupsApproved, CodeSet;
  }

  /** The states of a calculation that evaluates: the errors, the missing components, the divisor that is zero
      or negative, and the value. */
  lemma EvaluatedExactly(d: Definition, groups: Groups, facts: seq<Fact>, preview: bool)
    requires Calculate(d, groups, facts, preview).Ok? && MayEvaluate(d, groups, facts, preview)
    ensures var r := Calculate(d, groups, facts, preview).value;
      var n, m := Evaluate(d.numerator, groups, facts, d.basis), Evaluate(d.denominator, groups, facts, d.basis);
      && (Ends(r, ValidationError, "AMOUNT_BASIS_MISMATCH") <==> n == Fail(BasisMismatch) || (n.Ok? && m == Fail(BasisMismatch)))
      && (Ends(r, ValidationError, "ZERO_DENOMINATOR") <==> n == Fail(ZeroDivisor) || (n.Ok? && m == Fail(ZeroDivisor)))
      && (n.Ok? && m.Ok? ==>
           && r.numerator == Some(n.value.amount) && r.denominator == Some(m.value.amount)
           && r.numeratorIds == n.value.ids && r.denominatorIds == m.value.ids
           && (Ends(r, Preparing, "MISSING_COMPONENT") <==> n.value.missing + m.value.missing != [])
           && (forall code :: code in r.missing <==> code in n.value.missing || code in m.value.missing))
  {
    MissingExactly(d, groups);
    hide Validated, Evaluate, MissingGroups, GroupsApproved;
    var n, m := Evaluate(d.numerator, groups, facts, d.basis), Evaluate(d.denominator, groups, facts, d.basis);
    if n.Ok? && m.Ok? {
      var codes := n.value.missing + m.value.missing;
      assert codes != [] ==> codes[0] in CodeSet(codes);
    }
  }

  lemma DividedExactly(d: Definition, groups: Groups, facts: seq<Fact>, preview: bool)
    requires Calculate(d, groups, facts, preview).Ok? && MayEvaluate(d, groups, facts, preview)
    requires Evaluate(d.numerator, groups, facts, d.basis).Ok? && Evaluate(d.denominator, groups, facts, d.basis).Ok?
    requires Evaluate(d.numerator, groups, facts, d.basis).value.missing == []
    requires Evaluate(d.denominator, groups, facts, d.basis).value.missing == []
    ensures var r, divisor := Calculate(d, groups, facts, preview).value, Evaluate(d.denominator, groups, facts, d.basis).value.amount;
      && (Ends(r, Unavailable, "ZERO_DENOMINATOR") <==> divisor == 0.0)
      && (Ends(r, ValidationError, "NEGATIVE_DENOMINATOR") <==> divisor < 0.0)
      && (r.state == Available <==> divisor > 0.0)
  {
    MissingExactly(d, groups);
    hide Validated, Evaluate, MissingGroups, GroupsApproved;
    assert CodeSet([]) == {};
  }

  /** A value is available if and only if the definition is approved or this is a preview, all groups it
      requires are approved, the scope applies, both expressions evaluate with nothing missing, and the
      denominator is positive; only then there is no reason, and only then a value. */
  lemma AvailableExactly(d: Definition, groups: Groups, facts: seq<Fact>, preview: bool)
    requires Calculate(d, groups, facts, preview).Ok?
    ensures var r := Calculate(d, groups, facts, preview).value;
      var n, m := Evaluate(d.numerator, groups, facts, d.basis), Evaluate(d.denominator, groups, facts, d.basis);
      && (r.state == Available
          <==> && (d.approved || preview)
               && (forall code :: code in d.required ==> code in groups && groups[code].approved)
               && (facts == [] || facts[0].scopeType in d.scopes)
               && n.Ok? && m.Ok? && n.value.missing == [] && m.value.missing == [] && m.value.amount > 0.0)
      && (r.state == Available <==> r.reason == None) && (r.state == Available <==> r.value.Some?)
  {
    hide Validated, Evaluate, MissingGroups;
    MissingExactly(d, groups);
    var n, m := Evaluate(d.numerator, groups, facts, d.basis), Evaluate(d.denominator, groups, facts, d.basis);
    if n.Ok? && m.Ok? {
      var codes := n.value.missing + m.value.missing;
      assert codes == [] <==> n.value.missing == [] && m.value.missing == [];
      assert codes != [] ==> codes[0] in CodeSet(codes);
      assert codes == [] ==> CodeSet(codes) == {};
    }
  }

  /** Whatever the state, a result names its definition and version, its unit, and what the facts speak of. */
  lemma ResultNames(d: Definition, groups: Groups, facts: seq<Fact>, preview: bool)
    requires Calculate(d, groups, facts, preview).Ok?
    ensures var r := Calculate(d, groups, facts, preview).value;
      && r.definitionId == d.id && r.definitionVersion == d.version && r.unit == d.unit
      && (facts != [] ==> r.version == facts[0].version && r.entity == facts[0].entity
                          && r.scopeType == facts[0].scopeType && r.period == facts[0].period)
  {
    hide Validated, Evaluate, MissingGroups, CodeSet;
  }
}
