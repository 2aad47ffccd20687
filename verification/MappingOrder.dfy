/** When the order of the facts matters to validate_mappings: which sheet a duplicate is reported on. */
module MappingOrder {
  import opened Options
  import opened PyStrings
  import opened Permutations
  import opened Folds
  import opened Mappings

  /** The duplicates reported on one sheet. */
  function DuplicatesOn(facts: seq<Fact>, sheet: Text): nat {
    Count(Results(facts), Result(DuplicateFact, sheet))
  }

  lemma DuplicatesNext(before: seq<Fact>, f: Fact, sheet: Text)
    ensures DuplicatesOn(before + [f], sheet)
         == DuplicatesOn(before, sheet) + (if Repeats(before, f) && f.sheet == sheet then 1 else 0)
  {
    hide Results, Affected, Keyed, Unapproved, KeyOf;
    var facts, k := before + [f], |before|;
    assert facts[..k] == before && facts[..k + 1] == facts && facts[k] == f;
    ResultsNext(facts, k);
  }

  lemma NoDuplicates(sheet: Text)
    ensures DuplicatesOn([], sheet) == 0
  {
  }

  // ---------------------------------------------------------------- one sheet at a time

  function On(facts: seq<Fact>, sheet: Text): seq<Fact> {
    if facts == [] then []
    else
      var before, f := On(facts[..|facts| - 1], sheet), facts[|facts| - 1];
      if f.sheet == sheet then before + [f] else before
  }

  lemma {:induction false} OnHolds(facts: seq<Fact>, sheet: Text, f: Fact)
    ensures multiset(On(facts, sheet))[f] == if f.sheet == sheet then multiset(facts)[f] else 0
    ensures f in On(facts, sheet) <==> f in facts && f.sheet == sheet
  {
    if facts == [] {
    } else {
      var n := |facts| - 1;
      OnHolds(facts[..n], sheet, f);
      assert facts == facts[..n] + [facts[n]];
    }
  }

  /** No key occurs on two sheets. */
  ghost predicate OneSheetPerKey(facts: seq<Fact>) {
    forall f, g :: f in facts && g in facts && KeyOf(f).Some? && KeyOf(f) == KeyOf(g) ==> f.sheet == g.sheet
  }

  lemma RepeatsOnSheet(before: seq<Fact>, f: Fact)
    requires OneSheetPerKey(before + [f])
    ensures Repeats(before, f) <==> Repeats(On(before, f.sheet), f)
  {
    hide KeyOf, Keyed, On;
    if KeyOf(f).Some? {
      var key := KeyOf(f).value;
      KeyedByMembers(before, key);
      KeyedByMembers(On(before, f.sheet), key);
      forall g ensures g in On(before, f.sheet) <==> g in before && g.sheet == f.sheet {
        OnHolds(before, f.sheet, g);
      }
      assert forall g :: g in before ==> g in before + [f];
      assert f in before + [f];
    }
  }

  /** Then the duplicates of a sheet are its own keyed facts less its own distinct keys. */
  lemma {:induction false} DuplicatesBySheet(facts: seq<Fact>, sheet: Text)
    requires OneSheetPerKey(facts)
    ensures DuplicatesOn(facts, sheet) == KeyedFacts(On(facts, sheet)) - |Keys(On(facts, sheet))|
  {
    if facts == [] {
      NoDuplicates(sheet);
      NothingCounted();
    } else {
      hide KeyOf, Keyed, Keys, KeyedFacts, DuplicatesOn, Repeats;
      var before, f := facts[..|facts| - 1], facts[|facts| - 1];
      assert facts == before + [f];
      DuplicatesBySheet(before, sheet);
      DuplicatesNext(before, f, sheet);
      if f.sheet == sheet {
        RepeatsOnSheet(before, f);
        KeysNext(On(facts, sheet));
        assert On(facts, sheet)[..|On(facts, sheet)| - 1] == On(before, sheet);
      }
    }
  }

  lemma SameOn(a: seq<Fact>, b: seq<Fact>, sheet: Text)
    requires multiset(a) == multiset(b)
    ensures multiset(On(a, sheet)) == multiset(On(b, sheet))
  {
    hide On;
    forall f ensures multiset(On(a, sheet))[f] == multiset(On(b, sheet))[f] {
      OnHolds(a, sheet, f);
      OnHolds(b, sheet, f);
    }
  }

  lemma SameKeys(a: seq<Fact>, b: seq<Fact>)
    requires multiset(a) == multiset(b)
    ensures KeyedFacts(a) == KeyedFacts(b) && Keys(a) == Keys(b)
  {
    hide Keyed, KeyOf, Sum;
    SameMembers(a, b);
    SumPermutes(Resolved, a, b);
    forall key ensures Keyed(a, key) <==> Keyed(b, key) {
      KeyedByMembers(a, key);
      KeyedByMembers(b, key);
    }
  }

  /** Where no key occurs on two sheets, reordering the facts only reorders the results. */
  lemma SameResults(a: seq<Fact>, b: seq<Fact>)
    requires OneSheetPerKey(a) && multiset(a) == multiset(b)
    ensures multiset(Results(a)) == multiset(Results(b))
  {
    hide Results, On, Keys, KeyedFacts, KeyOf;
    SameMembers(a, b);
    OrderFree(a, b);
    forall r: Mappings.Result ensures multiset(Results(a))[r] == multiset(Results(b))[r] {
      if r.kind == DuplicateFact {
        DuplicatesBySheet(a, r.sheet);
        DuplicatesBySheet(b, r.sheet);
        SameOn(a, b, r.sheet);
        SameKeys(On(a, r.sheet), On(b, r.sheet));
      } else {
        assert Count(Results(a), r) == Count(Results(b), r);
      }
    }
  }

  // ---------------------------------------------------------------- one key on two sheets

  /** Behind prefixes with the same keys the same facts add the same duplicates. */
  lemma {:induction false} SameTail(p: seq<Fact>, q: seq<Fact>, rest: seq<Fact>, sheet: Text)
    requires forall key :: Keyed(p, key) <==> Keyed(q, key)
    ensures DuplicatesOn(p + rest, sheet) - DuplicatesOn(p, sheet)
         == DuplicatesOn(q + rest, sheet) - DuplicatesOn(q, sheet)
    ensures forall key :: Keyed(p + rest, key) <==> Keyed(q + rest, key)
  {
    hide KeyOf, Keyed, DuplicatesOn;
    if rest == [] {
      assert p + rest == p && q + rest == q;
    } else {
      var n := |rest| - 1;
      var before, f := rest[..n], rest[n];
      SameTail(p, q, before, sheet);
      assert p + rest == (p + before) + [f] && q + rest == (q + before) + [f];
      DuplicatesNext(p + before, f, sheet);
      DuplicatesNext(q + before, f, sheet);
      forall key ensures Keyed(p + rest, key) <==> Keyed(q + rest, key) {
        KeyedSnoc(p + before, f, key);
        KeyedSnoc(q + before, f, key);
      }
    }
  }

  lemma KeyedSnoc(before: seq<Fact>, f: Fact, key: Key)
    ensures Keyed(before + [f], key) <==> Keyed(before, key) || KeyOf(f) == Some(key)
  {
    hide KeyOf, Keyed;
    var facts := before + [f];
    assert facts[..|before|] == before && facts[..|before| + 1] == facts;
    KeyedNext(facts, |before|, key);
  }

  /** Two facts of one key in front: the duplicate is the second one's. */
  lemma FrontPair(f: Fact, g: Fact, sheet: Text)
    requires KeyOf(f).Some? && KeyOf(f) == KeyOf(g)
    ensures DuplicatesOn([f, g], sheet) == if g.sheet == sheet then 1 else 0
    ensures forall key :: Keyed([f, g], key) <==> KeyOf(f) == Some(key)
  {
    hide KeyOf, Keyed, DuplicatesOn;
    assert [] + [f] == [f] && [f] + [g] == [f, g];
    NoDuplicates(sheet);
    DuplicatesNext([], f, sheet);
    DuplicatesNext([f], g, sheet);
    forall key ensures !Keyed([], key) && (Keyed([f], key) <==> KeyOf(f) == Some(key))
      && (Keyed([f, g], key) <==> KeyOf(f) == Some(key))
    {
      NothingKeyed(key);
      KeyedSnoc([], f, key);
      KeyedSnoc([f], g, key);
    }
  }

  lemma NothingKeyed(key: Key)
    ensures !Keyed([], key)
  {
  }

  /** Exchanging the two moves the duplicate to the other sheet, whatever facts follow. */
  lemma ExchangeMoves(f: Fact, g: Fact, rest: seq<Fact>)
    requires KeyOf(f).Some? && KeyOf(f) == KeyOf(g) && f.sheet != g.sheet
    ensures multiset(Results([f, g] + rest)) != multiset(Results([g, f] + rest))
  {
    hide KeyOf, Keyed, Results;
    FrontPair(f, g, g.sheet);
    FrontPair(g, f, g.sheet);
    SameTail([f, g], [g, f], rest, g.sheet);
    assert DuplicatesOn([f, g] + rest, g.sheet) == DuplicatesOn([g, f] + rest, g.sheet) + 1;
  }

  /** Taking out a fact of a list: what is left, as a multiset. */
  lemma TakenOut(facts: seq<Fact>, f: Fact) returns (rest: seq<Fact>)
    requires f in facts
    ensures multiset(facts) == multiset{f} + multiset(rest)
    ensures forall g :: g in facts && g != f ==> g in rest
  {
    hide Drop;
    var i :| 0 <= i < |facts| && facts[i] == f;
    DropRemoves(facts, i);
    rest := Drop(facts, i);
    forall g | g in facts && g != f ensures g in rest {
      assert g in multiset(facts);
    }
  }

  /** Any two different facts of a list can be brought to its front, in either order. */
  lemma BroughtForward(facts: seq<Fact>, f: Fact, g: Fact) returns (rest: seq<Fact>)
    requires f in facts && g in facts && f != g
    ensures multiset([f, g] + rest) == multiset(facts) == multiset([g, f] + rest)
  {
    var others := TakenOut(facts, f);
    rest := TakenOut(others, g);
  }

  lemma OneSheetExactly(a: seq<Fact>)
    ensures OneSheetPerKey(a) <==> forall f, g :: f in a && g in a && Duplicates(f, g) ==> f.sheet == g.sheet
  {
    hide KeyOf, Duplicates;
    forall f, g ensures KeyOf(f).Some? && KeyOf(f) == KeyOf(g) <==> Duplicates(f, g) {
      KeysMeet(f, g);
    }
  }

  /** The results depend on the order of the facts if and only if some key occurs on two sheets. */
  lemma OrderMatters(a: seq<Fact>)
    ensures (forall b: seq<Fact> :: multiset(b) == multiset(a) ==> multiset(Results(b)) == multiset(Results(a)))
       <==> forall f, g :: f in a && g in a && Duplicates(f, g) ==> f.sheet == g.sheet
  {
    hide Results, KeyOf, Duplicates;
    OneSheetExactly(a);
    if OneSheetPerKey(a) {
      forall b: seq<Fact> | multiset(b) == multiset(a) ensures multiset(Results(b)) == multiset(Results(a)) {
        SameResults(a, b);
      }
    } else {
      var f, g :| f in a && g in a && KeyOf(f).Some? && KeyOf(f) == KeyOf(g) && f.sheet != g.sheet;
      var rest := BroughtForward(a, f, g);
      ExchangeMoves(f, g, rest);
    }
  }
}
