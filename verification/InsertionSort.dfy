/** A stable sort by a comparison, as the run times of the sources provide it. */
module InsertionSort {
  /** x before the first element of s that it may precede. */
  function Insert<T>(precedes: (T, T) -> bool, x: T, s: seq<T>): seq<T> {
    if s == [] || precedes(x, s[0]) then [x] + s else [s[0]] + Insert(precedes, x, s[1..])
  }

  function Sort<T>(precedes: (T, T) -> bool, s: seq<T>): seq<T> {
    if s == [] then [] else Insert(precedes, s[0], Sort(precedes, s[1..]))
  }

  ghost predicate Ordered<T>(precedes: (T, T) -> bool, s: seq<T>) {
    forall i, j :: 0 <= i < j < |s| ==> precedes(s[i], s[j])
  }

  /** Total and transitive. */
  ghost predicate Consistent<T(!new)>(precedes: (T, T) -> bool) {
    && (forall a, b :: precedes(a, b) || precedes(b, a))
    && (forall a, b, c :: precedes(a, b) && precedes(b, c) ==> precedes(a, c))
  }

  lemma {:induction false} InsertPlace<T>(precedes: (T, T) -> bool, x: T, s: seq<T>) returns (k: nat)
    ensures k <= |s| && Insert(precedes, x, s) == s[..k] + [x] + s[k..]
  {
    if s == [] || precedes(x, s[0]) {
      k := 0;
    } else {
      var j := InsertPlace(precedes, x, s[1..]);
      k := j + 1;
      assert s[..k] == [s[0]] + s[1..][..j];
    }
  }

  lemma InsertHolds<T>(precedes: (T, T) -> bool, x: T, s: seq<T>)
    ensures multiset(Insert(precedes, x, s)) == multiset(s) + multiset{x}
    ensures forall y :: y in Insert(precedes, x, s) <==> y in s || y == x
  {
    var k := InsertPlace(precedes, x, s);
    assert s == s[..k] + s[k..];
  }

  /** Sorting permutes, and so neither adds, drops nor repeats anything. */
  lemma {:induction false} SortPermutes<T>(precedes: (T, T) -> bool, s: seq<T>)
    ensures multiset(Sort(precedes, s)) == multiset(s)
    ensures forall y :: y in Sort(precedes, s) <==> y in s
  {
    if s == [] {
    } else {
      SortPermutes(precedes, s[1..]);
      InsertHolds(precedes, s[0], Sort(precedes, s[1..]));
      assert s == [s[0]] + s[1..];
    }
  }

  lemma {:induction false} InsertSorts<T(!new)>(precedes: (T, T) -> bool, x: T, s: seq<T>)
    requires Consistent(precedes) && Ordered(precedes, s)
    ensures Ordered(precedes, Insert(precedes, x, s))
  {
    if s == [] {
    } else if precedes(x, s[0]) {
      assert forall j :: 0 <= j < |s| ==> precedes(x, s[j]);
    } else {
      InsertSorts(precedes, x, s[1..]);
      InsertHolds(precedes, x, s[1..]);
      var rest := Insert(precedes, x, s[1..]);
      forall k | 0 <= k < |rest| ensures precedes(s[0], rest[k]) {
        assert rest[k] in rest;
      }
    }
  }

  /** A consistent comparison sorts. */
  lemma {:induction false} SortSorts<T(!new)>(precedes: (T, T) -> bool, s: seq<T>)
    requires Consistent(precedes)
    ensures Ordered(precedes, Sort(precedes, s))
  {
    if s == [] {
    } else {
      SortSorts(precedes, s[1..]);
      InsertSorts(precedes, s[0], Sort(precedes, s[1..]));
    }
  }

  /** The elements that compare equal to y. */
  function Alike<T>(precedes: (T, T) -> bool, y: T, s: seq<T>): seq<T> {
    if s == [] then []
    else (if precedes(s[0], y) && precedes(y, s[0]) then [s[0]] else []) + Alike(precedes, y, s[1..])
  }

  lemma AlikeCons<T>(precedes: (T, T) -> bool, y: T, x: T, s: seq<T>)
    ensures Alike(precedes, y, [x] + s) == (if precedes(x, y) && precedes(y, x) then [x] else []) + Alike(precedes, y, s)
  {
    assert ([x] + s)[1..] == s;
  }

  lemma NotBoth<T(!new)>(precedes: (T, T) -> bool, x: T, z: T, y: T)
    requires Consistent(precedes) && !precedes(x, z)
    ensures !(precedes(x, y) && precedes(y, z))
  {
  }

  lemma {:induction false} InsertStable<T(!new)>(precedes: (T, T) -> bool, x: T, s: seq<T>, y: T)
    requires Consistent(precedes)
    ensures Alike(precedes, y, Insert(precedes, x, s)) == Alike(precedes, y, [x] + s)
  {
    hide Consistent, Alike;
    AlikeCons(precedes, y, x, s);
    if s == [] || precedes(x, s[0]) {
    } else {
      assert s == [s[0]] + s[1..];
      InsertStable(precedes, x, s[1..], y);
      AlikeCons(precedes, y, x, s[1..]);
      AlikeCons(precedes, y, s[0], s[1..]);
      AlikeCons(precedes, y, s[0], Insert(precedes, x, s[1..]));
      NotBoth(precedes, x, s[0], y);
    }
  }

  /** Elements that compare equal keep their order. */
  lemma {:induction false} SortStable<T(!new)>(precedes: (T, T) -> bool, s: seq<T>, y: T)
    requires Consistent(precedes)
    ensures Alike(precedes, y, Sort(precedes, s)) == Alike(precedes, y, s)
  {
    hide Consistent;
    if s == [] {
    } else {
      SortStable(precedes, s[1..], y);
      InsertStable(precedes, s[0], Sort(precedes, s[1..]), y);
      AlikeCons(precedes, y, s[0], Sort(precedes, s[1..]));
      AlikeCons(precedes, y, s[0], s[1..]);
      assert s == [s[0]] + s[1..];
    }
  }
}
