/** Loops over a list, as sums and as concatenations. */
module Folds {
  import opened Permutations

  function Sum<T>(f: T -> nat, s: seq<T>): nat {
    if s == [] then 0 else Sum(f, s[..|s| - 1]) + f(s[|s| - 1])
  }

  function FlatMap<T, U>(f: T -> seq<U>, s: seq<T>): seq<U> {
    if s == [] then [] else FlatMap(f, s[..|s| - 1]) + f(s[|s| - 1])
  }

  lemma SumSnoc<T>(f: T -> nat, s: seq<T>, x: T)
    ensures Sum(f, []) == 0 && Sum(f, s + [x]) == Sum(f, s) + f(x)
  {
    assert (s + [x])[..|s|] == s;
  }

  lemma SumTake<T>(f: T -> nat, s: seq<T>, k: nat)
    requires k <= |s|
    ensures Sum(f, s[..0]) == 0 && s[..|s|] == s
    ensures k < |s| ==> Sum(f, s[..k + 1]) == Sum(f, s[..k]) + f(s[k])
  {
    if k < |s| { assert s[..k + 1][..k] == s[..k]; }
  }

  lemma FlatMapTake<T, U>(f: T -> seq<U>, s: seq<T>, k: nat)
    requires k <= |s|
    ensures FlatMap(f, s[..0]) == [] && s[..|s|] == s
    ensures k < |s| ==> FlatMap(f, s[..k + 1]) == FlatMap(f, s[..k]) + f(s[k])
  {
    if k < |s| { assert s[..k + 1][..k] == s[..k]; }
  }

  lemma {:induction false} SumDrop<T>(f: T -> nat, s: seq<T>, k: nat)
    requires k < |s|
    ensures Sum(f, s) == Sum(f, Drop(s, k)) + f(s[k])
  {
    var n := |s| - 1;
    if k < n {
      SumDrop(f, s[..n], k);
      assert Drop(s, k)[..n - 1] == Drop(s[..n], k);
    } else {
      assert Drop(s, k) == s[..n];
    }
  }

  /** A sum does not depend on the order of its terms. */
  lemma {:induction false} SumPermutes<T>(f: T -> nat, a: seq<T>, b: seq<T>)
    requires multiset(a) == multiset(b)
    ensures Sum(f, a) == Sum(f, b)
    decreases |a|
  {
    if a == [] {
      assert |multiset(b)| == |b|;
    } else {
      var k := PermutationStep(a, b);
      SumPermutes(f, Drop(a, 0), Drop(b, k));
      SumDrop(f, a, 0);
      SumDrop(f, b, k);
    }
  }

  lemma {:induction false} FlatMapBounded<T, U>(f: T -> seq<U>, g: T -> nat, s: seq<T>)
    requires forall k :: 0 <= k < |s| ==> |f(s[k])| <= g(s[k])
    ensures |FlatMap(f, s)| <= Sum(g, s)
  {
    if s == [] {
    } else {
      FlatMapBounded(f, g, s[..|s| - 1]);
    }
  }

  lemma {:induction false} FlatMapHolds<T, U>(f: T -> seq<U>, s: seq<T>, u: U)
    ensures u in FlatMap(f, s) <==> exists k :: 0 <= k < |s| && u in f(s[k])
  {
    if s == [] {
    } else {
      var n := |s| - 1;
      FlatMapHolds(f, s[..n], u);
      assert forall k :: 0 <= k < n ==> s[..n][k] == s[k];
    }
  }
}
