/** Lists without repetition, as sets and as multisets. */
module Permutations {
  ghost predicate NoRepeats<T>(s: seq<T>) {
    forall i, j :: 0 <= i < j < |s| ==> s[i] != s[j]
  }

  function ToSet<T(==)>(s: seq<T>): set<T> {
    set x | x in s
  }

  lemma {:induction false} Occurrences<T>(s: seq<T>, x: T)
    requires NoRepeats(s)
    ensures multiset(s)[x] == if x in s then 1 else 0
  {
    if s == [] {
    } else {
      Occurrences(s[1..], x);
      assert s == [s[0]] + s[1..];
    }
  }

  /** Two lists without repetition and with the same elements are permutations of each other. */
  lemma SameElementsPermute<T>(a: seq<T>, b: seq<T>)
    requires NoRepeats(a) && NoRepeats(b) && forall x :: x in a <==> x in b
    ensures multiset(a) == multiset(b)
  {
    forall x ensures multiset(a)[x] == multiset(b)[x] {
      Occurrences(a, x);
      Occurrences(b, x);
    }
  }

  /** A list has as many elements as positions exactly when nothing repeats. */
  lemma {:induction false} SizeOfSet<T>(s: seq<T>)
    ensures |ToSet(s)| <= |s|
    ensures |ToSet(s)| == |s| <==> NoRepeats(s)
  {
    if s == [] {
    } else {
      SizeOfSet(s[1..]);
      assert s == [s[0]] + s[1..];
      assert ToSet(s) == {s[0]} + ToSet(s[1..]);
      if s[0] in s[1..] {
        assert ToSet(s) == ToSet(s[1..]);
      }
    }
  }

  lemma PermutationKeeps<T>(a: seq<T>, b: seq<T>)
    requires multiset(a) == multiset(b)
    ensures |a| == |b| && ToSet(a) == ToSet(b) && (NoRepeats(a) <==> NoRepeats(b))
  {
    assert |a| == |multiset(a)| == |multiset(b)| == |b|;
    assert forall x :: x in a <==> x in multiset(a);
    assert forall x :: x in b <==> x in multiset(b);
    SizeOfSet(a);
    SizeOfSet(b);
  }

  /** s without the element at position k. */
  function Drop<T>(s: seq<T>, k: nat): (r: seq<T>)
    requires k < |s|
    ensures |r| == |s| - 1
  {
    s[..k] + s[k + 1..]
  }

  lemma DropRemoves<T>(s: seq<T>, k: nat)
    requires k < |s|
    ensures multiset(s) == multiset(Drop(s, k)) + multiset{s[k]}
  {
    assert s == s[..k] + [s[k]] + s[k + 1..];
  }

  /** A permutation of a list that is not empty has its first element somewhere. */
  lemma PermutationStep<T>(a: seq<T>, b: seq<T>) returns (k: nat)
    requires a != [] && multiset(a) == multiset(b)
    ensures k < |b| && b[k] == a[0] && multiset(Drop(a, 0)) == multiset(Drop(b, k))
  {
    hide Drop;
    assert a[0] in multiset(a);
    k :| k < |b| && b[k] == a[0];
    DropRemoves(a, 0);
    DropRemoves(b, k);
    assert multiset(Drop(a, 0)) == multiset(a) - multiset{a[0]};
    assert multiset(Drop(b, k)) == multiset(b) - multiset{b[k]};
  }

  lemma PermutationPutBack<T>(a: seq<T>, b: seq<T>, k: nat)
    requires a != [] && k < |b| && b[k] == a[0] && multiset(Drop(a, 0)) == multiset(Drop(b, k))
    ensures multiset(a) == multiset(b)
  {
    hide Drop;
    DropRemoves(a, 0);
    DropRemoves(b, k);
  }
}
