/** Array.prototype.sort without a comparator: strings in the order of their UTF-16 code units. */
module KeyOrder {
  import InsertionSort
  import opened JsStrings
  import opened Permutations

  /** The order of two texts by their units, code units or code points. */
  predicate Less(a: seq<int>, b: seq<int>) {
    b != [] && (a == [] || a[0] < b[0] || (a[0] == b[0] && Less(a[1..], b[1..])))
  }

  /** The order of a dictionary: at the first unit that differs the smaller one comes first, and a text comes
      before its continuations. */
  predicate Earlier(a: seq<int>, b: seq<int>) {
    exists k :: 0 <= k <= |a| && k <= |b| && a[..k] == b[..k]
                && (if k < |a| then k < |b| && a[k] < b[k] else k < |b|)
  }

  lemma {:induction false} LessExactly(a: seq<int>, b: seq<int>)
    ensures Less(a, b) <==> Earlier(a, b)
    decreases |a|
  {
    if a == [] || b == [] || a[0] != b[0] {
      if b != [] { assert a[..0] == b[..0]; }
    } else {
      LessExactly(a[1..], b[1..]);
      if Earlier(a[1..], b[1..]) {
        var k :| 0 <= k <= |a[1..]| && k <= |b[1..]| && a[1..][..k] == b[1..][..k]
                 && (if k < |a[1..]| then k < |b[1..]| && a[1..][k] < b[1..][k] else k < |b[1..]|);
        assert a[..k + 1] == [a[0]] + a[1..][..k] && b[..k + 1] == [b[0]] + b[1..][..k];
      }
      if Earlier(a, b) {
        var k :| 0 <= k <= |a| && k <= |b| && a[..k] == b[..k] && (if k < |a| then k < |b| && a[k] < b[k] else k < |b|);
        assert k > 0 && a[1..][..k - 1] == a[..k][1..] && b[1..][..k - 1] == b[..k][1..];
      }
    }
  }

  lemma {:induction false} LessTotal(a: seq<int>, b: seq<int>)
    ensures a == b || Less(a, b) || Less(b, a)
  {
    if a != [] && b != [] {
      LessTotal(a[1..], b[1..]);
      assert a == [a[0]] + a[1..] && b == [b[0]] + b[1..];
    }
  }

  lemma {:induction false} LessTransitive(a: seq<int>, b: seq<int>, c: seq<int>)
    ensures Less(a, b) && Less(b, c) ==> Less(a, c)
    ensures !Less(a, a)
  {
    if a == [] {
    } else {
      LessTransitive(a[1..], if b == [] then [] else b[1..], if c == [] then [] else c[1..]);
    }
  }

  predicate NotAfter(a: Text, b: Text) {
    !Less(b, a)
  }

  function Sort(keys: seq<Text>): seq<Text> {
    InsertionSort.Sort(NotAfter, keys)
  }

  predicate Increasing(keys: seq<Text>) {
    forall i, j :: 0 <= i < j < |keys| ==> Less(keys[i], keys[j])
  }

  lemma ElementsHas(keys: seq<Text>, key: Text)
    ensures key in ToSet(keys) <==> key in keys
    ensures ToSet(keys) == {} <==> keys == []
  {
    if keys != [] { assert keys[0] in ToSet(keys); }
  }

  lemma Rest(a: seq<Text>, k: Text)
    requires a != [] && Increasing(a)
    ensures k in a[1..] <==> k in a && k != a[0]
    ensures k in a[1..] ==> Less(a[0], k)
  {
    LessTransitive(a[0], [], []);
    assert a == [a[0]] + a[1..];
    if k in a[1..] {
      var j :| 0 <= j < |a[1..]| && a[1..][j] == k;
      assert Less(a[0], a[j + 1]);
    }
  }

  lemma NotLessConsistent(a: seq<int>, b: seq<int>, c: seq<int>)
    ensures !Less(b, a) || !Less(a, b)
    ensures !Less(b, a) && !Less(c, b) ==> !Less(c, a)
  {
    LessTransitive(a, b, a);
    LessTotal(a, b);
    LessTotal(b, c);
    LessTransitive(c, a, b);
    LessTransitive(b, c, a);
    LessTransitive(b, a, b);
  }

  lemma NotAfterConsistent()
    ensures InsertionSort.Consistent(NotAfter)
  {
    hide Less;
    forall a: Text, b: Text ensures NotAfter(a, b) || NotAfter(b, a) {
      NotLessConsistent(a, b, a);
    }
    forall a: Text, b: Text, c: Text | NotAfter(a, b) && NotAfter(b, c) ensures NotAfter(a, c) {
      NotLessConsistent(a, b, c);
    }
  }

  /** Sorting distinct keys gives the same keys in increasing order. */
  lemma SortSorts(keys: seq<Text>)
    ensures ToSet(Sort(keys)) == ToSet(keys)
    ensures NoRepeats(keys) ==> Increasing(Sort(keys))
  {
    hide Less, NotAfter;
    var sorted := Sort(keys);
    InsertionSort.SortPermutes(NotAfter, keys);
    PermutationKeeps(sorted, keys);
    NotAfterConsistent();
    InsertionSort.SortSorts(NotAfter, keys);
    if NoRepeats(keys) {
      forall i, j | 0 <= i < j < |sorted| ensures Less(sorted[i], sorted[j]) {
        NotAfterAndDistinct(sorted[i], sorted[j]);
      }
    }
  }

  lemma NotAfterAndDistinct(a: Text, b: Text)
    ensures NotAfter(a, b) && a != b ==> Less(a, b)
  {
    LessTotal(a, b);
  }

  /** An increasing list is determined by the set of its elements. */
  lemma {:induction false} IncreasingUnique(a: seq<Text>, b: seq<Text>)
    requires Increasing(a) && Increasing(b) && ToSet(a) == ToSet(b)
    ensures a == b
  {
    ElementsHas(a, []);
    ElementsHas(b, []);
    if a == [] {
    } else {
      assert a[0] in ToSet(b) && b[0] in ToSet(a);
      LessTransitive(a[0], b[0], a[0]);
      assert a[0] == b[0];
      forall k ensures k in ToSet(a[1..]) <==> k in ToSet(a) && k != a[0] {
        Rest(a, k);
      }
      forall k ensures k in ToSet(b[1..]) <==> k in ToSet(b) && k != b[0] {
        Rest(b, k);
      }
      IncreasingUnique(a[1..], b[1..]);
    }
  }
}
