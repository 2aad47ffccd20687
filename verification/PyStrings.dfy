/** Python's strings: sequences of code points, which is also how they are compared. */
module PyStrings {
  import InsertionSort
  import KeyOrder

  type CodePoint = c: int | 0 <= c < 0x110000

  type Text = seq<CodePoint>

  predicate NotAfter(a: Text, b: Text) {
    !KeyOrder.Less(b, a)
  }

  lemma NotAfterConsistent()
    ensures InsertionSort.Consistent(NotAfter)
  {
    forall a: Text, b: Text ensures NotAfter(a, b) || NotAfter(b, a) {
      KeyOrder.NotLessConsistent(a, b, a);
    }
    forall a: Text, b: Text, c: Text | NotAfter(a, b) && NotAfter(b, c) ensures NotAfter(a, c) {
      KeyOrder.NotLessConsistent(a, b, c);
    }
  }
}
