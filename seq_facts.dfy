/**
 * Facts about appending sequences that the solver does not apply on its own: appending an
 * empty sequence and re-grouping a chain of appends.
 */
module SeqFacts {
  /** Appending an empty sequence on either side changes nothing. */
  lemma AppendEmpty<T>(s: seq<T>)
    ensures [] + s == s && s + [] == s
  {
  }

  /** Re-grouping of appended pieces. */
  lemma Regroup<T>(x: seq<T>, a: seq<T>, c: seq<T>)
    ensures x + a + c == x + (a + c)
  {
  }

  lemma Regroup3<T>(x: seq<T>, a: seq<T>, c: seq<T>, d: seq<T>)
    ensures x + a + c + d == x + (a + c + d)
  {
  }

  lemma Regroup4<T>(x: seq<T>, a: seq<T>, c: seq<T>, d: seq<T>, e: seq<T>)
    ensures x + a + c + d + e == x + (a + c + d + e)
  {
  }

  lemma PushTwo<T>(x: seq<T>, a: seq<T>, d: T, e: T)
    ensures x + a + [d] + [e] == x + (a + [d, e])
  {
  }

  lemma PushTwoAfter<T>(x: seq<T>, a: seq<T>, c: seq<T>, d: T, e: T)
    ensures x + a + c + [d] + [e] == x + (a + c + [d, e])
  {
  }
}
