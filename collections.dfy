/** Sequence facts used for Java arrays, lists and insertion-ordered sets. */
module Collections {

  predicate NoDuplicates<T(==)>(s: seq<T>) {
    forall i, j :: 0 <= i < j < |s| ==> s[i] != s[j]
  }

  function Elements<T>(s: seq<T>): set<T> {
    set x | x in s
  }

  /**
   * The iteration order of a LinkedHashSet filled by adding the elements of
   * `s` one after the other: every element once, at its first occurrence.
   */
  function InsertionOrdered<T(==)>(s: seq<T>): (r: seq<T>)
    ensures Elements(r) == Elements(s)
    ensures NoDuplicates(r)
    ensures |r| <= |s|
    decreases |s|
  {
    if |s| == 0 then []
    else
      var front := InsertionOrdered(s[..|s| - 1]);
      var last := s[|s| - 1];
      assert Elements(s) == Elements(s[..|s| - 1]) + {last} by {
        assert s == s[..|s| - 1] + [last];
      }
      if last in front then front else front + [last]
  }

  /** A sequence without duplicates has as many elements as its set. */
  lemma {:induction false} DistinctCardinality<T>(s: seq<T>)
    requires NoDuplicates(s)
    ensures |Elements(s)| == |s|
  {
    if |s| > 0 {
      var front := s[..|s| - 1];
      assert NoDuplicates(front);
      DistinctCardinality(front);
      assert s == front + [s[|s| - 1]];
      assert Elements(s) == Elements(front) + {s[|s| - 1]};
      assert s[|s| - 1] !in Elements(front);
    }
  }
}
