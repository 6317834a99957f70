/** Small facts about sequences used by the configuration and the scanner. */
module Collections {

  /** The set of elements of a sequence. */
  function Elems<T>(s: seq<T>): set<T> {
    set x | x in s
  }

  /** No element occurs twice. */
  predicate NoDuplicates<T(==)>(s: seq<T>) {
    forall i, j :: 0 <= i < j < |s| ==> s[i] != s[j]
  }

  /** Sequences that differ pairwise in length or in their second or third element are distinct. */
  lemma DistinctBySignature<T>(s: seq<seq<T>>)
    requires forall i :: 0 <= i < |s| ==> |s[i]| >= 3
    requires forall i, j :: 0 <= i < j < |s| ==> |s[i]| != |s[j]| || s[i][1] != s[j][1] || s[i][2] != s[j][2]
    ensures NoDuplicates(s)
  {
  }

  /** A sequence without repetitions has as many distinct elements as positions. */
  lemma {:induction false} DistinctElemsCount<T>(s: seq<T>)
    requires NoDuplicates(s)
    ensures |Elems(s)| == |s|
  {
    if s != [] {
      var init, last := s[..|s| - 1], s[|s| - 1];
      assert NoDuplicates(init);
      DistinctElemsCount(init);
      assert s == init + [last];
      assert Elems(s) == Elems(init) + {last};
      assert last !in Elems(init);
    }
  }
}
