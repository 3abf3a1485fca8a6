/** Counting facts shared by the capacity arguments. */
module Pigeonhole {

  ghost predicate Distinct<T>(s: seq<T>) {
    forall i, j | 0 <= i < j < |s| :: s[i] != s[j]
  }

  ghost function Elements(s: seq<int>): set<int> {
    set x | x in s
  }

  ghost function Below(k: nat): (r: set<int>)
    ensures |r| == k && forall x :: x in r <==> 0 <= x < k
  {
    if k == 0 then {} else Below(k - 1) + {k - 1}
  }

  lemma {:induction false} DistinctElements(s: seq<int>)
    requires Distinct(s)
    ensures |Elements(s)| == |s|
  {
    if s != [] {
      var init, last := s[..|s| - 1], s[|s| - 1];
      DistinctElements(init);
      assert s == init + [last];
      assert last !in init;
      assert Elements(s) == Elements(init) + {last};
    }
  }

  /** Pairwise distinct numbers below k: there are at most k of them. */
  lemma DistinctBounded(s: seq<int>, k: nat)
    requires Distinct(s) && forall i | 0 <= i < |s| :: 0 <= s[i] < k
    ensures |s| <= k
  {
    DistinctElements(s);
    var rest := Below(k) - Elements(s);
    assert Below(k) == Elements(s) + rest;
  }
}
