/** Counting the positions that satisfy a condition, one position at a time. */
module Counting {
  /** Splitting the lowest candidate position `lo` off a set of positions. */
  lemma SplitOff(here: set<int>, rest: set<int>, lo: int, b: bool)
    requires forall i :: i in here <==> (b && i == lo) || i in rest
    requires lo !in rest
    ensures |here| == (if b then 1 else 0) + |rest|
  {
    var split := (if b then {lo} else {}) + rest;
    forall i | i in here
      ensures i in split
    {
    }
    forall i | i in split
      ensures i in here
    {
    }
    assert here == split;
  }
}
