/** Sizes of sets of consecutive integers. */
module IntRanges {
  predicate Within(t: int, a: int, z: int) { a <= t < z }

  function Range(a: int, z: int): set<int> { set t: int | a <= t < z && Within(t, a, z) }

  lemma {:induction false} RangeSize(a: int, z: int)
    requires a <= z
    ensures |Range(a, z)| == z - a
    decreases z - a
  {
    if a < z {
      RangeSize(a, z - 1);
      assert Range(a, z) == Range(a, z - 1) + {z - 1};
    } else {
      assert Range(a, z) == {};
    }
  }

  lemma SubsetSize<T>(a: set<T>, b: set<T>)
    requires a <= b
    ensures |a| <= |b|
  {
    assert b == a + (b - a);
  }
}
