/** When a sequence keeps the order of another one, for rows that are pairwise different. */
module RowOrder {
  ghost predicate Distinct<T>(xs: seq<T>) {
    forall i, j :: 0 <= i < j < |xs| ==> xs[i] != xs[j]
  }

  /** `at` says, in increasing order, where in `xs` the entries of `sub` are. */
  ghost predicate FoundAt<T>(sub: seq<T>, xs: seq<T>, at: seq<nat>) {
    && |at| == |sub|
    && (forall i :: 0 <= i < |at| ==> at[i] < |xs| && xs[at[i]] == sub[i])
    && (forall i, j :: 0 <= i < j < |at| ==> at[i] < at[j])
  }

  /** `sub` is an ordered subsequence of `xs`. */
  ghost predicate Subsequence<T>(sub: seq<T>, xs: seq<T>) {
    exists at :: FoundAt(sub, xs, at)
  }

  /** `x` was added before `y`. */
  ghost predicate Before<T>(xs: seq<T>, x: T, y: T) {
    exists i, j :: 0 <= i < j < |xs| && xs[i] == x && xs[j] == y
  }

  ghost predicate AllBefore<T>(xs: seq<T>, early: seq<T>, late: seq<T>) {
    forall i, j :: 0 <= i < |early| && 0 <= j < |late| ==> Before(xs, early[i], late[j])
  }

  /** The order read pair by pair. */
  ghost predicate Sorted<T>(sub: seq<T>, xs: seq<T>) {
    && (forall i :: 0 <= i < |sub| ==> sub[i] in xs)
    && (forall i, j :: 0 <= i < j < |sub| ==> Before(xs, sub[i], sub[j]))
  }

  /** `part` stands in `xs` without a gap. */
  ghost predicate Segment<T>(part: seq<T>, xs: seq<T>) {
    exists p :: 0 <= p <= |xs| && part <= xs[p..]
  }

  ghost function Place<T>(xs: seq<T>, x: T): (i: nat)
    requires x in xs
    ensures i < |xs| && xs[i] == x
  {
    var i :| 0 <= i < |xs| && xs[i] == x;
    i
  }

  lemma SortedIsSubsequence<T>(sub: seq<T>, xs: seq<T>)
    requires Distinct(xs)
    ensures Subsequence(sub, xs) <==> Sorted(sub, xs)
  {
    if Sorted(sub, xs) {
      var at := seq(|sub|, i requires 0 <= i < |sub| && sub[i] in xs => Place(xs, sub[i]));
      forall i, j | 0 <= i < j < |at| ensures at[i] < at[j] { assert Before(xs, sub[i], sub[j]); }
      assert FoundAt(sub, xs, at);
    }
    if at :| FoundAt(sub, xs, at) {
      forall i, j | 0 <= i < j < |sub| ensures Before(xs, sub[i], sub[j]) {
        assert xs[at[i]] == sub[i] && xs[at[j]] == sub[j];
      }
    }
  }

  lemma SegmentIsSorted<T>(part: seq<T>, xs: seq<T>)
    requires Segment(part, xs)
    ensures Sorted(part, xs)
  {
    var p :| 0 <= p <= |xs| && part <= xs[p..];
    forall i | 0 <= i < |part| ensures xs[p + i] == part[i] { assert xs[p..][i] == part[i]; }
    forall i, j | 0 <= i < j < |part| ensures Before(xs, part[i], part[j]) {
      assert xs[p + i] == part[i] && xs[p + j] == part[j];
    }
  }

  /** Appending a segment keeps the order exactly when all that was there came before it. */
  lemma AppendSortedIff<T>(sub: seq<T>, part: seq<T>, xs: seq<T>)
    requires Distinct(xs) && Segment(part, xs)
    ensures Subsequence(sub + part, xs) <==> Subsequence(sub, xs) && AllBefore(xs, sub, part)
  {
    hide Before, Segment, Distinct, Subsequence;
    SortedIsSubsequence(sub, xs);
    SortedIsSubsequence(sub + part, xs);
    SegmentIsSorted(part, xs);
    var all := sub + part;
    assert all[..|sub|] == sub && all[|sub|..] == part;
    if Sorted(all, xs) {
      forall i | 0 <= i < |sub| ensures all[i] == sub[i] {}
      forall i, j | 0 <= i < |sub| && 0 <= j < |part| ensures Before(xs, sub[i], part[j]) {
        assert all[i] == sub[i] && all[|sub| + j] == part[j];
      }
    }
    if Sorted(sub, xs) && AllBefore(xs, sub, part) {
      forall i, j | 0 <= i < j < |all| ensures Before(xs, all[i], all[j]) {
        if j < |sub| { assert all[i] == sub[i] && all[j] == sub[j]; }
        else if i < |sub| { assert all[i] == sub[i] && all[j] == part[j - |sub|]; }
        else { assert all[i] == part[i - |sub|] && all[j] == part[j - |sub|]; }
      }
      forall i | 0 <= i < |all| ensures all[i] in xs {
        if i < |sub| { assert all[i] == sub[i]; } else { assert all[i] == part[i - |sub|]; }
      }
    }
  }

  /** Rows added later do not change the order of those that were there. */
  lemma GrowthKeepsOrder<T>(sub: seq<T>, xs: seq<T>, more: seq<T>)
    requires Distinct(xs + more) && forall i :: 0 <= i < |sub| ==> sub[i] in xs
    ensures Subsequence(sub, xs + more) <==> Subsequence(sub, xs)
  {
    var all := xs + more;
    if at :| FoundAt(sub, xs, at) { assert FoundAt(sub, all, at); }
    if at :| FoundAt(sub, all, at) {
      forall i | 0 <= i < |at| ensures at[i] < |xs| {
        var k := Place(xs, sub[i]);
        assert all[k] == all[at[i]];
      }
      assert FoundAt(sub, xs, at);
    }
  }

  /** What stands before a suffix was added before all of it. */
  lemma BeforeTheSuffix<T>(early: seq<T>, late: seq<T>, xs: seq<T>, n: nat)
    requires n <= |xs| && late <= xs[n..]
    requires forall i :: 0 <= i < |early| ==> early[i] in xs[..n]
    ensures AllBefore(xs, early, late)
  {
    forall i, j | 0 <= i < |early| && 0 <= j < |late| ensures Before(xs, early[i], late[j]) {
      var k := Place(xs[..n], early[i]);
      assert xs[k] == early[i] && xs[n + j] == late[j];
    }
  }

  lemma SegmentOfMore<T>(part: seq<T>, xs: seq<T>, more: seq<T>)
    requires Segment(part, xs)
    ensures Segment(part, xs + more)
  {
    var p :| 0 <= p <= |xs| && part <= xs[p..];
    assert (xs + more)[p..] == xs[p..] + more;
  }
}
