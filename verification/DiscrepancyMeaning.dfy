/**
  What the dashboard promises, instant by instant, with no reference to the query: a
  node's value at `t` is the one all rows of its latest instant agree on, for at most
  EXPIRY. The lemmas reduce the relational query to this meaning.
 */
module DiscrepancyMeaning {
  import opened Wrappers
  import opened DiscrepancyQuery
  import IntRanges

  ghost predicate SampledAt(raw: seq<Raw>, node: string, ts: int) {
    exists r :: r in raw && r.node == node && r.ts == ts
  }

  ghost predicate Agreed(raw: seq<Raw>, node: string, ts: int, v: int) {
    SampledAt(raw, node, ts) && forall r :: r in raw && r.node == node && r.ts == ts ==> r.val == Some(v)
  }

  /** No row of the node lies strictly after `ts` and at or before `t`. */
  ghost predicate NoneSince(raw: seq<Raw>, node: string, ts: int, t: int) {
    forall r :: r in raw && r.node == node && r.ts <= t ==> r.ts <= ts
  }

  /** The rows of instant `ts` agree on `v`, are the latest at `t`, and are younger than 60 s. */
  ghost predicate HeldSince(raw: seq<Raw>, node: string, ts: int, t: int, v: int) {
    ts <= t < ts + 60_000_000 && Agreed(raw, node, ts, v) && NoneSince(raw, node, ts, t)
  }

  /** The carried-forward, unexpired value of the node at instant `t` is `v`. */
  ghost predicate HasValue(raw: seq<Raw>, node: string, t: int, v: int) {
    exists ts :: HeldSince(raw, node, ts, t, v)
  }

  ghost predicate BothAt(raw: seq<Raw>, src: string, dst: string, t: int, u: int, v: int) {
    HasValue(raw, src, t, u) && HasValue(raw, dst, t, v)
  }

  ghost predicate BothKnown(raw: seq<Raw>, src: string, dst: string, t: int) {
    exists u, v :: BothAt(raw, src, dst, t, u, v)
  }

  ghost predicate Differ(raw: seq<Raw>, src: string, dst: string, t: int) {
    exists u, v :: BothAt(raw, src, dst, t, u, v) && u != v
  }

  ghost predicate Equal(raw: seq<Raw>, src: string, dst: string, t: int) {
    exists u, v :: BothAt(raw, src, dst, t, u, v) && u == v
  }

  ghost predicate AllDiffer(raw: seq<Raw>, src: string, dst: string, a: int, z: int) {
    forall t :: a <= t < z ==> Differ(raw, src, dst, t)
  }

  /** [a, z) is a longest stretch of the window on which the two nodes differ. */
  ghost predicate MaximalRun(raw: seq<Raw>, src: string, dst: string, lo: int, hi: int, a: int, z: int) {
    && lo <= a < z <= hi
    && AllDiffer(raw, src, dst, a, z)
    && (a == lo || !Differ(raw, src, dst, a - 1))
    && (z == hi || !Differ(raw, src, dst, z))
  }

  lemma ValueIsUnique(raw: seq<Raw>, node: string, t: int, u: int, v: int)
    requires HasValue(raw, node, t, u) && HasValue(raw, node, t, v)
    ensures u == v
  {
    var x :| HeldSince(raw, node, x, t, u);
    var y :| HeldSince(raw, node, y, t, v);
    assert x == y;
  }

  // ---- samples ----

  lemma SingletonSet(vals: seq<int>, v: int)
    requires vals != []
    ensures |set x | x in vals| == 1 && Least(vals) == v <==> forall x :: x in vals ==> x == v
  {
    var s := set x | x in vals;
    var m := Least(vals);
    assert m in s;
    if |s| == 1 && m == v {
      forall x | x in vals ensures x == v {
        assert {x, m} <= s;
        IntRanges.SubsetSize({x, m}, s);
      }
    }
    if forall x :: x in vals ==> x == v {
      assert s == {v};
    }
  }

  /** The GROUP BY value: known exactly when all rows of the instant carry it. */
  lemma ConsensusMeansAgreement(group: seq<Raw>, v: int)
    requires group != []
    ensures Consensus(group) == Some(v) <==> forall r :: r in group ==> r.val == Some(v)
  {
    var vals := NonNull(group);
    if vals != [] { SingletonSet(vals, v); }
    if |vals| == |group| {
      assert forall x :: x in vals ==> exists r :: r in group && r.val == Some(x);
      forall r | r in group ensures r.val.value in vals {}
    } else {
      assert exists r :: r in group && r.val.None?;
    }
  }

  lemma SampleMeans(raw: seq<Raw>, node: string, lo: int, hi: int, i: nat, v: int)
    requires i < |Samples(NodeRows(raw, node, lo, hi))|
    ensures var s := Samples(NodeRows(raw, node, lo, hi))[i];
            SampledAt(raw, node, s.ts) && lo - EXPIRY <= s.ts <= hi
            && (s.val == Some(v) <==> Agreed(raw, node, s.ts, v))
  {
    var rows := NodeRows(raw, node, lo, hi);
    var ts := Samples(rows)[i].ts;
    assert ts in GroupKeys(rows);
    var g := RowsAt(rows, ts);
    var r :| r in rows && r.ts == ts;
    assert r in g;
    ConsensusMeansAgreement(g, v);
    forall r | r in raw && r.node == node && r.ts == ts ensures r in g {}
  }

  lemma SamplesIncrease(rows: seq<Raw>)
    ensures forall i, j :: 0 <= i < j < |Samples(rows)| ==> Samples(rows)[i].ts < Samples(rows)[j].ts
  {}

  // ---- intervals ----

  ghost predicate Ascending(s: seq<Sample>) {
    forall i, j :: 0 <= i < j < |s| ==> s[i].ts < s[j].ts
  }

  /** `ivs` are the intervals of the samples from the `i`-th on that come before `hi`. */
  ghost predicate FirstIntervals(s: seq<Sample>, i: nat, ivs: seq<Interval>, lo: int, hi: int) {
    && i + |ivs| <= |s|
    && (forall k :: i <= k < i + |ivs| ==> s[k].ts < hi && ivs[k - i] == IntervalOf(s, k, lo, hi))
    && (forall k :: i + |ivs| <= k < |s| ==> hi <= s[k].ts)
  }

  lemma OneMoreInterval(s: seq<Sample>, i: nat, rest: seq<Interval>, lo: int, hi: int)
    requires i < |s| && s[i].ts < hi && FirstIntervals(s, i + 1, rest, lo, hi)
    ensures FirstIntervals(s, i, [IntervalOf(s, i, lo, hi)] + rest, lo, hi)
  {
    hide IntervalOf;
    var ivs := [IntervalOf(s, i, lo, hi)] + rest;
    forall k | i <= k < i + |ivs| ensures s[k].ts < hi && ivs[k - i] == IntervalOf(s, k, lo, hi) {
      if k > i { assert ivs[k - i] == rest[k - (i + 1)]; }
    }
  }

  lemma LateSample(s: seq<Sample>, i: nat, rest: seq<Interval>, lo: int, hi: int)
    requires i < |s| && Ascending(s) && hi <= s[i].ts && FirstIntervals(s, i + 1, rest, lo, hi)
    ensures rest == [] && FirstIntervals(s, i, [], lo, hi)
  {
    hide IntervalOf;
    assert i + 1 < |s| ==> s[i].ts < s[i + 1].ts;
  }

  lemma {:induction false} IntervalsAreFirst(s: seq<Sample>, i: nat, lo: int, hi: int)
    requires i <= |s| && Ascending(s)
    ensures FirstIntervals(s, i, IntervalsFrom(s, i, lo, hi), lo, hi)
    decreases |s| - i
  {
    hide IntervalOf;
    if i == |s| {
    } else {
      hide FirstIntervals;
      var rest := IntervalsFrom(s, i + 1, lo, hi);
      IntervalsAreFirst(s, i + 1, lo, hi);
      if s[i].ts < hi { OneMoreInterval(s, i, rest, lo, hi); } else { LateSample(s, i, rest, lo, hi); }
    }
  }

  /** The intervals are those of a prefix of the samples: the ones before `hi`. */
  lemma IntervalsAreAPrefix(s: seq<Sample>, lo: int, hi: int)
    requires Ascending(s)
    ensures var ivs := IntervalsFrom(s, 0, lo, hi);
            && |ivs| <= |s|
            && (forall k :: 0 <= k < |ivs| ==> s[k].ts < hi && ivs[k] == IntervalOf(s, k, lo, hi))
            && (forall k :: |ivs| <= k < |s| ==> hi <= s[k].ts)
  {
    hide IntervalOf;
    IntervalsAreFirst(s, 0, lo, hi);
    var ivs := IntervalsFrom(s, 0, lo, hi);
    forall k | 0 <= k < |ivs| ensures s[k].ts < hi && ivs[k] == IntervalOf(s, k, lo, hi) {
      assert ivs[k] == ivs[k - 0];
    }
  }

  ghost predicate Covers(iv: Interval, t: int, v: int) {
    iv.a <= t < iv.z && iv.val == Some(v)
  }

  /** Intervals follow one another: none starts before an earlier one has ended. */
  ghost predicate Chained(ivs: seq<Interval>) {
    forall i, j :: 0 <= i < j < |ivs| ==> ivs[i].z <= ivs[j].a
  }

  lemma SampleIntervalsChain(s: seq<Sample>, lo: int, hi: int)
    requires Ascending(s)
    ensures Chained(IntervalsFrom(s, 0, lo, hi))
    ensures forall iv :: iv in IntervalsFrom(s, 0, lo, hi) ==> lo <= iv.a && iv.z <= hi
  {
    IntervalsAreAPrefix(s, lo, hi);
    var ivs := IntervalsFrom(s, 0, lo, hi);
    forall i, j | 0 <= i < j < |ivs| ensures ivs[i].z <= ivs[j].a {
      assert ivs[i] == IntervalOf(s, 0 + i, lo, hi) && ivs[j] == IntervalOf(s, 0 + j, lo, hi);
      assert i + 1 == j || s[i + 1].ts < s[j].ts;
    }
    forall k | 0 <= k < |ivs| ensures lo <= ivs[k].a && ivs[k].z <= hi {
      assert ivs[k] == IntervalOf(s, 0 + k, lo, hi);
    }
  }

  lemma IntervalsChain(raw: seq<Raw>, node: string, lo: int, hi: int)
    ensures Chained(Intervals(raw, node, lo, hi))
    ensures forall iv :: iv in Intervals(raw, node, lo, hi) ==> lo <= iv.a && iv.z <= hi
  {
    SamplesIncrease(NodeRows(raw, node, lo, hi));
    SampleIntervalsChain(Samples(NodeRows(raw, node, lo, hi)), lo, hi);
  }

  /** Sample `k` is the last one at or before `t` and has not expired. */
  ghost predicate CurrentSample(s: seq<Sample>, k: nat, t: int, v: int) {
    && k < |s|
    && s[k].ts <= t < s[k].ts + EXPIRY
    && (k + 1 < |s| ==> t < s[k + 1].ts)
    && s[k].val == Some(v)
  }

  lemma IntervalIsASample(s: seq<Sample>, lo: int, hi: int, iv: Interval, t: int, v: int) returns (k: nat)
    requires Ascending(s) && lo <= t < hi
    requires iv in IntervalsFrom(s, 0, lo, hi) && Covers(iv, t, v)
    ensures CurrentSample(s, k, t, v)
  {
    IntervalsAreAPrefix(s, lo, hi);
    var ivs := IntervalsFrom(s, 0, lo, hi);
    k :| 0 <= k < |ivs| && ivs[k] == iv;
    assert ivs[k] == IntervalOf(s, 0 + k, lo, hi);
  }

  lemma SampleIsAnInterval(s: seq<Sample>, lo: int, hi: int, k: nat, t: int, v: int)
    requires Ascending(s) && lo <= t < hi && CurrentSample(s, k, t, v)
    ensures exists iv :: iv in IntervalsFrom(s, 0, lo, hi) && Covers(iv, t, v)
  {
    IntervalsAreAPrefix(s, lo, hi);
    var ivs := IntervalsFrom(s, 0, lo, hi);
    assert ivs[k] == IntervalOf(s, 0 + k, lo, hi);
    assert ivs[k] in ivs && Covers(ivs[k], t, v);
  }

  /** What `samples` keeps of the raw rows: their instants, and the value each instant agrees on. */
  ghost predicate Tracks(raw: seq<Raw>, node: string, lo: int, hi: int, s: seq<Sample>) {
    && Ascending(s)
    && (forall k :: 0 <= k < |s| ==> SampledAt(raw, node, s[k].ts))
    && (forall k, v :: 0 <= k < |s| ==> (s[k].val == Some(v) <==> Agreed(raw, node, s[k].ts, v)))
    && (forall ts :: lo - EXPIRY <= ts <= hi && SampledAt(raw, node, ts) ==> exists k :: 0 <= k < |s| && s[k].ts == ts)
  }

  lemma SamplesTrack(raw: seq<Raw>, node: string, lo: int, hi: int)
    ensures Tracks(raw, node, lo, hi, Samples(NodeRows(raw, node, lo, hi)))
  {
    var rows := NodeRows(raw, node, lo, hi);
    var s := Samples(rows);
    SamplesIncrease(rows);
    forall k, v | 0 <= k < |s|
      ensures SampledAt(raw, node, s[k].ts) && (s[k].val == Some(v) <==> Agreed(raw, node, s[k].ts, v))
    {
      SampleMeans(raw, node, lo, hi, k, v);
    }
    forall ts | lo - EXPIRY <= ts <= hi && SampledAt(raw, node, ts)
      ensures exists k :: 0 <= k < |s| && s[k].ts == ts
    {
      var r :| r in raw && r.node == node && r.ts == ts;
      assert r in rows;
      assert ts in GroupKeys(rows);
      var k :| 0 <= k < |s| && GroupKeys(rows)[k] == ts;
      assert s[k].ts == ts;
    }
  }

  lemma ValueIsASample(raw: seq<Raw>, node: string, lo: int, hi: int, s: seq<Sample>, t: int, v: int) returns (k: nat)
    requires lo <= t < hi && Tracks(raw, node, lo, hi, s) && HasValue(raw, node, t, v)
    ensures CurrentSample(s, k, t, v)
  {
    var ts :| HeldSince(raw, node, ts, t, v);
    k :| 0 <= k < |s| && s[k].ts == ts;
    if k + 1 < |s| {
      assert SampledAt(raw, node, s[k + 1].ts);
      assert t < s[k + 1].ts;
    }
  }

  lemma SampleIsAValue(raw: seq<Raw>, node: string, lo: int, hi: int, s: seq<Sample>, t: int, v: int, k: nat)
    requires lo <= t < hi && Tracks(raw, node, lo, hi, s) && CurrentSample(s, k, t, v)
    ensures HasValue(raw, node, t, v)
  {
    var ts := s[k].ts;
    forall r | r in raw && r.node == node && r.ts <= t ensures r.ts <= ts {
      if lo - EXPIRY <= r.ts {
        assert SampledAt(raw, node, r.ts);
        var j :| 0 <= j < |s| && s[j].ts == r.ts;
        assert j <= k;
      }
    }
    assert HeldSince(raw, node, ts, t, v);
  }

  /** Inside the window, an interval with value `v` covers `t` exactly when the node's value at `t` is `v`. */
  lemma IntervalsMeanValues(raw: seq<Raw>, node: string, lo: int, hi: int, t: int, v: int)
    requires lo <= t < hi
    ensures HasValue(raw, node, t, v) <==> exists iv :: iv in Intervals(raw, node, lo, hi) && Covers(iv, t, v)
  {
    var s := Samples(NodeRows(raw, node, lo, hi));
    SamplesTrack(raw, node, lo, hi);
    if HasValue(raw, node, t, v) {
      var k := ValueIsASample(raw, node, lo, hi, s, t, v);
      SampleIsAnInterval(s, lo, hi, k, t, v);
    }
    if iv :| iv in Intervals(raw, node, lo, hi) && Covers(iv, t, v) {
      var k := IntervalIsASample(s, lo, hi, iv, t, v);
      SampleIsAValue(raw, node, lo, hi, s, t, v, k);
    }
  }

  // ---- spans ----

  /** Non-empty spans inside the window, each starting at or after the end of the one before. */
  ghost predicate SpanChain(spans: seq<Span>, lo: int, hi: int) {
    && (forall i :: 0 <= i < |spans| ==> lo <= spans[i].a < spans[i].z <= hi)
    && (forall i, j :: 0 <= i < j < |spans| ==> spans[i].z <= spans[j].a)
  }

  lemma {:induction false} JoinOneMembers(s: Interval, ds: seq<Interval>)
    ensures forall p :: p in JoinOne(s, ds) <==> exists d :: d in ds && Joins(s, d) && p == Meet(s, d)
  {
    if ds == [] {
    } else {
      JoinOneMembers(s, ds[1..]);
      assert forall d :: d in ds <==> d == ds[0] || d in ds[1..];
    }
  }

  lemma {:induction false} JoinMembers(ss: seq<Interval>, ds: seq<Interval>)
    ensures forall p :: p in Join(ss, ds) <==>
              exists s, d :: s in ss && d in ds && Joins(s, d) && p == Meet(s, d)
  {
    if ss == [] {
    } else {
      JoinOneMembers(ss[0], ds);
      JoinMembers(ss[1..], ds);
      assert forall s :: s in ss <==> s == ss[0] || s in ss[1..];
    }
  }

  lemma {:induction false} JoinOneChains(s: Interval, ds: seq<Interval>)
    requires Chained(ds)
    ensures SpanChain(JoinOne(s, ds), s.a, s.z)
  {
    if ds == [] {
    } else {
      var rest := JoinOne(s, ds[1..]);
      JoinOneChains(s, ds[1..]);
      JoinOneMembers(s, ds[1..]);
      forall i | 0 <= i < |rest| ensures ds[0].z <= rest[i].a {
        assert rest[i] in rest;
        var d :| d in ds[1..] && Joins(s, d) && rest[i] == Meet(s, d);
      }
      if Joins(s, ds[0]) { assert JoinOne(s, ds) == [Meet(s, ds[0])] + rest; } else { assert JoinOne(s, ds) == rest; }
    }
  }

  lemma ChainsConcatenate(first: seq<Span>, rest: seq<Span>, lo: int, mid: int, hi: int)
    requires SpanChain(first, lo, mid) && SpanChain(rest, mid, hi) && lo <= mid <= hi
    ensures SpanChain(first + rest, lo, hi)
  {}

  lemma {:induction false} JoinStartsLater(ss: seq<Interval>, ds: seq<Interval>, mid: int)
    requires forall s :: s in ss ==> mid <= s.a
    ensures forall i :: 0 <= i < |Join(ss, ds)| ==> mid <= Join(ss, ds)[i].a
  {
    JoinMembers(ss, ds);
    forall i | 0 <= i < |Join(ss, ds)| ensures mid <= Join(ss, ds)[i].a {
      assert Join(ss, ds)[i] in Join(ss, ds);
    }
  }

  lemma WiderChain(spans: seq<Span>, lo: int, hi: int, lo': int, hi': int)
    requires SpanChain(spans, lo, hi) && lo' <= lo && hi <= hi'
    ensures SpanChain(spans, lo', hi')
  {}

  lemma ChainFrom(spans: seq<Span>, lo: int, mid: int, hi: int)
    requires SpanChain(spans, lo, hi) && forall i :: 0 <= i < |spans| ==> mid <= spans[i].a
    ensures SpanChain(spans, mid, hi)
  {}

  lemma FirstJoinIsBefore(s: Interval, rest: seq<Interval>, ds: seq<Interval>, lo: int, hi: int)
    requires SpanChain(JoinOne(s, ds), s.a, s.z) && SpanChain(Join(rest, ds), lo, hi)
    requires lo <= s.a && s.z <= hi && forall x :: x in rest ==> s.z <= x.a
    ensures SpanChain(JoinOne(s, ds) + Join(rest, ds), lo, hi)
  {
    hide JoinOne, Join;
    var first, later := JoinOne(s, ds), Join(rest, ds);
    if first == [] {
      assert first + later == later;
    } else {
      assert s.a <= first[0].a < first[0].z <= s.z;
      JoinStartsLater(rest, ds, s.z);
      WiderChain(first, s.a, s.z, lo, s.z);
      ChainFrom(later, lo, s.z, hi);
      ChainsConcatenate(first, later, lo, s.z, hi);
    }
  }

  lemma {:induction false} JoinChains(ss: seq<Interval>, ds: seq<Interval>, lo: int, hi: int)
    requires Chained(ss) && Chained(ds)
    requires forall s :: s in ss ==> lo <= s.a && s.z <= hi
    ensures SpanChain(Join(ss, ds), lo, hi)
  {
    hide JoinOne;
    if ss == [] {
    } else {
      assert ss[0] in ss;
      JoinOneChains(ss[0], ds);
      JoinChains(ss[1..], ds, lo, hi);
      assert forall s :: s in ss[1..] ==> ss[0].z <= s.a;
      FirstJoinIsBefore(ss[0], ss[1..], ds, lo, hi);
    }
  }

  /** ORDER BY on an already ordered chain changes nothing. */
  lemma {:induction false} OrderingAChain(spans: seq<Span>, lo: int, hi: int)
    requires SpanChain(spans, lo, hi)
    ensures OrderByStart(spans) == spans
  {
    if spans == [] {
    } else {
      OrderingAChain(spans[1..], lo, hi);
      if |spans| > 1 { assert spans[0].z <= spans[1].a; }
    }
  }

  ghost predicate StartsAscend(w: seq<Span>) {
    forall i, j :: 0 <= i < j < |w| ==> w[i].a <= w[j].a
  }

  lemma SameHead(spans: seq<Span>, lo: int, hi: int, w: seq<Span>)
    requires SpanChain(spans, lo, hi) && multiset(w) == multiset(spans) && StartsAscend(w) && spans != []
    ensures w != [] && w[0] == spans[0]
  {
    assert spans[0] in multiset(w);
    assert w[0] in multiset(spans);
    var i :| 0 <= i < |spans| && spans[i] == w[0];
    var j :| 0 <= j < |w| && w[j] == spans[0];
    assert w[0].a <= spans[0].a;
    assert forall k :: 0 < k < |spans| ==> spans[0].a < spans[k].a;
  }

  lemma TailsAgree(v: seq<Span>, w: seq<Span>)
    requires v != [] && w != [] && v[0] == w[0] && multiset(v) == multiset(w)
    ensures multiset(v[1..]) == multiset(w[1..])
  {
    assert v == [v[0]] + v[1..] && w == [w[0]] + w[1..];
    assert multiset(v[1..]) == multiset(v) - multiset{v[0]};
    assert multiset(w[1..]) == multiset(w) - multiset{w[0]};
  }

  /** Starts of a chain are distinct, so any row order the database sorts by start is this one. */
  lemma {:induction false} OrderIsDetermined(spans: seq<Span>, lo: int, hi: int, w: seq<Span>)
    requires SpanChain(spans, lo, hi) && multiset(w) == multiset(spans) && StartsAscend(w)
    ensures w == spans
  {
    if spans == [] {
      assert |multiset(w)| == 0;
    } else {
      SameHead(spans, lo, hi, w);
      TailsAgree(w, spans);
      OrderIsDetermined(spans[1..], lo, hi, w[1..]);
    }
  }

  /** The join comes out in window order: pairwise disjoint, non-empty, inside the window. */
  lemma SpansChain(raw: seq<Raw>, src: string, dst: string, lo: int, hi: int)
    ensures SpanChain(Spans(raw, src, dst, lo, hi), lo, hi)
    ensures Spans(raw, src, dst, lo, hi) == Join(Intervals(raw, src, lo, hi), Intervals(raw, dst, lo, hi))
  {
    IntervalsChain(raw, src, lo, hi);
    IntervalsChain(raw, dst, lo, hi);
    JoinChains(Intervals(raw, src, lo, hi), Intervals(raw, dst, lo, hi), lo, hi);
    OrderingAChain(Join(Intervals(raw, src, lo, hi), Intervals(raw, dst, lo, hi)), lo, hi);
  }

  ghost predicate InSpan(spans: seq<Span>, t: int, mismatch: bool) {
    exists p :: p in spans && p.a <= t < p.z && p.mismatch == mismatch
  }

  lemma SpanIsAPair(raw: seq<Raw>, src: string, dst: string, lo: int, hi: int, t: int, p: Span)
    returns (u: int, v: int)
    requires lo <= t < hi && p in Spans(raw, src, dst, lo, hi) && p.a <= t < p.z
    ensures BothAt(raw, src, dst, t, u, v) && (u != v) == p.mismatch
  {
    hide Spans, Intervals, SpanChain;
    var ss, ds := Intervals(raw, src, lo, hi), Intervals(raw, dst, lo, hi);
    SpansChain(raw, src, dst, lo, hi);
    JoinMembers(ss, ds);
    var s, d :| s in ss && d in ds && Joins(s, d) && p == Meet(s, d);
    u, v := s.val.value, d.val.value;
    assert Covers(s, t, u) && Covers(d, t, v);
    IntervalsMeanValues(raw, src, lo, hi, t, u);
    IntervalsMeanValues(raw, dst, lo, hi, t, v);
  }

  lemma PairIsASpan(raw: seq<Raw>, src: string, dst: string, lo: int, hi: int, t: int, u: int, v: int)
    requires lo <= t < hi && BothAt(raw, src, dst, t, u, v)
    ensures InSpan(Spans(raw, src, dst, lo, hi), t, u != v)
  {
    hide Spans, Intervals, SpanChain, Join;
    var ss, ds := Intervals(raw, src, lo, hi), Intervals(raw, dst, lo, hi);
    SpansChain(raw, src, dst, lo, hi);
    IntervalsMeanValues(raw, src, lo, hi, t, u);
    IntervalsMeanValues(raw, dst, lo, hi, t, v);
    var s :| s in ss && Covers(s, t, u);
    var d :| d in ds && Covers(d, t, v);
    assert Joins(s, d);
    JoinMembers(ss, ds);
    assert Meet(s, d) in Spans(raw, src, dst, lo, hi);
  }

  lemma SpansMeanPairs(raw: seq<Raw>, src: string, dst: string, lo: int, hi: int, t: int, mismatch: bool)
    requires lo <= t < hi
    ensures InSpan(Spans(raw, src, dst, lo, hi), t, mismatch) <==>
            exists u, v :: BothAt(raw, src, dst, t, u, v) && (u != v) == mismatch
  {
    if InSpan(Spans(raw, src, dst, lo, hi), t, mismatch) {
      var p :| p in Spans(raw, src, dst, lo, hi) && p.a <= t < p.z && p.mismatch == mismatch;
      var u, v := SpanIsAPair(raw, src, dst, lo, hi, t, p);
    }
    if u, v :| BothAt(raw, src, dst, t, u, v) && (u != v) == mismatch {
      PairIsASpan(raw, src, dst, lo, hi, t, u, v);
    }
  }

  /** The spans cover exactly the instants at which both carried values are known, and say which differ. */
  lemma SpansAreTheKnownInstants(raw: seq<Raw>, src: string, dst: string, lo: int, hi: int, t: int)
    requires lo <= t < hi
    ensures InSpan(Spans(raw, src, dst, lo, hi), t, true) <==> Differ(raw, src, dst, t)
    ensures InSpan(Spans(raw, src, dst, lo, hi), t, false) <==> Equal(raw, src, dst, t)
    ensures BothKnown(raw, src, dst, t) <==> Differ(raw, src, dst, t) || Equal(raw, src, dst, t)
    ensures !(Differ(raw, src, dst, t) && Equal(raw, src, dst, t))
  {
    SpansMeanPairs(raw, src, dst, lo, hi, t, true);
    SpansMeanPairs(raw, src, dst, lo, hi, t, false);
    if Differ(raw, src, dst, t) && Equal(raw, src, dst, t) {
      var u, v :| BothAt(raw, src, dst, t, u, v) && u != v;
      var x, y :| BothAt(raw, src, dst, t, x, y) && x == y;
      ValueIsUnique(raw, src, t, u, x);
      ValueIsUnique(raw, dst, t, v, y);
    }
  }

  /** What the episode arithmetic needs to know of the spans. */
  ghost predicate Depicts(spans: seq<Span>, raw: seq<Raw>, src: string, dst: string, lo: int, hi: int) {
    && SpanChain(spans, lo, hi)
    && (forall t :: lo <= t < hi ==> (InSpan(spans, t, true) <==> Differ(raw, src, dst, t)))
    && (forall t :: lo <= t < hi ==> (InSpan(spans, t, false) <==> Equal(raw, src, dst, t)))
  }

  lemma SpansDepict(raw: seq<Raw>, src: string, dst: string, lo: int, hi: int)
    ensures Depicts(Spans(raw, src, dst, lo, hi), raw, src, dst, lo, hi)
  {
    var spans := Spans(raw, src, dst, lo, hi);
    SpansChain(raw, src, dst, lo, hi);
    forall t | lo <= t < hi
      ensures InSpan(spans, t, true) <==> Differ(raw, src, dst, t)
      ensures InSpan(spans, t, false) <==> Equal(raw, src, dst, t)
    {
      SpansAreTheKnownInstants(raw, src, dst, lo, hi, t);
    }
  }
}
