/**
  The gaps-and-islands half of the query. The running sum numbers the islands of
  touching, differing spans; the events are those islands; and the islands are the
  longest stretches of the window on which the two nodes differ.
 */
module DiscrepancyEpisodes {
  import opened Wrappers
  import opened DiscrepancyQuery
  import opened DiscrepancyMeaning

  /** Span `j` carries on the mismatch of the span before it. */
  ghost predicate Continues(spans: seq<Span>, j: nat)
    requires j < |spans|
  {
    j > 0 && spans[j].mismatch && spans[j - 1].mismatch && spans[j - 1].z == spans[j].a
  }

  ghost function Ep(spans: seq<Span>, i: nat): nat
    requires i < |spans|
  {
    RunningSum(Neighbors(spans), i)
  }

  /** Spans p..q all mismatch and touch, and neither neighbour carries the mismatch on. */
  ghost predicate Island(spans: seq<Span>, p: nat, q: nat) {
    && p <= q < |spans|
    && spans[p].mismatch
    && (forall j :: p < j <= q ==> Continues(spans, j))
    && !Continues(spans, p)
    && (q + 1 < |spans| ==> !Continues(spans, q + 1))
  }

  lemma {:induction false} IslandAround(spans: seq<Span>, j: nat) returns (p: nat, q: nat)
    requires j < |spans| && spans[j].mismatch
    ensures Island(spans, p, q) && p <= j <= q
  {
    p, q := j, j;
    while Continues(spans, p)
      invariant p <= j && spans[p].mismatch
      invariant forall k :: p < k <= j ==> Continues(spans, k)
      decreases p
    {
      p := p - 1;
    }
    while q + 1 < |spans| && Continues(spans, q + 1)
      invariant j <= q < |spans|
      invariant forall k :: p < k <= q ==> Continues(spans, k)
    {
      q := q + 1;
    }
  }

  // ---- episode numbers ----

  lemma EpStep(spans: seq<Span>, i: nat)
    requires 0 < i < |spans|
    ensures Ep(spans, i) == Ep(spans, i - 1) + if Continues(spans, i) then 0 else 1
  {
    assert Neighbors(spans)[i].prev == Some(spans[i - 1]);
  }

  lemma {:induction false} EpMonotone(spans: seq<Span>, i: nat, j: nat)
    requires i <= j < |spans|
    ensures Ep(spans, i) <= Ep(spans, j)
    decreases j
  {
    if i == j {
    } else {
      EpMonotone(spans, i, j - 1);
      EpStep(spans, j);
    }
  }

  lemma {:induction false} EpRange(spans: seq<Span>, i: nat)
    requires i < |spans|
    ensures 1 <= Ep(spans, i) <= i + 1
  {
    if i == 0 {
    } else {
      EpRange(spans, i - 1);
      EpStep(spans, i);
    }
  }

  lemma {:induction false} EpConstant(spans: seq<Span>, p: nat, j: nat)
    requires p <= j < |spans| && forall k :: p < k <= j ==> Continues(spans, k)
    ensures Ep(spans, j) == Ep(spans, p)
    decreases j
  {
    if p == j {
    } else {
      EpConstant(spans, p, j - 1);
      EpStep(spans, j);
    }
  }

  /** The episode number of an island belongs to its mismatching spans and to no other. */
  lemma EpIdentifiesIsland(spans: seq<Span>, p: nat, q: nat, j: nat)
    requires Island(spans, p, q) && j < |spans| && spans[j].mismatch
    ensures Ep(spans, j) == Ep(spans, p) <==> p <= j <= q
  {
    EpConstant(spans, p, q);
    if p <= j <= q {
      EpConstant(spans, p, j);
    } else if j < p {
      EpMonotone(spans, j, p - 1);
      EpStep(spans, p);
    } else {
      EpMonotone(spans, q + 1, j);
      EpStep(spans, q + 1);
    }
  }

  // ---- events are islands ----

  ghost function Rows(spans: seq<Span>): seq<Grouped> {
    Group(Neighbors(spans))
  }

  ghost function EventOfIsland(spans: seq<Span>, p: nat, q: nat): Event
    requires Island(spans, p, q)
  {
    Event(spans[p].a, spans[q].z,
          p > 0 && spans[p - 1].z == spans[p].a && !spans[p - 1].mismatch,
          q + 1 < |spans| && spans[q + 1].a == spans[q].z && !spans[q + 1].mismatch)
  }

  lemma EpisodeRowsOfIsland(spans: seq<Span>, p: nat, q: nat)
    requires Island(spans, p, q)
    ensures var g := EpisodeRows(Rows(spans), Ep(spans, p));
            && (forall j :: p <= j <= q ==> Rows(spans)[j] in g)
            && (forall r :: r in g ==> exists j :: p <= j <= q && r == Rows(spans)[j])
  {
    var rows := Rows(spans);
    var g := EpisodeRows(rows, Ep(spans, p));
    forall j | p <= j <= q ensures rows[j] in g {
      assert spans[j].mismatch by { assert j == p || Continues(spans, j); }
      EpIdentifiesIsland(spans, p, q, j);
    }
    forall r | r in g ensures exists j :: p <= j <= q && r == rows[j] {
      var j :| 0 <= j < |rows| && rows[j] == r;
      assert rows[j].row.span == spans[j];
      EpIdentifiesIsland(spans, p, q, j);
    }
  }

  lemma ChainOrder(spans: seq<Span>, lo: int, hi: int)
    requires SpanChain(spans, lo, hi)
    ensures forall i, j :: 0 <= i <= j < |spans| ==> spans[i].a <= spans[j].a && spans[i].z <= spans[j].z
  {
    forall i, j | 0 <= i <= j < |spans| ensures spans[i].a <= spans[j].a && spans[i].z <= spans[j].z {
      assert i == j || spans[i].z <= spans[j].a;
    }
  }

  ghost predicate Spanned(spans: seq<Span>, p: nat, q: nat, g: seq<Grouped>)
    requires p <= q < |spans|
  {
    && (forall r :: r in g ==> exists j :: p <= j <= q && r.row.span == spans[j])
    && (exists r :: r in g && r.row.span == spans[p])
    && (exists r :: r in g && r.row.span == spans[q])
  }

  lemma ExtentOfIsland(spans: seq<Span>, lo: int, hi: int, p: nat, q: nat, g: seq<Grouped>)
    requires SpanChain(spans, lo, hi) && p <= q < |spans|
    requires Spanned(spans, p, q, g)
    ensures g != [] && MinStart(g) == spans[p].a && MaxEnd(g) == spans[q].z
  {
    ChainOrder(spans, lo, hi);
  }

  lemma EpisodeRowsSpanned(spans: seq<Span>, p: nat, q: nat)
    requires Island(spans, p, q)
    ensures Spanned(spans, p, q, EpisodeRows(Rows(spans), Ep(spans, p)))
  {
    EpisodeRowsOfIsland(spans, p, q);
    forall j | p <= j <= q ensures Rows(spans)[j].row.span == spans[j] {}
    assert Rows(spans)[p].row.span == spans[p] && Rows(spans)[q].row.span == spans[q];
  }

  /** Which rows come right after, or right before, a span on which the nodes agree. */
  lemma RowNeighbours(spans: seq<Span>, j: nat)
    requires j < |spans|
    ensures OpensAfterEqual(Rows(spans)[j]) <==> j > 0 && spans[j - 1].z == spans[j].a && !spans[j - 1].mismatch
    ensures ClosesBeforeEqual(Rows(spans)[j]) <==>
            j + 1 < |spans| && spans[j + 1].a == spans[j].z && !spans[j + 1].mismatch
  {}

  lemma OpeningOfIsland(spans: seq<Span>, p: nat, q: nat)
    requires Island(spans, p, q)
    ensures AnyOpens(EpisodeRows(Rows(spans), Ep(spans, p))) <==>
            p > 0 && spans[p - 1].z == spans[p].a && !spans[p - 1].mismatch
  {
    hide Group, Neighbors, OpensAfterEqual, EpisodeRows;
    var rows := Rows(spans);
    EpisodeRowsOfIsland(spans, p, q);
    RowNeighbours(spans, p);
    forall j | p < j <= q ensures !OpensAfterEqual(rows[j]) {
      assert Continues(spans, j);
      RowNeighbours(spans, j);
    }
  }

  lemma ClosingOfIsland(spans: seq<Span>, p: nat, q: nat)
    requires Island(spans, p, q)
    ensures AnyCloses(EpisodeRows(Rows(spans), Ep(spans, p))) <==>
            q + 1 < |spans| && spans[q + 1].a == spans[q].z && !spans[q + 1].mismatch
  {
    hide Group, Neighbors, ClosesBeforeEqual, EpisodeRows;
    var rows := Rows(spans);
    EpisodeRowsOfIsland(spans, p, q);
    RowNeighbours(spans, q);
    forall j | p <= j < q ensures !ClosesBeforeEqual(rows[j]) {
      assert Continues(spans, j + 1);
      RowNeighbours(spans, j);
    }
  }

  lemma SummaryOfIsland(spans: seq<Span>, lo: int, hi: int, p: nat, q: nat)
    requires SpanChain(spans, lo, hi) && Island(spans, p, q)
    ensures EpisodeRows(Rows(spans), Ep(spans, p)) != []
    ensures Summarise(EpisodeRows(Rows(spans), Ep(spans, p))) == EventOfIsland(spans, p, q)
  {
    hide Group, Neighbors, EpisodeRows, SpanChain, AnyOpens, AnyCloses;
    var g := EpisodeRows(Rows(spans), Ep(spans, p));
    assert Spanned(spans, p, q, g) by {
      EpisodeRowsSpanned(spans, p, q);
    }
    ExtentOfIsland(spans, lo, hi, p, q, g);
    OpeningOfIsland(spans, p, q);
    ClosingOfIsland(spans, p, q);
  }

  lemma IslandIsUnique(spans: seq<Span>, p: nat, q: nat, p': nat, q': nat)
    requires Island(spans, p, q) && Island(spans, p', q') && Ep(spans, p) == Ep(spans, p')
    ensures p == p' && q == q'
  {
    assert spans[q].mismatch by { assert p == q || Continues(spans, q); }
    assert spans[q'].mismatch by { assert p' == q' || Continues(spans, q'); }
    EpIdentifiesIsland(spans, p, q, p');
    EpIdentifiesIsland(spans, p', q', p);
    EpIdentifiesIsland(spans, p, q, q);
    EpIdentifiesIsland(spans, p', q', q');
    EpIdentifiesIsland(spans, p, q, q');
    EpIdentifiesIsland(spans, p', q', q);
  }

  lemma EpisodeHasIsland(spans: seq<Span>, e: nat) returns (p: nat, q: nat)
    requires EpisodeRows(Rows(spans), e) != []
    ensures Island(spans, p, q) && Ep(spans, p) == e
  {
    var r := EpisodeRows(Rows(spans), e)[0];
    assert r in EpisodeRows(Rows(spans), e);
    var j :| 0 <= j < |spans| && Rows(spans)[j] == r;
    p, q := IslandAround(spans, j);
    EpIdentifiesIsland(spans, p, q, j);
  }

  ghost predicate IsIslandEvent(spans: seq<Span>, ev: Event, limit: nat) {
    exists p, q :: Island(spans, p, q) && Ep(spans, p) <= limit && ev == EventOfIsland(spans, p, q)
  }

  /** Two different islands never touch: the earlier one ends strictly before the later one starts. */
  lemma IslandsAreApart(spans: seq<Span>, lo: int, hi: int, p: nat, q: nat, p': nat, q': nat)
    requires SpanChain(spans, lo, hi) && Island(spans, p, q) && Island(spans, p', q')
    requires Ep(spans, p) < Ep(spans, p')
    ensures q < p' && spans[q].z < spans[p'].a
  {
    if p' <= p { EpMonotone(spans, p', p); }
    EpIdentifiesIsland(spans, p, q, p');
    if q + 1 < p' {
      assert spans[q].z <= spans[q + 1].a < spans[q + 1].z <= spans[p'].a;
    } else {
      assert q == p || Continues(spans, q);
      assert spans[q].z <= spans[p'].a;
    }
  }

  ghost predicate EventsApart(events: seq<Event>) {
    forall i, j :: 0 <= i < j < |events| ==> events[i].endedAt < events[j].startedAt
  }

  lemma EventAppended(spans: seq<Span>, lo: int, hi: int, before: seq<Event>, p: nat, q: nat)
    requires SpanChain(spans, lo, hi) && Island(spans, p, q) && Ep(spans, p) > 0
    requires forall ev :: ev in before ==> IsIslandEvent(spans, ev, Ep(spans, p) - 1)
    requires EventsApart(before)
    ensures EventsApart(before + [EventOfIsland(spans, p, q)])
  {
    forall i | 0 <= i < |before| ensures before[i].endedAt < spans[p].a {
      assert before[i] in before;
      var x, y :| Island(spans, x, y) && Ep(spans, x) <= Ep(spans, p) - 1 && before[i] == EventOfIsland(spans, x, y);
      IslandsAreApart(spans, lo, hi, x, y, p, q);
    }
  }

  lemma EventMembers(spans: seq<Span>, before: seq<Event>, p: nat, q: nat, n: nat)
    requires n > 0 && Island(spans, p, q) && Ep(spans, p) == n
    requires forall ev :: ev in before <==> IsIslandEvent(spans, ev, n - 1)
    ensures forall ev :: ev in before + [EventOfIsland(spans, p, q)] <==> IsIslandEvent(spans, ev, n)
  {
    var last := EventOfIsland(spans, p, q);
    forall ev | IsIslandEvent(spans, ev, n) ensures ev in before + [last] {
      var x, y :| Island(spans, x, y) && Ep(spans, x) <= n && ev == EventOfIsland(spans, x, y);
      if Ep(spans, x) < n { assert IsIslandEvent(spans, ev, n - 1); } else { IslandIsUnique(spans, p, q, x, y); }
    }
    forall ev | ev in before ensures IsIslandEvent(spans, ev, n) {
      var x, y :| Island(spans, x, y) && Ep(spans, x) <= n - 1 && ev == EventOfIsland(spans, x, y);
    }
    assert IsIslandEvent(spans, last, n);
  }

  lemma {:induction false} EventsUpToAreIslands(spans: seq<Span>, lo: int, hi: int, n: nat)
    requires SpanChain(spans, lo, hi)
    ensures forall ev :: ev in EventsUpTo(Rows(spans), n) <==> IsIslandEvent(spans, ev, n)
    ensures EventsApart(EventsUpTo(Rows(spans), n))
  {
    if n == 0 {
      forall p: nat | p < |spans| ensures Ep(spans, p) > 0 { EpRange(spans, p); }
    } else {
      EventsUpToAreIslands(spans, lo, hi, n - 1);
      var before := EventsUpTo(Rows(spans), n - 1);
      if EpisodeRows(Rows(spans), n) == [] {
        assert EventsUpTo(Rows(spans), n) == before;
        forall p: nat, q: nat | Island(spans, p, q) ensures Ep(spans, p) != n { SummaryOfIsland(spans, lo, hi, p, q); }
      } else {
        var p, q := EpisodeHasIsland(spans, n);
        SummaryOfIsland(spans, lo, hi, p, q);
        var last := EventOfIsland(spans, p, q);
        assert EventsUpTo(Rows(spans), n) == before + [last];
        EventMembers(spans, before, p, q, n);
        EventAppended(spans, lo, hi, before, p, q);
      }
    }
  }

  lemma EventsAreIslands(spans: seq<Span>, lo: int, hi: int)
    requires SpanChain(spans, lo, hi)
    ensures forall p: nat, q: nat :: Island(spans, p, q) ==> EventOfIsland(spans, p, q) in EventsOf(spans)
    ensures forall ev :: ev in EventsOf(spans) ==>
              exists p, q :: Island(spans, p, q) && ev == EventOfIsland(spans, p, q)
    ensures EventsApart(EventsOf(spans))
  {
    EventsUpToAreIslands(spans, lo, hi, |spans|);
    forall p: nat, q: nat | Island(spans, p, q) ensures EventOfIsland(spans, p, q) in EventsOf(spans) {
      EpRange(spans, p);
      assert IsIslandEvent(spans, EventOfIsland(spans, p, q), |spans|);
    }
  }

  // ---- islands are the maximal runs ----

  lemma {:induction false} InsideIsland(spans: seq<Span>, p: nat, q: nat, t: int) returns (j: nat)
    requires Island(spans, p, q) && spans[p].a <= t < spans[q].z
    ensures p <= j <= q && spans[j].mismatch && spans[j].a <= t < spans[j].z
  {
    j := p;
    while spans[j].z <= t
      invariant p <= j <= q && spans[j].mismatch && spans[j].a <= t
      decreases q - j
    {
      assert Continues(spans, j + 1);
      j := j + 1;
    }
  }

  lemma IslandEdges(spans: seq<Span>, lo: int, hi: int, p: nat, q: nat)
    requires SpanChain(spans, lo, hi) && Island(spans, p, q)
    ensures !InSpan(spans, spans[p].a - 1, true) && !InSpan(spans, spans[q].z, true)
    ensures InSpan(spans, spans[p].a - 1, false) <==> p > 0 && spans[p - 1].z == spans[p].a && !spans[p - 1].mismatch
    ensures InSpan(spans, spans[q].z, false) <==>
            q + 1 < |spans| && spans[q + 1].a == spans[q].z && !spans[q + 1].mismatch
  {
    var a, z := spans[p].a, spans[q].z;
    assert spans[q].mismatch by { assert p == q || Continues(spans, q); }
    ChainOrder(spans, lo, hi);
    forall k | 0 <= k < p - 1 ensures spans[k].z < a { assert spans[k].z <= spans[p - 1].a; }
    forall k | q + 1 < k < |spans| ensures z < spans[k].a { assert spans[q + 1].z <= spans[k].a; }
    assert p > 0 ==> spans[p - 1].z <= a;
    assert q + 1 < |spans| ==> z <= spans[q + 1].a;
    forall k | 0 <= k < |spans| && spans[k].a <= a - 1 < spans[k].z ensures k == p - 1 && spans[k].z == a {}
    forall k | 0 <= k < |spans| && spans[k].a <= z < spans[k].z ensures k == q + 1 && spans[k].a == z {}
    if p > 0 && spans[p - 1].z == a { assert spans[p - 1] in spans; }
    if q + 1 < |spans| && spans[q + 1].a == z { assert spans[q + 1] in spans; }
  }

  lemma IslandIsARun(raw: seq<Raw>, src: string, dst: string, lo: int, hi: int, spans: seq<Span>, p: nat, q: nat)
    requires Depicts(spans, raw, src, dst, lo, hi) && Island(spans, p, q)
    ensures MaximalRun(raw, src, dst, lo, hi, spans[p].a, spans[q].z)
  {
    var a, z := spans[p].a, spans[q].z;
    assert a < z by { assert p == q || spans[p].z <= spans[q].a; }
    forall t | a <= t < z ensures Differ(raw, src, dst, t) {
      var j := InsideIsland(spans, p, q, t);
      assert spans[j] in spans;
      assert InSpan(spans, t, true);
    }
    IslandEdges(spans, lo, hi, p, q);
  }

  lemma RunsMeetOnlyIfEqual(raw: seq<Raw>, src: string, dst: string, lo: int, hi: int,
                            a: int, z: int, a': int, z': int)
    requires MaximalRun(raw, src, dst, lo, hi, a, z) && MaximalRun(raw, src, dst, lo, hi, a', z')
    requires a' <= a < z'
    ensures a == a' && z == z'
  {
    assert a' <= a - 1 < z' ==> Differ(raw, src, dst, a - 1);
    assert a' <= z < z' ==> Differ(raw, src, dst, z);
    assert a <= z' < z ==> Differ(raw, src, dst, z');
  }

  lemma DifferenceIsInAnIsland(raw: seq<Raw>, src: string, dst: string, lo: int, hi: int, spans: seq<Span>, t: int)
    returns (p: nat, q: nat)
    requires Depicts(spans, raw, src, dst, lo, hi) && lo <= t < hi && Differ(raw, src, dst, t)
    ensures Island(spans, p, q) && spans[p].a <= t < spans[q].z
  {
    assert InSpan(spans, t, true);
    var s :| s in spans && s.a <= t < s.z && s.mismatch;
    var j :| 0 <= j < |spans| && spans[j] == s;
    p, q := IslandAround(spans, j);
    ChainOrder(spans, lo, hi);
  }

  ghost predicate HasIsland(spans: seq<Span>, a: int, z: int) {
    exists p: nat, q: nat :: Island(spans, p, q) && spans[p].a == a && spans[q].z == z
  }

  lemma IslandsAreTheMaximalRuns(raw: seq<Raw>, src: string, dst: string, lo: int, hi: int, spans: seq<Span>,
                                 a: int, z: int)
    requires Depicts(spans, raw, src, dst, lo, hi)
    ensures HasIsland(spans, a, z) <==> MaximalRun(raw, src, dst, lo, hi, a, z)
  {
    if p: nat, q: nat :| Island(spans, p, q) && spans[p].a == a && spans[q].z == z {
      IslandIsARun(raw, src, dst, lo, hi, spans, p, q);
    }
    if MaximalRun(raw, src, dst, lo, hi, a, z) {
      assert Differ(raw, src, dst, a);
      var p, q := DifferenceIsInAnIsland(raw, src, dst, lo, hi, spans, a);
      IslandIsARun(raw, src, dst, lo, hi, spans, p, q);
      RunsMeetOnlyIfEqual(raw, src, dst, lo, hi, a, z, spans[p].a, spans[q].z);
      assert HasIsland(spans, a, z);
    }
  }

  ghost predicate HasEvent(events: seq<Event>, a: int, z: int) {
    exists ev :: ev in events && ev.startedAt == a && ev.endedAt == z
  }

  /**
    The event rows of a route are exactly the longest stretches of the window on which
    both nodes have an unexpired value and the values differ.
   */
  lemma EventsAreTheMaximalRuns(raw: seq<Raw>, src: string, dst: string, lo: int, hi: int, a: int, z: int)
    ensures HasEvent(Events(raw, src, dst, lo, hi), a, z) <==> MaximalRun(raw, src, dst, lo, hi, a, z)
  {
    var spans := Spans(raw, src, dst, lo, hi);
    SpansDepict(raw, src, dst, lo, hi);
    EventsAreIslands(spans, lo, hi);
    IslandsAreTheMaximalRuns(raw, src, dst, lo, hi, spans, a, z);
    if HasEvent(EventsOf(spans), a, z) {
      var ev :| ev in EventsOf(spans) && ev.startedAt == a && ev.endedAt == z;
      var p, q :| Island(spans, p, q) && ev == EventOfIsland(spans, p, q);
      assert HasIsland(spans, a, z);
    }
    if p: nat, q: nat :| Island(spans, p, q) && spans[p].a == a && spans[q].z == z {
      assert EventOfIsland(spans, p, q) in EventsOf(spans);
      assert HasEvent(EventsOf(spans), a, z);
    }
  }

  /** No two event rows overlap or touch, and the rows come out in time order. */
  lemma EventsNeverTouch(raw: seq<Raw>, src: string, dst: string, lo: int, hi: int)
    ensures EventsApart(Events(raw, src, dst, lo, hi))
  {
    SpansChain(raw, src, dst, lo, hi);
    EventsAreIslands(Spans(raw, src, dst, lo, hi), lo, hi);
  }

  lemma IslandFlags(raw: seq<Raw>, src: string, dst: string, lo: int, hi: int, spans: seq<Span>, p: nat, q: nat)
    requires Depicts(spans, raw, src, dst, lo, hi) && Island(spans, p, q)
    ensures var ev := EventOfIsland(spans, p, q);
            && (ev.startConfirmed <==> lo < ev.startedAt && Equal(raw, src, dst, ev.startedAt - 1))
            && (ev.endConfirmed <==> ev.endedAt < hi && Equal(raw, src, dst, ev.endedAt))
  {
    IslandEdges(spans, lo, hi, p, q);
    assert InSpan(spans, spans[p].a - 1, false) ==> lo < spans[p].a;
    assert InSpan(spans, spans[q].z, false) ==> spans[q].z < hi;
  }

  /**
    An edge of an episode is marked confirmed exactly when, at the instant just outside
    it, both values are known and equal; otherwise a value was missing there or the
    window ended.
   */
  lemma ConfirmedEdges(raw: seq<Raw>, src: string, dst: string, lo: int, hi: int, ev: Event)
    requires ev in Events(raw, src, dst, lo, hi)
    ensures ev.startConfirmed <==> lo < ev.startedAt && Equal(raw, src, dst, ev.startedAt - 1)
    ensures ev.endConfirmed <==> ev.endedAt < hi && Equal(raw, src, dst, ev.endedAt)
  {
    var spans := Spans(raw, src, dst, lo, hi);
    SpansDepict(raw, src, dst, lo, hi);
    EventsAreIslands(spans, lo, hi);
    var p, q :| Island(spans, p, q) && ev == EventOfIsland(spans, p, q);
    IslandFlags(raw, src, dst, lo, hi, spans, p, q);
  }

  // ---- which raw rows there are is all that counts ----

  lemma SameRowsHaveValue(raw: seq<Raw>, raw': seq<Raw>, node: string, t: int, v: int)
    requires (forall r :: r in raw <==> r in raw') && HasValue(raw, node, t, v)
    ensures HasValue(raw', node, t, v)
  {
    var ts :| HeldSince(raw, node, ts, t, v);
    var r :| r in raw && r.node == node && r.ts == ts;
    assert r in raw';
    assert HeldSince(raw', node, ts, t, v);
  }

  lemma SameRowsDiffer(raw: seq<Raw>, raw': seq<Raw>, src: string, dst: string, t: int)
    requires forall r :: r in raw <==> r in raw'
    ensures Differ(raw, src, dst, t) ==> Differ(raw', src, dst, t)
  {
    if Differ(raw, src, dst, t) {
      var u, v :| BothAt(raw, src, dst, t, u, v) && u != v;
      SameRowsHaveValue(raw, raw', src, t, u);
      SameRowsHaveValue(raw, raw', dst, t, v);
      assert BothAt(raw', src, dst, t, u, v);
    }
  }

  lemma SameRowsAgree(raw: seq<Raw>, raw': seq<Raw>, src: string, dst: string, t: int)
    requires forall r :: r in raw <==> r in raw'
    ensures Equal(raw, src, dst, t) ==> Equal(raw', src, dst, t)
  {
    if Equal(raw, src, dst, t) {
      var v :| BothAt(raw, src, dst, t, v, v);
      SameRowsHaveValue(raw, raw', src, t, v);
      SameRowsHaveValue(raw, raw', dst, t, v);
      assert BothAt(raw', src, dst, t, v, v);
    }
  }

  lemma SameRowsSameRuns(raw: seq<Raw>, raw': seq<Raw>, src: string, dst: string, lo: int, hi: int, a: int, z: int)
    requires forall r :: r in raw <==> r in raw'
    ensures MaximalRun(raw, src, dst, lo, hi, a, z) ==> MaximalRun(raw', src, dst, lo, hi, a, z)
  {
    forall t ensures Differ(raw, src, dst, t) <==> Differ(raw', src, dst, t) {
      SameRowsDiffer(raw, raw', src, dst, t);
      SameRowsDiffer(raw', raw, src, dst, t);
    }
  }

  lemma RunsAreNotEmpty(raw: seq<Raw>, src: string, dst: string, lo: int, hi: int, a: int, z: int)
    requires MaximalRun(raw, src, dst, lo, hi, a, z)
    ensures a < z
  {}

  /** An event row of one list of raw rows, flags included, is one of any other list with the same rows. */
  lemma SameRowsSameEvent(raw: seq<Raw>, raw': seq<Raw>, src: string, dst: string, lo: int, hi: int, ev: Event)
    requires (forall r :: r in raw <==> r in raw') && ev in Events(raw, src, dst, lo, hi)
    ensures ev in Events(raw', src, dst, lo, hi) && ev.startedAt < ev.endedAt
  {
    hide Events, Equal, MaximalRun;
    var a, z := ev.startedAt, ev.endedAt;
    EventsAreTheMaximalRuns(raw, src, dst, lo, hi, a, z);
    EventsAreTheMaximalRuns(raw', src, dst, lo, hi, a, z);
    SameRowsSameRuns(raw, raw', src, dst, lo, hi, a, z);
    assert HasEvent(Events(raw, src, dst, lo, hi), a, z);
    var ev' :| ev' in Events(raw', src, dst, lo, hi) && ev'.startedAt == a && ev'.endedAt == z;
    ConfirmedEdges(raw, src, dst, lo, hi, ev);
    ConfirmedEdges(raw', src, dst, lo, hi, ev');
    SameRowsAgree(raw, raw', src, dst, a - 1);
    SameRowsAgree(raw', raw, src, dst, a - 1);
    SameRowsAgree(raw, raw', src, dst, z);
    SameRowsAgree(raw', raw, src, dst, z);
    assert ev' == ev;
    RunsAreNotEmpty(raw, src, dst, lo, hi, a, z);
  }

  lemma TailMembers(xs: seq<Event>, ys: seq<Event>)
    requires xs != [] && ys != [] && xs[0] == ys[0] && xs[0].startedAt < xs[0].endedAt
    requires EventsApart(xs) && forall ev :: ev in xs ==> ev in ys
    ensures forall ev :: ev in xs[1..] ==> ev in ys[1..]
  {
    forall ev | ev in xs[1..] ensures ev in ys[1..] {
      assert ev in xs && ev.startedAt > xs[0].startedAt;
      var k :| 0 <= k < |ys| && ys[k] == ev;
      assert ys[1..][k - 1] == ev;
    }
  }

  /** Event rows in time order are determined by which rows there are. */
  lemma {:induction false} SameMembersSameRows(xs: seq<Event>, ys: seq<Event>)
    requires EventsApart(xs) && EventsApart(ys) && forall ev :: ev in xs <==> ev in ys
    requires forall ev :: ev in xs ==> ev.startedAt < ev.endedAt
    ensures xs == ys
  {
    assert ys != [] ==> ys[0] in ys;
    if xs == [] {
      assert ys == [];
    } else {
      assert xs[0] in ys && ys[0] in xs;
      assert xs[0] == ys[0];
      TailMembers(xs, ys);
      TailMembers(ys, xs);
      forall ev | ev in xs[1..] ensures ev in xs {}
      SameMembersSameRows(xs[1..], ys[1..]);
    }
  }

  /** The order and the repetition of the raw rows do not matter: the event rows are the same, flags included. */
  lemma RowOrderIsIrrelevant(raw: seq<Raw>, raw': seq<Raw>, src: string, dst: string, lo: int, hi: int)
    requires forall r :: r in raw <==> r in raw'
    ensures Events(raw, src, dst, lo, hi) == Events(raw', src, dst, lo, hi)
  {
    hide Events, EventsApart;
    var xs, ys := Events(raw, src, dst, lo, hi), Events(raw', src, dst, lo, hi);
    EventsNeverTouch(raw, src, dst, lo, hi);
    EventsNeverTouch(raw', src, dst, lo, hi);
    forall ev | ev in xs ensures ev in ys && ev.startedAt < ev.endedAt {
      SameRowsSameEvent(raw, raw', src, dst, lo, hi, ev);
    }
    forall ev | ev in ys ensures ev in xs { SameRowsSameEvent(raw', raw, src, dst, lo, hi, ev); }
    SameMembersSameRows(xs, ys);
  }
}
