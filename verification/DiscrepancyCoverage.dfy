/**
  The totals of the dashboard: `known_s` counts the instants at which both values are
  known, and the durations of the episodes add up to the instants that differ.
 */
module DiscrepancyCoverage {
  import opened DiscrepancyQuery
  import opened DiscrepancyMeaning
  import opened DiscrepancyEpisodes
  import opened IntRanges

  lemma DisjointSize(a: set<int>, b: set<int>)
    requires a !! b
    ensures |a + b| == |a| + |b|
  {}

  ghost function DifferingInstants(raw: seq<Raw>, src: string, dst: string, lo: int, hi: int): set<int> {
    set t | lo <= t < hi && Differ(raw, src, dst, t)
  }

  ghost function KnownInstants(raw: seq<Raw>, src: string, dst: string, lo: int, hi: int): set<int> {
    set t | lo <= t < hi && BothKnown(raw, src, dst, t)
  }

  // ---- a chain of disjoint pieces has the total length of the instants it covers ----

  datatype Piece = Piece(a: int, z: int)

  ghost predicate PieceChain(ps: seq<Piece>, lo: int, hi: int) {
    && (forall i :: 0 <= i < |ps| ==> lo <= ps[i].a <= ps[i].z <= hi)
    && (forall i, j :: 0 <= i < j < |ps| ==> ps[i].z <= ps[j].a)
  }

  function Length(ps: seq<Piece>): int {
    if ps == [] then 0 else ps[0].z - ps[0].a + Length(ps[1..])
  }

  ghost predicate InPiece(ps: seq<Piece>, t: int) {
    exists i :: 0 <= i < |ps| && ps[i].a <= t < ps[i].z
  }

  lemma FirstPieceOrLater(ps: seq<Piece>, t: int)
    requires ps != []
    ensures InPiece(ps, t) <==> Within(t, ps[0].a, ps[0].z) || InPiece(ps[1..], t)
  {
    if i :| 0 <= i < |ps[1..]| && ps[1..][i].a <= t < ps[1..][i].z {
      assert ps[i + 1].a <= t < ps[i + 1].z;
    }
    if i :| 0 < i < |ps| && ps[i].a <= t < ps[i].z {
      assert ps[1..][i - 1].a <= t < ps[1..][i - 1].z;
    }
  }

  ghost function Covered(ps: seq<Piece>, lo: int, hi: int): set<int> {
    set t | lo <= t < hi && InPiece(ps, t)
  }

  lemma CoveredSplits(ps: seq<Piece>, lo: int, hi: int)
    requires ps != [] && PieceChain(ps, lo, hi)
    ensures Covered(ps, lo, hi) == Range(ps[0].a, ps[0].z) + Covered(ps[1..], lo, hi)
    ensures Range(ps[0].a, ps[0].z) !! Covered(ps[1..], lo, hi)
  {
    forall t ensures t in Covered(ps, lo, hi) <==> t in Range(ps[0].a, ps[0].z) || t in Covered(ps[1..], lo, hi) {
      FirstPieceOrLater(ps, t);
    }
    forall i | 0 <= i < |ps[1..]| ensures ps[0].z <= ps[1..][i].a {}
  }

  lemma {:induction false} LengthCountsInstants(ps: seq<Piece>, lo: int, hi: int)
    requires PieceChain(ps, lo, hi)
    ensures |Covered(ps, lo, hi)| == Length(ps)
  {
    if ps == [] {
      assert Covered(ps, lo, hi) == {};
    } else {
      LengthCountsInstants(ps[1..], lo, hi);
      RangeSize(ps[0].a, ps[0].z);
      CoveredSplits(ps, lo, hi);
      DisjointSize(Range(ps[0].a, ps[0].z), Covered(ps[1..], lo, hi));
    }
  }

  function SpanPieces(spans: seq<Span>): seq<Piece> {
    seq(|spans|, i requires 0 <= i < |spans| => Piece(spans[i].a, spans[i].z))
  }

  function EventPieces(events: seq<Event>): seq<Piece> {
    seq(|events|, i requires 0 <= i < |events| => Piece(events[i].startedAt, events[i].endedAt))
  }

  lemma {:induction false} SpanLengths(spans: seq<Span>)
    ensures Length(SpanPieces(spans)) == TotalLength(spans)
  {
    if spans == [] {
    } else {
      SpanLengths(spans[1..]);
      assert SpanPieces(spans)[1..] == SpanPieces(spans[1..]);
    }
  }

  lemma {:induction false} EventLengths(events: seq<Event>)
    ensures Length(EventPieces(events)) == TotalDuration(events)
  {
    if events == [] {
    } else {
      EventLengths(events[1..]);
      assert EventPieces(events)[1..] == EventPieces(events[1..]);
    }
  }

  lemma SpanInstants(spans: seq<Span>, t: int)
    ensures InPiece(SpanPieces(spans), t) <==> InSpan(spans, t, true) || InSpan(spans, t, false)
  {
    var ps := SpanPieces(spans);
    if InPiece(ps, t) {
      var i :| 0 <= i < |ps| && ps[i].a <= t < ps[i].z;
      assert spans[i] in spans && spans[i].a <= t < spans[i].z;
    }
    forall s | s in spans && s.a <= t < s.z ensures InPiece(ps, t) {
      var i :| 0 <= i < |spans| && spans[i] == s;
      assert ps[i].a <= t < ps[i].z;
    }
  }

  /** `known_s` is the number of instants of the window at which both values are known. */
  lemma KnownCountsInstants(raw: seq<Raw>, src: string, dst: string, lo: int, hi: int)
    ensures Known(raw, src, dst, lo, hi) == |KnownInstants(raw, src, dst, lo, hi)|
  {
    var spans := Spans(raw, src, dst, lo, hi);
    SpansDepict(raw, src, dst, lo, hi);
    var ps := SpanPieces(spans);
    LengthCountsInstants(ps, lo, hi);
    SpanLengths(spans);
    forall t | lo <= t < hi ensures InPiece(ps, t) <==> BothKnown(raw, src, dst, t) {
      SpanInstants(spans, t);
      SpansAreTheKnownInstants(raw, src, dst, lo, hi, t);
    }
    assert KnownInstants(raw, src, dst, lo, hi) == Covered(ps, lo, hi);
  }

  /** Coverage is never above 100 %. */
  lemma KnownFitsTheWindow(raw: seq<Raw>, src: string, dst: string, lo: int, hi: int)
    requires lo <= hi
    ensures 0 <= Known(raw, src, dst, lo, hi) <= hi - lo
  {
    KnownCountsInstants(raw, src, dst, lo, hi);
    RangeSize(lo, hi);
    SubsetSize(KnownInstants(raw, src, dst, lo, hi), Range(lo, hi));
  }

  lemma DifferenceIsInAnEvent(raw: seq<Raw>, src: string, dst: string, lo: int, hi: int, t: int)
    requires lo <= t < hi && Differ(raw, src, dst, t)
    ensures InPiece(EventPieces(Events(raw, src, dst, lo, hi)), t)
  {
    var spans := Spans(raw, src, dst, lo, hi);
    var events := EventsOf(spans);
    SpansDepict(raw, src, dst, lo, hi);
    var p, q := DifferenceIsInAnIsland(raw, src, dst, lo, hi, spans, t);
    EventsAreIslands(spans, lo, hi);
    var i :| 0 <= i < |events| && events[i] == EventOfIsland(spans, p, q);
    assert EventPieces(events)[i] == Piece(spans[p].a, spans[q].z);
  }

  /** The durations of the episodes add up to the number of differing instants. */
  lemma DurationsCountDifferences(raw: seq<Raw>, src: string, dst: string, lo: int, hi: int)
    ensures TotalDuration(Events(raw, src, dst, lo, hi)) == |DifferingInstants(raw, src, dst, lo, hi)|
  {
    hide Spans;
    var events := Events(raw, src, dst, lo, hi);
    var ps := EventPieces(events);
    EventsNeverTouch(raw, src, dst, lo, hi);
    EventLengths(events);
    forall i | 0 <= i < |events|
      ensures MaximalRun(raw, src, dst, lo, hi, events[i].startedAt, events[i].endedAt)
    {
      assert events[i] in events;
      EventsAreTheMaximalRuns(raw, src, dst, lo, hi, events[i].startedAt, events[i].endedAt);
    }
    LengthCountsInstants(ps, lo, hi);
    forall t | lo <= t < hi ensures InPiece(ps, t) <==> Differ(raw, src, dst, t) {
      if Differ(raw, src, dst, t) { DifferenceIsInAnEvent(raw, src, dst, lo, hi, t); }
      if InPiece(ps, t) {
        var i :| 0 <= i < |ps| && ps[i].a <= t < ps[i].z;
      }
    }
    assert DifferingInstants(raw, src, dst, lo, hi) == Covered(ps, lo, hi);
  }
}
