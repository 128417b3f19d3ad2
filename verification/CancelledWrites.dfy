/**
  What a cancelled flush does to the order of a table's rows: its thread may still commit,
  and then the order survives exactly when nothing newer was committed before.
 */
module CancelledWrites {
  import opened Metrics
  import opened Ingest
  import opened IngestRuns
  import opened RowOrder

  // ---- where the rows of a table are among all rows ever added ----

  ghost predicate Suffix(live: seq<Row>, added: seq<Row>) {
    |live| <= |added| && added[|added| - |live|..] == live
  }

  ghost predicate Segments(batches: seq<Batch>, added: seq<Row>, t: string) {
    forall i :: 0 <= i < |batches| ==> Segment(RowsOf(batches[i], t), added)
  }

  function Live(w: World, t: string): seq<Row> {
    RowsOf(w.inFlight, t) + RowsOf(w.ingest.pending, t)
  }

  /** The live rows were added last; a batch left to its thread was added without a gap. */
  ghost predicate Placed(w: World, t: string) {
    Suffix(Live(w, t), RowsOf(w.added, t)) && Segments(w.detached, RowsOf(w.added, t), t)
  }

  lemma RowsArrive(live: seq<Row>, added: seq<Row>, batches: seq<Batch>, t: string, more: seq<Row>)
    requires Suffix(live, added) && Segments(batches, added, t)
    ensures Suffix(live + more, added + more) && Segments(batches, added + more, t)
  {
    hide Segment;
    forall i | 0 <= i < |batches| ensures Segment(RowsOf(batches[i], t), added + more) {
      SegmentOfMore(RowsOf(batches[i], t), added, more);
    }
  }

  lemma FlushKeepsPlaces(w: World, t: string)
    requires Placed(w, t) && w.inFlight == map[]
    ensures Placed(Next(w, Flush), t)
  {
    hide BeginFlush, DecodeQueued, Grown, Merge, Suffix, Segments;
    var s, grown := w.ingest, RowsOf(Grown(w.ingest.pending, DecodeQueued(w.ingest).pending), t);
    FlushGrows(s, t);
    MergeAt(w.added, Grown(s.pending, DecodeQueued(s).pending), t);
    assert Live(w, t) == RowsOf(s.pending, t);
    RowsArrive(Live(w, t), RowsOf(w.added, t), w.detached, t, grown);
    assert Live(Next(w, Flush), t) == Live(w, t) + grown;
  }

  lemma MeasureKeepsPlaces(w: World, table: string, row: Row, t: string)
    requires Placed(w, t)
    ensures Placed(Next(w, Measure(table, row)), t)
  {
    hide Extend, Suffix, Segments;
    var rows := if t == table then [row] else [];
    RowsArrive(Live(w, t), RowsOf(w.added, t), w.detached, t, rows);
    var w' := Next(w, Measure(table, row));
    assert RowsOf(w'.added, t) == RowsOf(w.added, t) + rows;
    assert Live(w', t) == Live(w, t) + rows;
  }

  lemma OldestLeave(live: seq<Row>, added: seq<Row>, n: nat)
    requires Suffix(live, added) && n <= |live|
    ensures Suffix(live[n..], added)
  {}

  lemma FailureKeepsPlaces(w: World, t: string)
    requires Placed(w, t) && w.inFlight != map[]
    ensures Placed(Next(w, Failed), t)
  {
    hide Merge, CutRows, Requeue, Segments, Suffix;
    var s, live := w.ingest, Live(w, t);
    RequeueAt(s.pending, w.inFlight, t);
    var n := if t in w.inFlight then Excess(live) else 0;
    OldestLeave(live, RowsOf(w.added, t), n);
    assert Live(Next(w, Failed), t) == [] + RowsOf(Requeue(s.pending, w.inFlight), t) == live[n..];
  }

  lemma WriteKeepsPlaces(w: World, t: string)
    requires Placed(w, t) && w.inFlight != map[]
    ensures Placed(Next(w, Written), t)
  {
    hide Merge, Segments, Suffix;
    OldestLeave(Live(w, t), RowsOf(w.added, t), |RowsOf(w.inFlight, t)|);
    assert Live(Next(w, Written), t) == Live(w, t)[|RowsOf(w.inFlight, t)|..];
  }

  lemma CancelKeepsPlaces(w: World, t: string)
    requires Placed(w, t) && w.inFlight != map[]
    ensures Placed(Next(w, Cancelled), t)
  {
    var w', added := Next(w, Cancelled), RowsOf(w.added, t);
    assert Live(w', t) == RowsOf(w.ingest.pending, t);
    assert RowsOf(w.inFlight, t) <= added[|added| - |Live(w, t)|..];
  }

  lemma FewerSegments(batches: seq<Batch>, i: nat, added: seq<Row>, t: string)
    requires i < |batches| && Segments(batches, added, t)
    ensures Segments(batches[..i] + batches[i + 1..], added, t)
  {
    hide Segment;
  }

  lemma StepKeepsPlaces(w: World, step: Step, t: string)
    requires Placed(w, t)
    ensures Placed(Next(w, step), t)
  {
    hide BeginFlush, DecodeQueued, Grown, Merge, CutRows, Requeue, AddRow, RowsOf, Suffix, Segments;
    match step
    case Flush => if w.inFlight == map[] { FlushKeepsPlaces(w, t); }
    case Failed => if w.inFlight != map[] { FailureKeepsPlaces(w, t); }
    case Written => if w.inFlight != map[] { WriteKeepsPlaces(w, t); }
    case Cancelled => if w.inFlight != map[] { CancelKeepsPlaces(w, t); }
    case Measure(table, row) => MeasureKeepsPlaces(w, table, row, t);
    case LateWritten(i) => if i < |w.detached| { FewerSegments(w.detached, i, RowsOf(w.added, t), t); }
    case LateFailed(i) => if i < |w.detached| { FewerSegments(w.detached, i, RowsOf(w.added, t), t); }
    case Arrive(item) =>
    case Connect(_) =>
  }

  lemma {:induction false} RunsKeepPlaces(steps: seq<Step>, t: string)
    ensures Placed(Run(steps), t)
  {
    hide Next;
    if steps == [] {
      assert Live(START, t) == [];
    } else {
      RunsKeepPlaces(steps[..|steps| - 1], t);
      StepKeepsPlaces(Run(steps[..|steps| - 1]), steps[|steps| - 1], t);
    }
  }

  lemma RestIsOlder(older: multiset<Row>, committed: multiset<Row>, trimmed: multiset<Row>, abandoned: multiset<Row>,
                    detached: multiset<Row>, batch: multiset<Row>, pending: multiset<Row>)
    requires older + (batch + pending) == committed + trimmed + abandoned + detached + batch + pending
    ensures committed <= older
  {
    var live := batch + pending;
    forall x ensures older[x] >= committed[x] {
      assert (older + live)[x] == committed[x] + trimmed[x] + abandoned[x] + detached[x] + live[x];
    }
  }

  /** Whatever was committed was added before all live rows. */
  lemma CommittedIsOlder(w: World, t: string)
    requires Placed(w, t) && RowsBalance(w, t)
    ensures var added := RowsOf(w.added, t);
            forall x :: x in RowsOf(w.committed, t) ==> x in added[..|added| - |Live(w, t)|]
  {
    hide Segments, Detached, RowsOf;
    var added, live := RowsOf(w.added, t), Live(w, t);
    var older := added[..|added| - |live|];
    JoinedRows(older, live);
    assert added == older + live;
    JoinedRows(RowsOf(w.inFlight, t), RowsOf(w.ingest.pending, t));
    RestIsOlder(multiset(older), multiset(RowsOf(w.committed, t)), multiset(RowsOf(w.trimmed, t)),
                multiset(RowsOf(w.abandoned, t)), Detached(w.detached, t), multiset(RowsOf(w.inFlight, t)),
                multiset(RowsOf(w.ingest.pending, t)));
    forall x | x in RowsOf(w.committed, t) ensures x in older { assert x in multiset(RowsOf(w.committed, t)); }
  }

  // ---- the exact condition ----

  /** The table's rows were committed in the order in which they were added. */
  ghost predicate InAddedOrder(w: World, t: string) {
    Subsequence(RowsOf(w.committed, t), RowsOf(w.added, t))
  }

  /** If the step lets a detached batch commit, all rows committed so far are older than it. */
  ghost predicate Timely(w: World, step: Step, t: string) {
    step.LateWritten? && step.thread < |w.detached| ==>
      AllBefore(RowsOf(w.added, t), RowsOf(w.committed, t), RowsOf(w.detached[step.thread], t))
  }

  lemma AddedGrows(w: World, step: Step, t: string) returns (more: seq<Row>)
    ensures RowsOf(Next(w, step).added, t) == RowsOf(w.added, t) + more
  {
    hide BeginFlush, DecodeQueued, Grown, Merge, CutRows, Requeue;
    more := [];
    if step.Flush? && w.inFlight == map[] {
      more := RowsOf(Grown(w.ingest.pending, DecodeQueued(w.ingest).pending), t);
      MergeAt(w.added, Grown(w.ingest.pending, DecodeQueued(w.ingest).pending), t);
    } else if step.Measure? && step.table == t {
      more := [step.row];
    }
  }

  lemma WriteKeepsOrder(w: World, t: string)
    requires Placed(w, t) && RowsBalance(w, t) && Distinct(RowsOf(w.added, t)) && w.inFlight != map[]
    ensures InAddedOrder(Next(w, Written), t) <==> InAddedOrder(w, t)
  {
    hide Merge, Before, Distinct, Subsequence, Segments, RowsBalance;
    var added, batch := RowsOf(w.added, t), RowsOf(w.inFlight, t);
    var n := |added| - |Live(w, t)|;
    MergeAt(w.committed, w.inFlight, t);
    CommittedIsOlder(w, t);
    assert batch <= added[n..];
    forall i | 0 <= i < |RowsOf(w.committed, t)| ensures RowsOf(w.committed, t)[i] in added[..n] {
      assert RowsOf(w.committed, t)[i] in RowsOf(w.committed, t);
    }
    BeforeTheSuffix(RowsOf(w.committed, t), batch, added, n);
    AppendSortedIff(RowsOf(w.committed, t), batch, added);
  }

  /** A batch left to its thread keeps the order exactly when all rows committed so far are older. */
  lemma LateWriteKeepsOrderIff(w: World, i: nat, t: string)
    requires Placed(w, t) && Distinct(RowsOf(w.added, t)) && i < |w.detached|
    ensures InAddedOrder(Next(w, LateWritten(i)), t) <==> InAddedOrder(w, t) && Timely(w, LateWritten(i), t)
  {
    hide Merge, AllBefore, Distinct, Subsequence, Segment, Suffix;
    MergeAt(w.committed, w.detached[i], t);
    AppendSortedIff(RowsOf(w.committed, t), RowsOf(w.detached[i], t), RowsOf(w.added, t));
  }

  lemma CommittedWasAdded(w: World, t: string)
    requires Placed(w, t) && RowsBalance(w, t)
    ensures forall i :: 0 <= i < |RowsOf(w.committed, t)| ==> RowsOf(w.committed, t)[i] in RowsOf(w.added, t)
  {
    CommittedIsOlder(w, t);
    hide Placed, RowsBalance;
    var committed := RowsOf(w.committed, t);
    forall i | 0 <= i < |committed| ensures committed[i] in RowsOf(w.added, t) { assert committed[i] in committed; }
  }

  lemma CommittedStays(w: World, step: Step)
    requires step.Written? ==> w.inFlight == map[]
    requires step.LateWritten? ==> step.thread >= |w.detached|
    ensures Next(w, step).committed == w.committed
  {}

  lemma OtherStepsKeepOrder(w: World, w': World, t: string, more: seq<Row>)
    requires Placed(w, t) && RowsBalance(w, t) && w'.committed == w.committed
    requires RowsOf(w'.added, t) == RowsOf(w.added, t) + more && Distinct(RowsOf(w'.added, t))
    ensures InAddedOrder(w', t) <==> InAddedOrder(w, t)
  {
    hide Distinct, Subsequence, Placed, RowsBalance, RowsOf;
    CommittedWasAdded(w, t);
    GrowthKeepsOrder(RowsOf(w.committed, t), RowsOf(w.added, t), more);
  }

  lemma DistinctBefore(added: seq<Row>, more: seq<Row>)
    requires Distinct(added + more)
    ensures Distinct(added)
  {
    forall i | 0 <= i < |added| ensures (added + more)[i] == added[i] {}
  }

  lemma StepKeepsOrderIff(w: World, step: Step, t: string)
    requires Placed(w, t) && RowsBalance(w, t) && Distinct(RowsOf(Next(w, step).added, t))
    ensures InAddedOrder(Next(w, step), t) <==> InAddedOrder(w, t) && Timely(w, step, t)
  {
    hide Next, InAddedOrder, AllBefore, Distinct, Placed, RowsBalance, RowsOf;
    var more := AddedGrows(w, step, t);
    DistinctBefore(RowsOf(w.added, t), more);
    if step.Written? && w.inFlight != map[] {
      WriteKeepsOrder(w, t);
    } else if step.LateWritten? && step.thread < |w.detached| {
      LateWriteKeepsOrderIff(w, step.thread, t);
    } else {
      CommittedStays(w, step);
      OtherStepsKeepOrder(w, Next(w, step), t, more);
    }
  }

  /** No detached batch commits after a newer row of the table. */
  ghost predicate AlwaysTimely(steps: seq<Step>, t: string) {
    forall n :: 0 <= n < |steps| ==> Timely(Run(steps[..n]), steps[n], t)
  }

  lemma OneMoreTimely(steps: seq<Step>, t: string)
    requires steps != []
    ensures var n := |steps| - 1;
            AlwaysTimely(steps, t) <==> AlwaysTimely(steps[..n], t) && Timely(Run(steps[..n]), steps[n], t)
  {
    hide Run, Timely;
    var n := |steps| - 1;
    forall i | 0 <= i < n ensures steps[..n][..i] == steps[..i] {}
  }

  lemma NothingIsInOrder()
    ensures Subsequence<Row>([], [])
  {
    assert FoundAt<Row>([], [], []);
  }

  /**
    For every run, cancelled writes included, of a table whose rows are pairwise different:
    its rows are committed in the order they were added if and only if no batch that a
    cancelled flush left to its thread commits after a newer row.
   */
  lemma {:induction false} CommittedInOrderIff(steps: seq<Step>, t: string)
    requires Distinct(RowsOf(Run(steps).added, t))
    ensures InAddedOrder(Run(steps), t) <==> AlwaysTimely(steps, t)
  {
    hide Next, Timely, Subsequence;
    if steps == [] {
      NothingIsInOrder();
    } else {
      var n := |steps| - 1;
      var w := Run(steps[..n]);
      hide Distinct, AlwaysTimely, Placed, RowsBalance, RowsOf;
      var more := AddedGrows(w, steps[n], t);
      DistinctBefore(RowsOf(w.added, t), more);
      CommittedInOrderIff(steps[..n], t);
      OneMoreTimely(steps, t);
      RunsKeepPlaces(steps[..n], t);
      RowsAreNeverCopied(steps[..n], t);
      StepKeepsOrderIff(w, steps[n], t);
    }
  }

  // ---- a run that loses the order ----

  lemma LateCommitComesLast(w: World, t: string, first: Row, second: Row)
    requires w.inFlight == map[t := [second]] && w.detached == [map[t := [first]]] && w.committed == map[]
    ensures var w' := Next(Next(w, Written), LateWritten(0));
            RowsOf(w'.committed, t) == [second, first] && w'.added == w.added
  {
    assert t in w.inFlight;
    var w' := Next(w, Written);
    assert w'.committed == Merge(map[], w.inFlight) && w'.detached == w.detached;
    hide Merge;
    MergeAt(map[], w.inFlight, t);
    MergeAt(w'.committed, w.detached[0], t);
  }

  lemma CancelledWriteIsDetached(t: string, first: Row)
    ensures var w := Next(Next(Next(START, Measure(t, first)), Flush), Cancelled);
            && w.ingest.queue == [] && w.ingest.pending == map[] && w.inFlight == map[]
            && w.detached == [map[t := [first]]] && w.committed == map[] && RowsOf(w.added, t) == [first]
  {
    hide BeginFlush, Merge, AddRow;
    FlushOfMeasuredRow(START, t, first);
  }

  lemma Reversed(first: Row, second: Row)
    requires first != second
    ensures !Subsequence([second, first], [first, second])
  {
    var sub, xs := [second, first], [first, second];
    forall at ensures !FoundAt(sub, xs, at) {
      if |at| == 2 && at[0] < at[1] < 2 { assert xs[at[0]] != sub[0]; }
    }
  }

  /** A row is measured, flushed and left to its thread; the next row is written before that thread commits. */
  function LateRun(t: string, first: Row, second: Row): seq<Step> {
    [Measure(t, first)] + [Flush] + [Cancelled] + [Measure(t, second)] + [Flush] + [Written] + [LateWritten(0)]
  }

  /** Order is lost when a cancelled write commits after the next one. */
  lemma CancelledWriteMayReorder(t: string, first: Row, second: Row)
    requires first != second
    ensures var w := Run(LateRun(t, first, second));
            && RowsOf(w.added, t) == [first, second] && RowsOf(w.committed, t) == [second, first]
            && !InAddedOrder(w, t)
  {
    hide Run, Next, Subsequence;
    var s1: seq<Step> := [Measure(t, first)];
    NothingRun();
    RunMore([], s1[0]);
    assert [] + s1 == s1;
    RunMore(s1, Flush);
    RunMore(s1 + [Flush], Cancelled);
    CancelledWriteIsDetached(t, first);
    var s3 := s1 + [Flush] + [Cancelled];
    RunMore(s3, Measure(t, second));
    RunMore(s3 + [Measure(t, second)], Flush);
    RunMore(s3 + [Measure(t, second)] + [Flush], Written);
    RunMore(s3 + [Measure(t, second)] + [Flush] + [Written], LateWritten(0));
    FlushOfMeasuredRow(Run(s3), t, second);
    LateCommitComesLast(Run(s3 + [Measure(t, second)] + [Flush]), t, first, second);
    Reversed(first, second);
  }
}
