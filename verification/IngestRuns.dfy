/**
  Whole runs of the pipeline. Notifications, measurements and new sessions arrive at any
  point, also while a write is in the worker thread; writes succeed, fail, or are left
  to their thread by a cancelled flush. The logs record what an observer sees.
 */
module IngestRuns {
  import opened Metrics
  import opened Ingest
  import Ledger

  datatype Step =
    | Arrive(item: Item)
    | Measure(table: string, row: Row)
    | Connect(metrics: set<string>)
    | Flush
    | Written
    | Failed
    | Cancelled
    | LateWritten(thread: nat)
    | LateFailed(thread: nat)

  datatype World = World(
    ingest: State,
    inFlight: Batch,              // empty: no write is awaited
    detached: seq<Batch>,         // batches a cancelled flush left to their thread
    added: Batch,                 // every row ever added, per table
    committed: Batch,
    trimmed: Batch,
    abandoned: Batch,             // detached batches whose write failed
    puts: seq<Item>, decoded: seq<Item>, discarded: seq<Item>,
    reported: nat)

  const START := World(FRESH, map[], [], map[], map[], map[], map[], [], [], [], 0)

  function Merge(a: Batch, b: Batch): Batch {
    map t | t in a.Keys + b.Keys :: RowsOf(a, t) + RowsOf(b, t)
  }

  lemma MergeAt(a: Batch, b: Batch, t: string)
    ensures RowsOf(Merge(a, b), t) == RowsOf(a, t) + RowsOf(b, t)
  {}

  /** The rows that `after` has beyond `before`, table by table. */
  function Grown(before: Batch, after: Batch): Batch {
    map t | t in after && |RowsOf(before, t)| <= |after[t]| :: after[t][|RowsOf(before, t)|..]
  }

  function Excess(rows: seq<Row>): nat {
    if |rows| > MAX_PENDING_ROWS_PER_TABLE then |rows| - MAX_PENDING_ROWS_PER_TABLE else 0
  }

  /** The rows a failed write loses to the limit: the oldest ones. */
  function CutRows(pending: Batch, batch: Batch): Batch {
    map t | t in batch :: (batch[t] + RowsOf(pending, t))[..Excess(batch[t] + RowsOf(pending, t))]
  }

  function Next(w: World, step: Step): World {
    var s := w.ingest;
    match step
    case Arrive(item) =>
      w.(ingest := Put(s, item), puts := w.puts + [item],
         discarded := if |s.queue| >= QUEUE_MAX_ITEMS then w.discarded + [s.queue[0]] else w.discarded)
    case Measure(table, row) =>
      w.(ingest := AddRow(s, table, row), added := Extend(w.added, table, [row]))
    case Connect(metrics) => w.(ingest := NewSession(s, metrics))
    case Flush =>
      if w.inFlight != map[] then w else
        w.(ingest := BeginFlush(s).0, inFlight := BeginFlush(s).1,
           added := Merge(w.added, Grown(s.pending, DecodeQueued(s).pending)),
           decoded := w.decoded + s.queue, reported := w.reported + s.dropped)
    case Written =>
      if w.inFlight == map[] then w else
        w.(ingest := WriteSucceeded(s), committed := Merge(w.committed, w.inFlight), inFlight := map[])
    case Failed =>
      if w.inFlight == map[] then w else
        w.(ingest := WriteFailed(s, w.inFlight), trimmed := Merge(w.trimmed, CutRows(s.pending, w.inFlight)),
           inFlight := map[])
    case Cancelled =>
      if w.inFlight == map[] then w else
        w.(detached := w.detached + [w.inFlight], inFlight := map[])
    case LateWritten(i) =>
      if i >= |w.detached| then w else
        w.(committed := Merge(w.committed, w.detached[i]), detached := w.detached[..i] + w.detached[i + 1..])
    case LateFailed(i) =>
      if i >= |w.detached| then w else
        w.(abandoned := Merge(w.abandoned, w.detached[i]), detached := w.detached[..i] + w.detached[i + 1..])
  }

  function Run(steps: seq<Step>): World {
    if steps == [] then START else Next(Run(steps[..|steps| - 1]), steps[|steps| - 1])
  }

  // ---- what decoding does to the pending rows: it only appends ----

  lemma DecodeOneAppends(s: State, item: Item, t: string)
    ensures RowsOf(s.pending, t) <= RowsOf(DecodeOne(s, item).pending, t)
    ensures DecodeOne(s, item).dropped == s.dropped
  {}

  lemma {:induction false} DecodeAppends(s: State, n: nat, t: string)
    requires n <= |s.queue|
    ensures RowsOf(s.pending, t) <= RowsOf(DecodeFirst(s, n).pending, t)
    ensures DecodeFirst(s, n).dropped == s.dropped
  {
    hide DecodeOne;
    if n == 0 {
    } else {
      DecodeAppends(s, n - 1, t);
      DecodeOneAppends(DecodeFirst(s, n - 1), s.queue[n - 1], t);
    }
  }

  lemma FlushGrows(s: State, t: string)
    ensures RowsOf(BeginFlush(s).1, t) == RowsOf(s.pending, t) + RowsOf(Grown(s.pending, DecodeQueued(s).pending), t)
    ensures RowsOf(BeginFlush(s).0.pending, t) == []
  {
    hide DecodeFirst;
    DecodeAppends(s, |s.queue|, t);
  }

  // ---- rows, in order, while no flush is cancelled ----

  ghost predicate RowsAccounted(w: World, t: string) {
    Ledger.Accounted(RowsOf(w.added, t), RowsOf(w.committed, t), RowsOf(w.trimmed, t),
                     RowsOf(w.inFlight, t) + RowsOf(w.ingest.pending, t))
  }

  lemma FlushKeepsRows(w: World, t: string)
    requires RowsAccounted(w, t) && w.inFlight == map[]
    ensures RowsAccounted(Next(w, Flush), t)
  {
    hide BeginFlush, DecodeQueued, Ledger.Accounted, Grown, Merge;
    var s := w.ingest;
    var grown := Grown(s.pending, DecodeQueued(s).pending);
    FlushGrows(s, t);
    MergeAt(w.added, grown, t);
    Ledger.Add(RowsOf(w.added, t), RowsOf(w.committed, t), RowsOf(w.trimmed, t),
               RowsOf(s.pending, t), RowsOf(grown, t));
    assert RowsOf(w.inFlight, t) + RowsOf(s.pending, t) == RowsOf(s.pending, t);
    var w' := Next(w, Flush);
    assert RowsOf(w'.inFlight, t) + RowsOf(w'.ingest.pending, t) == RowsOf(s.pending, t) + RowsOf(grown, t);
  }

  lemma WriteKeepsRows(w: World, t: string)
    requires RowsAccounted(w, t) && w.inFlight != map[]
    ensures RowsAccounted(Next(w, Written), t)
  {
    hide Ledger.Accounted, Merge;
    var batch, later := RowsOf(w.inFlight, t), RowsOf(w.ingest.pending, t);
    MergeAt(w.committed, w.inFlight, t);
    Ledger.Settle(RowsOf(w.added, t), RowsOf(w.committed, t), RowsOf(w.trimmed, t),
                  batch + later, |batch|, Ledger.Kept);
    assert (batch + later)[..|batch|] == batch && (batch + later)[|batch|..] == [] + later;
  }

  lemma FailureKeepsRows(w: World, t: string)
    requires RowsAccounted(w, t) && w.inFlight != map[]
    ensures RowsAccounted(Next(w, Failed), t)
  {
    hide Ledger.Accounted, Merge, Requeue;
    var s := w.ingest;
    var live := RowsOf(w.inFlight, t) + RowsOf(s.pending, t);
    RequeueAt(s.pending, w.inFlight, t);
    MergeAt(w.trimmed, CutRows(s.pending, w.inFlight), t);
    var cut := if t in w.inFlight then Excess(live) else 0;
    Ledger.Settle(RowsOf(w.added, t), RowsOf(w.committed, t), RowsOf(w.trimmed, t), live, cut, Ledger.Lost);
    assert RowsOf(CutRows(s.pending, w.inFlight), t) == live[..cut];
    assert [] + RowsOf(Requeue(s.pending, w.inFlight), t) == live[cut..];
  }

  lemma MeasureKeepsRows(w: World, table: string, row: Row, t: string)
    requires RowsAccounted(w, t)
    ensures RowsAccounted(Next(w, Measure(table, row)), t)
  {
    hide Ledger.Accounted, Extend;
    var rows := if t == table then [row] else [];
    var live := RowsOf(w.inFlight, t) + RowsOf(w.ingest.pending, t);
    Ledger.Add(RowsOf(w.added, t), RowsOf(w.committed, t), RowsOf(w.trimmed, t), live, rows);
    var w' := Next(w, Measure(table, row));
    assert RowsOf(w'.added, t) == RowsOf(w.added, t) + rows;
    assert RowsOf(w'.inFlight, t) + RowsOf(w'.ingest.pending, t) == live + rows;
  }

  lemma StepKeepsRows(w: World, step: Step, t: string)
    requires RowsAccounted(w, t) && w.detached == [] && !step.Cancelled?
    ensures RowsAccounted(Next(w, step), t) && Next(w, step).detached == []
  {
    hide BeginFlush, DecodeQueued, Ledger.Accounted, Grown, Merge, CutRows, Requeue, AddRow, RowsOf;
    if step.Flush? && w.inFlight == map[] {
      FlushKeepsRows(w, t);
    } else if step.Written? && w.inFlight != map[] {
      WriteKeepsRows(w, t);
    } else if step.Failed? && w.inFlight != map[] {
      FailureKeepsRows(w, t);
    } else if step.Measure? {
      MeasureKeepsRows(w, step.table, step.row, t);
    }
  }

  /**
    In every run without a cancelled write, for each table: the rows ever added are, in
    order, rows that were committed once or trimmed, then the batch in flight, then the
    pending rows. So no row is lost silently, none is committed twice, the committed rows
    keep their order, and whatever was trimmed was older than every uncommitted row.
   */
  lemma {:induction false} RowsAreConservedInOrder(steps: seq<Step>, t: string)
    requires forall i :: 0 <= i < |steps| ==> !steps[i].Cancelled?
    ensures RowsAccounted(Run(steps), t) && Run(steps).detached == []
  {
    hide Next, Ledger.Accounted;
    if steps == [] {
      Ledger.Start<Row>();
      assert RowsOf(START.inFlight, t) + RowsOf(START.ingest.pending, t) == [];
    } else {
      RowsAreConservedInOrder(steps[..|steps| - 1], t);
      StepKeepsRows(Run(steps[..|steps| - 1]), steps[|steps| - 1], t);
    }
  }

  // ---- rows, whatever happens ----

  function Detached(batches: seq<Batch>, t: string): multiset<Row> {
    if batches == [] then multiset{} else multiset(RowsOf(batches[0], t)) + Detached(batches[1..], t)
  }

  lemma {:induction false} DetachedWithout(batches: seq<Batch>, i: nat, t: string)
    requires i < |batches|
    ensures Detached(batches, t) == multiset(RowsOf(batches[i], t)) + Detached(batches[..i] + batches[i + 1..], t)
  {
    hide RowsOf;
    if i == 0 {
      assert batches[..0] + batches[1..] == batches[1..];
    } else {
      DetachedWithout(batches[1..], i - 1, t);
      var fewer := batches[..i] + batches[i + 1..];
      assert fewer[0] == batches[0];
      assert fewer[1..] == batches[1..][..i - 1] + batches[1..][i..];
    }
  }

  lemma {:induction false} DetachedAppend(batches: seq<Batch>, b: Batch, t: string)
    ensures Detached(batches + [b], t) == Detached(batches, t) + multiset(RowsOf(b, t))
  {
    hide RowsOf;
    if batches == [] {
    } else {
      DetachedAppend(batches[1..], b, t);
      assert (batches + [b])[1..] == batches[1..] + [b];
    }
  }

  ghost predicate RowsBalance(w: World, t: string) {
    multiset(RowsOf(w.added, t)) ==
      multiset(RowsOf(w.committed, t)) + multiset(RowsOf(w.trimmed, t)) + multiset(RowsOf(w.abandoned, t))
      + Detached(w.detached, t) + multiset(RowsOf(w.inFlight, t)) + multiset(RowsOf(w.ingest.pending, t))
  }

  lemma JoinedRows(xs: seq<Row>, ys: seq<Row>)
    ensures multiset(xs + ys) == multiset(xs) + multiset(ys)
  {}

  lemma FlushKeepsBalance(w: World, t: string)
    requires RowsBalance(w, t) && w.inFlight == map[]
    ensures RowsBalance(Next(w, Flush), t)
  {
    hide BeginFlush, DecodeQueued, Grown, Merge, Detached;
    var grown := Grown(w.ingest.pending, DecodeQueued(w.ingest).pending);
    FlushGrows(w.ingest, t);
    MergeAt(w.added, grown, t);
    JoinedRows(RowsOf(w.added, t), RowsOf(grown, t));
    JoinedRows(RowsOf(w.ingest.pending, t), RowsOf(grown, t));
    assert RowsOf(w.inFlight, t) == [];
    var w' := Next(w, Flush);
    assert RowsOf(w'.added, t) == RowsOf(w.added, t) + RowsOf(grown, t);
    assert RowsOf(w'.inFlight, t) == RowsOf(w.ingest.pending, t) + RowsOf(grown, t);
    assert RowsOf(w'.ingest.pending, t) == [];
  }

  lemma Rebalance(c: multiset<Row>, l: multiset<Row>, a: multiset<Row>, d: multiset<Row>,
                  f: multiset<Row>, p: multiset<Row>, cut: multiset<Row>, kept: multiset<Row>)
    requires f + p == cut + kept
    ensures c + l + a + d + f + p == c + (l + cut) + a + d + multiset{} + kept
  {
    assert c + l + a + d + f + p == (c + l + a + d) + (f + p);
  }

  lemma CutAndRequeue(pending: Batch, batch: Batch, t: string)
    ensures RowsOf(CutRows(pending, batch), t) + RowsOf(Requeue(pending, batch), t) ==
            RowsOf(batch, t) + RowsOf(pending, t)
  {
    RequeueAt(pending, batch, t);
  }

  lemma FailureKeepsBalance(w: World, t: string)
    requires RowsBalance(w, t) && w.inFlight != map[]
    ensures RowsBalance(Next(w, Failed), t)
  {
    hide Merge, CutRows, Requeue, Detached;
    var s := w.ingest;
    CutAndRequeue(s.pending, w.inFlight, t);
    MergeAt(w.trimmed, CutRows(s.pending, w.inFlight), t);
    var cut, kept := RowsOf(CutRows(s.pending, w.inFlight), t), RowsOf(Requeue(s.pending, w.inFlight), t);
    JoinedRows(RowsOf(w.inFlight, t), RowsOf(s.pending, t));
    JoinedRows(cut, kept);
    JoinedRows(RowsOf(w.trimmed, t), cut);
    var w' := Next(w, Failed);
    assert RowsOf(w'.trimmed, t) == RowsOf(w.trimmed, t) + cut;
    assert RowsOf(w'.ingest.pending, t) == kept;
    assert RowsOf(w'.inFlight, t) == [];
    Rebalance(multiset(RowsOf(w.committed, t)), multiset(RowsOf(w.trimmed, t)), multiset(RowsOf(w.abandoned, t)),
              Detached(w.detached, t), multiset(RowsOf(w.inFlight, t)), multiset(RowsOf(s.pending, t)),
              multiset(cut), multiset(kept));
  }

  /** What leaves the detached rows arrives at the committed or at the abandoned ones. */
  lemma Landed(c: multiset<Row>, l: multiset<Row>, a: multiset<Row>, d: multiset<Row>,
               f: multiset<Row>, p: multiset<Row>, batch: multiset<Row>, others: multiset<Row>)
    requires d == batch + others
    ensures c + l + a + d + f + p == (c + batch) + l + a + others + f + p
    ensures c + l + a + d + f + p == c + l + (a + batch) + others + f + p
  {}

  lemma LateWriteKeepsBalance(w: World, i: nat, t: string)
    requires RowsBalance(w, t) && i < |w.detached|
    ensures RowsBalance(Next(w, LateWritten(i)), t)
  {
    hide Merge, Detached, RowsOf;
    var batch, others := RowsOf(w.detached[i], t), w.detached[..i] + w.detached[i + 1..];
    DetachedWithout(w.detached, i, t);
    MergeAt(w.committed, w.detached[i], t);
    JoinedRows(RowsOf(w.committed, t), batch);
    Landed(multiset(RowsOf(w.committed, t)), multiset(RowsOf(w.trimmed, t)), multiset(RowsOf(w.abandoned, t)),
           Detached(w.detached, t), multiset(RowsOf(w.inFlight, t)), multiset(RowsOf(w.ingest.pending, t)),
           multiset(batch), Detached(others, t));
  }

  lemma LateFailureKeepsBalance(w: World, i: nat, t: string)
    requires RowsBalance(w, t) && i < |w.detached|
    ensures RowsBalance(Next(w, LateFailed(i)), t)
  {
    hide Merge, Detached, RowsOf;
    var batch, others := RowsOf(w.detached[i], t), w.detached[..i] + w.detached[i + 1..];
    DetachedWithout(w.detached, i, t);
    MergeAt(w.abandoned, w.detached[i], t);
    JoinedRows(RowsOf(w.abandoned, t), batch);
    Landed(multiset(RowsOf(w.committed, t)), multiset(RowsOf(w.trimmed, t)), multiset(RowsOf(w.abandoned, t)),
           Detached(w.detached, t), multiset(RowsOf(w.inFlight, t)), multiset(RowsOf(w.ingest.pending, t)),
           multiset(batch), Detached(others, t));
  }

  lemma WriteKeepsBalance(w: World, t: string)
    requires RowsBalance(w, t) && w.inFlight != map[]
    ensures RowsBalance(Next(w, Written), t)
  {
    hide Merge, Detached;
    MergeAt(w.committed, w.inFlight, t);
    assert RowsOf(Next(w, Written).inFlight, t) == [];
  }

  lemma CancelKeepsBalance(w: World, t: string)
    requires RowsBalance(w, t) && w.inFlight != map[]
    ensures RowsBalance(Next(w, Cancelled), t)
  {
    hide Detached;
    DetachedAppend(w.detached, w.inFlight, t);
    assert RowsOf(Next(w, Cancelled).inFlight, t) == [];
  }

  lemma MeasureKeepsBalance(w: World, table: string, row: Row, t: string)
    requires RowsBalance(w, t)
    ensures RowsBalance(Next(w, Measure(table, row)), t)
  {
    hide Detached, Extend;
    var rows := if t == table then [row] else [];
    JoinedRows(RowsOf(w.added, t), rows);
    JoinedRows(RowsOf(w.ingest.pending, t), rows);
    var w' := Next(w, Measure(table, row));
    assert RowsOf(w'.added, t) == RowsOf(w.added, t) + rows;
    assert RowsOf(w'.ingest.pending, t) == RowsOf(w.ingest.pending, t) + rows;
  }

  lemma StepKeepsBalance(w: World, step: Step, t: string)
    requires RowsBalance(w, t)
    ensures RowsBalance(Next(w, step), t)
  {
    hide BeginFlush, DecodeQueued, Grown, Merge, CutRows, Requeue, AddRow, RowsOf, Detached;
    match step
    case Flush => if w.inFlight == map[] { FlushKeepsBalance(w, t); }
    case Written => if w.inFlight != map[] { WriteKeepsBalance(w, t); }
    case Cancelled => if w.inFlight != map[] { CancelKeepsBalance(w, t); }
    case Failed => if w.inFlight != map[] { FailureKeepsBalance(w, t); }
    case LateWritten(i) => if i < |w.detached| { LateWriteKeepsBalance(w, i, t); }
    case LateFailed(i) => if i < |w.detached| { LateFailureKeepsBalance(w, i, t); }
    case Measure(table, row) => MeasureKeepsBalance(w, table, row, t);
    case Arrive(item) => assert Put(w.ingest, item).pending == w.ingest.pending;
    case Connect(_) =>
  }

  /**
    In every run, also with cancelled writes, every row added is in exactly one place:
    committed, trimmed, abandoned by a cancelled write that failed, still with such a
    write's thread, in flight or pending. No row is committed more often than it was added.
   */
  lemma {:induction false} RowsAreNeverCopied(steps: seq<Step>, t: string)
    ensures RowsBalance(Run(steps), t)
    ensures multiset(RowsOf(Run(steps).committed, t)) <= multiset(RowsOf(Run(steps).added, t))
  {
    hide Next;
    if steps == [] {
    } else {
      RowsAreNeverCopied(steps[..|steps| - 1], t);
      StepKeepsBalance(Run(steps[..|steps| - 1]), steps[|steps| - 1], t);
    }
  }

  lemma NothingRun()
    ensures Run([]) == START
  {}

  lemma RunMore(steps: seq<Step>, step: Step)
    ensures Run(steps + [step]) == Next(Run(steps), step)
  {
    assert (steps + [step])[..|steps|] == steps;
  }

  lemma FlushOfMeasuredRow(w: World, table: string, row: Row)
    requires w.ingest.queue == [] && w.ingest.pending == map[] && w.inFlight == map[]
    ensures var w' := Next(Next(w, Measure(table, row)), Flush);
            && w'.inFlight == map[table := [row]] && w'.ingest.pending == map[] && w'.ingest.queue == []
            && w'.detached == w.detached && w'.committed == w.committed
            && RowsOf(w'.added, table) == RowsOf(w.added, table) + [row]
  {
    hide Merge;
    var s := Next(w, Measure(table, row)).ingest;
    assert s.pending == map[table := [] + [row]] && [] + [row] == [row];
    assert DecodeQueued(s) == s;
    MergeAt(Next(w, Measure(table, row)).added, Grown(s.pending, s.pending), table);
  }

  /** A failed write leaves no table of its batch above the limit. */
  lemma FailureBoundsPending(w: World, t: string)
    requires t in w.inFlight
    ensures |RowsOf(Next(w, Failed).ingest.pending, t)| <= MAX_PENDING_ROWS_PER_TABLE
    ensures |w.inFlight[t]| + |RowsOf(w.ingest.pending, t)| <= MAX_PENDING_ROWS_PER_TABLE ==>
              RowsOf(Next(w, Failed).ingest.pending, t) == w.inFlight[t] + RowsOf(w.ingest.pending, t)
  {
    RequeueAt(w.ingest.pending, w.inFlight, t);
  }

  // ---- the failure mark ----

  /** The `n`-th step ended an awaited write. */
  predicate EndsWrite(steps: seq<Step>, n: int)
    requires 0 <= n < |steps|
  {
    (steps[n].Written? || steps[n].Failed?) && Run(steps[..n]).inFlight != map[]
  }

  ghost predicate LastWrite(steps: seq<Step>, n: int) {
    0 <= n < |steps| && EndsWrite(steps, n) && forall j :: n < j < |steps| ==> !EndsWrite(steps, j)
  }

  lemma {:induction false} DecodingKeepsTheMark(s: State, n: nat)
    requires n <= |s.queue|
    ensures DecodeFirst(s, n).failing == s.failing
  {
    hide Find, Decode;
    if n == 0 {
    } else {
      DecodingKeepsTheMark(s, n - 1);
    }
  }

  lemma MarkAfter(w: World, step: Step)
    ensures Next(w, step).ingest.failing ==
            if w.inFlight != map[] && step.Failed? then true
            else if w.inFlight != map[] && step.Written? then false
            else w.ingest.failing
  {
    hide Merge, Grown, CutRows, Requeue, Extend;
    if step.Flush? { DecodingKeepsTheMark(w.ingest, |w.ingest.queue|); }
  }

  lemma LastWriteStep(steps: seq<Step>, n: int)
    requires steps != []
    ensures var k := |steps| - 1;
            if EndsWrite(steps, k) then LastWrite(steps, n) <==> n == k
            else LastWrite(steps, n) <==> LastWrite(steps[..k], n)
  {
    hide Run;
    var k := |steps| - 1;
    forall i | 0 <= i < k ensures EndsWrite(steps[..k], i) == EndsWrite(steps, i) {
      assert steps[..k][..i] == steps[..i];
    }
  }

  lemma NeverWritten()
    ensures !Run([]).ingest.failing && forall n :: !LastWrite([], n)
  {}

  lemma WrittenBefore(steps: seq<Step>, n: int)
    requires LastWrite(steps, n)
    ensures 0 <= n < |steps|
  {}

  /** Writes count as failing, and are logged once, exactly while the last awaited write failed. */
  lemma {:induction false} FailingIffTheLastWriteFailed(steps: seq<Step>)
    ensures Run(steps).ingest.failing <==> exists n :: LastWrite(steps, n) && steps[n].Failed?
  {
    hide Next, LastWrite;
    if steps == [] {
      NeverWritten();
    } else {
      var k := |steps| - 1;
      var before := steps[..k];
      FailingIffTheLastWriteFailed(before);
      MarkAfter(Run(before), steps[k]);
      forall n ensures if EndsWrite(steps, k) then LastWrite(steps, n) <==> n == k
                       else LastWrite(steps, n) <==> LastWrite(before, n)
      {
        LastWriteStep(steps, n);
      }
      if EndsWrite(steps, k) {
        assert LastWrite(steps, k);
      } else {
        forall n | LastWrite(before, n) ensures LastWrite(steps, n) && 0 <= n < k && before[n] == steps[n] {
          WrittenBefore(before, n);
        }
      }
    }
  }

  // ---- the queue ----

  ghost predicate QueueAccounted(w: World) {
    && Ledger.Accounted(w.puts, w.decoded, w.discarded, w.ingest.queue)
    && |w.discarded| == w.reported + w.ingest.dropped
    && |w.ingest.queue| <= QUEUE_MAX_ITEMS
  }

  lemma ArrivalKeepsQueue(w: World, item: Item)
    requires QueueAccounted(w)
    ensures QueueAccounted(Next(w, Arrive(item)))
  {
    hide Ledger.Accounted;
    var q := w.ingest.queue;
    if |q| >= QUEUE_MAX_ITEMS {
      Ledger.Settle(w.puts, w.decoded, w.discarded, q, 1, Ledger.Lost);
      assert q[..1] == [q[0]];
      Ledger.Add(w.puts, w.decoded, w.discarded + q[..1], q[1..], [item]);
    } else {
      Ledger.Add(w.puts, w.decoded, w.discarded, q, [item]);
    }
  }

  lemma StepKeepsQueue(w: World, step: Step)
    requires QueueAccounted(w)
    ensures QueueAccounted(Next(w, step))
  {
    hide Ledger.Accounted, Merge, Grown, CutRows, Requeue;
    if step.Arrive? {
      ArrivalKeepsQueue(w, step.item);
    } else if step.Flush? && w.inFlight == map[] {
      var q := w.ingest.queue;
      Ledger.Settle(w.puts, w.decoded, w.discarded, q, |q|, Ledger.Kept);
      assert q[..|q|] == q && q[|q|..] == [];
    }
  }

  /**
    In every run the values put are, in order, values that were decoded once or dropped,
    then the queue; and the drops are those reported plus those still to be reported.
   */
  lemma {:induction false} PutsAreAccounted(steps: seq<Step>)
    ensures QueueAccounted(Run(steps))
    ensures var w := Run(steps);
            |w.puts| == |w.decoded| + |w.ingest.queue| + w.reported + w.ingest.dropped
  {
    hide Next, Ledger.Accounted;
    if steps == [] {
      Ledger.Start<Item>();
    } else {
      PutsAreAccounted(steps[..|steps| - 1]);
      StepKeepsQueue(Run(steps[..|steps| - 1]), steps[|steps| - 1]);
    }
    var w := Run(steps);
    Ledger.Totals(w.puts, w.decoded, w.discarded, w.ingest.queue);
  }

  function PutAll(s: State, items: seq<Item>): State {
    if items == [] then s else Put(PutAll(s, items[..|items| - 1]), items[|items| - 1])
  }

  function Last<T>(xs: seq<T>, n: nat): seq<T> {
    if |xs| <= n then xs else xs[|xs| - n..]
  }

  /** The queue holds exactly the newest values, up to its limit. */
  lemma {:induction false} NewestValuesStay(s: State, items: seq<Item>)
    requires |s.queue| <= QUEUE_MAX_ITEMS
    ensures PutAll(s, items).queue == Last(s.queue + items, QUEUE_MAX_ITEMS)
    ensures PutAll(s, items).dropped - s.dropped == |s.queue + items| - |PutAll(s, items).queue|
  {
    if items != [] {
      var n := |items| - 1;
      NewestValuesStay(s, items[..n]);
      assert s.queue + items == (s.queue + items[..n]) + [items[n]];
    } else {
      assert s.queue + items == s.queue;
    }
  }
}
