/**
  The whole way: what the database holds after a run of the pipeline. Every write that
  succeeds, awaited or left to its thread, is one transaction with one statement per table.
 */
module DatabaseRuns {
  import opened Wrappers
  import opened Metrics
  import opened Ingest
  import opened IngestRuns
  import opened Tables
  import opened ColumnSets
  import Transactions

  /** A transaction that `insert_many` may issue for the batch, tables in any order. */
  ghost predicate Issues(batch: Batch, tx: Transactions.Tx) {
    forall t :: Transactions.RowsFor(tx, t) == WrittenRows(batch, t)
  }

  /** The batch a step makes durable. */
  function Durable(w: World, step: Step): Option<Batch> {
    match step
    case Written => if w.inFlight == map[] then None else Some(w.inFlight)
    case LateWritten(i) => if i < |w.detached| then Some(w.detached[i]) else None
    case _ => None
  }

  ghost predicate Extends(log: seq<Transactions.Statement>, log': seq<Transactions.Statement>, batch: Batch) {
    exists tx :: Issues(batch, tx) && log' == log + tx
  }

  /** `log` is a statement log the run can leave in the database. */
  ghost predicate Leaves(steps: seq<Step>, log: seq<Transactions.Statement>) {
    if steps == [] then log == [] else
      var n := |steps| - 1;
      match Durable(Run(steps[..n]), steps[n])
      case None => Leaves(steps[..n], log)
      case Some(batch) => exists before :: Leaves(steps[..n], before) && Extends(before, log, batch)
  }

  lemma TransactionOf(batch: Batch, tables: set<string>) returns (tx: Transactions.Tx)
    ensures forall t :: Transactions.RowsFor(tx, t) == if t in tables then WrittenRows(batch, t) else []
    decreases tables
  {
    hide WrittenRows;
    if tables == {} {
      tx := [];
    } else {
      var table :| table in tables;
      var st := Transactions.Statement(table, WrittenRows(batch, table));
      var before := TransactionOf(batch, tables - {table});
      Transactions.OneMoreStatement(before, st);
      tx := before + [st];
    }
  }

  /** Every run, whatever it measures and however its writes end, can leave some log. */
  lemma {:induction false} EveryRunLeavesALog(steps: seq<Step>) returns (log: seq<Transactions.Statement>)
    ensures Leaves(steps, log)
  {
    hide Durable, Run;
    if steps == [] {
      log := [];
    } else {
      var n := |steps| - 1;
      var before := EveryRunLeavesALog(steps[..n]);
      match Durable(Run(steps[..n]), steps[n])
      case None => log := before;
      case Some(batch) =>
        var tx := TransactionOf(batch, batch.Keys);
        assert Issues(batch, tx);
        log := before + tx;
        assert Extends(before, log, batch);
    }
  }

  lemma FittingBatchIsWrittenWhole(batch: Batch, t: string)
    requires Fits(batch)
    ensures WrittenRows(batch, t) == RowsOf(batch, t)
  {
    if t in batch && batch[t] != [] {
      SchemaIdentifiers(t);
      hide Columns, ValidIdentifier;
      assert Writable(t, batch[t]);
      forall i | 0 <= i < |batch[t]| ensures Project(batch[t][i], batch[t][0].Keys) == batch[t][i] {}
    }
  }

  /** The batches that a cancelled flush left behind fit their tables too. */
  ghost predicate DetachedFit(w: World) { forall i :: 0 <= i < |w.detached| ==> Fits(w.detached[i]) }

  lemma DetachedStepFits(w: World, step: Step)
    requires AllFit(w) && DetachedFit(w)
    ensures DetachedFit(Next(w, step))
  {
    hide Fits, BeginFlush, Merge, Grown, CutRows, Requeue, Put, Extend;
  }

  lemma {:induction false} DetachedRunsFit(steps: seq<Step>)
    requires forall i :: 0 <= i < |steps| ==> ProperStep(steps[i])
    ensures AllFit(Run(steps)) && DetachedFit(Run(steps))
  {
    hide Next, Fits, ProperStep, AllFit;
    RunsFit(steps);
    if steps == [] {
    } else {
      var before := steps[..|steps| - 1];
      DetachedRunsFit(before);
      DetachedStepFits(Run(before), steps[|steps| - 1]);
    }
  }

  lemma DurableStep(w: World, step: Step, t: string)
    requires AllFit(w) && DetachedFit(w)
    ensures match Durable(w, step)
            case None => RowsOf(Next(w, step).committed, t) == RowsOf(w.committed, t)
            case Some(batch) =>
              Fits(batch) && RowsOf(Next(w, step).committed, t) == RowsOf(w.committed, t) + RowsOf(batch, t)
  {
    hide Fits, BeginFlush, Merge, Grown, CutRows, Requeue;
    if Durable(w, step).Some? { MergeAt(w.committed, Durable(w, step).value, t); }
  }

  lemma {:induction false} LogHoldsCommittedRows(steps: seq<Step>, log: seq<Transactions.Statement>, t: string)
    requires (forall i :: 0 <= i < |steps| ==> ProperStep(steps[i])) && Leaves(steps, log)
    ensures Transactions.RowsFor(log, t) == RowsOf(Run(steps).committed, t)
  {
    hide ProperStep, Durable, AllFit, DetachedFit;
    if steps == [] {
    } else {
      var n := |steps| - 1;
      var w := Run(steps[..n]);
      DetachedRunsFit(steps[..n]);
      DurableStep(w, steps[n], t);
      match Durable(w, steps[n])
      case None => LogHoldsCommittedRows(steps[..n], log, t);
      case Some(batch) =>
        var before :| Leaves(steps[..n], before) && Extends(before, log, batch);
        var tx :| Issues(batch, tx) && log == before + tx;
        LogHoldsCommittedRows(steps[..n], before, t);
        Transactions.RowsForAppend(before, tx, t);
        FittingBatchIsWrittenWhole(batch, t);
    }
  }

  /**
    After any run the table holds exactly the rows the run committed, in commit order, a
    row being skipped only when the table already had its primary key.
   */
  lemma TableHoldsCommittedRows(steps: seq<Step>, log: seq<Transactions.Statement>, t: string)
    requires (forall i :: 0 <= i < |steps| ==> ProperStep(steps[i])) && Leaves(steps, log)
    ensures Transactions.TableAfter(log, t) == InsertRows([], RowsOf(Run(steps).committed, t), PrimaryKey(t))
  {
    LogHoldsCommittedRows(steps, log, t);
    Transactions.TableIsItsRows(log, t);
  }
  // ---- what that means for a table with a primary key, and for one without ----

  lemma KeyColumnsExist(t: string)
    requires PrimaryKey(t).Some?
    ensures Columns(t).Some? && PrimaryKey(t).value <= Columns(t).value
  {}

  lemma {:induction false} CommittedRowsFit(steps: seq<Step>, t: string, i: nat)
    requires (forall n :: 0 <= n < |steps| ==> ProperStep(steps[n])) && i < |RowsOf(Run(steps).committed, t)|
    ensures Columns(t) == Some(RowsOf(Run(steps).committed, t)[i].Keys)
  {
    hide ProperStep, Columns, Durable, AllFit, DetachedFit, Next;
    if steps == [] {
    } else {
      var n := |steps| - 1;
      var w := Run(steps[..n]);
      DetachedRunsFit(steps[..n]);
      DurableStep(w, steps[n], t);
      if i < |RowsOf(w.committed, t)| { CommittedRowsFit(steps[..n], t, i); }
    }
  }

  /**
    After any run a table with a primary key holds, of the rows the run committed, exactly
    the first one of each key, in commit order: every committed key is there, and rows that
    differ in a key column are both there.
   */
  lemma KeyedTableHoldsFirstCommitted(steps: seq<Step>, log: seq<Transactions.Statement>, t: string)
    requires (forall i :: 0 <= i < |steps| ==> ProperStep(steps[i])) && Leaves(steps, log) && PrimaryKey(t).Some?
    ensures var rows, key := RowsOf(Run(steps).committed, t), PrimaryKey(t).value;
            var stored := Transactions.TableAfter(log, t);
            && stored == FirstOfEachKey(rows, key)
            && (forall i :: 0 <= i < |rows| ==> HoldsKeyOf(stored, rows[i], key))
            && (forall x :: x in stored ==> x in rows)
            && (forall i, j :: 0 <= i < j < |stored| ==> !SameKey(stored[i], stored[j], key))
  {
    hide ProperStep, Leaves, Run, Columns, PrimaryKey, SameKey, HoldsKeyOf;
    var rows, key := RowsOf(Run(steps).committed, t), PrimaryKey(t).value;
    TableHoldsCommittedRows(steps, log, t);
    KeyColumnsExist(t);
    forall i | 0 <= i < |rows| ensures key <= rows[i].Keys { CommittedRowsFit(steps, t, i); }
    KeyedTableHoldsFirsts(rows, key);
    FirstsAreRows(rows, key);
    forall i | 0 <= i < |rows| ensures HoldsKeyOf(FirstOfEachKey(rows, key), rows[i], key) {
      FirstsHaveAllKeys(rows, key, i);
    }
    var stored := FirstOfEachKey(rows, key);
    forall i, j | 0 <= i < j < |stored| ensures !SameKey(stored[i], stored[j], key) { FirstsDiffer(rows, key, i, j); }
  }

  /** A table without a primary key holds every row the run committed, in commit order. */
  lemma UnkeyedTableHoldsAllCommitted(steps: seq<Step>, log: seq<Transactions.Statement>, t: string)
    requires (forall i :: 0 <= i < |steps| ==> ProperStep(steps[i])) && Leaves(steps, log) && PrimaryKey(t).None?
    ensures Transactions.TableAfter(log, t) == RowsOf(Run(steps).committed, t)
  {
    TableHoldsCommittedRows(steps, log, t);
    UnkeyedTableHoldsAll([], RowsOf(Run(steps).committed, t));
    assert [] + RowsOf(Run(steps).committed, t) == RowsOf(Run(steps).committed, t);
  }
}
