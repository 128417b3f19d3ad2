/**
  One connection shared by the event loop and the writer threads. A transaction holds the
  lock from its first statement to its commit; what is executed stays open on the
  connection until somebody commits or rolls it back.
 */
module Transactions {
  import opened Wrappers
  import opened Metrics
  import opened Ingest
  import opened Tables

  datatype Statement = Statement(table: string, rows: seq<Row>)
  type Tx = seq<Statement>

  // ---- the interleavings ----

  datatype Progress = Progress(tx: Tx, done: nat)

  datatype Step =
    | Enter(thread: nat, tx: Tx)
    | Execute(thread: nat)
    | Commit(thread: nat)
    | Fail(thread: nat)      // an Exception, also one raised by the commit: roll back
    | Escape(thread: nat)    // any other BaseException: the lock goes, the statements stay

  datatype Shared = Shared(
    inside: map<nat, Progress>,      // the threads between entering and leaving a transaction
    open: seq<Statement>,            // executed on the connection, not committed
    durable: seq<Statement>,
    committed: seq<Tx>)              // the transactions that left through their commit, in order

  const IDLE := Shared(map[], [], [], [])

  /** `locking` false is the same program without the lock. */
  function Next(c: Shared, step: Step, locking: bool): Shared {
    match step
    case Enter(t, tx) =>
      if t in c.inside || (locking && c.inside != map[]) then c else c.(inside := c.inside[t := Progress(tx, 0)])
    case Execute(t) =>
      if t !in c.inside || c.inside[t].done >= |c.inside[t].tx| then c else
        var p := c.inside[t];
        c.(inside := c.inside[t := Progress(p.tx, p.done + 1)], open := c.open + [p.tx[p.done]])
    case Commit(t) =>
      if t !in c.inside || c.inside[t].done < |c.inside[t].tx| then c else
        Shared(c.inside - {t}, [], c.durable + c.open, c.committed + [c.inside[t].tx])
    case Fail(t) =>
      if t !in c.inside then c else c.(inside := c.inside - {t}, open := [])
    case Escape(t) =>
      if t !in c.inside then c else c.(inside := c.inside - {t})
  }

  function Run(steps: seq<Step>, locking: bool): Shared {
    if steps == [] then IDLE else Next(Run(steps[..|steps| - 1], locking), steps[|steps| - 1], locking)
  }

  function Flatten(txs: seq<Tx>): seq<Statement> {
    if txs == [] then [] else Flatten(txs[..|txs| - 1]) + txs[|txs| - 1]
  }

  /** At most one thread is inside; what is open is what was left over and what it has executed so far. */
  ghost predicate Alone(c: Shared, left: seq<Statement>) {
    && (forall t, u :: t in c.inside && u in c.inside ==> t == u)
    && (c.inside == map[] ==> c.open == left)
    && (forall t :: t in c.inside ==>
          c.inside[t].done <= |c.inside[t].tx| && c.open == left + c.inside[t].tx[..c.inside[t].done])
  }

  /** The open statements are exactly those of the one thread inside, so far. */
  ghost predicate Exclusive(c: Shared) { Alone(c, []) }

  ghost predicate WholeTransactions(c: Shared) { c.durable == Flatten(c.committed) }

  predicate Commits(c: Shared, step: Step) {
    step.Commit? && step.thread in c.inside && c.inside[step.thread].done >= |c.inside[step.thread].tx|
  }

  /** What threads that escaped have left executed on the connection since the last commit or rollback. */
  function Leftover(steps: seq<Step>): seq<Statement> {
    if steps == [] then [] else
      var n := |steps| - 1;
      var c := Run(steps[..n], true);
      match steps[n]
      case Escape(t) => if t in c.inside then c.open else Leftover(steps[..n])
      case Fail(t) => if t in c.inside then [] else Leftover(steps[..n])
      case Commit(_) => if Commits(c, steps[n]) then [] else Leftover(steps[..n])
      case _ => Leftover(steps[..n])
  }

  lemma AloneWithout(c: Shared, left: seq<Statement>, t: nat)
    requires Alone(c, left) && t in c.inside
    ensures c.inside - {t} == map[] && c.inside == map[t := c.inside[t]]
  {}

  lemma StepStaysAlone(c: Shared, left: seq<Statement>, step: Step)
    requires Alone(c, left)
    ensures var left' := if step.Escape? && step.thread in c.inside then c.open
                         else if (step.Fail? && step.thread in c.inside) || Commits(c, step) then [] else left;
            Alone(Next(c, step, true), left')
  {
    if step.thread in c.inside { AloneWithout(c, left, step.thread); }
    if step.Enter? { assert left + step.tx[..0] == left; }
    if step.Execute? && step.thread in c.inside && c.inside[step.thread].done < |c.inside[step.thread].tx| {
      var p := c.inside[step.thread];
      assert left + p.tx[..p.done] + [p.tx[p.done]] == left + p.tx[..p.done + 1];
    }
  }

  /** With the lock, in every run at most one thread is inside, and its statements are in one piece. */
  lemma {:induction false} LockedRunsAreAlone(steps: seq<Step>)
    ensures Alone(Run(steps, true), Leftover(steps))
  {
    hide Next;
    if steps == [] {
      assert Alone(IDLE, []);
    } else {
      LockedRunsAreAlone(steps[..|steps| - 1]);
      StepStaysAlone(Run(steps[..|steps| - 1], true), Leftover(steps[..|steps| - 1]), steps[|steps| - 1]);
    }
  }

  /**
    In every locked run, the next commit makes the leftover statements durable in front of
    its own whole transaction, and the next rollback discards them with its own.
   */
  lemma NextCommitTakesLeftovers(steps: seq<Step>, t: nat)
    requires t in Run(steps, true).inside
    ensures var c := Run(steps, true);
            && (Commits(c, Commit(t)) ==>
                  Next(c, Commit(t), true).durable == c.durable + Leftover(steps) + c.inside[t].tx)
            && Next(c, Fail(t), true).durable == c.durable && Next(c, Fail(t), true).open == []
  {
    LockedRunsAreAlone(steps);
    var c := Run(steps, true);
    assert c.inside[t].tx[..|c.inside[t].tx|] == c.inside[t].tx;
  }

  /** Every commit finds nothing left over. */
  ghost predicate CleanCommits(steps: seq<Step>) {
    forall n :: 0 <= n < |steps| && Commits(Run(steps[..n], true), steps[n]) ==> Leftover(steps[..n]) == []
  }

  lemma CleanStep(steps: seq<Step>)
    requires steps != []
    ensures var n := |steps| - 1;
            CleanCommits(steps) <==>
            CleanCommits(steps[..n]) && (Commits(Run(steps[..n], true), steps[n]) ==> Leftover(steps[..n]) == [])
  {
    hide Run, Leftover, Commits;
    var n := |steps| - 1;
    forall i | 0 <= i < n ensures steps[..n][..i] == steps[..i] {}
  }

  lemma CommitStep(c: Shared, left: seq<Statement>, step: Step)
    requires Alone(c, left)
    ensures var c' := Next(c, step, true);
            if Commits(c, step) then
              var tx := c.inside[step.thread].tx;
              c'.durable == c.durable + left + tx && Flatten(c'.committed) == Flatten(c.committed) + tx
            else c'.durable == c.durable && c'.committed == c.committed
  {
    if Commits(c, step) {
      var tx := c.inside[step.thread].tx;
      assert tx[..|tx|] == tx;
      assert (c.committed + [tx])[..|c.committed|] == c.committed;
    }
  }

  lemma NothingCommitted()
    ensures CleanCommits([]) && Flatten([]) == []
  {}

  lemma {:induction false} DurableExactly(steps: seq<Step>)
    ensures var c := Run(steps, true);
            if CleanCommits(steps) then WholeTransactions(c) else |c.durable| > |Flatten(c.committed)|
  {
    hide Next, Leftover, Alone, CleanCommits, Commits, Flatten;
    if steps == [] {
      NothingCommitted();
    } else {
      var n := |steps| - 1;
      DurableExactly(steps[..n]);
      LockedRunsAreAlone(steps[..n]);
      CleanStep(steps);
      CommitStep(Run(steps[..n], true), Leftover(steps[..n]), steps[n]);
    }
  }

  /**
    With the lock, for every interleaving of any number of threads, statements, failures
    and escapes: the database is a sequence of complete transactions in lock order if and
    only if no commit found statements that an escape had left over.
   */
  lemma LockedRunsAreAtomicIff(steps: seq<Step>)
    ensures WholeTransactions(Run(steps, true)) <==> CleanCommits(steps)
  {
    DurableExactly(steps);
  }

  /** A thread leaves by an exception that is not an `Exception` only before its first statement. */
  ghost predicate HarmlessEscapes(steps: seq<Step>) {
    forall n :: 0 <= n < |steps| && steps[n].Escape? && steps[n].thread in Run(steps[..n], true).inside ==>
      Run(steps[..n], true).inside[steps[n].thread].done == 0
  }

  lemma {:induction false} NothingIsLeftOver(steps: seq<Step>)
    requires HarmlessEscapes(steps)
    ensures Leftover(steps) == []
  {
    hide Run;
    if steps == [] {
      assert Leftover(steps) == [];
    } else {
      var n := |steps| - 1;
      assert HarmlessEscapes(steps[..n]) by {
        forall i | 0 <= i < n ensures steps[..n][..i] == steps[..i] {}
      }
      NothingIsLeftOver(steps[..n]);
      LockedRunsAreAlone(steps[..n]);
    }
  }

  lemma HarmlessSoFar(steps: seq<Step>, n: nat)
    requires HarmlessEscapes(steps) && n <= |steps|
    ensures HarmlessEscapes(steps[..n])
  {
    hide Run;
    forall i | 0 <= i < n ensures steps[..n][..i] == steps[..i] {}
  }

  /** So with the lock the database is always whole, and only the transaction inside has statements open. */
  lemma LockedRunsAreAtomic(steps: seq<Step>)
    requires HarmlessEscapes(steps)
    ensures Exclusive(Run(steps, true)) && WholeTransactions(Run(steps, true))
  {
    hide Run, Leftover, Alone, HarmlessEscapes;
    forall n | 0 <= n < |steps| ensures Leftover(steps[..n]) == [] {
      assert HarmlessEscapes(steps[..n]) by { HarmlessSoFar(steps, n); }
      NothingIsLeftOver(steps[..n]);
    }
    NothingIsLeftOver(steps);
    LockedRunsAreAlone(steps);
    DurableExactly(steps);
  }

  /** Every commit makes durable the statements of exactly one whole transaction. */
  lemma CommitIsOneTransaction(steps: seq<Step>, t: nat)
    requires HarmlessEscapes(steps) && Commits(Run(steps, true), Commit(t))
    ensures var c := Run(steps, true); Next(c, Commit(t), true).durable == c.durable + c.inside[t].tx
  {
    hide Run, Next, Leftover, HarmlessEscapes;
    NothingIsLeftOver(steps);
    NextCommitTakesLeftovers(steps, t);
    var c := Run(steps, true);
    assert c.durable + [] == c.durable;
  }

  lemma RunMore(steps: seq<Step>, step: Step, locking: bool)
    ensures Run(steps + [step], locking) == Next(Run(steps, locking), step, locking)
  {
    assert (steps + [step])[..|steps|] == steps;
  }

  const HALF := Statement("tags", [])
  const OTHER := Statement("events", [])

  lemma EmptyRun()
    ensures Run([], false) == IDLE
  {}

  /** Without the lock, one thread's commit takes half of another thread's transaction with it. */
  lemma WithoutTheLockTransactionsTear()
    ensures var steps := [Enter(0, [HALF, HALF])] + [Execute(0)] + [Enter(1, [OTHER])] + [Execute(1)] + [Commit(1)];
            var c := Run(steps, false);
            c.durable == [HALF, OTHER] && c.committed == [[OTHER]] && !WholeTransactions(c)
  {
    hide Run;
    var s1: seq<Step> := [Enter(0, [HALF, HALF])];
    var s2 := s1 + [Execute(0)];
    var s3 := s2 + [Enter(1, [OTHER])];
    var s4 := s3 + [Execute(1)];
    EmptyRun();
    RunMore([], Enter(0, [HALF, HALF]), false);
    assert [] + s1 == s1;
    RunMore(s1, Execute(0), false);
    RunMore(s2, Enter(1, [OTHER]), false);
    RunMore(s3, Execute(1), false);
    assert Run(s4, false).open == [HALF, OTHER];
    RunMore(s4, Commit(1), false);
    assert [[OTHER]][..0] == [];
    assert Flatten([[OTHER]]) == [OTHER];
  }

  /**
    An exit that is not an `Exception` keeps the connection clean exactly when the
    transaction had executed nothing yet.
   */
  lemma EscapeIsCleanIffNothingRan(c: Shared, t: nat)
    requires Exclusive(c) && t in c.inside
    ensures Exclusive(Next(c, Escape(t), true)) <==> c.inside[t].done == 0
  {
    AloneWithout(c, [], t);
  }

  // ---- the tables after a log of statements ----

  function TableAfter(log: seq<Statement>, t: string): seq<Row> {
    if log == [] then [] else
      var st := log[|log| - 1];
      var before := TableAfter(log[..|log| - 1], t);
      if st.table == t then InsertRows(before, st.rows, PrimaryKey(t)) else before
  }

  function RowsFor(log: seq<Statement>, t: string): seq<Row> {
    if log == [] then [] else
      var st := log[|log| - 1];
      RowsFor(log[..|log| - 1], t) + if st.table == t then st.rows else []
  }

  /** A table holds its statements' rows, each inserted unless its key was there. */
  lemma {:induction false} TableIsItsRows(log: seq<Statement>, t: string)
    ensures TableAfter(log, t) == InsertRows([], RowsFor(log, t), PrimaryKey(t))
  {
    if log == [] {
    } else {
      var n := |log| - 1;
      TableIsItsRows(log[..n], t);
      if log[n].table == t {
        BatchesConcatenate([], RowsFor(log[..n], t), log[n].rows, PrimaryKey(t));
      } else {
        assert RowsFor(log, t) == RowsFor(log[..n], t);
      }
    }
  }

  lemma {:induction false} RowsForAppend(a: seq<Statement>, b: seq<Statement>, t: string)
    ensures RowsFor(a + b, t) == RowsFor(a, t) + RowsFor(b, t)
  {
    if b == [] {
      assert a + b == a;
    } else {
      RowsForAppend(a, b[..|b| - 1], t);
      assert (a + b)[..|a + b| - 1] == a + b[..|b| - 1];
    }
  }

  /** For a table with a primary key, a transaction that is retried after it was committed is harmless. */
  lemma RetryIsHarmless(log: seq<Statement>, tx: Tx, t: string)
    requires PrimaryKey(t).Some?
    ensures TableAfter(log + tx + tx, t) == TableAfter(log + tx, t)
  {
    var key := PrimaryKey(t);
    TableIsItsRows(log + tx + tx, t);
    TableIsItsRows(log + tx, t);
    RowsForAppend(log + tx, tx, t);
    RowsForAppend(log, tx, t);
    BatchesConcatenate([], RowsFor(log, t) + RowsFor(tx, t), RowsFor(tx, t), key);
    BatchesConcatenate([], RowsFor(log, t), RowsFor(tx, t), key);
    RepeatsNeedAKey(key);
  }

  // ---- the statements of a batch ----

  lemma NoRows()
    ensures forall t :: RowsFor([], t) == []
  {}

  lemma OneMoreStatement(log: seq<Statement>, st: Statement)
    ensures forall t :: RowsFor(log + [st], t) == RowsFor(log, t) + if st.table == t then st.rows else []
  {
    assert (log + [st])[..|log|] == log;
  }

  /** The statements one after the other. */
  method InOrder(built: map<string, Insert>) returns (tx: Tx)
    ensures forall t :: RowsFor(tx, t) == if t in built then built[t].rows else []
  {
    hide RowsFor;
    tx := [];
    assert forall t :: RowsFor(tx, t) == [] by { NoRows(); }
    var todo := built.Keys;
    while todo != {}
      invariant todo <= built.Keys
      invariant forall t :: RowsFor(tx, t) == if t in built && t !in todo then built[t].rows else []
      decreases todo
    {
      var t :| t in todo;
      var st := Statement(t, built[t].rows);
      OneMoreStatement(tx, st);
      assert RowsFor(tx + [st], t) == built[t].rows by { assert RowsFor(tx, t) == []; }
      tx, todo := tx + [st], todo - {t};
    }
  }

  /** One statement per table that has rows; None when some table cannot be written. */
  method TransactionFor(batch: Batch) returns (tx: Option<Tx>)
    ensures tx.Some? <==> forall t :: t in batch && batch[t] != [] ==> Writable(t, batch[t])
    ensures tx.Some? ==> forall t :: RowsFor(tx.value, t) == WrittenRows(batch, t)
  {
    hide Writable, RowsFor;
    var built := Statements(batch);
    if built.Err? { return None; }
    var log := InOrder(built.value);
    return Some(log);
  }

  // ---- the class ----

  /** What stops a transaction: the statement with this index, or the commit after the last one. */
  type Fault = Option<nat>

  class ProjectDatabase {
    var open: seq<Statement>
    var durable: seq<Statement>

    ghost predicate Clean()
      reads this
    {
      open == []
    }

    constructor ()
      ensures Clean() && durable == []
    {
      open, durable := [], [];
    }

    /** The body runs under the lock; any error rolls everything back. */
    method Transaction(tx: Tx, fault: Fault) returns (ok: bool)
      requires Clean()
      modifies this
      ensures Clean()
      ensures ok <==> fault.None? || fault.value > |tx|
      ensures durable == if ok then old(durable) + tx else old(durable)
    {
      var i := 0;
      while i < |tx|
        invariant i <= |tx| && open == tx[..i] && durable == old(durable)
        invariant fault.Some? ==> i <= fault.value
      {
        if fault == Some(i) {
          open := [];
          return false;
        }
        open := open + [tx[i]];
        i := i + 1;
      }
      if fault == Some(|tx|) {
        open := [];
        return false;
      }
      durable, open := durable + open, [];
      return true;
    }

    /** One transaction for the whole batch; a batch that cannot be built touches nothing. */
    method InsertMany(batch: Batch, fault: Fault) returns (ok: bool)
      requires Clean()
      modifies this
      ensures Clean()
      ensures ok ==> forall t :: t in batch && batch[t] != [] ==> Writable(t, batch[t])
      ensures fault.None? && (forall t :: t in batch && batch[t] != [] ==> Writable(t, batch[t])) ==> ok
      ensures forall t :: RowsFor(durable, t) == RowsFor(old(durable), t) + if ok then WrittenRows(batch, t) else []
    {
      var built := TransactionFor(batch);
      if built.None? { return false; }
      var tx := built.value;
      if tx == [] {
        forall t ensures WrittenRows(batch, t) == [] { assert RowsFor(tx, t) == []; }
        return true;
      }
      ok := Transaction(tx, fault);
      forall t ensures RowsFor(old(durable) + tx, t) == RowsFor(old(durable), t) + WrittenRows(batch, t) {
        RowsForAppend(old(durable), tx, t);
      }
    }
  }
}
