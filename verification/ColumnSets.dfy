/** In every reachable state all pending rows of a table have that table's columns. */
module ColumnSets {
  import opened Wrappers
  import opened Metrics
  import opened Ingest
  import opened IngestRuns
  import opened Tables

  ghost predicate Fits(batch: Batch) {
    forall t :: t in batch ==>
      Columns(t).Some? && forall i :: 0 <= i < |batch[t]| ==> batch[t][i].Keys == Columns(t).value
  }

  lemma ExtendFits(batch: Batch, t: string, rows: seq<Row>)
    requires Fits(batch) && Columns(t).Some? && forall i :: 0 <= i < |rows| ==> rows[i].Keys == Columns(t).value
    ensures Fits(Extend(batch, t, rows))
  {
    hide Columns;
  }

  lemma TagsTable()
    ensures Columns("tags") == Some(TAGS)
  {}

  lemma DecodeFits(s: State, item: Item)
    requires Fits(s.pending)
    ensures Fits(DecodeOne(s, item).pending)
  {
    hide Fits, Columns, Decode, Find, ToRow;
    match item
    case MetricItem(name, _) =>
      var models := Carried(item);
      if models != [] {
        var m := Find(name).value;
        forall i | 0 <= i < |models| ensures Columns(m.table) == Some(ToRows(m, models)[i].Keys) {
          RowsFitTheTable(m, models[i]);
        }
        assert Columns(m.table) == Some(ToRows(m, models)[0].Keys);
        ExtendFits(s.pending, m.table, ToRows(m, models));
      }
    case TagItem(_, value, _) =>
      if value.value.Some? {
        TagsTable();
        ExtendFits(s.pending, "tags", [TagRow(item)]);
      }
  }

  lemma {:induction false} QueueFits(s: State, n: nat)
    requires n <= |s.queue| && Fits(s.pending)
    ensures Fits(DecodeFirst(s, n).pending)
  {
    hide Fits, DecodeOne;
    if n == 0 {
    } else {
      QueueFits(s, n - 1);
      DecodeFits(DecodeFirst(s, n - 1), s.queue[n - 1]);
    }
  }

  lemma RequeueFits(pending: Batch, batch: Batch)
    requires Fits(pending) && Fits(batch)
    ensures Fits(Requeue(pending, batch))
  {
    hide Columns;
  }

  /** The caller of `add_model` hands in a row of the table's own model. */
  predicate ProperStep(step: Step) {
    step.Measure? ==> Columns(step.table) == Some(step.row.Keys)
  }

  ghost predicate AllFit(w: World) { Fits(w.ingest.pending) && Fits(w.inFlight) }

  lemma NothingFits()
    ensures Fits(map[])
  {}

  lemma StepFits(w: World, step: Step)
    requires AllFit(w) && ProperStep(step)
    ensures AllFit(Next(w, step))
  {
    hide Fits, Columns, DecodeFirst, Merge, Grown, CutRows, Requeue, Extend;
    NothingFits();
    match step
    case Flush => QueueFits(w.ingest, |w.ingest.queue|);
    case Failed => RequeueFits(w.ingest.pending, w.inFlight);
    case Measure(table, row) => ExtendFits(w.ingest.pending, table, [row]);
    case _ =>
  }

  /** Despite the renamed columns and the second feeder, a batch never mixes column sets. */
  lemma {:induction false} RunsFit(steps: seq<Step>)
    requires forall i :: 0 <= i < |steps| ==> ProperStep(steps[i])
    ensures AllFit(Run(steps))
  {
    hide Next, Fits, ProperStep;
    NothingFits();
    if steps == [] {
    } else {
      RunsFit(steps[..|steps| - 1]);
      StepFits(Run(steps[..|steps| - 1]), steps[|steps| - 1]);
    }
  }

  lemma TableNames()
    ensures IsWord("tags") && IsWord("events") && IsWord("cpu_usage") && IsWord("network_usage")
  {}

  lemma MachineTableNames()
    ensures IsWord("ram_usage") && IsWord("services") && IsWord("heartbeat_rtt")
  {}

  lemma LogTableNames()
    ensures IsWord("agent_logs") && IsWord("storage_usage")
  {}

  lemma TagColumns()
    ensures IsWord("tag") && IsWord("value") && IsWord("status_code") && IsWord("source_timestamp")
  {}

  lemma TimeColumns()
    ensures IsWord("server_timestamp") && IsWord("logger_timestamp") && IsWord("hash") && IsWord("timestamp")
  {}

  lemma EventColumns()
    ensures IsWord("event_name") && IsWord("source") && IsWord("message") && IsWord("usage") && IsWord("interface")
  {}

  lemma InterfaceColumns()
    ensures IsWord("operational_status") && IsWord("network_interface_type")
  {}

  lemma TrafficColumns()
    ensures IsWord("kb_bytes_sent") && IsWord("kb_bytes_received") && IsWord("total_kb") && IsWord("free_kb")
  {}

  lemma ServiceColumns()
    ensures IsWord("name") && IsWord("status") && IsWord("service_type") && IsWord("machine_name")
  {}

  lemma HeartbeatColumns()
    ensures IsWord("process_ids") && IsWord("pair") && IsWord("rtt_ms") && IsWord("level") && IsWord("component")
  {}

  lemma StorageColumns()
    ensures IsWord("traceback") && IsWord("total_gb") && IsWord("used_gb") && IsWord("free_gb")
  {}

  lemma NamesAreWords(t: string)
    requires Columns(t).Some?
    ensures IsWord(t) && forall c :: c in Columns(t).value ==> IsWord(c)
  {
    hide IsWord;
    TableNames(); MachineTableNames(); LogTableNames(); TagColumns(); TimeColumns(); EventColumns();
    InterfaceColumns(); TrafficColumns(); ServiceColumns(); HeartbeatColumns(); StorageColumns();
  }

  lemma SchemaIdentifiers(t: string)
    requires Columns(t).Some?
    ensures ValidIdentifier(t) && forall c :: c in Columns(t).value ==> ValidIdentifier(c)
  {
    hide IsWord, Columns;
    NamesAreWords(t);
  }

  /** So `insert_many` never fails on its own: every statement is built, and drops no column. */
  lemma BatchesAreWritable(steps: seq<Step>, t: string)
    requires forall i :: 0 <= i < |steps| ==> ProperStep(steps[i])
    requires t in Run(steps).inFlight && Run(steps).inFlight[t] != []
    ensures var rows := Run(steps).inFlight[t];
            && Writable(t, rows)
            && forall i :: 0 <= i < |rows| ==> Project(rows[i], rows[0].Keys) == rows[i]
  {
    hide Run, Columns, ValidIdentifier;
    RunsFit(steps);
    SchemaIdentifiers(t);
  }

  // ---- rows that are not of the table's model ----

  lemma TwoRowsInFlight(t: string, first: Row, second: Row)
    ensures Run([Measure(t, first)] + [Measure(t, second)] + [Flush]).inFlight == map[t := [first, second]]
  {
    hide Run, Merge, Grown;
    var s1: seq<Step> := [Measure(t, first)];
    NothingRun();
    RunMore([], s1[0]);
    assert [] + s1 == s1;
    RunMore(s1, Measure(t, second));
    RunMore(s1 + [Measure(t, second)], Flush);
    var s := Run(s1 + [Measure(t, second)]).ingest;
    assert [] + [first] == [first] && [first] + [second] == [first, second];
    assert s.pending == map[t := [first, second]] && s.queue == [];
    assert DecodeQueued(s) == s;
  }

  /** A row without a column of the row before it makes the whole batch unwritable. */
  lemma ImproperRowsStopTheWrite(t: string, first: Row, second: Row)
    requires !(first.Keys <= second.Keys)
    ensures var batch := Run([Measure(t, first)] + [Measure(t, second)] + [Flush]).inFlight;
            t in batch && batch[t] != [] && !Writable(t, batch[t])
  {
    hide Run;
    TwoRowsInFlight(t, first, second);
    var rows := [first, second];
    assert rows[0] == first && rows[1] == second;
  }
}
