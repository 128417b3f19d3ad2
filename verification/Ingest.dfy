/**
  The queue between the OPC UA notifications and the database. The functions say what
  each step does to the state; the class below does it in place and is proved to match.
 */
module Ingest {
  import opened Wrappers
  import opened Metrics

  const QUEUE_MAX_ITEMS := 100_000
  const MAX_PENDING_ROWS_PER_TABLE := 500_000

  datatype Item =
    | MetricItem(name: string, value: DataValue)
    | TagItem(tag: string, value: DataValue, receivedAt: int)

  type Batch = map<string, seq<Row>>

  function RowsOf(batch: Batch, table: string): seq<Row> {
    if table in batch then batch[table] else []
  }

  /** `setdefault(table, []).extend(rows)` */
  function Extend(batch: Batch, table: string, rows: seq<Row>): (b: Batch)
    ensures RowsOf(b, table) == RowsOf(batch, table) + rows
    ensures forall t :: t != table ==> RowsOf(b, t) == RowsOf(batch, t)
  {
    batch[table := RowsOf(batch, table) + rows]
  }

  datatype State = State(
    queue: seq<Item>, dropped: nat, pending: Batch,
    last: map<string, int>, awaiting: set<string>, failing: bool)

  const FRESH := State([], 0, map[], map[], {}, false)

  // ---- called from the notification handler ----

  function Put(s: State, item: Item): State {
    if |s.queue| >= QUEUE_MAX_ITEMS then s.(queue := s.queue[1..] + [item], dropped := s.dropped + 1)
    else s.(queue := s.queue + [item])
  }

  function AddRow(s: State, table: string, row: Row): State {
    s.(pending := Extend(s.pending, table, [row]))
  }

  function NewSession(s: State, metrics: set<string>): State {
    s.(awaiting := metrics)
  }

  // ---- decoding ----

  /** The models a metric item carries: none when it cannot be decoded or is empty. */
  function Carried(item: Item): (models: seq<Model>)
    ensures models != [] ==> item.MetricItem? && Find(item.name).Some?
    ensures models != [] ==> var m := Find(item.name).value;
              forall i :: 0 <= i < |models| ==> models[i].fields.Keys == m.required + m.optional
  {
    if item.TagItem? || Find(item.name).None? then [] else
      match Decode(Find(item.name).value, item.value)
      case Ok(models) => models
      case Err(_) => []
  }

  /** The value a server redelivers on subscribe when its sample is already stored. */
  predicate Redelivered(s: State, m: Metric, newest: int) {
    m.name in s.awaiting && !m.idempotent && m.name in s.last && newest <= s.last[m.name]
  }

  function AddMetric(s: State, m: Metric, models: seq<Model>): State
    requires Registered(m) && models != []
    requires forall i :: 0 <= i < |models| ==> models[i].fields.Keys == m.required + m.optional
  {
    var newest := Newest(models);
    var s' := s.(awaiting := s.awaiting - {m.name});
    if Redelivered(s, m, newest) then s' else
      s'.(last := s.last[m.name := if m.name in s.last && newest < s.last[m.name] then s.last[m.name] else newest],
          pending := Extend(s.pending, m.table, ToRows(m, models)))
  }

  function OrNull(t: Option<int>): Cell {
    match t case Some(x) => Time(x) case None => Null
  }

  function TagRow(item: Item): (row: Row)
    requires item.TagItem? && item.value.value.Some?
    ensures row.Keys == TAGS
  {
    map["tag" := Text(item.tag), "value" := Text(item.value.value.value.text),
        "status_code" := Text(match item.value.status case Some(st) => st.name case None => "Unknown"),
        "source_timestamp" := OrNull(item.value.source), "server_timestamp" := OrNull(item.value.server),
        "logger_timestamp" := Time(item.receivedAt)]
  }

  function DecodeOne(s: State, item: Item): State {
    match item
    case MetricItem(name, _) =>
      if Carried(item) == [] then s else AddMetric(s, Find(name).value, Carried(item))
    case TagItem(_, value, _) =>
      if value.value.None? then s else s.(pending := Extend(s.pending, "tags", [TagRow(item)]))
  }

  function DecodeFirst(s: State, n: nat): State
    requires n <= |s.queue|
  {
    if n == 0 then s else DecodeOne(DecodeFirst(s, n - 1), s.queue[n - 1])
  }

  function DecodeQueued(s: State): State {
    DecodeFirst(s, |s.queue|).(queue := [])
  }

  // ---- writing ----

  /** Decodes everything, reports the drops and takes the pending rows out to be written. */
  function BeginFlush(s: State): (State, Batch) {
    var d := DecodeQueued(s).(dropped := 0);
    (d.(pending := map[]), d.pending)
  }

  function Trim(rows: seq<Row>): seq<Row> {
    if |rows| > MAX_PENDING_ROWS_PER_TABLE then rows[|rows| - MAX_PENDING_ROWS_PER_TABLE..] else rows
  }

  /** A failed batch goes back in front of the rows that arrived meanwhile, oldest rows cut. */
  function Requeue(pending: Batch, batch: Batch): Batch {
    map t | t in batch.Keys + pending.Keys ::
      if t in batch then Trim(batch[t] + RowsOf(pending, t)) else pending[t]
  }

  function WriteFailed(s: State, batch: Batch): State {
    s.(pending := Requeue(s.pending, batch), failing := true)
  }

  function WriteSucceeded(s: State): State {
    s.(failing := false)
  }

  lemma RequeueAt(pending: Batch, batch: Batch, t: string)
    ensures RowsOf(Requeue(pending, batch), t) ==
            if t in batch then Trim(batch[t] + RowsOf(pending, t)) else RowsOf(pending, t)
  {}

  lemma RequeueNothing(pending: Batch)
    ensures Requeue(pending, map[]) == pending
  {}

  lemma RequeueOneMore(pending: Batch, done: Batch, table: string, rows: seq<Row>)
    requires table !in done
    ensures RowsOf(Requeue(pending, done), table) == RowsOf(pending, table)
    ensures Requeue(pending, done[table := rows]) ==
            Requeue(pending, done)[table := Trim(rows + RowsOf(pending, table))]
  {}

  // ---- the class ----

  lemma QueueDoesNotMatter(s: State, queue: seq<Item>, item: Item)
    ensures DecodeOne(s.(queue := queue), item) == DecodeOne(s, item).(queue := queue)
  {
    hide Registered, Find, Decode;
  }

  class IngestQueue {
    var queue: seq<Item>
    var dropped: nat
    var pending: Batch
    var lastTimestamp: map<string, int>
    var awaitingFirst: set<string>
    var writeFailing: bool

    ghost function Value(): State
      reads this
    {
      State(queue, dropped, pending, lastTimestamp, awaitingFirst, writeFailing)
    }

    constructor ()
      ensures Value() == FRESH
    {
      queue, dropped, pending := [], 0, map[];
      lastTimestamp, awaitingFirst, writeFailing := map[], {}, false;
    }

    method StartSession(metrics: set<string>)
      modifies this
      ensures Value() == NewSession(old(Value()), metrics)
    {
      awaitingFirst := metrics;
    }

    method Enqueue(item: Item)
      modifies this
      ensures Value() == Put(old(Value()), item)
    {
      if |queue| >= QUEUE_MAX_ITEMS {
        queue := queue[1..];
        dropped := dropped + 1;
      }
      queue := queue + [item];
    }

    method AddModel(table: string, row: Row)
      modifies this
      ensures Value() == AddRow(old(Value()), table, row)
    {
      pending := pending[table := RowsOf(pending, table) + [row]];
    }

    method AddMetricModels(m: Metric, models: seq<Model>)
      requires Registered(m) && models != []
      requires forall i :: 0 <= i < |models| ==> models[i].fields.Keys == m.required + m.optional
      modifies this
      ensures Value() == AddMetric(old(Value()), m, models)
    {
      hide Registered, ToRows;
      var newest := Newest(models);
      var first := m.name in awaitingFirst;
      awaitingFirst := awaitingFirst - {m.name};
      if first && !m.idempotent && m.name in lastTimestamp && newest <= lastTimestamp[m.name] {
        return;
      }
      if m.name !in lastTimestamp || lastTimestamp[m.name] <= newest {
        lastTimestamp := lastTimestamp[m.name := newest];
      } else {
        assert lastTimestamp == lastTimestamp[m.name := lastTimestamp[m.name]];
      }
      pending := pending[m.table := RowsOf(pending, m.table) + ToRows(m, models)];
    }

    method DecodeItem(item: Item)
      modifies this
      ensures Value() == DecodeOne(old(Value()), item)
    {
      match item
      case MetricItem(name, value) =>
        var metric := Find(name);
        if metric.Some? {
          var decoded := Decode(metric.value, value);
          if decoded.Ok? && decoded.value != [] {
            AddMetricModels(metric.value, decoded.value);
          }
        }
      case TagItem(_, value, _) =>
        if value.value.Some? {
          pending := pending["tags" := RowsOf(pending, "tags") + [TagRow(item)]];
        }
    }

    method DecodeAll()
      modifies this
      ensures Value() == DecodeQueued(old(Value()))
    {
      hide DecodeOne;
      ghost var start := Value();
      ghost var n := 0;
      while queue != []
        invariant n <= |start.queue| && queue == start.queue[n..]
        invariant Value() == DecodeFirst(start, n).(queue := queue)
        decreases |queue|
      {
        var item := queue[0];
        queue := queue[1..];
        QueueDoesNotMatter(DecodeFirst(start, n), queue, item);
        DecodeItem(item);
        n := n + 1;
      }
    }

    /** The part of `flush` before the write is handed to the worker thread. */
    method StartFlush() returns (batch: Batch)
      modifies this
      ensures (Value(), batch) == BeginFlush(old(Value()))
    {
      DecodeAll();
      dropped := 0;
      batch, pending := pending, map[];
    }

    method PutBack(batch: Batch)
      modifies this
      ensures Value() == old(Value()).(pending := Requeue(old(Value()).pending, batch))
    {
      hide Requeue;
      ghost var before, done := pending, map[];
      RequeueNothing(before);
      var todo := batch.Keys;
      while todo != {}
        invariant todo <= batch.Keys && done.Keys == batch.Keys - todo
        invariant forall t :: t in done ==> done[t] == batch[t]
        invariant Value() == old(Value()).(pending := pending) && pending == Requeue(before, done)
        decreases todo
      {
        var table :| table in todo;
        RequeueOneMore(before, done, table, batch[table]);
        var kept := batch[table] + RowsOf(pending, table);
        if |kept| > MAX_PENDING_ROWS_PER_TABLE {
          var lost := |kept| - MAX_PENDING_ROWS_PER_TABLE;
          kept := kept[lost..];
        }
        pending := pending[table := kept];
        done, todo := done[table := batch[table]], todo - {table};
      }
      assert done == batch;
    }

    /** The part of `flush` after the write came back. */
    method FinishFlush(batch: Batch, written: bool)
      modifies this
      ensures Value() == if written then WriteSucceeded(old(Value())) else WriteFailed(old(Value()), batch)
    {
      if !written {
        PutBack(batch);
        writeFailing := true;
        return;
      }
      if writeFailing { writeFailing := false; }
    }
  }
}
