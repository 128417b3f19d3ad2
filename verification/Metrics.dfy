/** The metric registry, the decoding of one data change, and the database schema. */
module Metrics {
  import opened Wrappers

  datatype Cell = Null | Time(at: int) | Text(text: string)

  /** A row to store: column name to value. */
  type Row = map<string, Cell>

  // ---- what a node delivers ----

  /** One element of the JSON array; the timestamp is None when missing or unreadable. */
  datatype Json = Json(timestamp: Option<int>, fields: map<string, string>)

  datatype Body = Falsy | NotTheExpectedJson | Items(items: seq<Json>)
  datatype Variant = Variant(text: string, body: Body)
  datatype Status = Status(good: bool, name: string)
  datatype DataValue = DataValue(
    status: Option<Status>, value: Option<Variant>, source: Option<int>, server: Option<int>)

  // ---- the registry ----

  datatype Metric = Metric(
    name: string, table: string, required: set<string>, optional: set<string>,
    columns: map<string, string>, idempotent: bool)
  {
    function Fields(): set<string> { required + optional + {"timestamp"} }

    function ColumnOf(field: string): string { if field in columns then columns[field] else field }

    /** Renaming never makes two fields of the model collide. */
    ghost predicate Renames() {
      forall f, g :: f in Fields() && g in Fields() && ColumnOf(f) == ColumnOf(g) ==> f == g
    }
  }

  const CPU := Metric("cpu", "cpu_usage", {"usage"}, {}, map[], false)
  const RAM := Metric("ram", "ram_usage", {"total_kb", "free_kb"}, {}, map[], false)
  const STORAGE := Metric("storage", "storage_usage", {"free_gb", "used_gb", "total_gb"}, {}, map[], false)
  const NETWORK := Metric("network", "network_usage",
    {"interface", "operational_status", "network_interface_type", "kb_bytes_sent", "kb_bytes_received"},
    {}, map[], false)
  const SERVICES := Metric("services", "services",
    {"name", "status", "service_type", "machine_name", "process_ids"}, {}, map[], false)
  const HEARTBEAT := Metric("heartbeat", "heartbeat_rtt", {"pair", "value", "rtt_ms"}, {}, map[], true)
  const ERRORS := Metric("errors", "agent_logs", {"level", "component", "message"}, {"traceback"}, map[], true)
  const EVENTS := Metric("events", "events", {"name", "source", "message", "hash"}, {},
    map["name" := "event_name"], true)

  /** `METRICS[name]`; None is a KeyError. */
  function Find(name: string): (m: Option<Metric>)
    ensures m.Some? ==> m.value.name == name
  {
    if name == "cpu" then Some(CPU)
    else if name == "ram" then Some(RAM)
    else if name == "storage" then Some(STORAGE)
    else if name == "network" then Some(NETWORK)
    else if name == "services" then Some(SERVICES)
    else if name == "heartbeat" then Some(HEARTBEAT)
    else if name == "errors" then Some(ERRORS)
    else if name == "events" then Some(EVENTS)
    else None
  }

  /** `m` is one of the eight registered metrics. */
  predicate Registered(m: Metric) { Find(m.name) == Some(m) }

  /** These eight and no other. */
  lemma RegistryIs(m: Metric)
    ensures Registered(m) <==> m in {CPU, RAM, STORAGE, NETWORK, SERVICES, HEARTBEAT, ERRORS, EVENTS}
  {}

  lemma RegistryRenames(m: Metric)
    requires Registered(m)
    ensures m.Renames()
  {}

  // ---- decoding ----

  datatype Model = Model(timestamp: int, fields: map<string, Cell>)

  /** Pydantic validation: required fields present, extra ones ignored, optional ones defaulted. */
  function Validate(m: Metric, item: Json): (r: Result<Model>)
    ensures r.Ok? ==> r.value.fields.Keys == m.required + m.optional
  {
    if item.timestamp.None? || !(m.required <= item.fields.Keys) then Err("validation error")
    else Ok(Model(item.timestamp.value,
                  map f | f in m.required + m.optional ::
                    if f in item.fields then Text(item.fields[f]) else Null))
  }

  function ValidateAll(m: Metric, items: seq<Json>): (r: Result<seq<Model>>)
    ensures r.Ok? ==> |r.value| == |items|
    ensures r.Ok? ==> forall i :: 0 <= i < |items| ==> Validate(m, items[i]) == Ok(r.value[i])
    ensures r.Err? <==> exists i :: 0 <= i < |items| && Validate(m, items[i]).Err?
  {
    if items == [] then Ok([]) else
      var head := Validate(m, items[0]);
      if head.Err? then Err(head.message) else
        var rest := ValidateAll(m, items[1..]);
        if rest.Err? then
          assert exists i :: 0 <= i < |items[1..]| && Validate(m, items[1..][i]).Err?;
          rest
        else Ok([head.value] + rest.value)
  }

  function Decode(m: Metric, dv: DataValue): (r: Result<seq<Model>>)
    ensures r.Ok? ==> forall i :: 0 <= i < |r.value| ==> r.value[i].fields.Keys == m.required + m.optional
  {
    if dv.status.Some? && !dv.status.value.good then Err("bad status")
    else if dv.value.None? then Ok([])
    else match dv.value.value.body
      case Falsy => Ok([])
      case NotTheExpectedJson => Err("invalid JSON")
      case Items(items) => ValidateAll(m, items)
  }

  /** `model.to_row()` with its fields renamed to columns. */
  function ToRow(m: Metric, model: Model): (row: Row)
    requires Registered(m) && model.fields.Keys == m.required + m.optional
  {
    RegistryRenames(m);
    var values := model.fields["timestamp" := Time(model.timestamp)];
    map f | f in values :: m.ColumnOf(f) := values[f]
  }

  function ToRows(m: Metric, models: seq<Model>): (rows: seq<Row>)
    requires Registered(m)
    requires forall i :: 0 <= i < |models| ==> models[i].fields.Keys == m.required + m.optional
    ensures |rows| == |models|
  {
    seq(|models|, i requires 0 <= i < |models| => ToRow(m, models[i]))
  }

  function Newest(models: seq<Model>): (t: int)
    requires models != []
    ensures exists i :: 0 <= i < |models| && models[i].timestamp == t
    ensures forall i :: 0 <= i < |models| ==> models[i].timestamp <= t
  {
    if |models| == 1 then models[0].timestamp else
      var rest := Newest(models[1..]);
      assert forall i :: 1 <= i < |models| ==> models[i] == models[1..][i - 1];
      if models[0].timestamp < rest then rest else models[0].timestamp
  }

  // ---- the schema ----

  const TAGS := {"tag", "value", "status_code", "source_timestamp", "server_timestamp", "logger_timestamp"}

  /** Columns of the tables the ingest pipeline feeds. */
  function Columns(table: string): Option<set<string>> {
    match table
    case "tags" => Some(TAGS)
    case "events" => Some({"hash", "timestamp", "event_name", "source", "message"})
    case "cpu_usage" => Some({"timestamp", "usage"})
    case "network_usage" =>
      Some({"timestamp", "interface", "operational_status", "network_interface_type",
            "kb_bytes_sent", "kb_bytes_received"})
    case "ram_usage" => Some({"timestamp", "total_kb", "free_kb"})
    case "services" => Some({"timestamp", "name", "status", "service_type", "machine_name", "process_ids"})
    case "heartbeat_rtt" => Some({"timestamp", "pair", "value", "rtt_ms"})
    case "agent_logs" => Some({"timestamp", "level", "component", "message", "traceback"})
    case "storage_usage" => Some({"timestamp", "total_gb", "used_gb", "free_gb"})
    case _ => None
  }

  function PrimaryKey(table: string): Option<set<string>> {
    match table
    case "events" => Some({"hash", "timestamp"})
    case "heartbeat_rtt" => Some({"pair", "value", "timestamp"})
    case "agent_logs" => Some({"timestamp", "component", "message"})
    case _ => None
  }

  lemma ColumnsOfRow(m: Metric, model: Model)
    requires Registered(m) && model.fields.Keys == m.required + m.optional
    ensures ToRow(m, model).Keys == set f | f in m.Fields() :: m.ColumnOf(f)
  {
    var values := model.fields["timestamp" := Time(model.timestamp)];
    assert values.Keys == m.Fields();
    var row := ToRow(m, model);
    forall c ensures c in row <==> exists f :: f in values && c == m.ColumnOf(f) {}
  }

  /** Renaming keeps every value: each field is found again under its column. */
  lemma RowKeepsEveryField(m: Metric, model: Model, f: string)
    requires Registered(m) && model.fields.Keys == m.required + m.optional && f in model.fields
    ensures f != "timestamp" && m.ColumnOf(f) in ToRow(m, model) && ToRow(m, model)[m.ColumnOf(f)] == model.fields[f]
    ensures "timestamp" in ToRow(m, model) && ToRow(m, model)["timestamp"] == Time(model.timestamp)
  {
    RegistryRenames(m);
    var values := model.fields["timestamp" := Time(model.timestamp)];
    assert f in values && "timestamp" in values && m.ColumnOf("timestamp") == "timestamp";
  }

  lemma TableOfMetric(m: Metric)
    requires Registered(m)
    ensures Columns(m.table) == Some(set f | f in m.Fields() :: m.ColumnOf(f))
  {
    var cols := set f | f in m.Fields() :: m.ColumnOf(f);
    if m == EVENTS {
      assert m.Fields() == {"name", "source", "message", "hash", "timestamp"};
      assert cols == {"event_name", "source", "message", "hash", "timestamp"};
    } else {
      assert cols == m.Fields();
    }
    assert Columns(m.table).Some? && Columns(m.table).value == cols;
  }

  /** A metric's rows have exactly the columns of its table. */
  lemma RowsFitTheTable(m: Metric, model: Model)
    requires Registered(m) && model.fields.Keys == m.required + m.optional
    ensures Columns(m.table) == Some(ToRow(m, model).Keys)
  {
    ColumnsOfRow(m, model);
    TableOfMetric(m);
  }

  /** Metrics and tables correspond one to one, and none of the tables is `tags`. */
  lemma TablesAreDistinct(m: Metric, n: Metric)
    requires Registered(m) && Registered(n)
    ensures m.table == n.table <==> m == n
    ensures m.table != "tags"
  {}
}
