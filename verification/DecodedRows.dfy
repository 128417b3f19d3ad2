/** From what a node delivers to the rows it becomes, field by field. */
module DecodedRows {
  import opened Wrappers
  import opened Metrics
  import opened Ingest
  import opened Redelivery

  // ---- a metric ----

  /** An element of the array that is a model of the metric: dated, and with every required field. */
  ghost predicate Acceptable(m: Metric, json: Json) {
    json.timestamp.Some? && forall f :: f in m.required ==> f in json.fields
  }

  /** The delivered value is good and holds a non-empty array of models of the metric. */
  ghost predicate Brings(m: Metric, dv: DataValue, items: seq<Json>) {
    && (dv.status.Some? ==> dv.status.value.good)
    && dv.value.Some? && dv.value.value.body == Items(items)
    && items != [] && forall i :: 0 <= i < |items| ==> Acceptable(m, items[i])
  }

  /** The row holds the timestamp and, under its column, every field of the model; an absent optional one is null. */
  ghost predicate Holds(m: Metric, json: Json, row: Row) {
    && json.timestamp.Some? && "timestamp" in row && row["timestamp"] == Time(json.timestamp.value)
    && (forall f :: f in m.required + m.optional ==>
          var c := if f in m.columns then m.columns[f] else f;
          c in row && row[c] == if f in json.fields then Text(json.fields[f]) else Null)
    && (forall c :: c in row ==> c == "timestamp" || exists f :: f in m.required + m.optional && c == m.ColumnOf(f))
  }

  /** One row for every element, in order. */
  ghost predicate RowPerItem(m: Metric, items: seq<Json>, rows: seq<Row>) {
    |rows| == |items| && forall i :: 0 <= i < |items| ==> Holds(m, items[i], rows[i])
  }

  /** The latest of the timestamps. */
  ghost predicate LatestOf(items: seq<Json>, t: int) {
    && (exists i :: 0 <= i < |items| && items[i].timestamp == Some(t))
    && (forall i :: 0 <= i < |items| && items[i].timestamp.Some? ==> items[i].timestamp.value <= t)
  }

  lemma ValidIff(m: Metric, json: Json)
    ensures Validate(m, json).Ok? <==> Acceptable(m, json)
  {}

  lemma TimestampColumn(m: Metric, model: Model)
    requires Registered(m) && model.fields.Keys == m.required + m.optional
    ensures m.ColumnOf("timestamp") == "timestamp"
    ensures "timestamp" in ToRow(m, model) && ToRow(m, model)["timestamp"] == Time(model.timestamp)
  {
    RegistryRenames(m);
    var values := model.fields["timestamp" := Time(model.timestamp)];
    assert "timestamp" in values;
  }

  lemma RowHolds(m: Metric, json: Json, model: Model)
    requires Registered(m) && Validate(m, json) == Ok(model)
    ensures Holds(m, json, ToRow(m, model))
  {
    hide Registered;
    var values := model.fields["timestamp" := Time(model.timestamp)];
    var row := ToRow(m, model);
    forall f | f in m.required + m.optional
      ensures m.ColumnOf(f) in row && row[m.ColumnOf(f)] == if f in json.fields then Text(json.fields[f]) else Null
    {
      RowKeepsEveryField(m, model, f);
    }
    assert "timestamp" in row && row["timestamp"] == Time(model.timestamp) by { TimestampColumn(m, model); }
    forall c | c in row ensures c == "timestamp" || exists f :: f in m.required + m.optional && c == m.ColumnOf(f) {
      TimestampColumn(m, model);
      var f :| f in values && c == m.ColumnOf(f);
    }
  }

  lemma DecodeIff(m: Metric, dv: DataValue, items: seq<Json>)
    requires Brings(m, dv, items)
    ensures Decode(m, dv).Ok? && |Decode(m, dv).value| == |items|
    ensures forall i :: 0 <= i < |items| ==> Validate(m, items[i]) == Ok(Decode(m, dv).value[i])
  {
    hide Validate;
    forall i | 0 <= i < |items| ensures Validate(m, items[i]).Ok? { ValidIff(m, items[i]); }
  }

  lemma DecodedBrings(m: Metric, dv: DataValue)
    requires Decode(m, dv).Ok? && Decode(m, dv).value != []
    ensures dv.value.Some? && dv.value.value.body.Items? && Brings(m, dv, dv.value.value.body.items)
  {
    var items := dv.value.value.body.items;
    forall i | 0 <= i < |items| ensures Acceptable(m, items[i]) { ValidIff(m, items[i]); }
  }

  lemma KnownMetric(m: Metric)
    requires Registered(m)
    ensures Find(m.name) == Some(m)
  {}

  lemma ValidatedTime(m: Metric, json: Json, model: Model)
    requires Validate(m, json) == Ok(model)
    ensures json.timestamp == Some(model.timestamp)
  {}

  /** What an item of the metric carries, its rows, and the time of its sample. */
  lemma SampleHolds(item: Item, m: Metric, items: seq<Json>)
    requires Registered(m) && item.MetricItem? && item.name == m.name && Brings(m, item.value, items)
    ensures Carried(item) != [] && SampleTime(item, m.name).Some?
    ensures LatestOf(items, SampleTime(item, m.name).value)
    ensures RowPerItem(m, items, ItemRows(item, m))
  {
    hide Registered, Decode, Validate, Holds, ToRow;
    KnownMetric(m);
    DecodeIff(m, item.value, items);
    var models := Carried(item);
    forall i | 0 <= i < |items|
      ensures Holds(m, items[i], ItemRows(item, m)[i]) && items[i].timestamp == Some(models[i].timestamp)
    {
      RowHolds(m, items[i], models[i]);
      ValidatedTime(m, items[i], models[i]);
    }
  }

  lemma NoSampleWithoutItems(item: Item, m: Metric)
    requires Registered(m) && item.MetricItem? && item.name == m.name
    requires forall items :: !Brings(m, item.value, items)
    ensures Carried(item) == [] && SampleTime(item, m.name).None?
  {
    hide Registered, Decode;
    KnownMetric(m);
    if Decode(m, item.value).Ok? && Decode(m, item.value).value != [] { DecodedBrings(m, item.value); }
  }

  /**
    The first value of a session, of a metric whose rows cannot be written twice, that is no
    newer than what was seen before: the one case in which a decoded value is not stored.
   */
  ghost predicate Suppressed(s: State, m: Metric, items: seq<Json>) {
    && m.name in s.awaiting && !m.idempotent && m.name in s.last
    && forall i :: 0 <= i < |items| && items[i].timestamp.Some? ==> items[i].timestamp.value <= s.last[m.name]
  }

  lemma SuppressedIff(s: State, m: Metric, items: seq<Json>, t: int)
    requires LatestOf(items, t)
    ensures Suppressed(s, m, items) <==> Redelivered(s, m, t)
  {
    var i :| 0 <= i < |items| && items[i].timestamp == Some(t);
  }

  /**
    A decoded value of a registered metric that is not suppressed adds exactly one row per
    element to the metric's table, each holding its element, and touches no other table.
   */
  lemma ItemsBecomeRows(s: State, item: Item, m: Metric, items: seq<Json>)
    requires Registered(m) && item.MetricItem? && item.name == m.name && Brings(m, item.value, items)
    ensures var before, after := RowsOf(s.pending, m.table), RowsOf(DecodeOne(s, item).pending, m.table);
            if Suppressed(s, m, items) then after == before
            else exists rows :: after == before + rows && RowPerItem(m, items, rows)
    ensures forall t :: t != m.table ==> RowsOf(DecodeOne(s, item).pending, t) == RowsOf(s.pending, t)
  {
    hide Registered, Carried, RowPerItem, LatestOf, Suppressed, Brings, ToRows, Extend;
    KnownMetric(m);
    SampleHolds(item, m, items);
    SuppressedIff(s, m, items, SampleTime(item, m.name).value);
    if !Suppressed(s, m, items) {
      assert RowsOf(DecodeOne(s, item).pending, m.table) == RowsOf(s.pending, m.table) + ItemRows(item, m);
    }
  }

  /** An item of an unknown metric, or whose value holds no such array, changes nothing. */
  lemma OthersBecomeNothing(s: State, item: Item)
    requires item.MetricItem?
    requires Find(item.name).None? || forall items :: !Brings(Find(item.name).value, item.value, items)
    ensures DecodeOne(s, item) == s
  {
    hide Decode;
    if Find(item.name).Some? {
      var m := Find(item.name).value;
      if Decode(m, item.value).Ok? && Decode(m, item.value).value != [] { DecodedBrings(m, item.value); }
    }
  }

  // ---- a tag ----

  /** The row tells the tag, its value as text, its status, its two times and when it was received. */
  ghost predicate TagHolds(item: Item, row: Row)
    requires item.TagItem?
  {
    var dv := item.value;
    && row.Keys == {"tag", "value", "status_code", "source_timestamp", "server_timestamp", "logger_timestamp"}
    && row["tag"] == Text(item.tag) && dv.value.Some? && row["value"] == Text(dv.value.value.text)
    && (dv.status.None? ==> row["status_code"] == Text("Unknown"))
    && (dv.status.Some? ==> row["status_code"] == Text(dv.status.value.name))
    && (dv.source.None? ==> row["source_timestamp"] == Null)
    && (dv.source.Some? ==> row["source_timestamp"] == Time(dv.source.value))
    && (dv.server.None? ==> row["server_timestamp"] == Null)
    && (dv.server.Some? ==> row["server_timestamp"] == Time(dv.server.value))
    && row["logger_timestamp"] == Time(item.receivedAt)
  }

  /** A tag with a value, whatever its status, adds one row that holds it; one without changes nothing. */
  lemma TagsBecomeRows(s: State, item: Item)
    requires item.TagItem?
    ensures item.value.value.None? ==> DecodeOne(s, item) == s
    ensures item.value.value.Some? ==>
              exists row :: TagHolds(item, row)
                && DecodeOne(s, item) == s.(pending := s.pending["tags" := RowsOf(s.pending, "tags") + [row]])
  {
    if item.value.value.Some? { assert TagHolds(item, TagRow(item)); }
  }
}
