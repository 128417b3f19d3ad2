/** A run of the pipeline seen by its decoder: sessions beginning and values being decoded. */
module RunTrace {
  import opened Metrics
  import opened Ingest
  import opened IngestRuns
  import opened Redelivery

  function Decodings(items: seq<Item>): seq<Event> {
    seq(|items|, i requires 0 <= i < |items| => Decoded(items[i]))
  }

  function Trace(steps: seq<Step>): seq<Event> {
    if steps == [] then [] else
      var n := |steps| - 1;
      var w := Run(steps[..n]);
      Trace(steps[..n]) +
      match steps[n]
      case Connect(metrics) => [Connected(metrics)]
      case Flush => if w.inFlight == map[] then Decodings(w.ingest.queue) else []
      case _ => []
  }

  /** Two states that decode alike. */
  predicate Alike(s: State, e: State) { s.last == e.last && s.awaiting == e.awaiting }

  lemma AlikeMetrics(s: State, e: State, m: Metric, models: seq<Model>, t: string) returns (rows: seq<Row>)
    requires Alike(s, e) && Registered(m) && models != []
    requires forall i :: 0 <= i < |models| ==> models[i].fields.Keys == m.required + m.optional
    ensures Alike(AddMetric(s, m, models), AddMetric(e, m, models))
    ensures RowsOf(AddMetric(s, m, models).pending, t) == RowsOf(s.pending, t) + rows
    ensures RowsOf(AddMetric(e, m, models).pending, t) == RowsOf(e.pending, t) + rows
  {
    hide Registered, ToRows, Extend;
    rows := if t == m.table && !Redelivered(s, m, Newest(models)) then ToRows(m, models) else [];
  }

  /** Alike states add the same rows and stay alike. */
  lemma AlikeDecodeAlike(s: State, e: State, item: Item, t: string) returns (rows: seq<Row>)
    requires Alike(s, e)
    ensures Alike(DecodeOne(s, item), DecodeOne(e, item))
    ensures RowsOf(DecodeOne(s, item).pending, t) == RowsOf(s.pending, t) + rows
    ensures RowsOf(DecodeOne(e, item).pending, t) == RowsOf(e.pending, t) + rows
  {
    hide Find, AddMetric, Extend, TagRow, Carried;
    rows := [];
    match item
    case MetricItem(name, _) =>
      if Carried(item) != [] { rows := AlikeMetrics(s, e, Find(name).value, Carried(item), t); }
    case TagItem(_, value, _) =>
      if value.value.Some? && t == "tags" { rows := [TagRow(item)]; }
  }

  lemma {:induction false} QueueDecodesAlike(s: State, events: seq<Event>, n: nat, t: string)
    requires n <= |s.queue| && Alike(s, After(events))
    ensures Alike(DecodeFirst(s, n), After(events + Decodings(s.queue[..n])))
    ensures exists rows :: RowsOf(DecodeFirst(s, n).pending, t) == RowsOf(s.pending, t) + rows
                        && RowsOf(After(events + Decodings(s.queue[..n])).pending, t)
                           == RowsOf(After(events).pending, t) + rows
  {
    hide DecodeOne, After, RowsOf;
    if n == 0 {
      assert events + Decodings(s.queue[..0]) == events;
      assert RowsOf(s.pending, t) == RowsOf(s.pending, t) + [];
      assert RowsOf(After(events).pending, t) == RowsOf(After(events).pending, t) + [];
    } else {
      QueueDecodesAlike(s, events, n - 1, t);
      var before, item := events + Decodings(s.queue[..n - 1]), s.queue[n - 1];
      var all := events + Decodings(s.queue[..n]);
      assert all == before + [Decoded(item)];
      assert all[..|all| - 1] == before;
      AfterStep(all);
      var d, e := DecodeFirst(s, n - 1), After(before);
      var y := AlikeDecodeAlike(d, e, item, t);
      var x :| RowsOf(d.pending, t) == RowsOf(s.pending, t) + x
            && RowsOf(e.pending, t) == RowsOf(After(events).pending, t) + x;
      assert RowsOf(DecodeFirst(s, n).pending, t) == RowsOf(s.pending, t) + (x + y);
      assert RowsOf(After(all).pending, t) == RowsOf(After(events).pending, t) + (x + y);
    }
  }

  /** The run's decoder state and its added rows are those of the trace. */
  ghost predicate Follows(w: World, events: seq<Event>, t: string) {
    Alike(w.ingest, After(events)) && RowsOf(w.added, t) == RowsOf(After(events).pending, t)
  }

  lemma SameTail(xs: seq<Row>, ys: seq<Row>, zs: seq<Row>)
    requires xs + ys == xs + zs
    ensures ys == zs
  {
    assert (xs + ys)[|xs|..] == ys && (xs + zs)[|xs|..] == zs;
  }

  lemma FlushFollows(w: World, events: seq<Event>, t: string)
    requires Follows(w, events, t) && w.inFlight == map[]
    ensures Follows(Next(w, Flush), events + Decodings(w.ingest.queue), t)
  {
    hide After, DecodeFirst, Grown, Merge;
    var s := w.ingest;
    QueueDecodesAlike(s, events, |s.queue|, t);
    assert s.queue[..|s.queue|] == s.queue;
    FlushGrows(s, t);
    MergeAt(w.added, Grown(s.pending, DecodeQueued(s).pending), t);
    var rows :| RowsOf(DecodeFirst(s, |s.queue|).pending, t) == RowsOf(s.pending, t) + rows
             && RowsOf(After(events + Decodings(s.queue)).pending, t) == RowsOf(After(events).pending, t) + rows;
    SameTail(RowsOf(s.pending, t), RowsOf(Grown(s.pending, DecodeQueued(s).pending), t), rows);
  }

  lemma ConnectFollows(w: World, events: seq<Event>, metrics: set<string>, t: string)
    requires Follows(w, events, t)
    ensures Follows(Next(w, Connect(metrics)), events + [Connected(metrics)], t)
  {
    hide After;
    var all := events + [Connected(metrics)];
    assert all[..|all| - 1] == events;
    AfterStep(all);
  }

  lemma StepFollows(w: World, events: seq<Event>, step: Step, t: string)
    requires Follows(w, events, t) && (step.Measure? ==> step.table != t)
    ensures var more := match step
                        case Connect(metrics) => [Connected(metrics)]
                        case Flush => if w.inFlight == map[] then Decodings(w.ingest.queue) else []
                        case _ => [];
            Follows(Next(w, step), events + more, t)
  {
    hide After, BeginFlush, Grown, Merge, CutRows, Requeue;
    assert events + [] == events;
    match step
    case Flush => if w.inFlight == map[] { FlushFollows(w, events, t); }
    case Connect(metrics) => ConnectFollows(w, events, metrics, t);
    case _ =>
  }

  lemma {:induction false} RunsFollowTheirTrace(steps: seq<Step>, t: string)
    requires forall i :: 0 <= i < |steps| ==> steps[i].Measure? ==> steps[i].table != t
    ensures Follows(Run(steps), Trace(steps), t)
  {
    if steps == [] {
      assert RowsOf(START.added, t) == [];
    } else {
      var n := |steps| - 1;
      RunsFollowTheirTrace(steps[..n], t);
      StepFollows(Run(steps[..n]), Trace(steps[..n]), steps[n], t);
    }
  }

  /**
    In every run, with any reconnects and any failed writes, the rows ever added for a
    non-idempotent metric are those of each sample once, in timestamp order, if and only
    if in the order of decoding only session openings bring a value that is not new.
   */
  lemma RunsStoreEachSampleOnce(steps: seq<Step>, m: Metric)
    requires Registered(m) && !m.idempotent
    requires forall i :: 0 <= i < |steps| ==> steps[i].Measure? ==> steps[i].table != m.table
    ensures RowsOf(Run(steps).added, m.table) == OncePerSample(Trace(steps), m) <==>
            OnlyOpeningsRepeat(Trace(steps), m.name)
  {
    hide Run, Trace, Registered;
    RunsFollowTheirTrace(steps, m.table);
    EachSampleOnce(Trace(steps), m);
  }
}
