/**
  Reconnects. A new subscription delivers each node's current value again; for a metric
  whose rows cannot be written twice that value must not be stored again.
 */
module Redelivery {
  import opened Wrappers
  import opened Metrics
  import opened Ingest

  /** What happens to the decoder, in order. */
  datatype Event = Connected(metrics: set<string>) | Decoded(item: Item)

  function Apply(s: State, ev: Event): State {
    match ev
    case Connected(metrics) => NewSession(s, metrics)
    case Decoded(item) => DecodeOne(s, item)
  }

  function After(events: seq<Event>): State {
    if events == [] then FRESH else Apply(After(events[..|events| - 1]), events[|events| - 1])
  }

  /** The newest timestamp of the sample an item brings for metric `name`, if it brings one. */
  function SampleTime(item: Item, name: string): Option<int> {
    if item.MetricItem? && item.name == name && Carried(item) != [] then Some(Newest(Carried(item))) else None
  }

  function EventTime(ev: Event, name: string): Option<int> {
    if ev.Decoded? then SampleTime(ev.item, name) else None
  }

  ghost predicate IsLatest(events: seq<Event>, name: string, t: int) {
    && (exists i :: 0 <= i < |events| && EventTime(events[i], name) == Some(t))
    && (forall i :: 0 <= i < |events| && EventTime(events[i], name).Some? ==> EventTime(events[i], name).value <= t)
  }

  ghost predicate NoSample(events: seq<Event>, name: string) {
    forall i :: 0 <= i < |events| ==> EventTime(events[i], name).None?
  }

  /** A session that covers the metric has begun and has not brought a sample of it yet. */
  predicate Opening(events: seq<Event>, name: string) {
    events != [] &&
    match events[|events| - 1]
    case Connected(metrics) => name in metrics
    case Decoded(item) => SampleTime(item, name).None? && Opening(events[..|events| - 1], name)
  }

  lemma SampleEffect(s: State, item: Item, name: string)
    ensures var s' := DecodeOne(s, item);
            match SampleTime(item, name)
            case None =>
              && (name in s'.awaiting <==> name in s.awaiting)
              && (name in s'.last <==> name in s.last)
              && (name in s.last ==> s'.last[name] == s.last[name])
            case Some(t) =>
              && name !in s'.awaiting
              && name in s'.last
              && s'.last[name] == if name in s.last && t < s.last[name] then s.last[name] else t
  {}

  lemma NothingYet(name: string)
    ensures name !in After([]).last && name !in After([]).awaiting && NoSample([], name)
  {}

  lemma ApplyEffect(s: State, ev: Event, name: string)
    ensures var s' := Apply(s, ev);
            && (match EventTime(ev, name)
                case None => (name in s'.last <==> name in s.last) && (name in s.last ==> s'.last[name] == s.last[name])
                case Some(t) =>
                  && name in s'.last
                  && s'.last[name] == if name in s.last && t < s.last[name] then s.last[name] else t)
            && (name in s'.awaiting <==>
                match ev
                case Connected(metrics) => name in metrics
                case Decoded(item) => SampleTime(item, name).None? && name in s.awaiting)
  {
    hide DecodeOne, SampleTime;
    if ev.Decoded? { SampleEffect(s, ev.item, name); }
  }

  lemma LatestStep(events: seq<Event>, ev: Event, name: string, s: State, s': State)
    requires name in s.last ==> IsLatest(events, name, s.last[name])
    requires name !in s.last ==> NoSample(events, name)
    requires match EventTime(ev, name)
             case None => (name in s'.last <==> name in s.last) && (name in s.last ==> s'.last[name] == s.last[name])
             case Some(t) =>
               && name in s'.last
               && s'.last[name] == if name in s.last && t < s.last[name] then s.last[name] else t
    ensures name in s'.last ==> IsLatest(events + [ev], name, s'.last[name])
    ensures name !in s'.last ==> NoSample(events + [ev], name)
  {
    hide EventTime;
    var all := events + [ev];
    assert all[|events|] == ev;
    forall i | 0 <= i < |events| ensures all[i] == events[i] {}
    if name in s.last {
      var i :| 0 <= i < |events| && EventTime(events[i], name) == Some(s.last[name]);
      assert EventTime(all[i], name) == Some(s.last[name]);
    }
  }

  lemma AfterStep(events: seq<Event>)
    requires events != []
    ensures After(events) == Apply(After(events[..|events| - 1]), events[|events| - 1])
  {}

  /**
    Over any number of sessions, for every metric: `_last_timestamp` is the maximum over
    all samples decoded so far, and the metric awaits its first value exactly while its
    session is opening.
   */
  lemma {:induction false} LastIsTheMaximum(events: seq<Event>, name: string)
    ensures var s := After(events);
            && (name in s.last ==> IsLatest(events, name, s.last[name]))
            && (name !in s.last ==> NoSample(events, name))
            && (name in s.awaiting <==> Opening(events, name))
  {
    hide After, Apply, EventTime, IsLatest, NoSample, SampleTime;
    if events == [] {
      NothingYet(name);
    } else {
      var n := |events| - 1;
      LastIsTheMaximum(events[..n], name);
      AfterStep(events);
      assert events == events[..n] + [events[n]];
      ApplyEffect(After(events[..n]), events[n], name);
      LatestStep(events[..n], events[n], name, After(events[..n]), After(events));
    }
  }

  // ---- values that bring nothing ----

  /** Of an unknown metric, undecodable, empty, or a tag without a value. */
  predicate BringsNothing(item: Item) {
    match item
    case MetricItem(name, value) =>
      var metric := Find(name);
      metric.None? || Decode(metric.value, value).Err? || Decode(metric.value, value) == Ok([])
    case TagItem(_, value, _) => value.value.None?
  }

  function Meaningful(queue: seq<Item>): seq<Item> {
    if queue == [] then [] else
      var n := |queue| - 1;
      Meaningful(queue[..n]) + if BringsNothing(queue[n]) then [] else [queue[n]]
  }

  lemma ExtendingChanges(batch: Batch, t: string, rows: seq<Row>)
    requires rows != []
    ensures Extend(batch, t, rows) != batch
  {
    assert |RowsOf(Extend(batch, t, rows), t)| > |RowsOf(batch, t)|;
  }

  /** A value changes nothing exactly when it brings nothing; even a redelivered one is noticed. */
  lemma ChangesNothingIff(s: State, item: Item)
    ensures DecodeOne(s, item) == s <==> BringsNothing(item)
  {
    hide Find, Decode, ToRow, Extend;
    match item
    case MetricItem(name, _) =>
      if Carried(item) != [] {
        var m := Find(name).value;
        ExtendingChanges(s.pending, m.table, ToRows(m, Carried(item)));
      }
    case TagItem(_, value, _) =>
      if value.value.Some? { ExtendingChanges(s.pending, "tags", [TagRow(item)]); }
  }

  lemma {:induction false} SamePrefixDecodes(s: State, a: seq<Item>, b: seq<Item>, n: nat)
    requires n <= |a| <= |b| && a == b[..|a|]
    ensures DecodeFirst(s.(queue := a), n).(queue := []) == DecodeFirst(s.(queue := b), n).(queue := [])
  {
    hide DecodeOne;
    if n == 0 {
    } else {
      SamePrefixDecodes(s, a, b, n - 1);
      var d, e := DecodeFirst(s.(queue := a), n - 1), DecodeFirst(s.(queue := b), n - 1);
      assert a[n - 1] == b[n - 1];
      QueueDoesNotMatter(d, [], a[n - 1]);
      QueueDoesNotMatter(e, [], a[n - 1]);
    }
  }

  lemma OneMoreDecoded(s: State, queue: seq<Item>, item: Item)
    ensures DecodeQueued(s.(queue := queue + [item])) == DecodeOne(DecodeQueued(s.(queue := queue)), item)
  {
    hide DecodeOne;
    var all := queue + [item];
    SamePrefixDecodes(s, queue, all, |queue|);
    QueueDoesNotMatter(DecodeFirst(s.(queue := all), |queue|), [], item);
  }

  lemma {:induction false} FirstMeaningful(s: State, n: nat)
    requires n <= |s.queue|
    ensures var kept := Meaningful(s.queue[..n]);
            DecodeQueued(s.(queue := kept)) == DecodeFirst(s, n).(queue := [])
  {
    hide DecodeOne, BringsNothing;
    if n == 0 {
      assert s.queue[..0] == [];
    } else {
      var before, item := s.queue[..n - 1], s.queue[n - 1];
      var kept := Meaningful(before);
      assert s.queue[..n][..n - 1] == before;
      FirstMeaningful(s, n - 1);
      ChangesNothingIff(DecodeFirst(s, n - 1), item);
      assert Meaningful(s.queue[..n]) == kept + if BringsNothing(item) then [] else [item];
      if BringsNothing(item) {
        assert kept + [] == kept;
      } else {
        OneMoreDecoded(s, kept, item);
        QueueDoesNotMatter(DecodeFirst(s, n - 1), [], item);
      }
    }
  }

  /** Decoding a queue is decoding only the values of it that bring something. */
  lemma UndecodableChangesNothing(s: State)
    ensures DecodeQueued(s.(queue := Meaningful(s.queue))) == DecodeQueued(s)
  {
    FirstMeaningful(s, |s.queue|);
    assert s.queue[..|s.queue|] == s.queue;
  }

  // ---- each sample once ----

  ghost predicate NewerThanAll(events: seq<Event>, name: string, t: int) {
    forall i :: 0 <= i < |events| && EventTime(events[i], name).Some? ==> EventTime(events[i], name).value < t
  }

  function ItemRows(item: Item, m: Metric): seq<Row>
    requires Registered(m) && SampleTime(item, m.name).Some?
  {
    ToRows(m, Carried(item))
  }

  /** Every sample of the metric that is newer than all before it, once. */
  ghost function OncePerSample(events: seq<Event>, m: Metric): seq<Row>
    requires Registered(m)
  {
    if events == [] then [] else
      var n := |events| - 1;
      OncePerSample(events[..n], m) +
      if EventTime(events[n], m.name).Some? && NewerThanAll(events[..n], m.name, EventTime(events[n], m.name).value)
      then ItemRows(events[n].item, m) else []
  }

  /** The `n`-th event brings a value that is not newer than all before it. */
  ghost predicate RepeatsAt(events: seq<Event>, n: nat, name: string)
    requires n < |events|
  {
    EventTime(events[n], name).Some? && !NewerThanAll(events[..n], name, EventTime(events[n], name).value)
  }

  /** An older or equal value arrives only as the one that opens a session. */
  ghost predicate OnlyOpeningsRepeat(events: seq<Event>, name: string) {
    forall n :: 0 <= n < |events| && RepeatsAt(events, n, name) ==> Opening(events[..n], name)
  }

  lemma OtherItemsLeaveTheTable(s: State, item: Item, m: Metric)
    requires Registered(m) && SampleTime(item, m.name).None?
    ensures RowsOf(DecodeOne(s, item).pending, m.table) == RowsOf(s.pending, m.table)
  {
    if item.MetricItem? && Carried(item) != [] {
      TablesAreDistinct(m, Find(item.name).value);
    } else {
      TablesAreDistinct(m, m);
    }
  }

  lemma SampleRows(s: State, item: Item, m: Metric)
    requires Registered(m) && !m.idempotent && SampleTime(item, m.name).Some?
    ensures var t := SampleTime(item, m.name).value;
            RowsOf(DecodeOne(s, item).pending, m.table) ==
            if m.name in s.awaiting && m.name in s.last && t <= s.last[m.name] then RowsOf(s.pending, m.table)
            else RowsOf(s.pending, m.table) + ItemRows(item, m)
  {
  }

  /** What one event adds to the metric's table, in terms of the state before it. */
  lemma AddedInState(s: State, ev: Event, m: Metric)
    requires Registered(m) && !m.idempotent
    ensures var before, after := RowsOf(s.pending, m.table), RowsOf(Apply(s, ev).pending, m.table);
            match EventTime(ev, m.name)
            case None => after == before
            case Some(t) =>
              after == if m.name in s.awaiting && m.name in s.last && t <= s.last[m.name] then before
                       else before + ItemRows(ev.item, m)
  {
    hide DecodeOne, SampleTime, ItemRows;
    if ev.Decoded? {
      if SampleTime(ev.item, m.name).Some? {
        SampleRows(s, ev.item, m);
      } else {
        OtherItemsLeaveTheTable(s, ev.item, m);
      }
    }
  }

  lemma NewerThanLast(events: seq<Event>, name: string, t: int, s: State)
    requires name in s.last ==> IsLatest(events, name, s.last[name])
    requires name !in s.last ==> NoSample(events, name)
    ensures NewerThanAll(events, name, t) <==> !(name in s.last && t <= s.last[name])
  {
    hide EventTime;
  }

  /** What one event adds to the metric's table, in terms of the events before it. */
  lemma AddedByEvent(events: seq<Event>, m: Metric)
    requires Registered(m) && !m.idempotent && events != []
    ensures var n := |events| - 1;
            var before, after := RowsOf(After(events[..n]).pending, m.table), RowsOf(After(events).pending, m.table);
            if EventTime(events[n], m.name).None? then after == before
            else if Opening(events[..n], m.name) && RepeatsAt(events, n, m.name) then after == before
            else after == before + ItemRows(events[n].item, m)
  {
    hide After, Apply, EventTime, ItemRows, NewerThanAll, Opening, IsLatest, NoSample, RowsOf, Registered;
    AfterStep(events);
    var n := |events| - 1;
    var s := After(events[..n]);
    LastIsTheMaximum(events[..n], m.name);
    AddedInState(s, events[n], m);
    if EventTime(events[n], m.name).Some? {
      NewerThanLast(events[..n], m.name, EventTime(events[n], m.name).value, s);
    }
  }

  lemma NothingAdded(m: Metric)
    ensures RowsOf(After([]).pending, m.table) == []
  {}

  lemma SamplesHaveRows(ev: Event, m: Metric)
    requires Registered(m) && EventTime(ev, m.name).Some?
    ensures |ItemRows(ev.item, m)| > 0
  {}

  lemma RepeatStep(events: seq<Event>, name: string)
    requires events != []
    ensures var n := |events| - 1;
            OnlyOpeningsRepeat(events, name) <==>
            OnlyOpeningsRepeat(events[..n], name) && (RepeatsAt(events, n, name) ==> Opening(events[..n], name))
  {
    hide EventTime, NewerThanAll, Opening;
    var n := |events| - 1;
    forall i | 0 <= i < n ensures RepeatsAt(events[..n], i, name) <==> RepeatsAt(events, i, name) {
      assert events[..n][..i] == events[..i];
    }
    forall i | 0 <= i < n ensures events[..n][..i] == events[..i] {}
  }

  lemma {:induction false} RowsAddedExactly(events: seq<Event>, m: Metric)
    requires Registered(m) && !m.idempotent
    ensures var rows := RowsOf(After(events).pending, m.table);
            if OnlyOpeningsRepeat(events, m.name) then rows == OncePerSample(events, m)
            else |rows| > |OncePerSample(events, m)|
  {
    hide After, EventTime, NewerThanAll, Opening, ItemRows;
    if events == [] {
      NothingAdded(m);
    } else {
      var n := |events| - 1;
      RowsAddedExactly(events[..n], m);
      AddedByEvent(events, m);
      RepeatStep(events, m.name);
      if EventTime(events[n], m.name).Some? { SamplesHaveRows(events[n], m); }
    }
  }

  /**
    Across any number of reconnects, a non-idempotent metric's table gets the rows of
    each sample exactly once and in timestamp order, if and only if no value that is not
    newer than all before it arrives except as the one opening a session.
   */
  lemma EachSampleOnce(events: seq<Event>, m: Metric)
    requires Registered(m) && !m.idempotent
    ensures RowsOf(After(events).pending, m.table) == OncePerSample(events, m) <==> OnlyOpeningsRepeat(events, m.name)
  {
    RowsAddedExactly(events, m);
  }

  /** The samples that are newer than all before them. */
  ghost function NewSamples(events: seq<Event>, name: string): (items: seq<Item>)
    ensures forall i :: 0 <= i < |items| ==> SampleTime(items[i], name).Some?
  {
    if events == [] then [] else
      var n := |events| - 1;
      NewSamples(events[..n], name) +
      if EventTime(events[n], name).Some? && NewerThanAll(events[..n], name, EventTime(events[n], name).value)
      then [events[n].item] else []
  }

  function RowsOfSamples(items: seq<Item>, m: Metric): seq<Row>
    requires Registered(m) && forall i :: 0 <= i < |items| ==> SampleTime(items[i], m.name).Some?
  {
    if items == [] then [] else
      var n := |items| - 1;
      RowsOfSamples(items[..n], m) + ItemRows(items[n], m)
  }

  ghost predicate TimesIncrease(items: seq<Item>, name: string)
    requires forall i :: 0 <= i < |items| ==> SampleTime(items[i], name).Some?
  {
    forall i, j :: 0 <= i < j < |items| ==> SampleTime(items[i], name).value < SampleTime(items[j], name).value
  }

  lemma {:induction false} NewSamplesAreOld(events: seq<Event>, name: string, item: Item)
    requires item in NewSamples(events, name)
    ensures exists i :: 0 <= i < |events| && EventTime(events[i], name) == SampleTime(item, name)
  {
    hide SampleTime, NewerThanAll;
    var n := |events| - 1;
    if item in NewSamples(events[..n], name) {
      NewSamplesAreOld(events[..n], name, item);
      var i :| 0 <= i < n && EventTime(events[..n][i], name) == SampleTime(item, name);
      assert EventTime(events[i], name) == SampleTime(item, name);
    } else {
      assert EventTime(events[n], name) == SampleTime(item, name);
    }
  }

  /** The rows stored once per sample are those of samples with strictly increasing newest timestamps. */
  lemma {:induction false} OncePerSampleInOrder(events: seq<Event>, m: Metric)
    requires Registered(m)
    ensures OncePerSample(events, m) == RowsOfSamples(NewSamples(events, m.name), m)
    ensures TimesIncrease(NewSamples(events, m.name), m.name)
  {
    hide SampleTime, ItemRows;
    if events == [] {
      assert NewSamples(events, m.name) == [];
    } else {
      var n := |events| - 1;
      OncePerSampleInOrder(events[..n], m);
      var before, all := NewSamples(events[..n], m.name), NewSamples(events, m.name);
      if all != before {
        assert all[..|all| - 1] == before;
        forall i | 0 <= i < |before|
          ensures SampleTime(before[i], m.name).value < SampleTime(all[|before|], m.name).value
        {
          NewSamplesAreOld(events[..n], m.name, before[i]);
        }
      }
    }
  }

  // ---- a session that begins before the queue was decoded ----

  lemma {:induction false} QueueEffect(s: State, n: nat, name: string)
    requires n <= |s.queue|
    ensures var d := DecodeFirst(s, n);
            name in d.awaiting <==>
            name in s.awaiting && forall i :: 0 <= i < n ==> SampleTime(s.queue[i], name).None?
  {
    hide DecodeOne, SampleTime;
    if n == 0 {
    } else {
      QueueEffect(s, n - 1, name);
      SampleEffect(DecodeFirst(s, n - 1), s.queue[n - 1], name);
    }
  }

  /** Which session is open does not change what the timestamps become. */
  lemma {:induction false} SessionsKeepLast(s: State, metrics: set<string>, n: nat, name: string)
    requires n <= |s.queue|
    ensures var d, e := DecodeFirst(s, n), DecodeFirst(NewSession(s, metrics), n);
            && (name in d.last <==> name in e.last)
            && (name in d.last ==> d.last[name] == e.last[name])
  {
    hide DecodeOne, SampleTime;
    if n == 0 {
    } else {
      SessionsKeepLast(s, metrics, n - 1, name);
      SampleEffect(DecodeFirst(s, n - 1), s.queue[n - 1], name);
      SampleEffect(DecodeFirst(NewSession(s, metrics), n - 1), s.queue[n - 1], name);
    }
  }

  /**
    A redelivered value that is already known is skipped exactly when the queue held no
    sample of its metric at the moment the session began.
   */
  lemma SkippedIffQueueWasDecoded(s: State, metrics: set<string>, item: Item, m: Metric)
    requires Registered(m) && !m.idempotent && m.name in metrics
    requires SampleTime(item, m.name).Some?
    requires var d := DecodeFirst(s, |s.queue|);
             m.name in d.last && SampleTime(item, m.name).value <= d.last[m.name]
    ensures var d := DecodeFirst(NewSession(s, metrics), |s.queue|);
            RowsOf(DecodeOne(d, item).pending, m.table) == RowsOf(d.pending, m.table) <==>
            forall i :: 0 <= i < |s.queue| ==> SampleTime(s.queue[i], m.name).None?
  {
    hide DecodeOne, SampleTime, ItemRows;
    var d := DecodeFirst(NewSession(s, metrics), |s.queue|);
    QueueEffect(NewSession(s, metrics), |s.queue|, m.name);
    SessionsKeepLast(s, metrics, |s.queue|, m.name);
    SampleRows(d, item, m);
    assert EventTime(Decoded(item), m.name) == SampleTime(item, m.name);
    SamplesHaveRows(Decoded(item), m);
  }
}
