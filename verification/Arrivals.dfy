/**
  The same promise read off the steps alone: what arrives, in which order, between which
  sessions. The queue may drop values, so what is decoded is a thinned form of what arrived.
 */
module Arrivals {
  import opened Metrics
  import opened Ingest
  import opened IngestRuns
  import opened Redelivery
  import opened RunTrace

  /** Sessions beginning and values arriving, in order. */
  function Arrived(steps: seq<Step>): seq<Event> {
    if steps == [] then [] else
      var n := |steps| - 1;
      Arrived(steps[..n]) +
      match steps[n]
      case Connect(metrics) => [Connected(metrics)]
      case Arrive(item) => [Decoded(item)]
      case _ => []
  }

  /** Whenever a session begins, all values of the one before have been decoded. */
  predicate DecodedBeforeEachSession(steps: seq<Step>) {
    forall n :: 0 <= n < |steps| && steps[n].Connect? ==> Run(steps[..n]).ingest.queue == []
  }

  // ---- dropping values, never sessions ----

  predicate Thinned(full: seq<Event>, thin: seq<Event>) {
    if full == [] then thin == [] else
      var n := |full| - 1;
      || (thin != [] && thin[|thin| - 1] == full[n] && Thinned(full[..n], thin[..|thin| - 1]))
      || (full[n].Decoded? && Thinned(full[..n], thin))
  }

  lemma ThinnedBoth(full: seq<Event>, thin: seq<Event>, ev: Event)
    requires Thinned(full, thin)
    ensures Thinned(full + [ev], thin + [ev])
  {
    assert (full + [ev])[..|full|] == full && (thin + [ev])[..|thin|] == thin;
  }

  lemma {:induction false} ThinnedMore(full: seq<Event>, a: seq<Event>, ev: Event, b: seq<Event>)
    requires ev.Decoded? && Thinned(full, a + [ev] + b)
    ensures Thinned(full, a + b)
  {
    var n, thin := |full| - 1, a + [ev] + b;
    if full == [] {
      assert false;
    } else if full[n].Decoded? && Thinned(full[..n], thin) {
      ThinnedMore(full[..n], a, ev, b);
    } else if b == [] {
      assert thin[..|thin| - 1] == a + b;
    } else {
      assert thin[..|thin| - 1] == a + [ev] + b[..|b| - 1];
      ThinnedMore(full[..n], a, ev, b[..|b| - 1]);
      assert (a + b)[..|a + b| - 1] == a + b[..|b| - 1];
    }
  }

  lemma {:induction false} ThinnedOpening(full: seq<Event>, thin: seq<Event>, name: string)
    requires Thinned(full, thin) && Opening(full, name)
    ensures Opening(thin, name)
  {
    hide SampleTime;
    var n := |full| - 1;
    if full[n].Decoded? {
      if Thinned(full[..n], thin) { ThinnedOpening(full[..n], thin, name); }
      else { ThinnedOpening(full[..n], thin[..|thin| - 1], name); }
    }
  }

  lemma {:induction false} ThinnedIsNewer(full: seq<Event>, thin: seq<Event>, name: string, t: int)
    requires Thinned(full, thin) && NewerThanAll(full, name, t)
    ensures NewerThanAll(thin, name, t)
  {
    hide EventTime;
    if full == [] {
      assert thin == [];
    } else {
      var n := |full| - 1;
      forall i | 0 <= i < n ensures full[..n][i] == full[i] {}
      if full[n].Decoded? && Thinned(full[..n], thin) {
        ThinnedIsNewer(full[..n], thin, name, t);
      } else {
        var k := |thin| - 1;
        ThinnedIsNewer(full[..n], thin[..k], name, t);
        forall i | 0 <= i < k ensures thin[i] == thin[..k][i] {}
      }
    }
  }

  lemma NothingRepeats(name: string)
    ensures OnlyOpeningsRepeat([], name)
  {}

  /** If among all that arrived only session openings repeat, so it is among what is left. */
  lemma {:induction false} ThinnedRepeats(full: seq<Event>, thin: seq<Event>, name: string)
    requires Thinned(full, thin) && OnlyOpeningsRepeat(full, name)
    ensures OnlyOpeningsRepeat(thin, name)
  {
    hide EventTime, NewerThanAll, Opening, OnlyOpeningsRepeat;
    if full == [] {
      assert OnlyOpeningsRepeat([], name) by { NothingRepeats(name); }
    } else {
      var n := |full| - 1;
      RepeatStep(full, name);
      if full[n].Decoded? && Thinned(full[..n], thin) {
        ThinnedRepeats(full[..n], thin, name);
      } else {
        var k := |thin| - 1;
        ThinnedRepeats(full[..n], thin[..k], name);
        RepeatStep(thin, name);
        if RepeatsAt(thin, k, name) {
          if NewerThanAll(full[..n], name, EventTime(full[n], name).value) {
            ThinnedIsNewer(full[..n], thin[..k], name, EventTime(full[n], name).value);
          }
          ThinnedOpening(full[..n], thin[..k], name);
        }
      }
    }
  }

  // ---- what is decoded is what arrived, thinned ----

  /** What was decoded and what is still queued. */
  function Seen(steps: seq<Step>): seq<Event> {
    Trace(steps) + Decodings(Run(steps).ingest.queue)
  }

  lemma QueueAfter(w: World, step: Step)
    ensures var q, q' := w.ingest.queue, Next(w, step).ingest.queue;
            match step
            case Arrive(item) => q' == (if |q| >= QUEUE_MAX_ITEMS then q[1..] else q) + [item]
            case Flush => q' == if w.inFlight == map[] then [] else q
            case _ => q' == q
  {
    hide Merge, Grown, CutRows, Requeue, DecodeFirst, Extend;
  }

  lemma OneMoreDecoding(q: seq<Item>, item: Item)
    ensures Decodings(q + [item]) == Decodings(q) + [Decoded(item)]
  {}

  lemma NoDecodings()
    ensures Decodings([]) == []
  {}

  lemma SeenStep(steps: seq<Step>)
    requires steps != []
    ensures var n := |steps| - 1;
            var q := Run(steps[..n]).ingest.queue;
            match steps[n]
            case Connect(metrics) => q == [] ==> Seen(steps) == Seen(steps[..n]) + [Connected(metrics)]
            case Arrive(item) =>
              if |q| >= QUEUE_MAX_ITEMS then
                Seen(steps) == Trace(steps[..n]) + Decodings(q[1..]) + [Decoded(item)]
              else Seen(steps) == Seen(steps[..n]) + [Decoded(item)]
            case _ => Seen(steps) == Seen(steps[..n])
  {
    hide Next, Decodings;
    var n := |steps| - 1;
    var w := Run(steps[..n]);
    var q := w.ingest.queue;
    QueueAfter(w, steps[n]);
    match steps[n]
    case Arrive(item) => OneMoreDecoding(if |q| >= QUEUE_MAX_ITEMS then q[1..] else q, item);
    case Connect(metrics) => NoDecodings();
    case Flush => NoDecodings();
    case _ =>
  }

  lemma DiscardedGrows(w: World, step: Step)
    ensures w.discarded <= Next(w, step).discarded
    ensures step.Arrive? && |w.ingest.queue| >= QUEUE_MAX_ITEMS ==> Next(w, step).discarded != []
  {
    hide Merge, Grown, CutRows, Requeue, DecodeQueued, Extend, BeginFlush, Put, AddRow;
  }

  lemma RunStep(steps: seq<Step>)
    requires steps != []
    ensures Run(steps) == Next(Run(steps[..|steps| - 1]), steps[|steps| - 1])
  {}

  lemma NothingSeen()
    ensures Seen([]) == [] && Thinned([], [])
  {}

  lemma DroppedOldest(steps: seq<Step>, q: seq<Item>)
    requires q == Run(steps).ingest.queue && q != [] && Thinned(Arrived(steps), Seen(steps))
    ensures Thinned(Arrived(steps), Trace(steps) + Decodings(q[1..]))
  {
    hide Thinned, Run, Trace;
    var a, b := Trace(steps), Decodings(q[1..]);
    assert Seen(steps) == a + [Decoded(q[0])] + b;
    ThinnedMore(Arrived(steps), a, Decoded(q[0]), b);
  }

  lemma {:induction false} SeenIsThinned(steps: seq<Step>)
    requires DecodedBeforeEachSession(steps)
    ensures Thinned(Arrived(steps), Seen(steps))
    ensures Run(steps).discarded == [] ==> Seen(steps) == Arrived(steps)
  {
    hide Thinned, Seen, Run, Trace, Next;
    if steps == [] {
      assert Seen([]) == [] && Thinned([], []) by { NothingSeen(); }
    } else {
      var n := |steps| - 1;
      assert DecodedBeforeEachSession(steps[..n]) by {
        forall i | 0 <= i < n ensures steps[..n][..i] == steps[..i] {}
      }
      SeenIsThinned(steps[..n]);
      SeenStep(steps);
      var q := Run(steps[..n]).ingest.queue;
      DiscardedGrows(Run(steps[..n]), steps[n]);
      RunStep(steps);
      match steps[n]
      case Connect(metrics) => ThinnedBoth(Arrived(steps[..n]), Seen(steps[..n]), Connected(metrics));
      case Arrive(item) =>
        if |q| >= QUEUE_MAX_ITEMS { DroppedOldest(steps[..n], q); }
        var kept := if |q| >= QUEUE_MAX_ITEMS then Trace(steps[..n]) + Decodings(q[1..]) else Seen(steps[..n]);
        ThinnedBoth(Arrived(steps[..n]), kept, Decoded(item));
      case _ => assert Arrived(steps) == Arrived(steps[..n]);
    }
  }

  // ---- sessions do not matter for what is stored once ----

  function ItemsOf(events: seq<Event>): seq<Item> {
    if events == [] then [] else
      var n := |events| - 1;
      ItemsOf(events[..n]) + if events[n].Decoded? then [events[n].item] else []
  }

  lemma {:induction false} ItemsAppend(a: seq<Event>, items: seq<Item>)
    ensures ItemsOf(a + Decodings(items)) == ItemsOf(a) + items
  {
    if items == [] {
      assert a + Decodings(items) == a;
    } else {
      var n := |items| - 1;
      var all := a + Decodings(items);
      assert all[..|all| - 1] == a + Decodings(items[..n]);
      ItemsAppend(a, items[..n]);
    }
  }

  lemma {:induction false} DecodedItems(steps: seq<Step>)
    ensures ItemsOf(Trace(steps)) == Run(steps).decoded
  {
    hide Merge, Grown, CutRows, Requeue, DecodeFirst, Extend;
    if steps == [] {
      assert Trace(steps) == [];
    } else {
      var n := |steps| - 1;
      DecodedItems(steps[..n]);
      var w, before := Run(steps[..n]), Trace(steps[..n]);
      match steps[n]
      case Flush => if w.inFlight == map[] { ItemsAppend(before, w.ingest.queue); }
      case Connect(metrics) => assert (before + [Connected(metrics)])[..|before|] == before;
      case _ => assert before + [] == before;
    }
  }

  lemma OneMoreIsNewer(events: seq<Event>, ev: Event, name: string, t: int)
    ensures NewerThanAll(events + [ev], name, t) <==>
            NewerThanAll(events, name, t) && (EventTime(ev, name).Some? ==> EventTime(ev, name).value < t)
  {
    hide EventTime;
    var all := events + [ev];
    assert all[|events|] == ev;
    forall i | 0 <= i < |events| ensures all[i] == events[i] {}
  }

  lemma {:induction false} SessionsDoNotAge(events: seq<Event>, name: string, t: int)
    ensures NewerThanAll(events, name, t) <==> NewerThanAll(Decodings(ItemsOf(events)), name, t)
  {
    hide SampleTime;
    if events == [] {
      assert Decodings(ItemsOf(events)) == [];
    } else {
      var n := |events| - 1;
      SessionsDoNotAge(events[..n], name, t);
      var before, all := Decodings(ItemsOf(events[..n])), Decodings(ItemsOf(events));
      assert events == events[..n] + [events[n]];
      OneMoreIsNewer(events[..n], events[n], name, t);
      if events[n].Decoded? {
        assert all == before + [events[n]];
        OneMoreIsNewer(before, events[n], name, t);
      } else {
        assert all == before;
      }
    }
  }

  lemma {:induction false} OnceWithoutSessions(events: seq<Event>, m: Metric)
    requires Registered(m)
    ensures OncePerSample(events, m) == OncePerSample(Decodings(ItemsOf(events)), m)
  {
    hide SampleTime, ItemRows, NewerThanAll;
    if events == [] {
      assert Decodings(ItemsOf(events)) == [];
    } else {
      var n := |events| - 1;
      OnceWithoutSessions(events[..n], m);
      var before, all := Decodings(ItemsOf(events[..n])), Decodings(ItemsOf(events));
      if events[n].Decoded? {
        assert all[..|all| - 1] == before && all[|all| - 1] == events[n];
        if EventTime(events[n], m.name).Some? {
          SessionsDoNotAge(events[..n], m.name, EventTime(events[n], m.name).value);
        }
      } else {
        assert all == before;
      }
    }
  }

  // ---- whole runs ----

  lemma RepeatsInPrefix(a: seq<Event>, b: seq<Event>, name: string)
    requires OnlyOpeningsRepeat(a + b, name)
    ensures OnlyOpeningsRepeat(a, name)
  {
    hide EventTime, NewerThanAll, Opening;
    forall n | 0 <= n < |a| && RepeatsAt(a, n, name) ensures Opening(a[..n], name) {
      assert (a + b)[..n] == a[..n] && (a + b)[n] == a[n];
      assert RepeatsAt(a + b, n, name);
    }
  }

  /**
    In every run in which a session begins only after the values of the one before were
    decoded: if of all values that arrive only the first one of a session may be not newer
    than all that arrived before, then each newer decoded sample is stored exactly once,
    whatever the queue drops and whichever writes fail.
   */
  lemma ArrivalsAreStoredOnce(steps: seq<Step>, m: Metric)
    requires Registered(m) && !m.idempotent
    requires forall i :: 0 <= i < |steps| ==> steps[i].Measure? ==> steps[i].table != m.table
    requires DecodedBeforeEachSession(steps) && OnlyOpeningsRepeat(Arrived(steps), m.name)
    ensures RowsOf(Run(steps).added, m.table) == OncePerSample(Decodings(Run(steps).decoded), m)
    ensures TimesIncrease(NewSamples(Decodings(Run(steps).decoded), m.name), m.name)
  {
    hide Run, Trace, Registered, OnlyOpeningsRepeat, Thinned, OncePerSample, DecodedBeforeEachSession;
    SeenIsThinned(steps);
    ThinnedRepeats(Arrived(steps), Seen(steps), m.name);
    RepeatsInPrefix(Trace(steps), Decodings(Run(steps).ingest.queue), m.name);
    RunsStoreEachSampleOnce(steps, m);
    OnceWithoutSessions(Trace(steps), m);
    DecodedItems(steps);
    OncePerSampleInOrder(Decodings(Run(steps).decoded), m);
  }

  /** When nothing is dropped and all is decoded, the condition on what arrives is exact. */
  lemma ArrivalsAreStoredOnceIff(steps: seq<Step>, m: Metric)
    requires Registered(m) && !m.idempotent
    requires forall i :: 0 <= i < |steps| ==> steps[i].Measure? ==> steps[i].table != m.table
    requires DecodedBeforeEachSession(steps)
    requires Run(steps).discarded == [] && Run(steps).ingest.queue == []
    ensures RowsOf(Run(steps).added, m.table) == OncePerSample(Arrived(steps), m) <==>
            OnlyOpeningsRepeat(Arrived(steps), m.name)
  {
    hide Run, Trace, Registered, OnlyOpeningsRepeat, Thinned, OncePerSample, DecodedBeforeEachSession;
    SeenIsThinned(steps);
    assert Trace(steps) + Decodings([]) == Trace(steps);
    RunsStoreEachSampleOnce(steps, m);
  }

  // ---- a session that begins too early ----

  function EarlySession(name: string, item: Item): seq<Step> {
    [Connect({name})] + [Arrive(item)] + [Connect({name})] + [Arrive(item)] + [Flush]
  }

  lemma NothingYetSeen()
    ensures Run([]) == START && Trace([]) == [] && Arrived([]) == []
    ensures START.inFlight == map[] && START.ingest.queue == []
  {}

  lemma SessionLeavesQueue(w: World, metrics: set<string>)
    ensures var w' := Next(w, Connect(metrics));
            w'.ingest.queue == w.ingest.queue && w'.inFlight == w.inFlight
  {}

  lemma ArrivalIsQueued(w: World, item: Item)
    requires |w.ingest.queue| < QUEUE_MAX_ITEMS
    ensures var w' := Next(w, Arrive(item));
            w'.ingest.queue == w.ingest.queue + [item] && w'.inFlight == w.inFlight
  {}

  lemma OneMoreStep(steps: seq<Step>, n: nat)
    requires n < |steps|
    ensures Run(steps[..n + 1]) == Next(Run(steps[..n]), steps[n])
    ensures Arrived(steps[..n + 1]) == Arrived(steps[..n]) +
              match steps[n]
              case Connect(metrics) => [Connected(metrics)]
              case Arrive(item) => [Decoded(item)]
              case _ => []
    ensures Trace(steps[..n + 1]) == Trace(steps[..n]) +
              match steps[n]
              case Connect(metrics) => [Connected(metrics)]
              case Flush => if Run(steps[..n]).inFlight == map[] then Decodings(Run(steps[..n]).ingest.queue) else []
              case _ => []
  {
    assert steps[..n + 1][..n] == steps[..n];
  }

  lemma EarlyTrace(name: string, item: Item)
    ensures Trace(EarlySession(name, item)) == [Connected({name}), Connected({name}), Decoded(item), Decoded(item)]
    ensures Arrived(EarlySession(name, item)) == [Connected({name}), Decoded(item), Connected({name}), Decoded(item)]
  {
    hide Run, Trace, Arrived, Next;
    var steps := EarlySession(name, item);
    assert steps[..0] == [] && steps[..5] == steps;
    NothingYetSeen();
    OneMoreStep(steps, 0);
    OneMoreStep(steps, 1);
    OneMoreStep(steps, 2);
    OneMoreStep(steps, 3);
    OneMoreStep(steps, 4);
    SessionLeavesQueue(START, {name});
    ArrivalIsQueued(Run(steps[..1]), item);
    SessionLeavesQueue(Run(steps[..2]), {name});
    ArrivalIsQueued(Run(steps[..3]), item);
    assert Decodings([item, item]) == [Decoded(item), Decoded(item)];
  }

  lemma EarlyArrivals(item: Item, name: string)
    requires SampleTime(item, name).Some?
    ensures OnlyOpeningsRepeat([Connected({name}), Decoded(item), Connected({name}), Decoded(item)], name)
    ensures !OnlyOpeningsRepeat([Connected({name}), Connected({name}), Decoded(item), Decoded(item)], name)
  {
    hide SampleTime;
    var a: seq<Event> := [Connected({name}), Decoded(item), Connected({name}), Decoded(item)];
    var b: seq<Event> := [Connected({name}), Connected({name}), Decoded(item), Decoded(item)];
    assert a[..1] == [Connected({name})] && a[..3][2] == Connected({name});
    assert b[..3][2] == Decoded(item) && !Opening(b[..3], name);
    assert EventTime(b[..3][2], name) == EventTime(b[3], name);
    assert RepeatsAt(b, 3, name);
  }

  lemma DecodedTwice(item: Item, m: Metric)
    requires Registered(m) && !m.idempotent && SampleTime(item, m.name).Some?
    ensures var events := [Connected({m.name}), Connected({m.name}), Decoded(item), Decoded(item)];
            RowsOf(After(events).pending, m.table) == ItemRows(item, m) + ItemRows(item, m)
  {
    hide After, Registered, SampleTime, ItemRows, RowsOf;
    var e1: seq<Event> := [Connected({m.name})];
    var e2 := e1 + [Connected({m.name})];
    var e3 := e2 + [Decoded(item)];
    var e4 := e3 + [Decoded(item)];
    assert e1[..0] == [] && e2[..1] == e1 && e3[..2] == e2 && e4[..3] == e3;
    NothingAdded(m);
    AddedByEvent(e1, m);
    AddedByEvent(e2, m);
    AddedByEvent(e3, m);
    AddedByEvent(e4, m);
    assert !RepeatsAt(e3, 2, m.name);
    assert !Opening(e3, m.name);
    assert e4 == [Connected({m.name}), Connected({m.name}), Decoded(item), Decoded(item)];
    assert [] + ItemRows(item, m) == ItemRows(item, m);
  }

  /** A session that begins while the value of the one before is still queued stores the redelivered value twice. */
  lemma EarlySessionStoresTwice(item: Item, m: Metric)
    requires Registered(m) && !m.idempotent && SampleTime(item, m.name).Some?
    ensures var steps := EarlySession(m.name, item);
            && OnlyOpeningsRepeat(Arrived(steps), m.name)
            && RowsOf(Run(steps).added, m.table) == ItemRows(item, m) + ItemRows(item, m)
            && RowsOf(Run(steps).added, m.table) != OncePerSample(Trace(steps), m)
  {
    hide Run, Trace, Arrived, Registered, SampleTime, OncePerSample, After, ItemRows;
    var steps := EarlySession(m.name, item);
    EarlyTrace(m.name, item);
    EarlyArrivals(item, m.name);
    RunsStoreEachSampleOnce(steps, m);
    RunsFollowTheirTrace(steps, m.table);
    DecodedTwice(item, m);
  }
}
