/**
  The time a client was away between two connections: for which logs it fits between the two
  connects, exactly.
 */
module ConnectionGaps {
  import opened Wrappers
  import opened OpcEvents
  import opened Sessions
  import opened ClientMap
  import opened ClientHistory

  // ---- a relation between every span and the next connect ----

  type Relation = (ConnectionSpan, Stamp) -> bool

  predicate RelatesAt(s: Session, j: nat, rel: Relation)
    requires j < |s.past|
  {
    rel(s.Spans()[j], s.Spans()[j + 1].connectedAt)
  }

  ghost predicate SpansRelate(s: Session, rel: Relation) {
    forall j :: 0 <= j < |s.past| ==> RelatesAt(s, j, rel)
  }

  ghost predicate AllRelate(store: seq<Session>, rel: Relation) {
    forall i :: 0 <= i < |store| ==> SpansRelate(store[i], rel)
  }

  /** A reconnect finds the relation between the span it archives and itself. */
  predicate Finds(r: Registry, ev: OpcEvent, rel: Relation)
    requires InStore(r)
  {
    ev.kind.CreateSessionRequest? && AppName(ev) in r.byApp ==>
      rel(r.store[r.byApp[AppName(ev)]].Current(), ev.timestamp)
  }

  ghost predicate AlwaysFinds(events: seq<OpcEvent>, rel: Relation) {
    forall n :: 0 <= n < |events| ==> Finds(Run(events[..n]), events[n], rel)
  }

  lemma SameSpansRelate(s: Session, t: Session, rel: Relation)
    requires t.past == s.past && t.connectedAt == s.connectedAt
    ensures SpansRelate(t, rel) <==> SpansRelate(s, rel)
  {
    forall j | 0 <= j < |s.past| ensures RelatesAt(t, j, rel) == RelatesAt(s, j, rel) {}
  }

  lemma ReconnectRelates(s: Session, at: Stamp, rel: Relation)
    ensures SpansRelate(s.Reconnected(at), rel) <==> SpansRelate(s, rel) && rel(s.Current(), at)
  {
    var t, n := s.Reconnected(at), |s.past|;
    assert RelatesAt(t, n, rel) == rel(s.Current(), at);
    forall j | 0 <= j < n ensures RelatesAt(t, j, rel) == RelatesAt(s, j, rel) {}
  }

  lemma ReplacedRelates(store: seq<Session>, i: nat, s: Session, rel: Relation)
    requires i < |store|
    requires SpansRelate(s, rel) ==> SpansRelate(store[i], rel)
    ensures AllRelate(store[i := s], rel) <==> AllRelate(store, rel) && SpansRelate(s, rel)
  {
    hide SpansRelate;
    var store' := store[i := s];
    forall j | 0 <= j < |store| && j != i ensures store'[j] == store[j] {}
    assert store'[i] == s;
  }

  lemma NewcomerRelates(store: seq<Session>, s: Session, rel: Relation)
    requires s.past == []
    ensures AllRelate(store + [s], rel) <==> AllRelate(store, rel)
  {
    var store' := store + [s];
    forall j | 0 <= j < |store| ensures store'[j] == store[j] {}
    assert SpansRelate(s, rel);
  }

  lemma AllRelateAt(store: seq<Session>, i: nat, rel: Relation)
    requires i < |store|
    ensures AllRelate(store, rel) ==> SpansRelate(store[i], rel)
  {}

  lemma AmendedRelates(store: seq<Session>, i: nat, s: Session, rel: Relation)
    requires i < |store| && s.past == store[i].past && s.connectedAt == store[i].connectedAt
    ensures AllRelate(store[i := s], rel) <==> AllRelate(store, rel)
  {
    hide AllRelate, SpansRelate;
    SameSpansRelate(store[i], s, rel);
    ReplacedRelates(store, i, s, rel);
    AllRelateAt(store, i, rel);
  }

  lemma StepRelatesIff(r: Registry, ev: OpcEvent, rel: Relation)
    requires InStore(r)
    ensures AllRelate(Step(r, ev).store, rel) <==> AllRelate(r.store, rel) && Finds(r, ev, rel)
  {
    hide AllRelate, SpansRelate, AmendmentOf, AppName, Rejected, Without, With;
    if ev.kind.CreateSessionRequest? {
      var name := AppName(ev);
      if name in r.byApp {
        var i := r.byApp[name];
        ReconnectRelates(r.store[i], ev.timestamp, rel);
        ReplacedRelates(r.store, i, r.store[i].Reconnected(ev.timestamp), rel);
        AllRelateAt(r.store, i, rel);
      } else {
        NewcomerRelates(r.store, Step(r, ev).store[|r.store|], rel);
      }
    } else if ev.kind.CreateSessionResponse? && !Rejected(ev.Get("serviceResult")) && ev.tag in r.pending {
      AmendedRelates(r.store, r.pending[ev.tag], Step(r, ev).store[r.pending[ev.tag]], rel);
    } else if !ev.kind.CreateSessionResponse? && AmendmentOf(r, ev).Amend? {
      AmendmentsAmend(r, ev);
      AmendedRelates(r.store, AmendmentOf(r, ev).id, AmendmentOf(r, ev).value, rel);
    }
  }

  lemma OneMoreFinds(events: seq<OpcEvent>, rel: Relation)
    requires events != []
    ensures var n := |events| - 1;
            AlwaysFinds(events, rel) <==> AlwaysFinds(events[..n], rel) && Finds(Run(events[..n]), events[n], rel)
  {
    hide Run, Finds;
    var n := |events| - 1;
    forall i | 0 <= i < n ensures events[..n][..i] == events[..i] {}
  }

  lemma NothingFound(rel: Relation)
    ensures AlwaysFinds([], rel) && Run([]).store == []
  {}

  /**
    For every log and every relation between a span and the connect after it: all sessions
    have it throughout if and only if every reconnect, checked on the registry before it, finds it.
   */
  lemma {:induction false} SpansRelateIff(events: seq<OpcEvent>, rel: Relation)
    ensures AllRelate(Run(events).store, rel) <==> AlwaysFinds(events, rel)
  {
    hide Step, Finds, AlwaysFinds;
    if events == [] {
      assert Run(events).store == [] && AlwaysFinds(events, rel) by { NothingFound(rel); }
    } else {
      var n := |events| - 1;
      SpansRelateIff(events[..n], rel);
      OneMoreFinds(events, rel);
      StepRelatesIff(Run(events[..n]), events[n], rel);
    }
  }

  // ---- gaps that fit between their connects ----

  /** The gap after the span is no longer than the time from its own connect to the next one. */
  predicate GapFits(span: ConnectionSpan, next: Stamp) {
    span.connectedAt.At? && next.At? && GapBetween(span, next) <= next.time - span.connectedAt.time
  }

  /** The next connect is not dated before the span's own, and the span's end, if dated, is not either. */
  predicate InTime(span: ConnectionSpan, next: Stamp) {
    && span.connectedAt.At? && next.At? && span.connectedAt.time <= next.time
    && (span.disconnectedAt.At? ==> span.connectedAt.time <= span.disconnectedAt.time)
  }

  /** The span's end, if dated, lies between its own connect and the next one. */
  predicate EndsBetween(span: ConnectionSpan, next: Stamp) {
    InTime(span, next) && (span.disconnectedAt.At? ==> span.disconnectedAt.time <= next.time)
  }

  lemma SameRelation(store: seq<Session>, rel: Relation, rel': Relation)
    requires forall span, next :: rel(span, next) <==> rel'(span, next)
    ensures AllRelate(store, rel) <==> AllRelate(store, rel')
  {
    forall i | 0 <= i < |store| ensures SpansRelate(store[i], rel) <==> SpansRelate(store[i], rel') {
      var s := store[i];
      forall j | 0 <= j < |s.past| ensures RelatesAt(s, j, rel) <==> RelatesAt(s, j, rel') {}
    }
  }

  /**
    For every log: every gap of every session fits between its two connects if and only if
    every reconnect finds a stored disconnect, if dated, not before the stored connect, and
    is not itself dated before that connect.
   */
  lemma GapsFitIff(events: seq<OpcEvent>)
    ensures AllRelate(Run(events).store, GapFits) <==> AlwaysFinds(events, InTime)
  {
    SpansRelateIff(events, InTime);
    SameRelation(Run(events).store, GapFits, InTime);
  }

  /** For every log: every dated disconnect lies between its connects if and only if every reconnect finds it so. */
  lemma DisconnectsLieBetweenIff(events: seq<OpcEvent>)
    ensures AllRelate(Run(events).store, EndsBetween) <==> AlwaysFinds(events, EndsBetween)
  {
    SpansRelateIff(events, EndsBetween);
  }

  // ---- total downtime ----

  /** Every request for a session is dated. */
  predicate DatedRequests(events: seq<OpcEvent>) {
    forall i :: 0 <= i < |events| && events[i].kind.CreateSessionRequest? ==> events[i].timestamp.At?
  }

  lemma {:induction false} CreateTimesAreDated(events: seq<OpcEvent>, name: string)
    requires DatedRequests(events)
    ensures forall i :: 0 <= i < |CreateTimes(events, name)| ==> CreateTimes(events, name)[i].At?
  {
    if events == [] {
    } else {
      CreateTimesAreDated(events[..|events| - 1], name);
    }
  }

  lemma SpansAreDated(events: seq<OpcEvent>, i: nat)
    requires DatedRequests(events) && i < |Run(events).store|
    ensures Dated(Run(events).store[i].Spans())
  {
    hide Run;
    var s := Run(events).store[i];
    HistoryIsTheCreateRequests(events);
    CreateTimesAreDated(events, s.applicationName);
    forall j | 0 <= j < |s.Spans()| ensures s.Spans()[j].connectedAt.At? {
      assert s.Spans()[j].connectedAt == History(s)[j];
    }
  }

  /** The total downtime of a client, and the time it is taken from: first to last connect. */
  function Away(s: Session): nat { Downtime(s.Spans(), |s.Spans()| - 1) }

  function Whole(s: Session): int
    requires Dated(s.Spans())
  {
    s.connectedAt.time - s.Spans()[0].connectedAt.time
  }

  /**
    For every log whose requests are dated: up time and downtime add up to the time from first
    to last connect, so a client was not away for longer exactly when its up times are not
    negative in all.
   */
  lemma UpAndDownAddUp(events: seq<OpcEvent>, i: nat)
    requires DatedRequests(events) && i < |Run(events).store|
    ensures var s := Run(events).store[i];
            && Dated(s.Spans()) && Uptime(s.Spans(), |s.past|) + Away(s) == Whole(s)
            && (Away(s) <= Whole(s) <==> Uptime(s.Spans(), |s.past|) >= 0)
  {
    hide Run;
    SpansAreDated(events, i);
    UpAndDownFillTheTime(Run(events).store[i].Spans(), |Run(events).store[i].past|);
  }

  lemma {:induction false} FittingGapsAddUp(s: Session, n: nat)
    requires Dated(s.Spans()) && SpansRelate(s, GapFits) && n <= |s.past|
    ensures Downtime(s.Spans(), n) <= s.Spans()[n].connectedAt.time - s.Spans()[0].connectedAt.time
  {
    if n == 0 {
    } else {
      FittingGapsAddUp(s, n - 1);
      assert RelatesAt(s, n - 1, GapFits);
    }
  }

  /** So where every reconnect is in time, no client is away for longer than from its first to its last connect. */
  lemma DowntimeIsBounded(events: seq<OpcEvent>, i: nat)
    requires DatedRequests(events) && AlwaysFinds(events, InTime) && i < |Run(events).store|
    ensures var s := Run(events).store[i];
            Dated(s.Spans()) && Away(s) <= Whole(s)
  {
    hide Run;
    SpansAreDated(events, i);
    GapsFitIff(events);
    FittingGapsAddUp(Run(events).store[i], |Run(events).store[i].past|);
  }

  lemma InterleavedSpansRelate(s: Session, now: int)
    requires Interleaved(s.Spans(), now)
    ensures SpansRelate(s, EndsBetween) && SpansRelate(s, InTime)
  {}

  /** Chronological logs meet both conditions. */
  lemma ChronologicalLogsAreInTime(events: seq<OpcEvent>)
    requires Chronological(events)
    ensures DatedRequests(events) && AlwaysFinds(events, EndsBetween) && AlwaysFinds(events, InTime)
  {
    hide Run, AlwaysFinds;
    if events != [] {
      DisconnectsLieBetweenConnects(events);
      var store := Run(events).store;
      forall k | 0 <= k < |store| ensures SpansRelate(store[k], EndsBetween) && SpansRelate(store[k], InTime) {
        InterleavedSpansRelate(store[k], events[|events| - 1].timestamp.time);
      }
    } else {
      NothingFound(InTime);
    }
    SpansRelateIff(events, EndsBetween);
    SpansRelateIff(events, InTime);
  }

  // ---- a log that is not chronological ----

  /** An application that asks at `a`, is closed at `d` and asks again at `b`, in this order in the log. */
  function ClosedLog(a: int, d: int, b: int): seq<OpcEvent> {
    [OpcEvent(At(a), "1", CreateSessionRequest, map["applicationName" := "A"]),
     OpcEvent(At(a), "1", CreateSessionResponse, map["authenticationToken" := "T"]),
     OpcEvent(At(d), "1", CloseSessionRequest, map["authenticationToken" := "T"]),
     OpcEvent(At(b), "1", CreateSessionRequest, map["applicationName" := "A"])]
  }

  lemma RunStep(log: seq<OpcEvent>, n: nat)
    requires n < |log|
    ensures Run(log[..n + 1]) == Step(Run(log[..n]), log[n]) && Run([]) == EMPTY
  {
    assert log[..n + 1][..n] == log[..n];
  }

  lemma Asked(ev: OpcEvent)
    requires ev.tag == "1" && ev.kind.CreateSessionRequest? && ev.fields == map["applicationName" := "A"]
    ensures Step(EMPTY, ev) ==
            Registry([NewSession("A", "", "", ev.timestamp, false)], map[], [], map["1" := 0], map["A" := 0])
  {
    assert AppName(ev) == "A";
  }

  lemma Granted(s: Session, ev: OpcEvent)
    requires ev.tag == "1" && ev.kind.CreateSessionResponse? && ev.fields == map["authenticationToken" := "T"]
    requires s.applicationName == "A"
    ensures Step(Registry([s], map[], [], map["1" := 0], map["A" := 0]), ev) ==
            Registry([s.Established("", "T")], map["T" := 0], ["T"], map[], map["A" := 0])
  {
    assert [s][0 := s.Established("", "T")] == [s.Established("", "T")];
    assert map["1" := 0] - {"1"} == map[];
  }

  lemma Ended(s: Session, ev: OpcEvent)
    requires ev.tag == "1" && ev.kind.CloseSessionRequest? && ev.fields == map["authenticationToken" := "T"]
    ensures Step(Registry([s], map["T" := 0], ["T"], map[], map["A" := 0]), ev) ==
            Registry([s.Closed(ev.timestamp, "CloseSession")], map["T" := 0], ["T"], map[], map["A" := 0])
  {
    var r := Registry([s], map["T" := 0], ["T"], map[], map["A" := 0]);
    assert FindByTagOrToken(r.sessions, ev) == Some(0) by { assert "i=" + ev.tag == "i=1"; }
  }

  lemma AskedAgain(s: Session, ev: OpcEvent)
    requires ev.tag == "1" && ev.kind.CreateSessionRequest? && ev.fields == map["applicationName" := "A"]
    ensures Step(Registry([s], map["T" := 0], ["T"], map[], map["A" := 0]), ev).store == [s.Reconnected(ev.timestamp)]
  {
    assert AppName(ev) == "A";
  }

  lemma ClosedSession(a: int, d: int, b: int)
    ensures var s := NewSession("A", "", "", At(a), false).Established("", "T").Closed(At(d), "CloseSession");
            Run(ClosedLog(a, d, b)).store == [s.Reconnected(At(b))]
  {
    hide Run, Step;
    var log := ClosedLog(a, d, b);
    var s0 := NewSession("A", "", "", At(a), false);
    var s1 := s0.Established("", "T");
    var s2 := s1.Closed(At(d), "CloseSession");
    RunStep(log, 0);
    RunStep(log, 1);
    RunStep(log, 2);
    RunStep(log, 3);
    assert log[..0] == [] && log[..4] == log;
    assert Run(log[..1]) == Registry([s0], map[], [], map["1" := 0], map["A" := 0]) by { Asked(log[0]); }
    assert Run(log[..2]) == Registry([s1], map["T" := 0], ["T"], map[], map["A" := 0]) by { Granted(s0, log[1]); }
    assert Run(log[..3]) == Registry([s2], map["T" := 0], ["T"], map[], map["A" := 0]) by { Ended(s1, log[2]); }
    AskedAgain(s2, log[3]);
  }

  /** A disconnect dated before its own connect makes the downtime longer than the time it is taken from. */
  lemma MisdatedDisconnectInflatesDowntime(a: int, d: int, b: int)
    requires d < a && d < b
    ensures var store := Run(ClosedLog(a, d, b)).store;
            |store| == 1 && |store[0].Spans()| == 2 && Downtime(store[0].Spans(), 1) == b - d > b - a
  {
    hide Run;
    ClosedSession(a, d, b);
    var spans := Run(ClosedLog(a, d, b)).store[0].Spans();
    assert GapAfter(spans, 0) == b - d;
  }
}
