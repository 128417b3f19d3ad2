/** What holds of the client map for every log, however malformed, and for every chronological log. */
module ClientHistory {
  import opened OpcEvents
  import opened Sessions
  import opened ClientMap

  /** Exactly one object per application name, found again under that name. */
  ghost predicate OnePerName(store: seq<Session>, byApp: map<string, nat>) {
    && (forall n :: n in byApp ==> byApp[n] < |store| && store[byApp[n]].applicationName == n)
    && (forall i :: 0 <= i < |store| ==> store[i].applicationName in byApp && byApp[store[i].applicationName] == i)
  }

  /** The connect times of all spans of a session, the current one last. */
  function History(s: Session): seq<Stamp> { ConnectTimes(s.past) + [s.connectedAt] }

  /** Every session's connect times are its application's create requests, in log order. */
  ghost predicate HistoryMatches(store: seq<Session>, byApp: map<string, nat>, events: seq<OpcEvent>) {
    && (forall i :: 0 <= i < |store| ==> History(store[i]) == CreateTimes(events, store[i].applicationName))
    && (forall n :: n in byApp <==> CreateTimes(events, n) != [])
  }

  lemma CreateTimesStep(events: seq<OpcEvent>, ev: OpcEvent, name: string)
    ensures CreateTimes(events + [ev], name) == CreateTimes(events, name)
              + if ev.kind.CreateSessionRequest? && AppName(ev) == name then [ev.timestamp] else []
  {
    assert (events + [ev])[..|events|] == events;
  }

  lemma OtherEventsKeepTimes(store: seq<Session>, byApp: map<string, nat>, events: seq<OpcEvent>, ev: OpcEvent)
    requires HistoryMatches(store, byApp, events) && !ev.kind.CreateSessionRequest?
    ensures HistoryMatches(store, byApp, events + [ev])
  {
    forall n ensures CreateTimes(events + [ev], n) == CreateTimes(events, n) { CreateTimesStep(events, ev, n); }
  }

  /** Replacing a session by one with the same name and connects keeps names and history. */
  lemma AmendKeepsHistory(store: seq<Session>, byApp: map<string, nat>, events: seq<OpcEvent>, ev: OpcEvent,
                          i: nat, s: Session)
    requires OnePerName(store, byApp) && HistoryMatches(store, byApp, events)
    requires !ev.kind.CreateSessionRequest? && i < |store|
    requires s.applicationName == store[i].applicationName
    requires s.connectedAt == store[i].connectedAt && s.past == store[i].past
    ensures OnePerName(store[i := s], byApp) && HistoryMatches(store[i := s], byApp, events + [ev])
  {
    hide CreateTimes, AppName;
    OtherEventsKeepTimes(store, byApp, events, ev);
  }

  lemma ReconnectTimes(s: Session, at: Stamp)
    ensures History(s.Reconnected(at)) == History(s) + [at]
  {}

  /** A create request of a known application adds its instant to that application's history. */
  lemma ReconnectKeepsHistory(store: seq<Session>, byApp: map<string, nat>, events: seq<OpcEvent>, ev: OpcEvent,
                              name: string)
    requires OnePerName(store, byApp) && HistoryMatches(store, byApp, events)
    requires ev.kind.CreateSessionRequest? && AppName(ev) == name && name in byApp
    ensures var store' := store[byApp[name] := store[byApp[name]].Reconnected(ev.timestamp)];
            OnePerName(store', byApp) && HistoryMatches(store', byApp, events + [ev])
  {
    var i := byApp[name];
    var s := store[i].Reconnected(ev.timestamp);
    var store' := store[i := s];
    ReconnectTimes(store[i], ev.timestamp);
    forall j | 0 <= j < |store'| ensures History(store'[j]) == CreateTimes(events + [ev], store'[j].applicationName) {
      CreateTimesStep(events, ev, store'[j].applicationName);
      if j != i { assert store'[j] == store[j] && store[j].applicationName != name; }
    }
    forall n ensures n in byApp <==> CreateTimes(events + [ev], n) != [] { CreateTimesStep(events, ev, n); }
  }

  /** A create request of an unknown application starts a history. */
  lemma FirstConnectKeepsHistory(store: seq<Session>, byApp: map<string, nat>, events: seq<OpcEvent>, ev: OpcEvent,
                                 name: string, s: Session)
    requires OnePerName(store, byApp) && HistoryMatches(store, byApp, events)
    requires ev.kind.CreateSessionRequest? && AppName(ev) == name && name !in byApp
    requires s.applicationName == name && History(s) == [ev.timestamp]
    ensures OnePerName(store + [s], byApp[name := |store|])
    ensures HistoryMatches(store + [s], byApp[name := |store|], events + [ev])
  {
    hide AppName, CreateTimes, History;
    var store' := store + [s];
    forall j | 0 <= j < |store'| ensures History(store'[j]) == CreateTimes(events + [ev], store'[j].applicationName) {
      CreateTimesStep(events, ev, store'[j].applicationName);
      if j < |store| { assert store'[j] == store[j] && store[j].applicationName != name; }
    }
    forall n ensures n in byApp[name := |store|] <==> CreateTimes(events + [ev], n) != [] {
      CreateTimesStep(events, ev, n);
    }
  }

  lemma NewHistory(name: string, uri: string, url: string, at: Stamp)
    ensures History(NewSession(name, uri, url, at, false)) == [at]
  {}

  ghost predicate Recorded(r: Registry, events: seq<OpcEvent>) {
    OnePerName(r.store, r.byApp) && HistoryMatches(r.store, r.byApp, events)
  }

  lemma StepKeepsHistory(r: Registry, events: seq<OpcEvent>, ev: OpcEvent)
    requires InStore(r) && Recorded(r, events)
    ensures Recorded(Step(r, ev), events + [ev])
  {
    hide HistoryMatches, AppName, Rejected, Without, With;
    var r' := Step(r, ev);
    if ev.kind.CreateSessionRequest? {
      var name := AppName(ev);
      if name in r.byApp {
        ReconnectKeepsHistory(r.store, r.byApp, events, ev, name);
      } else {
        var s := NewSession(name, ev.Get("applicationUri"), ev.Get("endpointUrl"), ev.timestamp, false);
        NewHistory(name, ev.Get("applicationUri"), ev.Get("endpointUrl"), ev.timestamp);
        FirstConnectKeepsHistory(r.store, r.byApp, events, ev, name, s);
      }
    } else if ev.kind.CreateSessionResponse? && !Rejected(ev.Get("serviceResult")) && ev.tag in r.pending {
      var i := r.pending[ev.tag];
      AmendKeepsHistory(r.store, r.byApp, events, ev, i, r'.store[i]);
    } else if !ev.kind.CreateSessionResponse? && AmendmentOf(r, ev).Amend? {
      AmendmentsAmend(r, ev);
      AmendKeepsHistory(r.store, r.byApp, events, ev, AmendmentOf(r, ev).id, AmendmentOf(r, ev).value);
    } else {
      OtherEventsKeepTimes(r.store, r.byApp, events, ev);
    }
  }

  lemma NothingRecorded()
    ensures Recorded(EMPTY, [])
  {}

  /**
    For every event list: each session's past connects followed by its current one are
    exactly the create requests of its application name in log order, there is one object
    per name, and every name that asked for a session has one.
   */
  lemma {:induction false} HistoryIsTheCreateRequests(events: seq<OpcEvent>)
    ensures Recorded(Run(events), events)
  {
    hide Step, InStore, Recorded;
    if events == [] {
      NothingRecorded();
    } else {
      var n := |events| - 1;
      HistoryIsTheCreateRequests(events[..n]);
      StepKeepsHistory(Run(events[..n]), events[..n], events[n]);
      assert events[..n] + [events[n]] == events;
    }
  }

  // ---- chronological logs ----

  ghost predicate AllInterleaved(store: seq<Session>, now: int) {
    forall i :: 0 <= i < |store| ==> Interleaved(store[i].Spans(), now)
  }

  lemma SpansOrdered(s: Session, t: Session, now: int, later: int)
    requires Interleaved(s.Spans(), now) && now <= later
    requires t.past == s.past && t.connectedAt == s.connectedAt
    requires t.disconnectedAt == s.disconnectedAt || t.disconnectedAt == At(later)
    ensures Interleaved(t.Spans(), later)
  {
    var a, b := s.Spans(), t.Spans();
    forall i | 0 <= i < |b| - 1 ensures b[i] == a[i] {}
  }

  lemma ReconnectOrdered(s: Session, now: int, later: int)
    requires Interleaved(s.Spans(), now) && now <= later
    ensures Interleaved(s.Reconnected(At(later)).Spans(), later)
  {
    var a, b := s.Spans(), s.Reconnected(At(later)).Spans();
    forall i | 0 <= i < |a| ensures b[i] == a[i] {}
  }

  lemma StoreAges(store: seq<Session>, now: int, later: int)
    requires now <= later && AllInterleaved(store, now)
    ensures AllInterleaved(store, later)
  {
    hide Interleaved;
    forall j | 0 <= j < |store| ensures Interleaved(store[j].Spans(), later) {
      SpansOrdered(store[j], store[j], now, later);
    }
  }

  lemma StoreKeepsOrder(store: seq<Session>, i: nat, s: Session, now: int, later: int)
    requires i < |store| && now <= later && AllInterleaved(store, now)
    requires Interleaved(s.Spans(), later)
    ensures AllInterleaved(store[i := s], later)
  {
    hide Interleaved;
    StoreAges(store, now, later);
  }

  lemma FirstOrdered(name: string, uri: string, url: string, later: int)
    ensures Interleaved(NewSession(name, uri, url, At(later), false).Spans(), later)
  {}

  lemma StepKeepsOrder(r: Registry, now: int, ev: OpcEvent)
    requires InStore(r) && AllInterleaved(r.store, now) && ev.timestamp.At? && now <= ev.timestamp.time
    ensures AllInterleaved(Step(r, ev).store, ev.timestamp.time)
  {
    hide Interleaved, AmendmentOf, AppName;
    var later := ev.timestamp.time;
    if ev.kind.CreateSessionRequest? {
      if AppName(ev) in r.byApp {
        var i := r.byApp[AppName(ev)];
        ReconnectOrdered(r.store[i], now, later);
        StoreKeepsOrder(r.store, i, r.store[i].Reconnected(ev.timestamp), now, later);
      } else {
        StoreAges(r.store, now, later);
        FirstOrdered(AppName(ev), ev.Get("applicationUri"), ev.Get("endpointUrl"), later);
      }
    } else if ev.kind.CreateSessionResponse? && !Rejected(ev.Get("serviceResult")) && ev.tag in r.pending {
      var i := r.pending[ev.tag];
      var s := r.store[i].Established(ev.Get("sessionId"), ev.Get("authenticationToken"));
      SpansOrdered(r.store[i], s, now, later);
      StoreKeepsOrder(r.store, i, s, now, later);
    } else if !ev.kind.CreateSessionResponse? && AmendmentOf(r, ev).Amend? {
      var i, s := AmendmentOf(r, ev).id, AmendmentOf(r, ev).value;
      AmendmentsAmend(r, ev);
      SpansOrdered(r.store[i], s, now, later);
      StoreKeepsOrder(r.store, i, s, now, later);
    } else {
      StoreAges(r.store, now, later);
    }
  }

  /**
    In a chronological log every recorded disconnect lies between its own connect and
    the next one, so the gaps are disjoint.
   */
  lemma {:induction false} DisconnectsLieBetweenConnects(events: seq<OpcEvent>)
    requires Chronological(events) && events != []
    ensures AllInterleaved(Run(events).store, events[|events| - 1].timestamp.time)
  {
    var n := |events| - 1;
    if n == 0 {
      assert Run(events[..0]) == EMPTY;
      StepKeepsOrder(EMPTY, events[0].timestamp.time, events[0]);
    } else {
      DisconnectsLieBetweenConnects(events[..n]);
      StepKeepsOrder(Run(events[..n]), events[n - 1].timestamp.time, events[n]);
    }
  }
}
