/**
  Where sessions are filed. For logs whose handshakes do not overlap per application and
  whose identifiers are fresh, a session is filed under its current key and no other.
 */
module ClientKeys {
  import opened OpcEvents
  import opened Sessions
  import opened ClientMap
  import opened ClientHistory

  // ---- the discipline, stated on the log alone ----

  /** Open handshakes (tag to application) and the identifiers handed out so far. */
  datatype Handshakes = Handshakes(open: map<string, string>, used: set<string>)

  function Names(token: string, id: string): set<string> { {token, id} - {""} }

  predicate Accepts(h: Handshakes, ev: OpcEvent) {
    ev.kind.CreateSessionResponse? && !Rejected(ev.Get("serviceResult")) && ev.tag in h.open
  }

  function Next(h: Handshakes, ev: OpcEvent): Handshakes {
    if ev.kind.CreateSessionRequest? then
      h.(open := h.open[ev.tag := AppName(ev)])
    else if Accepts(h, ev) then
      Handshakes(h.open - {ev.tag}, h.used + Names(ev.Get("authenticationToken"), ev.Get("sessionId")))
    else if ev.kind.CreateSessionResponse? then
      h.(open := h.open - {ev.tag})
    else h
  }

  /**
    No application asks for a session while its previous handshake is open, and an
    accepted handshake brings at least one identifier, none of them seen before.
   */
  predicate Allowed(h: Handshakes, ev: OpcEvent) {
    var token, id := ev.Get("authenticationToken"), ev.Get("sessionId");
    && (ev.kind.CreateSessionRequest? ==> AppName(ev) !in h.open.Values)
    && (Accepts(h, ev) ==> Names(token, id) != {} && Names(token, id) !! h.used)
  }

  function Track(events: seq<OpcEvent>): Handshakes {
    if events == [] then Handshakes(map[], {}) else Next(Track(events[..|events| - 1]), events[|events| - 1])
  }

  predicate Disciplined(events: seq<OpcEvent>) {
    events == [] ||
    (Disciplined(events[..|events| - 1]) && Allowed(Track(events[..|events| - 1]), events[|events| - 1]))
  }

  // ---- what the discipline keeps ----

  function IdsOf(s: Session): set<string> { Names(s.authToken, s.sessionId) }

  ghost predicate Clean(s: Session) { s.disconnectedAt == Blank && s.disconnectReason == "" }

  /** Every entry files its session under that session's current key. */
  ghost predicate FiledUnderKey(store: seq<Session>, sessions: map<string, nat>) {
    forall k :: k in sessions ==> sessions[k] < |store| && k != "" && k == store[sessions[k]].Key()
  }

  /** Every active session is filed, and has neither a disconnect time nor a reason. */
  ghost predicate ActiveAreFiled(store: seq<Session>, sessions: map<string, nat>) {
    forall i :: 0 <= i < |store| && store[i].active ==>
      store[i].Key() in sessions && sessions[store[i].Key()] == i && Clean(store[i])
  }

  /** Identifiers are never shared, and all are known to the tracker. */
  ghost predicate IdsApart(store: seq<Session>, used: set<string>) {
    && (forall i :: 0 <= i < |store| ==> IdsOf(store[i]) <= used)
    && (forall i, j :: 0 <= i < j < |store| ==> IdsOf(store[i]) !! IdsOf(store[j]))
  }

  ghost predicate Blanked(s: Session) { s.authToken == "" && !s.active && Clean(s) }

  /** A session in the middle of a handshake is blank, inactive, filed nowhere and pending once. */
  ghost predicate PendingAreBlank(store: seq<Session>, sessions: map<string, nat>, pending: map<string, nat>) {
    && (forall t :: t in pending ==> pending[t] < |store|)
    && (forall t :: t in pending ==> Blanked(store[pending[t]]))
    && (forall t, k :: t in pending && k in sessions ==> sessions[k] != pending[t])
    && (forall t, u :: t in pending && u in pending && pending[t] == pending[u] ==> t == u)
  }

  ghost predicate OpenMatches(store: seq<Session>, pending: map<string, nat>, open: map<string, string>) {
    && pending.Keys == open.Keys
    && (forall t :: t in pending ==> pending[t] < |store| && store[pending[t]].applicationName == open[t])
  }

  ghost predicate Keyed(r: Registry, h: Handshakes) {
    && InStore(r)
    && OnePerName(r.store, r.byApp)
    && FiledUnderKey(r.store, r.sessions)
    && ActiveAreFiled(r.store, r.sessions)
    && IdsApart(r.store, h.used)
    && PendingAreBlank(r.store, r.sessions, r.pending)
    && OpenMatches(r.store, r.pending, h.open)
  }

  lemma AmendFiling(store: seq<Session>, sessions: map<string, nat>, i: nat, s: Session)
    requires i < |store| && FiledUnderKey(store, sessions) && ActiveAreFiled(store, sessions)
    requires s.Key() == store[i].Key() && (s.active ==> store[i].active && (Clean(store[i]) ==> Clean(s)))
    ensures FiledUnderKey(store[i := s], sessions) && ActiveAreFiled(store[i := s], sessions)
  {}

  lemma AmendPending(store: seq<Session>, sessions: map<string, nat>, pending: map<string, nat>, k: string, s: Session)
    requires PendingAreBlank(store, sessions, pending) && k in sessions && sessions[k] < |store|
    ensures PendingAreBlank(store[sessions[k] := s], sessions, pending)
  {}

  lemma FewerIdsApart(store: seq<Session>, used: set<string>, i: nat, s: Session)
    requires i < |store| && IdsApart(store, used) && IdsOf(s) <= IdsOf(store[i])
    ensures IdsApart(store[i := s], used)
  {
    var store' := store[i := s];
    forall j | 0 <= j < |store'| ensures IdsOf(store'[j]) <= IdsOf(store[j]) {}
  }

  lemma AmendKeepsKeys(r: Registry, h: Handshakes, k: string, s: Session, at: Stamp)
    requires Keyed(r, h) && k in r.sessions && Amends(r.store[r.sessions[k]], s, at)
    ensures Keyed(r.(store := r.store[r.sessions[k] := s]), h)
  {
    hide FiledUnderKey, ActiveAreFiled, IdsApart, PendingAreBlank;
    var i := r.sessions[k];
    assert s.Key() == r.store[i].Key() && IdsOf(s) == IdsOf(r.store[i]);
    AmendFiling(r.store, r.sessions, i, s);
    FewerIdsApart(r.store, h.used, i, s);
    AmendPending(r.store, r.sessions, r.pending, k, s);
  }

  lemma AmendedIsFiled(r: Registry, ev: OpcEvent) returns (k: string)
    requires InStore(r) && AmendmentOf(r, ev).Amend?
    ensures k in r.sessions && r.sessions[k] == AmendmentOf(r, ev).id
  {
    var i := AmendmentOf(r, ev).id;
    var a, b, c := "i=" + ev.tag, ev.tag, ev.Get("authenticationToken");
    k := if a in r.sessions && r.sessions[a] == i then a
         else if b in r.sessions && r.sessions[b] == i then b else c;
  }

  lemma KeyIsAnId(s: Session)
    ensures s.Key() != "" ==> s.Key() in IdsOf(s)
  {}

  /** A reconnecting application leaves no entry behind. */
  lemma ReconnectUnfiles(r: Registry, h: Handshakes, i: nat)
    requires Keyed(r, h) && i < |r.store|
    ensures forall k :: k in r.sessions ==> (k == r.store[i].Key() <==> r.sessions[k] == i)
  {
    forall k | k in r.sessions && k == r.store[i].Key() ensures r.sessions[k] == i {
      KeyIsAnId(r.store[i]);
      KeyIsAnId(r.store[r.sessions[k]]);
    }
  }

  lemma ReconnectFiling(store: seq<Session>, sessions: map<string, nat>, i: nat, at: Stamp)
    requires i < |store| && FiledUnderKey(store, sessions) && ActiveAreFiled(store, sessions)
    requires forall k :: k in sessions ==> (k == store[i].Key() <==> sessions[k] == i)
    ensures var store', sessions' := store[i := store[i].Reconnected(at)], sessions - {store[i].Key()};
            FiledUnderKey(store', sessions') && ActiveAreFiled(store', sessions')
            && forall k :: k in sessions' ==> sessions'[k] != i
  {}

  lemma BlankedPending(store: seq<Session>, sessions: map<string, nat>, pending: map<string, nat>,
                       store': seq<Session>, sessions': map<string, nat>, tag: string, i: nat)
    requires PendingAreBlank(store, sessions, pending)
    requires i < |store'| && |store| <= |store'| && forall j :: 0 <= j < |store| && j != i ==> store'[j] == store[j]
    requires forall k :: k in sessions' ==> k in sessions && sessions'[k] == sessions[k] && sessions'[k] != i
    requires forall t :: t in pending ==> pending[t] != i
    requires Blanked(store'[i])
    ensures PendingAreBlank(store', sessions', pending[tag := i])
  {}

  /** An application without an open handshake has no pending session. */
  lemma NamedApart(r: Registry, h: Handshakes, i: nat, name: string)
    requires Keyed(r, h) && name !in h.open.Values && name in r.byApp && i == r.byApp[name]
    ensures i < |r.store| && r.store[i].applicationName == name
    ensures forall t :: t in r.pending ==> r.pending[t] != i
  {
    forall t | t in r.pending ensures r.pending[t] != i {
      assert h.open[t] in h.open.Values;
    }
  }

  lemma ReconnectIsNamed(store: seq<Session>, byApp: map<string, nat>, pending: map<string, nat>,
                         open: map<string, string>, i: nat, at: Stamp, tag: string)
    requires OnePerName(store, byApp) && OpenMatches(store, pending, open) && i < |store|
    ensures OnePerName(store[i := store[i].Reconnected(at)], byApp)
    ensures OpenMatches(store[i := store[i].Reconnected(at)], pending[tag := i], open[tag := store[i].applicationName])
  {}

  lemma ReconnectKeepsKeys(r: Registry, h: Handshakes, ev: OpcEvent)
    requires Keyed(r, h) && ev.kind.CreateSessionRequest? && Allowed(h, ev) && AppName(ev) in r.byApp
    ensures Keyed(CreateRequest(r, ev), Next(h, ev))
  {
    var i := r.byApp[AppName(ev)];
    NamedApart(r, h, i, AppName(ev));
    hide FiledUnderKey, ActiveAreFiled, IdsApart, AppName, Without, OnePerName, OpenMatches, PendingAreBlank;
    var s := r.store[i].Reconnected(ev.timestamp);
    var r' := CreateRequest(r, ev);
    ReconnectUnfiles(r, h, i);
    ReconnectFiling(r.store, r.sessions, i, ev.timestamp);
    FewerIdsApart(r.store, h.used, i, s);
    ReconnectIsNamed(r.store, r.byApp, r.pending, h.open, i, ev.timestamp, ev.tag);
    BlankedPending(r.store, r.sessions, r.pending, r'.store, r'.sessions, ev.tag, i);
    assert r'.store == r.store[i := s];
  }

  lemma NewcomerKeeps(store: seq<Session>, sessions: map<string, nat>, used: set<string>, s: Session)
    requires FiledUnderKey(store, sessions) && ActiveAreFiled(store, sessions) && IdsApart(store, used)
    requires !s.active && IdsOf(s) == {}
    ensures FiledUnderKey(store + [s], sessions) && ActiveAreFiled(store + [s], sessions) && IdsApart(store + [s], used)
  {
    var store' := store + [s];
    forall j | 0 <= j < |store| ensures store'[j] == store[j] {}
  }

  lemma NewcomerPends(store: seq<Session>, sessions: map<string, nat>, pending: map<string, nat>,
                      s: Session, tag: string)
    requires PendingAreBlank(store, sessions, pending) && FiledUnderKey(store, sessions) && Blanked(s)
    ensures PendingAreBlank(store + [s], sessions, pending[tag := |store|])
  {
    BlankedPending(store, sessions, pending, store + [s], sessions, tag, |store|);
  }

  lemma NewcomerIsNamed(store: seq<Session>, byApp: map<string, nat>, pending: map<string, nat>,
                        open: map<string, string>, s: Session, tag: string)
    requires OnePerName(store, byApp) && OpenMatches(store, pending, open)
    requires s.applicationName !in byApp
    ensures OnePerName(store + [s], byApp[s.applicationName := |store|])
    ensures OpenMatches(store + [s], pending[tag := |store|], open[tag := s.applicationName])
  {}

  lemma FirstConnectKeepsKeys(r: Registry, h: Handshakes, ev: OpcEvent)
    requires Keyed(r, h) && ev.kind.CreateSessionRequest? && Allowed(h, ev) && AppName(ev) !in r.byApp
    ensures Keyed(CreateRequest(r, ev), Next(h, ev))
  {
    hide FiledUnderKey, ActiveAreFiled, IdsApart, AppName, OpenMatches, OnePerName, PendingAreBlank;
    var r' := CreateRequest(r, ev);
    var i := |r.store|;
    NewcomerIsNamed(r.store, r.byApp, r.pending, h.open, r'.store[i], ev.tag);
    NewcomerKeeps(r.store, r.sessions, h.used, r'.store[i]);
    assert r'.store == r.store + [r'.store[i]];
    NewcomerPends(r.store, r.sessions, r.pending, r'.store[i], ev.tag);
  }

  lemma AcceptFiling(store: seq<Session>, sessions: map<string, nat>, i: nat, s: Session)
    requires i < |store| && FiledUnderKey(store, sessions) && ActiveAreFiled(store, sessions)
    requires s.Key() != "" && s.Key() !in sessions && Clean(s)
    requires forall k :: k in sessions ==> sessions[k] != i
    ensures FiledUnderKey(store[i := s], sessions[s.Key() := i])
    ensures ActiveAreFiled(store[i := s], sessions[s.Key() := i])
  {}

  lemma FreshIdsApart(store: seq<Session>, used: set<string>, i: nat, s: Session)
    requires i < |store| && IdsApart(store, used) && IdsOf(s) !! used
    ensures IdsApart(store[i := s], used + IdsOf(s))
  {}

  lemma AcceptedLeavesPending(store: seq<Session>, sessions: map<string, nat>, pending: map<string, nat>,
                              tag: string, s: Session, key: string)
    requires PendingAreBlank(store, sessions, pending) && tag in pending
    ensures PendingAreBlank(store[pending[tag] := s], sessions[key := pending[tag]], pending - {tag})
  {}

  /** No entry has a key that was never handed out before. */
  lemma FreshKeys(r: Registry, h: Handshakes, s: Session)
    requires Keyed(r, h) && IdsOf(s) !! h.used && s.Key() in IdsOf(s)
    ensures s.Key() !in r.sessions
  {
    if s.Key() in r.sessions { KeyIsAnId(r.store[r.sessions[s.Key()]]); }
  }

  lemma AcceptedIsNamed(store: seq<Session>, byApp: map<string, nat>, pending: map<string, nat>,
                        open: map<string, string>, tag: string, s: Session)
    requires OnePerName(store, byApp) && OpenMatches(store, pending, open) && tag in pending
    requires s.applicationName == store[pending[tag]].applicationName
    ensures s.applicationName in byApp && OnePerName(store[pending[tag] := s], byApp)
    ensures OpenMatches(store[pending[tag] := s], pending - {tag}, open - {tag})
  {}

  lemma AcceptKeepsKeys(r: Registry, h: Handshakes, ev: OpcEvent)
    requires Keyed(r, h) && Accepts(h, ev) && Allowed(h, ev)
    ensures Keyed(CreateResponse(r, ev), Next(h, ev))
  {
    var i := r.pending[ev.tag];
    var r' := CreateResponse(r, ev);
    var s := r.store[i].Established(ev.Get("sessionId"), ev.Get("authenticationToken"));
    KeyIsAnId(s);
    assert IdsOf(s) == Names(ev.Get("authenticationToken"), ev.Get("sessionId"));
    FreshKeys(r, h, s);
    AcceptedIsNamed(r.store, r.byApp, r.pending, h.open, ev.tag, s);
    hide FiledUnderKey, ActiveAreFiled, IdsApart, OnePerName, OpenMatches, With;
    AcceptFiling(r.store, r.sessions, i, s);
    FreshIdsApart(r.store, h.used, i, s);
    AcceptedLeavesPending(r.store, r.sessions, r.pending, ev.tag, s, s.Key());
    assert r'.store == r.store[i := s];
  }

  lemma StepKeepsKeys(r: Registry, h: Handshakes, ev: OpcEvent)
    requires Keyed(r, h) && Allowed(h, ev)
    ensures Keyed(Step(r, ev), Next(h, ev))
  {
    if ev.kind.CreateSessionRequest? {
      if AppName(ev) in r.byApp { ReconnectKeepsKeys(r, h, ev); } else { FirstConnectKeepsKeys(r, h, ev); }
    } else if Accepts(h, ev) {
      AcceptKeepsKeys(r, h, ev);
    } else if !ev.kind.CreateSessionResponse? && AmendmentOf(r, ev).Amend? {
      AmendmentsAmend(r, ev);
      var k := AmendedIsFiled(r, ev);
      AmendKeepsKeys(r, h, k, AmendmentOf(r, ev).value, ev.timestamp);
    }
  }

  lemma {:induction false} DisciplineKeepsKeys(events: seq<OpcEvent>)
    requires Disciplined(events)
    ensures Keyed(Run(events), Track(events))
  {
    if events == [] {
    } else {
      var n := |events| - 1;
      DisciplineKeepsKeys(events[..n]);
      StepKeepsKeys(Run(events[..n]), Track(events[..n]), events[n]);
    }
  }

  /**
    For every disciplined log: an active session is filed under exactly its current key,
    and has neither a disconnect time nor a reason.
   */
  lemma ActiveUnderExactlyItsKey(events: seq<OpcEvent>, i: nat)
    requires Disciplined(events) && i < |Run(events).store| && Run(events).store[i].active
    ensures var r := Run(events);
            && Clean(r.store[i])
            && (forall k :: k in r.sessions && r.sessions[k] == i <==> k == r.store[i].Key())
  {
    DisciplineKeepsKeys(events);
  }
}
