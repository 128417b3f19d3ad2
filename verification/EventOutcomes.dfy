/**
  What each kind of event does to the client map, said on the fields of the event: which
  session it reaches, what it leaves there, and that it leaves everything else alone.
 */
module EventOutcomes {
  import opened Wrappers
  import opened OpcEvents
  import opened Sessions
  import opened ClientMap
  import opened ClientHistory

  /** The event carries the text under the key; an absent field reads as the empty text. */
  predicate Carries(ev: OpcEvent, key: string, text: string) {
    if key in ev.fields then ev.fields[key] == text else text == ""
  }

  /** The service accepted: it named no result, or one in which the word `Good` stands. */
  ghost predicate Accepted(ev: OpcEvent) {
    "serviceResult" in ev.fields && ev.fields["serviceResult"] != "" ==> StandsIn("Good", ev.fields["serviceResult"])
  }

  lemma AcceptedIff(ev: OpcEvent)
    ensures Accepted(ev) <==> !Rejected(ev.Get("serviceResult"))
  {
    RejectedIff(ev.Get("serviceResult"));
  }

  /** All sessions but the `i`-th are as before. */
  ghost predicate OthersStay(store: seq<Session>, store': seq<Session>, i: nat) {
    |store'| == |store| && forall j :: 0 <= j < |store| && j != i ==> store'[j] == store[j]
  }

  // ---- handshakes ----

  /** A handshake of session `i` is complete: active, with its identifiers, filed under the token or else the id. */
  ghost predicate Established(r: Registry, ev: OpcEvent, i: nat, r': Registry) {
    && OthersStay(r.store, r'.store, i) && i < |r.store|
    && var s, t := r.store[i], r'.store[i];
       && t.active && Carries(ev, "authenticationToken", t.authToken) && Carries(ev, "sessionId", t.sessionId)
       && t == s.(active := t.active, authToken := t.authToken, sessionId := t.sessionId)
       && r'.sessions == r.sessions[(if t.authToken == "" then t.sessionId else t.authToken) := i]
  }

  /**
    A response: if the tag has a handshake pending and the service accepted, that session is
    established; any other response changes no session and no entry. Either way the tag's
    handshake is over.
   */
  lemma ResponseOutcome(r: Registry, ev: OpcEvent)
    requires InStore(r) && ev.kind.CreateSessionResponse?
    ensures var r' := Step(r, ev);
            && r'.pending == r.pending - {ev.tag}
            && (if ev.tag in r.pending && Accepted(ev) then Established(r, ev, r.pending[ev.tag], r')
                else r'.store == r.store && r'.sessions == r.sessions && r'.order == r.order && r'.byApp == r.byApp)
  {
    hide StandsIn;
    AcceptedIff(ev);
    if ev.tag in r.pending && Accepted(ev) {
      var i := r.pending[ev.tag];
      assert r.pending - {ev.tag} == Step(r, ev).pending;
      assert Step(r, ev).sessions == r.sessions[Step(r, ev).store[i].Key() := i];
    }
  }

  /** A new span has begun: the old one is archived as it was, and nothing of it is left in front. */
  ghost predicate Restarted(s: Session, t: Session, at: Stamp) {
    && |t.past| == |s.past| + 1 && t.past[..|s.past|] == s.past
    && t.past[|s.past|] == ConnectionSpan(s.connectedAt, s.authToken, s.disconnectedAt, s.disconnectReason)
    && t.connectedAt == at && t.authToken == "" && t.disconnectedAt == Blank && t.disconnectReason == "" && !t.active
    && t == s.(past := t.past, connectedAt := at, authToken := "", disconnectedAt := Blank,
               disconnectReason := "", active := false)
  }

  /** A known application asks again: its session restarts, loses its one entry, and is pending under the tag. */
  lemma ReconnectOutcome(r: Registry, ev: OpcEvent)
    requires InStore(r) && ev.kind.CreateSessionRequest? && AppName(ev) in r.byApp
    ensures var r', i := Step(r, ev), r.byApp[AppName(ev)];
            var s := r.store[i];
            && OthersStay(r.store, r'.store, i) && Restarted(s, r'.store[i], ev.timestamp)
            && r'.sessions == r.sessions - {if s.authToken == "" then s.sessionId else s.authToken}
            && r'.pending == r.pending[ev.tag := i] && r'.byApp == r.byApp
  {}

  /** An unknown application asks: a session of that name, as the request describes it, is pending under the tag. */
  lemma FirstConnectOutcome(r: Registry, ev: OpcEvent)
    requires InStore(r) && ev.kind.CreateSessionRequest? && AppName(ev) !in r.byApp
    ensures var r', i := Step(r, ev), |r.store|;
            && |r'.store| == i + 1 && r'.store[..i] == r.store
            && var s := r'.store[i];
               && s.applicationName == AppName(ev) && s.connectedAt == ev.timestamp
               && Carries(ev, "applicationUri", s.applicationUri) && Carries(ev, "endpointUrl", s.endpointUrl)
               && s.past == [] && !s.active && s.authToken == s.sessionId == s.username == s.disconnectReason == ""
               && s.activatedAt == s.lastSeen == s.disconnectedAt == Blank
               && r'.sessions == r.sessions
               && r'.pending == r.pending[ev.tag := i] && r'.byApp == r.byApp[AppName(ev) := i]
  {}

  // ---- events after the handshake ----

  /** The first of the keys that is an entry, if any. */
  ghost predicate FirstEntry(sessions: map<string, nat>, keys: seq<string>, k: int) {
    0 <= k < |keys| && keys[k] in sessions && forall j :: 0 <= j < k ==> keys[j] !in sessions
  }

  /** Where an event looks for its session: under the tag as a node id, under the tag, under a token it carries. */
  function LooksUnder(ev: OpcEvent): seq<string> {
    var ends := ev.kind.ServiceFaultResponse? || ev.kind.CloseSessionRequest?;
    ["i=" + ev.tag, ev.tag] +
    if ends && "authenticationToken" in ev.fields && ev.fields["authenticationToken"] != ""
    then [ev.fields["authenticationToken"]] else []
  }

  /** What the event leaves in the session it finds. */
  ghost predicate Leaves(s: Session, t: Session, ev: OpcEvent) {
    match ev.kind
    case ActivateSessionRequest =>
      && (!s.active ==> t == s)
      && (s.active ==>
            t == s.(username := t.username, activatedAt := ev.timestamp)
            && if Carries(ev, "userName", "") then t.username == s.username else Carries(ev, "userName", t.username))
    case ActivateSessionResponse =>
      && (Accepted(ev) ==> t == s)
      && (!Accepted(ev) ==>
            "serviceResult" in ev.fields
            && t == s.(active := false, disconnectReason := "Fault:" + ev.fields["serviceResult"]))
    case ServiceFaultResponse =>
      && (!s.active ==> t == s)
      && (s.active ==>
            t == s.(active := false, disconnectedAt := ev.timestamp, disconnectReason := t.disconnectReason)
            && if Carries(ev, "serviceResult", "") then t.disconnectReason == "Fault"
               else t.disconnectReason == "Fault:" + ev.fields["serviceResult"])
    case CloseSessionRequest =>
      t == s.(active := false, disconnectedAt := ev.timestamp, disconnectReason := "CloseSession")
    case _ => t == s
  }

  predicate Later(kind: EventKind) { !kind.CreateSessionRequest? && !kind.CreateSessionResponse? }

  lemma AmendmentLeaves(r: Registry, ev: OpcEvent, i: nat)
    requires InStore(r) && Later(ev.kind) && i < |r.store|
    requires var found := if ev.kind.ServiceFaultResponse? || ev.kind.CloseSessionRequest?
                          then FindByTagOrToken(r.sessions, ev) else FindSession(r.sessions, ev.tag);
             found == Some(i)
    ensures var r' := Amended(r, ev);
            OthersStay(r.store, r'.store, i) && Leaves(r.store[i], r'.store[i], ev)
  {
    hide StandsIn, Accepted;
    AcceptedIff(ev);
  }

  lemma LookupIsFirstEntry(r: Registry, ev: OpcEvent)
    requires InStore(r) && Later(ev.kind)
    ensures var keys := LooksUnder(ev);
            var found := if ev.kind.ServiceFaultResponse? || ev.kind.CloseSessionRequest?
                         then FindByTagOrToken(r.sessions, ev) else FindSession(r.sessions, ev.tag);
            && (found.None? <==> forall k :: 0 <= k < |keys| ==> keys[k] !in r.sessions)
            && (forall k :: FirstEntry(r.sessions, keys, k) ==> found == Some(r.sessions[keys[k]]))
  {
    var keys := LooksUnder(ev);
    assert keys[0] == "i=" + ev.tag && keys[1] == ev.tag;
    assert |keys| > 2 ==> keys[2] == ev.Get("authenticationToken");
  }

  /**
    Any later event: it amends the session of the first entry among the keys it looks under,
    and leaves all other sessions, all entries and all pending handshakes alone; if none of
    the keys is an entry it changes nothing.
   */
  lemma LaterOutcome(r: Registry, ev: OpcEvent, k: int)
    requires InStore(r) && Later(ev.kind)
    ensures var r' := Step(r, ev);
            r'.sessions == r.sessions && r'.order == r.order && r'.pending == r.pending && r'.byApp == r.byApp
    ensures (forall j :: 0 <= j < |LooksUnder(ev)| ==> LooksUnder(ev)[j] !in r.sessions) ==> Step(r, ev) == r
    ensures FirstEntry(r.sessions, LooksUnder(ev), k) ==>
              var r', i := Step(r, ev), r.sessions[LooksUnder(ev)[k]];
              i < |r.store| && OthersStay(r.store, r'.store, i) && Leaves(r.store[i], r'.store[i], ev)
  {
    hide FindByTagOrToken, FindSession, Leaves, LooksUnder;
    LookupIsFirstEntry(r, ev);
    if FirstEntry(r.sessions, LooksUnder(ev), k) { AmendmentLeaves(r, ev, r.sessions[LooksUnder(ev)[k]]); }
  }

  // ---- whole logs: whose handshake is pending under a tag ----

  predicate Handshakes(ev: OpcEvent) { ev.kind.CreateSessionRequest? || ev.kind.CreateSessionResponse? }

  /** The `n`-th event asks for a session under the tag, and nothing later asks or answers under it. */
  ghost predicate Unanswered(events: seq<OpcEvent>, tag: string, n: int) {
    && 0 <= n < |events| && events[n].kind.CreateSessionRequest? && events[n].tag == tag
    && (forall j :: n < j < |events| && events[j].tag == tag ==> !Handshakes(events[j]))
  }

  /** A handshake is pending under the tag exactly if a request is unanswered, and for its application. */
  ghost predicate PendingIs(r: Registry, events: seq<OpcEvent>, tag: string) {
    && (tag in r.pending <==> exists n :: Unanswered(events, tag, n))
    && (forall n :: Unanswered(events, tag, n) && tag in r.pending ==>
          r.pending[tag] < |r.store| && r.store[r.pending[tag]].applicationName == AppName(events[n]))
  }

  lemma UnansweredStep(events: seq<OpcEvent>, ev: OpcEvent, tag: string, n: int)
    ensures var all := events + [ev];
            if ev.tag == tag && Handshakes(ev) then
              Unanswered(all, tag, n) <==> n == |events| && ev.kind.CreateSessionRequest?
            else Unanswered(all, tag, n) <==> Unanswered(events, tag, n)
  {
    var all := events + [ev];
    assert all[|events|] == ev;
    forall i | 0 <= i < |events| ensures all[i] == events[i] {}
  }

  lemma NamesStay(r: Registry, ev: OpcEvent)
    requires InStore(r)
    ensures |r.store| <= |Step(r, ev).store|
    ensures forall i :: 0 <= i < |r.store| ==> Step(r, ev).store[i].applicationName == r.store[i].applicationName
  {
    hide AmendmentOf, Rejected, AppName, Without, With;
    if Later(ev.kind) && AmendmentOf(r, ev).Amend? { AmendmentsAmend(r, ev); }
  }

  lemma PendingStep(r: Registry, ev: OpcEvent, tag: string)
    requires InStore(r)
    ensures var r' := Step(r, ev);
            if ev.tag == tag && Handshakes(ev) then tag in r'.pending <==> ev.kind.CreateSessionRequest?
            else (tag in r'.pending <==> tag in r.pending) && (tag in r.pending ==> r'.pending[tag] == r.pending[tag])
  {
    hide AmendmentOf, Rejected, AppName, Without, With;
  }

  lemma RequestIsPending(r: Registry, ev: OpcEvent)
    requires InStore(r) && OnePerName(r.store, r.byApp) && ev.kind.CreateSessionRequest?
    ensures var r' := Step(r, ev);
            ev.tag in r'.pending && r'.store[r'.pending[ev.tag]].applicationName == AppName(ev)
  {
    hide AppName;
  }

  /** For every log and every tag: the pending handshake is that of the last unanswered request. */
  lemma {:induction false} PendingIsTheUnanswered(events: seq<OpcEvent>, tag: string)
    ensures PendingIs(Run(events), events, tag)
  {
    hide Step, AppName;
    if events == [] {
      assert tag !in Run(events).pending;
    } else {
      var n := |events| - 1;
      var r, ev := Run(events[..n]), events[n];
      PendingIsTheUnanswered(events[..n], tag);
      HistoryIsTheCreateRequests(events[..n]);
      assert events[..n] + [ev] == events;
      forall k
        ensures if ev.tag == tag && Handshakes(ev) then
                  Unanswered(events, tag, k) <==> k == n && ev.kind.CreateSessionRequest?
                else Unanswered(events, tag, k) <==> Unanswered(events[..n], tag, k)
      {
        UnansweredStep(events[..n], ev, tag, k);
      }
      PendingStep(r, ev, tag);
      NamesStay(r, ev);
      if ev.tag == tag && ev.kind.CreateSessionRequest? {
        RequestIsPending(r, ev);
        assert Unanswered(events, tag, n);
      }
      if k :| Unanswered(events[..n], tag, k) { assert k < n && events[..n][k] == events[k]; }
    }
  }

  /** The session of that application is established. */
  ghost predicate EstablishedFor(r: Registry, ev: OpcEvent, i: nat, r': Registry, name: string) {
    Established(r, ev, i, r') && r'.store[i].applicationName == name
  }

  /**
    For every log: an accepted response under a tag establishes the session of the
    application whose request under that tag was the last one and unanswered; a response
    without such a request, or a rejected one, establishes none.
   */
  lemma ResponsesEstablish(events: seq<OpcEvent>, ev: OpcEvent, n: int)
    requires ev.kind.CreateSessionResponse?
    ensures var r, r' := Run(events), Run(events + [ev]);
            && (Unanswered(events, ev.tag, n) && Accepted(ev) ==>
                  exists i :: EstablishedFor(r, ev, i, r', AppName(events[n])))
            && (!Accepted(ev) || (forall k :: !Unanswered(events, ev.tag, k)) ==>
                  r'.store == r.store && r'.sessions == r.sessions)
  {
    hide Step, Accepted, AppName;
    var r := Run(events);
    assert (events + [ev])[..|events|] == events;
    PendingIsTheUnanswered(events, ev.tag);
    ResponseOutcome(r, ev);
    NamesStay(r, ev);
    if Unanswered(events, ev.tag, n) && Accepted(ev) {
      var i := r.pending[ev.tag];
      assert EstablishedFor(r, ev, i, Run(events + [ev]), AppName(events[n]));
    }
  }

  // ---- whole logs: how a session is described ----

  /** The `n`-th event is the first request of the application. */
  ghost predicate FirstRequest(events: seq<OpcEvent>, name: string, n: int) {
    && 0 <= n < |events| && events[n].kind.CreateSessionRequest? && AppName(events[n]) == name
    && (forall j :: 0 <= j < n && events[j].kind.CreateSessionRequest? ==> AppName(events[j]) != name)
  }

  ghost predicate DescribedBy(s: Session, ev: OpcEvent) {
    Carries(ev, "applicationUri", s.applicationUri) && Carries(ev, "endpointUrl", s.endpointUrl)
  }

  ghost predicate Described(s: Session, events: seq<OpcEvent>) {
    exists n :: FirstRequest(events, s.applicationName, n) && DescribedBy(s, events[n])
  }

  ghost predicate SameDescription(s: Session, t: Session) {
    t.applicationName == s.applicationName && t.applicationUri == s.applicationUri && t.endpointUrl == s.endpointUrl
  }

  lemma AmendmentKeepsDescription(r: Registry, ev: OpcEvent)
    requires InStore(r) && AmendmentOf(r, ev).Amend?
    ensures SameDescription(r.store[AmendmentOf(r, ev).id], AmendmentOf(r, ev).value)
  {
    hide FindByTagOrToken, FindSession, Rejected;
  }

  lemma DescriptionStays(r: Registry, ev: OpcEvent, i: nat)
    requires InStore(r) && i < |r.store|
    ensures i < |Step(r, ev).store| && SameDescription(r.store[i], Step(r, ev).store[i])
  {
    hide AppName, Rejected, Without, With, AmendmentOf;
    if Later(ev.kind) && AmendmentOf(r, ev).Amend? { AmendmentKeepsDescription(r, ev); }
  }

  lemma StillDescribed(s: Session, t: Session, events: seq<OpcEvent>, ev: OpcEvent)
    requires Described(s, events) && SameDescription(s, t)
    ensures Described(t, events + [ev])
  {
    hide AppName;
    var n :| FirstRequest(events, s.applicationName, n) && DescribedBy(s, events[n]);
    var all := events + [ev];
    forall i | 0 <= i < |events| ensures all[i] == events[i] {}
    assert FirstRequest(all, t.applicationName, n) && DescribedBy(t, all[n]);
  }

  lemma {:induction false} UnknownNeverAsked(events: seq<OpcEvent>, name: string)
    requires CreateTimes(events, name) == []
    ensures forall j :: 0 <= j < |events| && events[j].kind.CreateSessionRequest? ==> AppName(events[j]) != name
  {
    hide AppName;
    if events == [] {
    } else {
      UnknownNeverAsked(events[..|events| - 1], name);
      forall j | 0 <= j < |events| - 1 ensures events[..|events| - 1][j] == events[j] {}
    }
  }

  lemma NewcomerIsDescribed(events: seq<OpcEvent>, ev: OpcEvent)
    requires ev.kind.CreateSessionRequest? && AppName(ev) !in Run(events).byApp
    ensures Described(Step(Run(events), ev).store[|Run(events).store|], events + [ev])
  {
    hide AppName;
    HistoryIsTheCreateRequests(events);
    UnknownNeverAsked(events, AppName(ev));
    var all := events + [ev];
    FirstConnectOutcome(Run(events), ev);
    assert all[|events|] == ev;
    forall i | 0 <= i < |events| ensures all[i] == events[i] {}
    assert FirstRequest(all, AppName(ev), |events|);
  }

  lemma SizeAfter(r: Registry, ev: OpcEvent)
    requires InStore(r)
    ensures |Step(r, ev).store| ==
            |r.store| + if ev.kind.CreateSessionRequest? && AppName(ev) !in r.byApp then 1 else 0
  {
    hide AppName, Rejected, Without, With;
  }

  /** For every log: a session has the uri and the address that the first request of its application gave. */
  lemma {:induction false} FirstRequestDescribes(events: seq<OpcEvent>)
    ensures forall i :: 0 <= i < |Run(events).store| ==> Described(Run(events).store[i], events)
  {
    hide Step, Described, AppName;
    if events == [] {
      assert Run(events) == EMPTY;
    } else {
      var n := |events| - 1;
      var r, ev := Run(events[..n]), events[n];
      FirstRequestDescribes(events[..n]);
      assert events[..n] + [ev] == events;
      SizeAfter(r, ev);
      forall i | 0 <= i < |Run(events).store| ensures Described(Run(events).store[i], events) {
        if i < |r.store| {
          DescriptionStays(r, ev, i);
          StillDescribed(r.store[i], Run(events).store[i], events[..n], ev);
        } else {
          NewcomerIsDescribed(events[..n], ev);
        }
      }
    }
  }
}
