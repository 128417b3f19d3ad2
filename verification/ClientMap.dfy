/**
  One pass over the log. Three dictionaries share the same mutable session objects, so
  the objects live in `store` and the dictionaries hold their indices.
 */
module ClientMap {
  import opened Wrappers
  import opened OpcEvents
  import opened Sessions

  datatype Registry = Registry(
    store: seq<Session>,
    sessions: map<string, nat>,
    order: seq<string>,           // the keys of `sessions`, oldest first
    pending: map<string, nat>,
    byApp: map<string, nat>)

  const EMPTY := Registry([], map[], [], map[], map[])

  function Without(keys: seq<string>, key: string): (r: seq<string>)
    ensures forall k :: k in r <==> k in keys && k != key
  {
    if keys == [] then [] else
      (if keys[0] == key then [] else [keys[0]]) + Without(keys[1..], key)
  }

  function With(keys: seq<string>, key: string): seq<string> {
    if key in keys then keys else keys + [key]
  }

  function Lookup(sessions: map<string, nat>, key: string): Option<nat> {
    if key in sessions then Some(sessions[key]) else None
  }

  function OrElse(a: Option<nat>, b: Option<nat>): Option<nat> {
    if a.Some? then a else b
  }

  function FindSession(sessions: map<string, nat>, tag: string): Option<nat> {
    OrElse(Lookup(sessions, "i=" + tag), Lookup(sessions, tag))
  }

  function FindByTagOrToken(sessions: map<string, nat>, ev: OpcEvent): Option<nat> {
    var auth := ev.Get("authenticationToken");
    OrElse(FindSession(sessions, ev.tag), if auth != "" then Lookup(sessions, auth) else None)
  }

  /** No dictionary points outside the store. */
  ghost predicate InStore(r: Registry) {
    && (forall k :: k in r.sessions ==> r.sessions[k] < |r.store|)
    && (forall t :: t in r.pending ==> r.pending[t] < |r.store|)
    && (forall n :: n in r.byApp ==> r.byApp[n] < |r.store|)
  }

  /** A known application: its entry goes, its object starts a new span and is pending again. */
  function Reconnect(r: Registry, ev: OpcEvent, name: string): (r': Registry)
    requires InStore(r) && name in r.byApp
    ensures InStore(r')
  {
    var i := r.byApp[name];
    var oldKey := r.store[i].Key();
    r.(store := r.store[i := r.store[i].Reconnected(ev.timestamp)],
       sessions := r.sessions - {oldKey},
       order := Without(r.order, oldKey),
       pending := r.pending[ev.tag := i])
  }

  function FirstConnect(r: Registry, ev: OpcEvent, name: string): (r': Registry)
    requires InStore(r)
    ensures InStore(r')
  {
    var s := NewSession(name, ev.Get("applicationUri"), ev.Get("endpointUrl"), ev.timestamp, false);
    r.(store := r.store + [s],
       pending := r.pending[ev.tag := |r.store|],
       byApp := r.byApp[name := |r.store|])
  }

  function CreateRequest(r: Registry, ev: OpcEvent): (r': Registry)
    requires InStore(r)
    ensures InStore(r')
  {
    var name := AppName(ev);
    if name in r.byApp then Reconnect(r, ev, name) else FirstConnect(r, ev, name)
  }

  function CreateResponse(r: Registry, ev: OpcEvent): (r': Registry)
    requires InStore(r)
    ensures InStore(r')
  {
    if Rejected(ev.Get("serviceResult")) || ev.tag !in r.pending then
      r.(pending := r.pending - {ev.tag})
    else
      var i := r.pending[ev.tag];
      var s := r.store[i].Established(ev.Get("sessionId"), ev.Get("authenticationToken"));
      r.(store := r.store[i := s],
         sessions := r.sessions[s.Key() := i],
         order := With(r.order, s.Key()),
         pending := r.pending - {ev.tag},
         byApp := if s.applicationName in r.byApp then r.byApp else r.byApp[s.applicationName := i])
  }

  function FaultReason(result: string): string {
    if result != "" then "Fault:" + result else "Fault"
  }

  datatype Amendment = Unchanged | Amend(id: nat, value: Session)

  /** What an event after the handshake writes into the session it is filed under. */
  function AmendmentOf(r: Registry, ev: OpcEvent): (c: Amendment)
    requires InStore(r)
    ensures c.Amend? ==> c.id < |r.store|
  {
    var result := ev.Get("serviceResult");
    match ev.kind
    case ActivateSessionRequest =>
      (match FindSession(r.sessions, ev.tag)
       case Some(i) =>
         if r.store[i].active then Amend(i, r.store[i].Activated(ev.timestamp, ev.Get("userName"))) else Unchanged
       case None => Unchanged)
    case ActivateSessionResponse =>
      (match FindSession(r.sessions, ev.tag)
       case Some(i) => if Rejected(result) then Amend(i, r.store[i].Refused("Fault:" + result)) else Unchanged
       case None => Unchanged)
    case ServiceFaultResponse =>
      (match FindByTagOrToken(r.sessions, ev)
       case Some(i) =>
         if r.store[i].active then Amend(i, r.store[i].Closed(ev.timestamp, FaultReason(result))) else Unchanged
       case None => Unchanged)
    case CloseSessionRequest =>
      (match FindByTagOrToken(r.sessions, ev)
       case Some(i) => Amend(i, r.store[i].Closed(ev.timestamp, "CloseSession"))
       case None => Unchanged)
    case _ => Unchanged
  }

  function Amended(r: Registry, ev: OpcEvent): (r': Registry)
    requires InStore(r)
    ensures InStore(r')
  {
    match AmendmentOf(r, ev)
    case Unchanged => r
    case Amend(i, s) => r.(store := r.store[i := s])
  }

  function Step(r: Registry, ev: OpcEvent): (r': Registry)
    requires InStore(r)
    ensures InStore(r')
  {
    match ev.kind
    case CreateSessionRequest => CreateRequest(r, ev)
    case CreateSessionResponse => CreateResponse(r, ev)
    case _ => Amended(r, ev)
  }

  function Run(events: seq<OpcEvent>): (r: Registry)
    ensures InStore(r)
  {
    if events == [] then EMPTY else Step(Run(events[..|events| - 1]), events[|events| - 1])
  }

  /** All that an amendment can do to a session: it never makes one active. */
  ghost predicate Amends(s: Session, t: Session, at: Stamp) {
    && t.applicationName == s.applicationName && t.connectedAt == s.connectedAt && t.past == s.past
    && t.authToken == s.authToken && t.sessionId == s.sessionId
    && (t.disconnectedAt == s.disconnectedAt || t.disconnectedAt == at)
    && (t.active ==> s.active && t.disconnectedAt == s.disconnectedAt && t.disconnectReason == s.disconnectReason)
  }

  /** Who activated the session and when: only an activation changes it, and a nameless one keeps the name. */
  ghost predicate Activates(s: Session, t: Session, ev: OpcEvent) {
    if ev.kind.ActivateSessionRequest? then
      && t.active && t.activatedAt == ev.timestamp
      && t.username == (if ev.Get("userName") == "" then s.username else ev.Get("userName"))
    else
      !t.active && t.activatedAt == s.activatedAt && t.username == s.username
  }

  lemma AmendmentsAmend(r: Registry, ev: OpcEvent)
    requires InStore(r) && AmendmentOf(r, ev).Amend?
    ensures Amends(r.store[AmendmentOf(r, ev).id], AmendmentOf(r, ev).value, ev.timestamp)
    ensures Activates(r.store[AmendmentOf(r, ev).id], AmendmentOf(r, ev).value, ev)
  {}

  predicate ActivatedAs(ev: OpcEvent, user: string) {
    ev.kind.ActivateSessionRequest? && ev.Get("userName") == user
  }

  predicate ActivatedWhen(ev: OpcEvent, at: Stamp) {
    ev.kind.ActivateSessionRequest? && ev.timestamp == at
  }

  /** The user name and the activation time of a session are those of activations in the log. */
  ghost predicate ActivatedInLog(s: Session, events: seq<OpcEvent>) {
    && (s.username != "" ==> exists i :: 0 <= i < |events| && ActivatedAs(events[i], s.username))
    && (s.activatedAt != Blank ==> exists i :: 0 <= i < |events| && ActivatedWhen(events[i], s.activatedAt))
  }

  lemma LongerLogActivates(s: Session, t: Session, events: seq<OpcEvent>, ev: OpcEvent)
    requires ActivatedInLog(s, events)
    requires (t.username == s.username && t.activatedAt == s.activatedAt) || Activates(s, t, ev)
    ensures ActivatedInLog(t, events + [ev])
  {
    var all := events + [ev];
    assert all[|events|] == ev;
    forall i | 0 <= i < |events| ensures all[i] == events[i] {}
    if s.username != "" {
      var i :| 0 <= i < |events| && ActivatedAs(events[i], s.username);
      assert ActivatedAs(all[i], s.username);
    }
    if s.activatedAt != Blank {
      var i :| 0 <= i < |events| && ActivatedWhen(events[i], s.activatedAt);
      assert ActivatedWhen(all[i], s.activatedAt);
    }
    if ev.kind.ActivateSessionRequest? {
      assert ActivatedAs(all[|events|], ev.Get("userName")) && ActivatedWhen(all[|events|], ev.timestamp);
    }
  }

  lemma NewcomerActivates(s: Session, events: seq<OpcEvent>)
    requires s.username == "" && s.activatedAt == Blank
    ensures ActivatedInLog(s, events)
  {}

  lemma ActivationAfter(r: Registry, ev: OpcEvent, i: nat)
    requires InStore(r) && i < |Step(r, ev).store|
    ensures var t := Step(r, ev).store[i];
            if i < |r.store| then
              (t.username == r.store[i].username && t.activatedAt == r.store[i].activatedAt)
              || Activates(r.store[i], t, ev)
            else t.username == "" && t.activatedAt == Blank
  {
    hide AmendmentOf, Activates, AppName, Rejected, Without, With;
    if !ev.kind.CreateSessionRequest? && !ev.kind.CreateSessionResponse? && AmendmentOf(r, ev).Amend? {
      AmendmentsAmend(r, ev);
    }
  }

  lemma StepActivates(r: Registry, events: seq<OpcEvent>, ev: OpcEvent, i: nat)
    requires InStore(r) && i < |Step(r, ev).store|
    requires i < |r.store| ==> ActivatedInLog(r.store[i], events)
    ensures ActivatedInLog(Step(r, ev).store[i], events + [ev])
  {
    hide ActivatedInLog, Activates, Step;
    var t := Step(r, ev).store[i];
    ActivationAfter(r, ev, i);
    if i < |r.store| { LongerLogActivates(r.store[i], t, events, ev); } else { NewcomerActivates(t, events + [ev]); }
  }

  /** For every log: no session has a user name or an activation time that no activation in the log brought. */
  lemma {:induction false} ActivationsComeFromTheLog(events: seq<OpcEvent>)
    ensures forall i :: 0 <= i < |Run(events).store| ==> ActivatedInLog(Run(events).store[i], events)
  {
    hide Step, ActivatedInLog;
    if events == [] {
      assert Run(events) == EMPTY;
    } else {
      var n := |events| - 1;
      ActivationsComeFromTheLog(events[..n]);
      forall i | 0 <= i < |Run(events).store| ensures ActivatedInLog(Run(events).store[i], events) {
        StepActivates(Run(events[..n]), events[..n], events[n], i);
        assert events[..n] + [events[n]] == events;
      }
    }
  }

  /** `order` lists the keys of `sessions`. */
  ghost predicate Listed(r: Registry) {
    forall k :: k in r.sessions <==> k in r.order
  }

  lemma StepKeepsListing(r: Registry, ev: OpcEvent)
    requires InStore(r) && Listed(r)
    ensures Listed(Step(r, ev))
  {}

  lemma {:induction false} KeysAreListed(events: seq<OpcEvent>)
    ensures Listed(Run(events))
  {
    hide Step;
    if events == [] {
    } else {
      KeysAreListed(events[..|events| - 1]);
      StepKeepsListing(Run(events[..|events| - 1]), events[|events| - 1]);
    }
  }
}
