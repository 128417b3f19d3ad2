/**
  The parser as it runs: session objects updated in place and shared by several
  dictionaries. Each method is proved against the value-level registry.
 */
module ClientSessions {
  import opened Wrappers
  import opened OpcEvents
  import opened Sessions
  import opened ClientMap
  import ActiveMap
  import ClientHistory
  import MergedSessions

  class ClientSession {
    var applicationName: string
    var applicationUri: string
    var endpointUrl: string
    var username: string
    var sessionId: string
    var authToken: string
    var connectedAt: Stamp
    var activatedAt: Stamp
    var lastSeen: Stamp
    var disconnectedAt: Stamp
    var disconnectReason: string
    var active: bool
    var past: seq<ConnectionSpan>

    ghost function Value(): Session
      reads this
    {
      Session(applicationName, applicationUri, endpointUrl, username, sessionId, authToken, connectedAt,
              activatedAt, lastSeen, disconnectedAt, disconnectReason, active, past)
    }

    constructor (name: string, uri: string, url: string, at: Stamp, active: bool)
      ensures Value() == NewSession(name, uri, url, at, active)
    {
      applicationName, applicationUri, endpointUrl, username := name, uri, url, "";
      sessionId, authToken := "", "";
      connectedAt, activatedAt, lastSeen, disconnectedAt := at, Blank, Blank, Blank;
      disconnectReason, this.active, past := "", active, [];
    }

    lemma Fields()
      ensures applicationName == Value().applicationName && active == Value().active
      ensures authToken == Value().authToken && sessionId == Value().sessionId
    {}

    /** Archives the current span and starts a fresh one. */
    method PushReconnect(at: Stamp)
      modifies this
      ensures Value() == old(Value()).Reconnected(at)
    {
      past := past + [ConnectionSpan(connectedAt, authToken, disconnectedAt, disconnectReason)];
      connectedAt := at;
      authToken := "";
      disconnectedAt := Blank;
      disconnectReason := "";
      active := false;
    }

    method Establish(id: string, token: string)
      modifies this
      ensures Value() == old(Value()).Established(id, token)
    {
      sessionId, authToken, active := id, token, true;
    }

    method Close(at: Stamp, reason: string)
      modifies this
      ensures Value() == old(Value()).Closed(at, reason)
    {
      active, disconnectedAt, disconnectReason := false, at, reason;
    }

    method Refuse(reason: string)
      modifies this
      ensures Value() == old(Value()).Refused(reason)
    {
      active, disconnectReason := false, reason;
    }

    method Activate(at: Stamp, user: string)
      modifies this
      ensures Value() == old(Value()).Activated(at, user)
    {
      if user != "" { username := user; }
      activatedAt := at;
    }

    /** One event of the tag this session is watched under. */
    method Observe(ev: OpcEvent)
      modifies this
      ensures Value() == ActiveMap.Observe(old(Value()), ev)
    {
      var auth := ev.Get("authenticationToken");
      if auth != "" && auth != "i=0" && authToken == "" { authToken := auth; }
      if ActiveMap.IsRequest(ev.kind) && ev.timestamp != Blank { lastSeen := ev.timestamp; }
      if ev.kind.CloseSessionRequest? {
        active, disconnectedAt, disconnectReason := false, ev.timestamp, "CloseSession";
      } else if ev.kind.ServiceFaultResponse? {
        active, disconnectedAt, disconnectReason := false, ev.timestamp, FaultReason(ev.Get("serviceResult"));
      }
    }

    method Notice(s: ClientSession)
      modifies this
      ensures Value() == MergedSessions.Seen(old(Value()), old(s.Value()))
    {
      if lastSeen == Blank { lastSeen := s.lastSeen; }
    }

    /** The sum of the gaps between consecutive spans, the current one included. */
    method TotalDowntime() returns (total: nat)
      ensures total == Downtime(Value().Spans(), |Value().Spans()| - 1)
    {
      var spans := past + [ConnectionSpan(connectedAt, authToken, disconnectedAt, "")];
      ghost var mine := Value().Spans();
      total := 0;
      for i := 0 to |spans| - 1
        invariant total == Downtime(mine, i)
      {
        var gap := Delta(spans[i].disconnectedAt, spans[i + 1].connectedAt);
        if gap.Some? && gap.value > 0 {
          total := total + gap.value;
        }
      }
    }
  }

  // ---- objects and their values ----

  /** The objects are distinct and hold the values of the store, position by position. */
  ghost predicate Mirrors(objs: seq<ClientSession>, store: seq<Session>)
    reads objs
  {
    && |objs| == |store|
    && (forall i, j :: 0 <= i < j < |objs| ==> objs[i] != objs[j])
    && (forall i :: 0 <= i < |objs| ==> objs[i].Value() == store[i])
  }

  /** A dictionary of objects points where the dictionary of indices does. */
  ghost predicate Points(refs: map<string, ClientSession>, objs: seq<ClientSession>, ids: map<string, nat>) {
    && refs.Keys == ids.Keys
    && (forall k :: k in ids ==> ids[k] < |objs| && refs[k] == objs[ids[k]])
  }

  ghost predicate Distinct(objs: seq<ClientSession>) {
    forall i, j :: 0 <= i < j < |objs| ==> objs[i] != objs[j]
  }

  lemma MirrorsAt(objs: seq<ClientSession>, store: seq<Session>, i: nat)
    requires Mirrors(objs, store) && i < |store|
    ensures |objs| == |store|
    ensures forall j :: 0 <= j < |objs| ==> objs[j].Value() == store[j]
    ensures forall j :: 0 <= j < |objs| && j != i ==> objs[j] != objs[i]
    ensures Distinct(objs)
  {}

  /** After an update of one object, only its position of the store is different. */
  lemma MirrorsUpdated(objs: seq<ClientSession>, store: seq<Session>, i: nat)
    requires Distinct(objs) && |objs| == |store| && i < |objs|
    requires forall j :: 0 <= j < |objs| && j != i ==> objs[j].Value() == store[j]
    ensures Mirrors(objs, store[i := objs[i].Value()])
  {}

  lemma PointsAt(refs: map<string, ClientSession>, objs: seq<ClientSession>, ids: map<string, nat>, k: string)
    requires Points(refs, objs, ids)
    ensures k in refs <==> k in ids
    ensures k in ids ==> ids[k] < |objs| && refs[k] == objs[ids[k]]
  {}

  lemma PointsWithout(refs: map<string, ClientSession>, objs: seq<ClientSession>, ids: map<string, nat>, k: string)
    requires Points(refs, objs, ids)
    ensures Points(refs - {k}, objs, ids - {k})
  {}

  lemma PointsWith(refs: map<string, ClientSession>, objs: seq<ClientSession>, ids: map<string, nat>, k: string, i: nat)
    requires Points(refs, objs, ids) && i < |objs|
    ensures Points(refs[k := objs[i]], objs, ids[k := i])
  {}

  lemma PointsAmongMore(refs: map<string, ClientSession>, objs: seq<ClientSession>, ids: map<string, nat>,
                        o: ClientSession)
    requires Points(refs, objs, ids)
    ensures Points(refs, objs + [o], ids)
  {}

  class ClientMapBuilder {
    var sessions: map<string, ClientSession>
    var order: seq<string>
    var pending: map<string, ClientSession>
    var byAppName: map<string, ClientSession>
    ghost var objs: seq<ClientSession>

    ghost predicate Reflects(r: Registry)
      reads this, objs
    {
      && InStore(r)
      && Mirrors(objs, r.store)
      && Points(sessions, objs, r.sessions)
      && order == r.order
      && Points(pending, objs, r.pending)
      && Points(byAppName, objs, r.byApp)
    }

    constructor ()
      ensures Reflects(EMPTY) && objs == []
    {
      sessions, order, pending, byAppName := map[], [], map[], map[];
      objs := [];
    }

    method Reconnect(ev: OpcEvent, name: string, ghost r: Registry)
      requires Reflects(r) && name in r.byApp
      modifies this, objs
      ensures Reflects(ClientMap.Reconnect(r, ev, name)) && objs == old(objs)
    {
      hide ClientSession.Value, Mirrors, Points;
      ghost var i := r.byApp[name];
      PointsAt(byAppName, objs, r.byApp, name);
      MirrorsAt(objs, r.store, i);
      var existing := byAppName[name];
      existing.Fields();
      var oldKey := if existing.authToken != "" then existing.authToken else existing.sessionId;
      PointsWithout(sessions, objs, r.sessions, oldKey);
      PointsWith(pending, objs, r.pending, ev.tag, i);
      sessions, order := sessions - {oldKey}, Without(order, oldKey);
      existing.PushReconnect(ev.timestamp);
      MirrorsUpdated(objs, r.store, i);
      pending := pending[ev.tag := existing];
    }

    method FirstConnect(ev: OpcEvent, name: string, ghost r: Registry)
      requires Reflects(r)
      modifies this
      ensures Reflects(ClientMap.FirstConnect(r, ev, name))
      ensures old(objs) <= objs && fresh(objs[|old(objs)|..])
    {
      hide ClientSession.Value, Points;
      var s := new ClientSession(name, ev.Get("applicationUri"), ev.Get("endpointUrl"), ev.timestamp, false);
      ghost var i := |objs|;
      PointsAmongMore(sessions, objs, r.sessions, s);
      PointsAmongMore(pending, objs, r.pending, s);
      PointsAmongMore(byAppName, objs, r.byApp, s);
      objs := objs + [s];
      PointsWith(pending, objs, r.pending, ev.tag, i);
      PointsWith(byAppName, objs, r.byApp, name, i);
      pending := pending[ev.tag := s];
      byAppName := byAppName[name := s];
    }

    method OnCreateRequest(ev: OpcEvent, ghost r: Registry)
      requires Reflects(r)
      modifies this, objs
      ensures Reflects(CreateRequest(r, ev))
      ensures old(objs) <= objs && fresh(objs[|old(objs)|..])
    {
      hide ClientSession.Value, Mirrors, InStore;
      var name := AppName(ev);
      if name in byAppName {
        Reconnect(ev, name, r);
      } else {
        FirstConnect(ev, name, r);
      }
    }

    method Accept(ev: OpcEvent, ghost r: Registry)
      requires Reflects(r) && ev.tag in r.pending && !Rejected(ev.Get("serviceResult"))
      modifies this, objs
      ensures Reflects(CreateResponse(r, ev)) && objs == old(objs)
    {
      hide ClientSession.Value, Mirrors, Points;
      ghost var i := r.pending[ev.tag];
      PointsAt(pending, objs, r.pending, ev.tag);
      MirrorsAt(objs, r.store, i);
      var s := pending[ev.tag];
      PointsWithout(pending, objs, r.pending, ev.tag);
      pending := pending - {ev.tag};
      s.Establish(ev.Get("sessionId"), ev.Get("authenticationToken"));
      MirrorsUpdated(objs, r.store, i);
      s.Fields();
      var key := if s.authToken != "" then s.authToken else s.sessionId;
      PointsWith(sessions, objs, r.sessions, key, i);
      sessions, order := sessions[key := s], With(order, key);
      PointsAt(byAppName, objs, r.byApp, s.applicationName);
      if s.applicationName !in byAppName {
        PointsWith(byAppName, objs, r.byApp, s.applicationName, i);
        byAppName := byAppName[s.applicationName := s];
      }
    }

    method OnCreateResponse(ev: OpcEvent, ghost r: Registry)
      requires Reflects(r)
      modifies this, objs
      ensures Reflects(CreateResponse(r, ev)) && objs == old(objs)
    {
      hide ClientSession.Value, Mirrors;
      var result := ev.Get("serviceResult");
      if Rejected(result) {
        pending := pending - {ev.tag};
      } else if ev.tag in pending {
        Accept(ev, r);
      } else {
        assert r.pending - {ev.tag} == r.pending;
      }
    }

    method Find(tag: string, ghost r: Registry) returns (s: Option<ClientSession>)
      requires Reflects(r)
      ensures s.None? <==> FindSession(r.sessions, tag).None?
      ensures s.Some? ==> s.value == objs[FindSession(r.sessions, tag).value]
    {
      if "i=" + tag in sessions { return Some(sessions["i=" + tag]); }
      if tag in sessions { return Some(sessions[tag]); }
      return None;
    }

    method FindOrToken(ev: OpcEvent, ghost r: Registry) returns (s: Option<ClientSession>)
      requires Reflects(r)
      ensures s.None? <==> FindByTagOrToken(r.sessions, ev).None?
      ensures s.Some? ==> s.value == objs[FindByTagOrToken(r.sessions, ev).value]
    {
      s := Find(ev.tag, r);
      var auth := ev.Get("authenticationToken");
      if s.None? && auth != "" && auth in sessions { s := Some(sessions[auth]); }
    }

    method OnActivate(ev: OpcEvent, ghost r: Registry)
      requires Reflects(r) && (ev.kind.ActivateSessionRequest? || ev.kind.ActivateSessionResponse?)
      modifies objs
      ensures Reflects(Amended(r, ev))
    {
      hide ClientSession.Value, Mirrors, Points;
      var s := Find(ev.tag, r);
      if s.Some? {
        ghost var i := FindSession(r.sessions, ev.tag).value;
        MirrorsAt(objs, r.store, i);
        s.value.Fields();
        if ev.kind.ActivateSessionRequest? {
          if s.value.active {
            s.value.Activate(ev.timestamp, ev.Get("userName"));
            MirrorsUpdated(objs, r.store, i);
          }
        } else if Rejected(ev.Get("serviceResult")) {
          s.value.Refuse("Fault:" + ev.Get("serviceResult"));
          MirrorsUpdated(objs, r.store, i);
        }
      }
    }

    method OnEnd(ev: OpcEvent, ghost r: Registry)
      requires Reflects(r) && (ev.kind.ServiceFaultResponse? || ev.kind.CloseSessionRequest?)
      modifies objs
      ensures Reflects(Amended(r, ev))
    {
      hide ClientSession.Value, Mirrors, Points;
      var s := FindOrToken(ev, r);
      if s.Some? {
        ghost var i := FindByTagOrToken(r.sessions, ev).value;
        MirrorsAt(objs, r.store, i);
        s.value.Fields();
        if ev.kind.CloseSessionRequest? {
          s.value.Close(ev.timestamp, "CloseSession");
          MirrorsUpdated(objs, r.store, i);
        } else if s.value.active {
          s.value.Close(ev.timestamp, FaultReason(ev.Get("serviceResult")));
          MirrorsUpdated(objs, r.store, i);
        }
      }
    }

    method OnEvent(ev: OpcEvent, ghost r: Registry)
      requires Reflects(r)
      modifies this, objs
      ensures Reflects(Step(r, ev))
      ensures old(objs) <= objs && fresh(objs[|old(objs)|..])
    {
      match ev.kind
      case CreateSessionRequest => OnCreateRequest(ev, r);
      case CreateSessionResponse => OnCreateResponse(ev, r);
      case ActivateSessionRequest => OnActivate(ev, r);
      case ActivateSessionResponse => OnActivate(ev, r);
      case ServiceFaultResponse => OnEnd(ev, r);
      case CloseSessionRequest => OnEnd(ev, r);
      case _ =>
    }
  }

  /** The registry of the whole log, as objects. */
  method BuildClientMap(events: seq<OpcEvent>) returns (b: ClientMapBuilder)
    ensures fresh(b) && fresh(b.objs) && b.Reflects(Run(events))
  {
    hide Step, Mirrors, Points;
    b := new ClientMapBuilder();
    for i := 0 to |events|
      invariant fresh(b) && fresh(b.objs) && b.Reflects(Run(events[..i]))
    {
      ghost var before := b.objs;
      b.OnEvent(events[i], Run(events[..i]));
      assert b.objs == before + b.objs[|before|..];
      assert events[..i + 1][..i] == events[..i] && events[..i + 1] != [];
      assert Run(events[..i + 1]) == Step(Run(events[..i]), events[i]);
    }
    assert events[..|events|] == events;
  }

  /**
    Each object the parser returns carries the create requests of its application, and
    two entries share an object exactly when they are of the same application.
   */
  lemma ObjectsCarryTheLog(b: ClientMapBuilder, events: seq<OpcEvent>, k: string, l: string)
    requires b.Reflects(Run(events)) && k in b.sessions && l in b.sessions
    ensures ClientHistory.History(b.sessions[k].Value()) == CreateTimes(events, b.sessions[k].applicationName)
    ensures b.sessions[k] == b.sessions[l] <==> b.sessions[k].applicationName == b.sessions[l].applicationName
  {
    hide ClientSession.Value;
    ClientHistory.HistoryIsTheCreateRequests(events);
    b.sessions[k].Fields();
    b.sessions[l].Fields();
  }
}
