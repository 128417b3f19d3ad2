/**
  Exactly which events keep every session filed under its current key, for any registry and
  any log; and logs without the discipline of `ClientKeys` that lose it.
 */
module ClientFiling {
  import opened OpcEvents
  import opened Sessions
  import opened ClientMap
  import opened ClientKeys

  /** Entries are under current keys; active sessions are filed, without disconnect time or reason. */
  ghost predicate Filed(r: Registry) {
    FiledUnderKey(r.store, r.sessions) && ActiveAreFiled(r.store, r.sessions)
  }

  /** No active session other than `i` is filed under the key. */
  predicate FreeFor(r: Registry, key: string, i: nat)
    requires InStore(r)
  {
    key in r.sessions ==> r.sessions[key] == i || !r.store[r.sessions[key]].active
  }

  /** What an accepted handshake of session `i` must bring: a key of its own, and nothing left from before. */
  predicate AcceptsCleanly(r: Registry, i: nat, key: string)
    requires InStore(r) && i < |r.store|
  {
    && key != ""
    && FreeFor(r, key, i)
    && (forall k :: k in r.sessions && r.sessions[k] == i ==> k == key)
    && r.store[i].disconnectedAt == Blank && r.store[i].disconnectReason == ""
  }

  /** The condition on one event, checked on the registry before it. */
  predicate KeepsFiling(r: Registry, ev: OpcEvent)
    requires InStore(r)
  {
    match ev.kind
    case CreateSessionRequest =>
      AppName(ev) in r.byApp ==> FreeFor(r, r.store[r.byApp[AppName(ev)]].Key(), r.byApp[AppName(ev)])
    case CreateSessionResponse =>
      (!Rejected(ev.Get("serviceResult")) && ev.tag in r.pending) ==>
        var i := r.pending[ev.tag];
        AcceptsCleanly(r, i, r.store[i].Established(ev.Get("sessionId"), ev.Get("authenticationToken")).Key())
    case _ => true
  }

  /** An accepted handshake keeps the filing exactly when it brings a key that no active session uses. */
  lemma AcceptFilesExactly(r: Registry, i: nat, s: Session, r': Registry)
    requires InStore(r) && Filed(r) && i < |r.store| && s.active
    requires s.disconnectedAt == r.store[i].disconnectedAt && s.disconnectReason == r.store[i].disconnectReason
    requires r'.store == r.store[i := s] && r'.sessions == r.sessions[s.Key() := i]
    ensures Filed(r') <==> AcceptsCleanly(r, i, s.Key())
  {
    var key := s.Key();
    assert key in r'.sessions && r'.store[i] == s;
    if Filed(r') {
      forall k | k in r.sessions && r.sessions[k] == i ensures k == key { assert k in r'.sessions; }
      if key in r.sessions && r.sessions[key] != i {
        var j := r.sessions[key];
        assert r'.store[j] == r.store[j] && r.store[j].Key() == key;
      }
    }
    if AcceptsCleanly(r, i, key) {
      forall k | k in r'.sessions
        ensures r'.sessions[k] < |r'.store| && k != "" && k == r'.store[r'.sessions[k]].Key()
      {
        if k != key { assert k in r.sessions && r.sessions[k] != i; }
      }
      forall j | 0 <= j < |r'.store| && r'.store[j].active
        ensures r'.store[j].Key() in r'.sessions && r'.sessions[r'.store[j].Key()] == j && Clean(r'.store[j])
      {
        if j != i { assert r'.store[j] == r.store[j] && r.store[j].Key() != key; }
      }
    }
  }

  /** A reconnect keeps the filing exactly when no other active session is filed under its old key. */
  lemma ReconnectFilesExactly(r: Registry, ev: OpcEvent, name: string)
    requires InStore(r) && Filed(r) && name in r.byApp
    ensures Filed(Reconnect(r, ev, name)) <==> FreeFor(r, r.store[r.byApp[name]].Key(), r.byApp[name])
  {
    var i := r.byApp[name];
    var key := r.store[i].Key();
    var r' := Reconnect(r, ev, name);
    assert !r'.store[i].active;
    if key in r.sessions && r.sessions[key] != i {
      var j := r.sessions[key];
      assert r'.store[j] == r.store[j] && r.store[j].Key() == key && key !in r'.sessions;
    }
    forall k | k in r'.sessions ensures k == r'.store[r'.sessions[k]].Key() { assert r.sessions[k] != i; }
    if FreeFor(r, key, i) {
      forall j | 0 <= j < |r'.store| && r'.store[j].active
        ensures r'.store[j].Key() in r'.sessions && r'.sessions[r'.store[j].Key()] == j && Clean(r'.store[j])
      {
        assert j != i && r'.store[j] == r.store[j] && r.store[j].Key() != key;
      }
    }
  }

  lemma FirstConnectFiles(r: Registry, ev: OpcEvent, name: string)
    requires InStore(r) && Filed(r)
    ensures Filed(FirstConnect(r, ev, name))
  {
    var r' := FirstConnect(r, ev, name);
    forall j | 0 <= j < |r.store| ensures r'.store[j] == r.store[j] {}
  }

  lemma AmendmentFiles(r: Registry, ev: OpcEvent)
    requires InStore(r) && Filed(r)
    ensures Filed(Amended(r, ev))
  {
    hide AmendmentOf;
    if AmendmentOf(r, ev).Amend? {
      AmendmentsAmend(r, ev);
      AmendFiling(r.store, r.sessions, AmendmentOf(r, ev).id, AmendmentOf(r, ev).value);
    }
  }

  lemma SameFiling(r: Registry, r': Registry)
    requires r'.store == r.store && r'.sessions == r.sessions
    ensures Filed(r') == Filed(r)
  {}

  /** Where sessions are filed exactly, an event keeps that if and only if it meets the condition. */
  lemma EventFilesExactly(r: Registry, ev: OpcEvent)
    requires InStore(r) && Filed(r)
    ensures Filed(Step(r, ev)) <==> KeepsFiling(r, ev)
  {
    hide Filed, AppName, Rejected, Amended, FreeFor, AcceptsCleanly, Reconnect, FirstConnect;
    match ev.kind
    case CreateSessionRequest =>
      if AppName(ev) in r.byApp {
        ReconnectFilesExactly(r, ev, AppName(ev));
      } else {
        FirstConnectFiles(r, ev, AppName(ev));
      }
    case CreateSessionResponse =>
      if !Rejected(ev.Get("serviceResult")) && ev.tag in r.pending {
        var i := r.pending[ev.tag];
        var s := r.store[i].Established(ev.Get("sessionId"), ev.Get("authenticationToken"));
        AcceptFilesExactly(r, i, s, Step(r, ev));
      } else {
        SameFiling(r, Step(r, ev));
      }
    case _ => AmendmentFiles(r, ev);
  }

  // ---- whole logs ----

  ghost predicate AlwaysFiled(events: seq<OpcEvent>) {
    forall n :: 0 <= n <= |events| ==> Filed(Run(events[..n]))
  }

  predicate AlwaysKeepsFiling(events: seq<OpcEvent>) {
    events == [] ||
    (AlwaysKeepsFiling(events[..|events| - 1]) && KeepsFiling(Run(events[..|events| - 1]), events[|events| - 1]))
  }

  lemma NothingFiled()
    ensures Filed(EMPTY)
  {}

  /** For every log: sessions are filed exactly all the way through if and only if every event meets the condition. */
  lemma {:induction false} LogFilesExactly(events: seq<OpcEvent>)
    ensures AlwaysFiled(events) <==> AlwaysKeepsFiling(events)
  {
    hide Filed, KeepsFiling, Step;
    if events == [] {
      assert Filed(EMPTY) by { NothingFiled(); }
    } else {
      var n := |events| - 1;
      LogFilesExactly(events[..n]);
      forall i | 0 <= i <= n ensures events[..n][..i] == events[..i] {}
      assert events[..|events|] == events;
      if AlwaysFiled(events[..n]) {
        assert events[..n][..n] == events[..n];
        EventFilesExactly(Run(events[..n]), events[n]);
      }
    }
  }

  /** Where sessions are filed exactly, an active session is under its current key and no other. */
  lemma FiledMeansExactlyItsKey(events: seq<OpcEvent>, i: nat)
    requires AlwaysKeepsFiling(events) && i < |Run(events).store| && Run(events).store[i].active
    ensures var r := Run(events);
            && Clean(r.store[i])
            && (forall k :: k in r.sessions && r.sessions[k] == i <==> k == r.store[i].Key())
  {
    LogFilesExactly(events);
    assert events[..|events|] == events;
    assert Filed(Run(events));
  }

  lemma {:induction false} DisciplinedSoFar(events: seq<OpcEvent>, n: nat)
    requires Disciplined(events) && n <= |events|
    ensures Disciplined(events[..n])
  {
    if n == |events| {
      assert events[..n] == events;
    } else {
      var shorter := events[..|events| - 1];
      DisciplinedSoFar(shorter, n);
      assert shorter[..n] == events[..n];
    }
  }

  /** Disciplined logs are among those that keep the filing. */
  lemma DisciplineKeepsFiling(events: seq<OpcEvent>)
    requires Disciplined(events)
    ensures AlwaysKeepsFiling(events)
  {
    hide Run, AlwaysKeepsFiling, Disciplined;
    forall n | 0 <= n <= |events| ensures Filed(Run(events[..n])) {
      DisciplinedSoFar(events, n);
      DisciplineKeepsKeys(events[..n]);
    }
    LogFilesExactly(events);
  }

  // ---- logs that lose the filing ----

  const ASK := OpcEvent(At(1), "1", CreateSessionRequest, map["applicationName" := "A"])
  const ASK_AGAIN := OpcEvent(At(2), "2", CreateSessionRequest, map["applicationName" := "A"])
  const GRANT := OpcEvent(At(3), "1", CreateSessionResponse, map["authenticationToken" := "T"])
  const GRANT_AGAIN := OpcEvent(At(4), "2", CreateSessionResponse, map["authenticationToken" := "U"])

  /** The session of application A while both of its handshakes are open. */
  const ASKING := NewSession("A", "", "", At(1), false).Reconnected(At(2))

  lemma OverlapAsks()
    ensures Run([ASK, ASK_AGAIN]) == Registry([ASKING], map[], [], map["1" := 0, "2" := 0], map["A" := 0])
  {
    assert AppName(ASK) == "A" && AppName(ASK_AGAIN) == "A";
    var r1 := Registry([NewSession("A", "", "", At(1), false)], map[], [], map["1" := 0], map["A" := 0]);
    assert Step(EMPTY, ASK) == r1;
    assert Run([ASK]) == r1 by { assert [ASK][..0] == []; }
    assert [ASK, ASK_AGAIN][..1] == [ASK];
  }

  lemma OverlapGrants(s: Session)
    requires s.applicationName == "A"
    ensures var r := Registry([s], map[], [], map["1" := 0, "2" := 0], map["A" := 0]);
            var r' := CreateResponse(r, GRANT);
            var r'' := CreateResponse(r', GRANT_AGAIN);
            r''.sessions == map["T" := 0, "U" := 0] && |r''.store| == 1 && r''.store[0].Key() == "U"
  {
    var r := Registry([s], map[], [], map["1" := 0, "2" := 0], map["A" := 0]);
    var r' := CreateResponse(r, GRANT);
    assert r'.sessions == map["T" := 0] && r'.pending == map["2" := 0] && |r'.store| == 1;
  }

  /** Two handshakes of one application that overlap leave its session under a stale key. */
  lemma OverlapLeavesAStaleKey()
    ensures var r := Run([ASK, ASK_AGAIN, GRANT, GRANT_AGAIN]);
            r.sessions == map["T" := 0, "U" := 0] && |r.store| == 1 && r.store[0].Key() == "U"
  {
    hide CreateResponse, CreateRequest, Amended;
    OverlapAsks();
    OverlapGrants(ASKING);
    assert [ASK, ASK_AGAIN, GRANT][..2] == [ASK, ASK_AGAIN];
    assert [ASK, ASK_AGAIN, GRANT, GRANT_AGAIN][..3] == [ASK, ASK_AGAIN, GRANT];
    assert Run([ASK, ASK_AGAIN, GRANT]) == CreateResponse(Run([ASK, ASK_AGAIN]), GRANT);
  }

  // ---- a token brought twice, or never ----

  const ASK_B := OpcEvent(At(3), "2", CreateSessionRequest, map["applicationName" := "B"])
  const ASK_AFRESH := OpcEvent(At(5), "3", CreateSessionRequest, map["applicationName" := "A"])

  function GrantTo(tag: string, token: string): OpcEvent {
    OpcEvent(At(4), tag, CreateSessionResponse, map["authenticationToken" := token])
  }

  function SharedKeyLog(token: string): seq<OpcEvent> {
    [ASK, GrantTo("1", token), ASK_B, GrantTo("2", token)]
  }

  function SessionOf(name: string, at: Stamp, token: string): Session {
    NewSession(name, "", "", at, false).Established("", token)
  }

  lemma FirstGrant(token: string)
    ensures Run([ASK, GrantTo("1", token)]) ==
            Registry([SessionOf("A", At(1), token)], map[token := 0], [token], map[], map["A" := 0])
  {
    assert AppName(ASK) == "A";
    var r1 := Registry([NewSession("A", "", "", At(1), false)], map[], [], map["1" := 0], map["A" := 0]);
    assert Step(EMPTY, ASK) == r1;
    assert Run([ASK]) == r1 by { assert [ASK][..0] == []; }
    assert [ASK, GrantTo("1", token)][..1] == [ASK];
    var s := SessionOf("A", At(1), token);
    assert r1.store[0 := s] == [s] && r1.pending - {"1"} == map[];
  }

  lemma SecondAsks(r: Registry, a: Session)
    requires r.store == [a] && r.pending == map[] && r.byApp == map["A" := 0] && InStore(r)
    ensures var asked := NewSession("B", "", "", At(3), false);
            Step(r, ASK_B) == r.(store := [a, asked], pending := map["2" := 1], byApp := map["A" := 0, "B" := 1])
  {
    assert AppName(ASK_B) == "B";
  }

  lemma SecondIsGranted(token: string, a: Session, asked: Session)
    requires asked == NewSession("B", "", "", At(3), false)
    ensures var r := Registry([a, asked], map[token := 0], [token], map["2" := 1], map["A" := 0, "B" := 1]);
            Step(r, GrantTo("2", token)) ==
            Registry([a, SessionOf("B", At(3), token)], map[token := 1], [token], map[], map["A" := 0, "B" := 1])
  {
    var r := Registry([a, asked], map[token := 0], [token], map["2" := 1], map["A" := 0, "B" := 1]);
    var b := SessionOf("B", At(3), token);
    assert r.store[1 := b] == [a, b] && r.pending - {"2"} == map[];
  }

  lemma SecondGrant(token: string, r: Registry)
    requires r == Registry([SessionOf("A", At(1), token)], map[token := 0], [token], map[], map["A" := 0])
    ensures var a, b := SessionOf("A", At(1), token), SessionOf("B", At(3), token);
            Step(Step(r, ASK_B), GrantTo("2", token)) ==
            Registry([a, b], map[token := 1], [token], map[], map["A" := 0, "B" := 1])
  {
    hide Step;
    var a, asked := SessionOf("A", At(1), token), NewSession("B", "", "", At(3), false);
    SecondAsks(r, a);
    SecondIsGranted(token, a, asked);
  }

  lemma RunOfMore(events: seq<OpcEvent>, ev: OpcEvent)
    ensures Run(events + [ev]) == Step(Run(events), ev)
  {
    assert (events + [ev])[..|events|] == events;
  }

  lemma AsksAfresh(token: string, r: Registry)
    requires var a, b := SessionOf("A", At(1), token), SessionOf("B", At(3), token);
             r == Registry([a, b], map[token := 1], [token], map[], map["A" := 0, "B" := 1])
    ensures var r' := Step(r, ASK_AFRESH);
            |r'.store| == 2 && r'.store[1].active && r'.sessions == map[]
  {
    assert AppName(ASK_AFRESH) == "A";
  }

  lemma FirstIsUnfiled(log: seq<OpcEvent>)
    requires var r := Run(log);
             |r.store| == 2 && r.store[0].active && forall k :: k in r.sessions ==> r.sessions[k] != 0
    ensures !AlwaysKeepsFiling(log)
  {
    LogFilesExactly(log);
    assert log[..|log|] == log;
  }

  /**
    Two applications accepted with the same token, or both without any identifier: the first
    session stays active and is filed nowhere. When its application asks again, the entry of
    the second session goes too.
   */
  lemma SharedKeyUnfilesActiveSessions(token: string)
    ensures var r := Run(SharedKeyLog(token));
            && |r.store| == 2 && r.store[0].active && r.store[1].active && r.sessions == map[token := 1]
            && !AlwaysKeepsFiling(SharedKeyLog(token))
    ensures var r := Run(SharedKeyLog(token) + [ASK_AFRESH]);
            |r.store| == 2 && r.store[1].active && r.sessions == map[]
  {
    hide AlwaysKeepsFiling, Run, Step;
    var log := SharedKeyLog(token);
    FirstGrant(token);
    assert log[..2] == [ASK, GrantTo("1", token)];
    RunOfMore(log[..2], ASK_B);
    RunOfMore(log[..2] + [ASK_B], GrantTo("2", token));
    assert log == log[..2] + [ASK_B] + [GrantTo("2", token)];
    SecondGrant(token, Run(log[..2]));
    RunOfMore(log, ASK_AFRESH);
    AsksAfresh(token, Run(log));
    FirstIsUnfiled(log);
  }
}
