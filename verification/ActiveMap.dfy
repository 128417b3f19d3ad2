/** The second reading of the log: one session per tag, from that tag's own events. */
module ActiveMap {
  import opened OpcEvents
  import opened Sessions
  import ClientMap

  datatype Active = Active(sessions: map<string, Session>, order: seq<string>)

  predicate Skipped(tag: string) {
    tag == "NoSession" || tag == "AnonymousClient" || "opc.tcp://" <= tag
  }

  predicate IsRequest(kind: EventKind) {
    kind.ReadRequest? || kind.WriteRequest? || kind.ActivateSessionRequest?
    || kind.CreateSessionRequest? || kind.CloseSessionRequest?
  }

  function WithToken(s: Session, ev: OpcEvent): Session {
    var auth := ev.Get("authenticationToken");
    if auth != "" && auth != "i=0" && s.authToken == "" then s.(authToken := auth) else s
  }

  function WithLastSeen(s: Session, ev: OpcEvent): Session {
    if IsRequest(ev.kind) && ev.timestamp != Blank then s.(lastSeen := ev.timestamp) else s
  }

  function WithEnd(s: Session, ev: OpcEvent): Session {
    if ev.kind.CloseSessionRequest? then s.Closed(ev.timestamp, "CloseSession")
    else if ev.kind.ServiceFaultResponse? then
      s.Closed(ev.timestamp, ClientMap.FaultReason(ev.Get("serviceResult")))
    else s
  }

  function Observe(s: Session, ev: OpcEvent): Session {
    WithEnd(WithLastSeen(WithToken(s, ev), ev), ev)
  }

  function Step(a: Active, ev: OpcEvent): Active {
    if Skipped(ev.tag) then a else
      var s := if ev.tag in a.sessions then a.sessions[ev.tag]
               else NewSession(ev.tag, "", "", ev.timestamp, true);
      Active(a.sessions[ev.tag := Observe(s, ev)], ClientMap.With(a.order, ev.tag))
  }

  function Run(events: seq<OpcEvent>): Active {
    if events == [] then Active(map[], []) else Step(Run(events[..|events| - 1]), events[|events| - 1])
  }

  function OnlyTag(events: seq<OpcEvent>, tag: string): seq<OpcEvent> {
    if events == [] then [] else
      var n := |events| - 1;
      OnlyTag(events[..n], tag) + if events[n].tag == tag then [events[n]] else []
  }

  lemma RunStep(events: seq<OpcEvent>, ev: OpcEvent)
    ensures Run(events + [ev]) == Step(Run(events), ev)
  {
    assert (events + [ev])[..|events|] == events;
  }

  /** Each tag gets exactly the result of processing that tag's events and no others. */
  lemma {:induction false} TagsAreIndependent(events: seq<OpcEvent>, tag: string)
    ensures var all, own := Run(events).sessions, Run(OnlyTag(events, tag)).sessions;
            && (tag in all <==> tag in own)
            && (tag in all ==> all[tag] == own[tag])
            && (tag in all <==> !Skipped(tag) && OnlyTag(events, tag) != [])
  {
    if events == [] {
    } else {
      var n := |events| - 1;
      TagsAreIndependent(events[..n], tag);
      if events[n].tag == tag {
        RunStep(OnlyTag(events[..n], tag), events[n]);
      } else {
        assert OnlyTag(events, tag) == OnlyTag(events[..n], tag);
      }
    }
  }

  /** The tags in order of first appearance are the keys, and each session is named after its tag. */
  lemma {:induction false} KeysInOrder(events: seq<OpcEvent>)
    ensures forall t :: t in Run(events).order <==> t in Run(events).sessions
    ensures forall t :: t in Run(events).sessions ==> Run(events).sessions[t].applicationName == t
  {
    if events == [] {
    } else {
      KeysInOrder(events[..|events| - 1]);
    }
  }

  /** Left out are the two anonymous tags and every tag that begins like a server address. */
  lemma SkippedIff(tag: string)
    ensures Skipped(tag) <==>
            tag == "NoSession" || tag == "AnonymousClient" || exists rest :: tag == "opc.tcp://" + rest
  {
    if "opc.tcp://" <= tag { assert tag == "opc.tcp://" + tag[|"opc.tcp://"|..]; }
  }

  // ---- what the session of a tag says about the tag's events ----

  predicate IsEnd(ev: OpcEvent) { ev.kind.CloseSessionRequest? || ev.kind.ServiceFaultResponse? }

  const REQUESTS := {ReadRequest, WriteRequest, ActivateSessionRequest, CreateSessionRequest, CloseSessionRequest}

  predicate IsDatedRequest(ev: OpcEvent) { ev.kind in REQUESTS && ev.timestamp != Blank }

  /** The end that the event tells of: a close, or a fault with its result if it names one. */
  predicate TellsReason(ev: OpcEvent, reason: string) {
    if ev.kind.CloseSessionRequest? then reason == "CloseSession"
    else if "serviceResult" in ev.fields && ev.fields["serviceResult"] != "" then
      reason == "Fault:" + ev.fields["serviceResult"]
    else reason == "Fault"
  }

  predicate ShowsToken(ev: OpcEvent) {
    ev.Get("authenticationToken") != "" && ev.Get("authenticationToken") != "i=0"
  }

  ghost predicate FirstTokenIs(events: seq<OpcEvent>, token: string) {
    if token == "" then forall i :: 0 <= i < |events| ==> !ShowsToken(events[i])
    else exists i :: 0 <= i < |events| && ShowsToken(events[i]) && events[i].Get("authenticationToken") == token
                  && forall j :: 0 <= j < i ==> !ShowsToken(events[j])
  }

  ghost predicate LastRequestIs(events: seq<OpcEvent>, at: Stamp) {
    if at == Blank then forall i :: 0 <= i < |events| ==> !IsDatedRequest(events[i])
    else exists i :: 0 <= i < |events| && IsDatedRequest(events[i]) && events[i].timestamp == at
                  && forall j :: i < j < |events| ==> !IsDatedRequest(events[j])
  }

  predicate EndsWith(ev: OpcEvent, s: Session) {
    IsEnd(ev) && ev.timestamp == s.disconnectedAt && TellsReason(ev, s.disconnectReason)
  }

  ghost predicate LastEndIs(events: seq<OpcEvent>, s: Session) {
    if s.active then
      s.disconnectedAt == Blank && s.disconnectReason == "" && forall i :: 0 <= i < |events| ==> !IsEnd(events[i])
    else exists i :: 0 <= i < |events| && EndsWith(events[i], s) && forall j :: i < j < |events| ==> !IsEnd(events[j])
  }

  /** Nothing but the tag is known of who is behind the session. */
  predicate Anonymous(s: Session) {
    s.applicationUri == s.endpointUrl == s.username == s.sessionId == "" && s.activatedAt == Blank && s.past == []
  }

  /** The session is of the events it was built from: first token, last request, last end. */
  ghost predicate Describes(s: Session, events: seq<OpcEvent>) {
    && events != [] && s.connectedAt == events[0].timestamp && Anonymous(s)
    && FirstTokenIs(events, s.authToken)
    && LastRequestIs(events, s.lastSeen)
    && LastEndIs(events, s)
  }

  lemma TokenStep(events: seq<OpcEvent>, ev: OpcEvent, s: Session)
    requires FirstTokenIs(events, s.authToken)
    ensures FirstTokenIs(events + [ev], Observe(s, ev).authToken)
  {
    var all := events + [ev];
    assert all[|events|] == ev;
    forall i | 0 <= i < |events| ensures all[i] == events[i] {}
    if s.authToken != "" {
      var i :| 0 <= i < |events| && ShowsToken(events[i]) && events[i].Get("authenticationToken") == s.authToken
            && forall j :: 0 <= j < i ==> !ShowsToken(events[j]);
      assert ShowsToken(all[i]);
    } else if ShowsToken(ev) {
      assert ShowsToken(all[|events|]);
    }
  }

  lemma RequestStep(events: seq<OpcEvent>, ev: OpcEvent, s: Session)
    requires LastRequestIs(events, s.lastSeen)
    ensures LastRequestIs(events + [ev], Observe(s, ev).lastSeen)
  {
    var all := events + [ev];
    assert all[|events|] == ev;
    forall i | 0 <= i < |events| ensures all[i] == events[i] {}
    if IsDatedRequest(ev) {
      assert IsDatedRequest(all[|events|]);
    } else if s.lastSeen != Blank {
      var i :| 0 <= i < |events| && IsDatedRequest(events[i]) && events[i].timestamp == s.lastSeen
            && forall j :: i < j < |events| ==> !IsDatedRequest(events[j]);
      assert IsDatedRequest(all[i]);
    }
  }

  lemma EndStep(events: seq<OpcEvent>, ev: OpcEvent, s: Session)
    requires LastEndIs(events, s)
    ensures LastEndIs(events + [ev], Observe(s, ev))
  {
    var all := events + [ev];
    assert all[|events|] == ev;
    forall i | 0 <= i < |events| ensures all[i] == events[i] {}
    if IsEnd(ev) {
      assert EndsWith(all[|events|], Observe(s, ev));
    } else if !s.active {
      var i :| 0 <= i < |events| && EndsWith(events[i], s) && forall j :: i < j < |events| ==> !IsEnd(events[j]);
      assert EndsWith(all[i], s);
    }
  }

  lemma NothingToDescribe(s: Session)
    requires s.authToken == "" && s.lastSeen == Blank && s.active
    requires s.disconnectedAt == Blank && s.disconnectReason == ""
    ensures FirstTokenIs([], s.authToken) && LastRequestIs([], s.lastSeen) && LastEndIs([], s)
  {}

  lemma ConnectStays(s: Session, ev: OpcEvent)
    ensures Observe(s, ev).connectedAt == s.connectedAt && (Anonymous(s) ==> Anonymous(Observe(s, ev)))
  {}

  /**
    A tag's session begins with the tag's first event, carries the first token it showed,
    was last seen at its last dated request, and is active exactly when none of its events
    ended it; otherwise it carries the time of the last one that did.
   */
  lemma {:induction false} SessionDescribesItsTag(events: seq<OpcEvent>, tag: string)
    requires tag in Run(events).sessions
    ensures Describes(Run(events).sessions[tag], OnlyTag(events, tag))
  {
    var n := |events| - 1;
    TagsAreIndependent(events[..n], tag);
    var own, ev := OnlyTag(events[..n], tag), events[n];
    if ev.tag != tag {
      SessionDescribesItsTag(events[..n], tag);
      assert OnlyTag(events, tag) == own;
    } else {
      hide Observe, FirstTokenIs, LastRequestIs, LastEndIs;
      var s: Session;
      if own == [] {
        s := NewSession(tag, "", "", ev.timestamp, true);
        NothingToDescribe(s);
      } else {
        SessionDescribesItsTag(events[..n], tag);
        s := Run(events[..n]).sessions[tag];
      }
      TokenStep(own, ev, s);
      RequestStep(own, ev, s);
      EndStep(own, ev, s);
      ConnectStays(s, ev);
    }
  }
}
