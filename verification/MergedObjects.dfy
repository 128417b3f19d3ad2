/** `build_active_map` and `build_sessions` as they run, on session objects that the merge shares. */
module MergedObjects {
  import opened Wrappers
  import opened OpcEvents
  import opened Sessions
  import opened ClientMap
  import opened ClientSessions
  import opened MergedSessions
  import ActiveMap

  /** One object per tag, with the value the active map gives it. */
  ghost predicate Watches(active: map<string, ClientSession>, a: ActiveMap.Active)
    reads active.Values
  {
    && active.Keys == a.sessions.Keys
    && (forall t, u :: t in active && u in active && t != u ==> active[t] != active[u])
    && (forall t :: t in active ==> active[t].Value() == a.sessions[t])
  }

  method WatchEvent(ev: OpcEvent, active: map<string, ClientSession>, order: seq<string>, ghost a: ActiveMap.Active)
    returns (active': map<string, ClientSession>, order': seq<string>)
    requires Watches(active, a) && order == a.order
    modifies active.Values
    ensures Watches(active', ActiveMap.Step(a, ev)) && order' == ActiveMap.Step(a, ev).order
    ensures forall t :: t in active' ==> (t in active && active'[t] == active[t]) || fresh(active'[t])
  {
    hide ClientSession.Value, ActiveMap.Observe, ActiveMap.Skipped;
    active', order' := active, order;
    if !ActiveMap.Skipped(ev.tag) {
      var s: ClientSession;
      if ev.tag in active {
        s := active[ev.tag];
        assert s in active.Values;
      } else {
        s := new ClientSession(ev.tag, "", "", ev.timestamp, true);
      }
      s.Observe(ev);
      active', order' := active[ev.tag := s], With(order, ev.tag);
      forall t | t in active && t != ev.tag ensures active[t].Value() == a.sessions[t] && active[t] != s {}
    }
  }

  method BuildActiveMap(events: seq<OpcEvent>) returns (active: map<string, ClientSession>, order: seq<string>)
    ensures Watches(active, ActiveMap.Run(events)) && order == ActiveMap.Run(events).order
    ensures forall t :: t in active ==> fresh(active[t])
  {
    hide ClientSession.Value, ActiveMap.Step;
    active, order := map[], [];
    for i := 0 to |events|
      invariant Watches(active, ActiveMap.Run(events[..i])) && order == ActiveMap.Run(events[..i]).order
      invariant forall t :: t in active ==> fresh(active[t])
    {
      active, order := WatchEvent(events[i], active, order, ActiveMap.Run(events[..i]));
      assert events[..i + 1][..i] == events[..i] && events[..i + 1] != [];
    }
    assert events[..|events|] == events;
  }

  ghost function Target(ref: Ref, active: map<string, ClientSession>, objs: seq<ClientSession>): Option<ClientSession> {
    match ref
    case Watched(t) => if t in active then Some(active[t]) else None
    case Filed(i) => if i < |objs| then Some(objs[i]) else None
  }

  /** The merged dictionary points at the objects its references name. */
  ghost predicate Shows(merged: map<string, ClientSession>, entries: map<string, Ref>,
                        active: map<string, ClientSession>, objs: seq<ClientSession>)
  {
    merged.Keys == entries.Keys && forall k :: k in merged ==> Target(entries[k], active, objs) == Some(merged[k])
  }

  /** The two readings share no object. */
  ghost predicate Apart(active: map<string, ClientSession>, objs: seq<ClientSession>) {
    forall t, i :: t in active && 0 <= i < |objs| ==> active[t] != objs[i]
  }

  lemma NothingPointed(objs: seq<ClientSession>, r: Registry)
    requires InStore(r) && Listed(r)
    ensures Points(map[], objs, ByToken(r, 0))
  {}

  lemma TokenStep(r: Registry, n: nat)
    requires InStore(r) && Listed(r) && n < |r.order|
    ensures r.order[n] in r.sessions && r.sessions[r.order[n]] < |r.store|
    ensures var i := r.sessions[r.order[n]];
            ByToken(r, n + 1) ==
            if r.store[i].authToken != "" then ByToken(r, n)[r.store[i].authToken := i] else ByToken(r, n)
  {
    assert r.order[n] in r.order;
  }

  method TokenMap(b: ClientMapBuilder, ghost r: Registry) returns (byToken: map<string, ClientSession>)
    requires b.Reflects(r) && Listed(r)
    ensures Points(byToken, b.objs, ByToken(r, |r.order|))
  {
    hide ClientSession.Value, Points, Mirrors, ByToken, InStore, Listed;
    byToken := map[];
    assert Points(byToken, b.objs, ByToken(r, 0)) by { NothingPointed(b.objs, r); }
    for n := 0 to |b.order|
      invariant Points(byToken, b.objs, ByToken(r, n))
    {
      TokenStep(r, n);
      ghost var i := r.sessions[b.order[n]];
      PointsAt(b.sessions, b.objs, r.sessions, b.order[n]);
      MirrorsAt(b.objs, r.store, i);
      var s := b.sessions[b.order[n]];
      s.Fields();
      if s.authToken != "" {
        PointsWith(byToken, b.objs, ByToken(r, n), s.authToken, i);
        byToken := byToken[s.authToken := s];
      }
    }
  }

  lemma ShowsWith(merged: map<string, ClientSession>, entries: map<string, Ref>, active: map<string, ClientSession>,
                  objs: seq<ClientSession>, key: string, ref: Ref, o: ClientSession)
    requires Shows(merged, entries, active, objs) && Target(ref, active, objs) == Some(o)
    ensures Shows(merged[key := o], entries[key := ref], active, objs)
  {}

  lemma TagStep(a: ActiveMap.Active, r: Registry, n: nat)
    requires Inputs(a, r) && n < |a.order|
    ensures a.order[n] in a.sessions
    ensures var m, m' := MergeTags(a, r, n), MergeTags(a, r, n + 1);
            var tag, byToken := a.order[n], ByToken(r, |r.order|);
            var token := a.sessions[tag].authToken;
            if token in byToken then
              var i := byToken[token];
              i < |m.store| && m'.entries == m.entries[tag := Filed(i)]
              && m'.store == m.store[i := Seen(m.store[i], a.sessions[tag])]
            else
              m'.entries == m.entries[tag := Watched(tag)] && m'.store == m.store
  {
    hide Seen;
    assert a.order[n] in a.order;
  }

  lemma FiledStep(a: ActiveMap.Active, r: Registry, n: nat)
    requires Inputs(a, r) && n < |r.order|
    ensures r.order[n] in r.sessions && r.sessions[r.order[n]] < |r.store|
    ensures var m, m', i := MergeFiled(a, r, n), MergeFiled(a, r, n + 1), r.sessions[r.order[n]];
            if r.store[i].applicationName in Tagged(a, r) then m' == m
            else m'.entries == m.entries[r.store[i].Key() := Filed(i)]
  {
    hide MergeTags, ByToken;
    assert r.order[n] in r.order;
  }

  lemma SameNames(a: ActiveMap.Active, r: Registry, i: nat)
    requires Inputs(a, r) && i < |r.store|
    ensures |MergeTags(a, r, |a.order|).store| == |r.store|
    ensures MergeTags(a, r, |a.order|).store[i].applicationName == r.store[i].applicationName
    ensures MergeTags(a, r, |a.order|).store[i].Key() == r.store[i].Key()
  {
    hide ByToken;
    assert MergeTags(a, r, |a.order|).store[i] == r.store[i].(lastSeen := MergeTags(a, r, |a.order|).store[i].lastSeen);
  }

  lemma WatchesAt(active: map<string, ClientSession>, a: ActiveMap.Active, t: string)
    requires Watches(active, a) && t in a.sessions
    ensures t in active && active[t].Value() == a.sessions[t]
  {}

  method ShowTag(n: nat, shown: map<string, ClientSession>, active: map<string, ClientSession>, order: seq<string>,
                 byToken: map<string, ClientSession>, ghost objs: seq<ClientSession>,
                 ghost a: ActiveMap.Active, ghost r: Registry)
    returns (merged: map<string, ClientSession>)
    requires Inputs(a, r) && Watches(active, a) && order == a.order && n < |order| && Apart(active, objs)
    requires Mirrors(objs, MergeTags(a, r, n).store) && Points(byToken, objs, ByToken(r, |r.order|))
    requires Shows(shown, MergeTags(a, r, n).entries, active, objs)
    modifies objs
    ensures Watches(active, a) && Mirrors(objs, MergeTags(a, r, n + 1).store)
    ensures Shows(merged, MergeTags(a, r, n + 1).entries, active, objs)
  {
    hide ClientSession.Value, Mirrors, Points, ByToken, Seen, Shows, MergeTags;
    TagStep(a, r, n);
    var tag := order[n];
    WatchesAt(active, a, tag);
    var s := active[tag];
    s.Fields();
    PointsAt(byToken, objs, ByToken(r, |r.order|), s.authToken);
    if s.authToken in byToken {
      ghost var i := ByToken(r, |r.order|)[s.authToken];
      MirrorsAt(objs, MergeTags(a, r, n).store, i);
      var rich := byToken[s.authToken];
      ShowsWith(shown, MergeTags(a, r, n).entries, active, objs, tag, Filed(i), rich);
      rich.Notice(s);
      MirrorsUpdated(objs, MergeTags(a, r, n).store, i);
      merged := shown[tag := rich];
    } else {
      ShowsWith(shown, MergeTags(a, r, n).entries, active, objs, tag, Watched(tag), s);
      merged := shown[tag := s];
    }
  }

  lemma NothingShown(active: map<string, ClientSession>, objs: seq<ClientSession>, a: ActiveMap.Active, r: Registry)
    requires Inputs(a, r)
    ensures MergeTags(a, r, 0).store == r.store && Shows(map[], MergeTags(a, r, 0).entries, active, objs)
  {}

  method ShowTags(active: map<string, ClientSession>, order: seq<string>, byToken: map<string, ClientSession>,
                  ghost objs: seq<ClientSession>, ghost a: ActiveMap.Active, ghost r: Registry)
    returns (merged: map<string, ClientSession>)
    requires Inputs(a, r) && Watches(active, a) && order == a.order && Apart(active, objs)
    requires Mirrors(objs, r.store) && Points(byToken, objs, ByToken(r, |r.order|))
    modifies objs
    ensures Watches(active, a) && Mirrors(objs, MergeTags(a, r, |a.order|).store)
    ensures Shows(merged, MergeTags(a, r, |a.order|).entries, active, objs)
  {
    hide ClientSession.Value, Mirrors, Points, ByToken, Inputs, Shows, Apart, Watches, MergeTags;
    merged := map[];
    NothingShown(active, objs, a, r);
    for n := 0 to |order|
      invariant Watches(active, a) && Mirrors(objs, MergeTags(a, r, n).store)
      invariant Shows(merged, MergeTags(a, r, n).entries, active, objs)
    {
      merged := ShowTag(n, merged, active, order, byToken, objs, a, r);
    }
  }

  method AddHandshakes(shown: map<string, ClientSession>, tagged: set<string>, active: map<string, ClientSession>,
                       b: ClientMapBuilder, ghost a: ActiveMap.Active, ghost r: Registry)
    returns (merged: map<string, ClientSession>)
    requires Inputs(a, r) && Mirrors(b.objs, MergeTags(a, r, |a.order|).store)
    requires Points(b.sessions, b.objs, r.sessions) && b.order == r.order
    requires Shows(shown, MergeTags(a, r, |a.order|).entries, active, b.objs) && tagged == Tagged(a, r)
    ensures Shows(merged, MergeFiled(a, r, |r.order|).entries, active, b.objs)
  {
    hide ClientSession.Value, Mirrors, Tagged, MergeTags, Inputs, Points, Shows;
    merged := shown;
    for n := 0 to |b.order|
      invariant Shows(merged, MergeFiled(a, r, n).entries, active, b.objs)
    {
      hide MergeFiled;
      FiledStep(a, r, n);
      PointsAt(b.sessions, b.objs, r.sessions, b.order[n]);
      var s := b.sessions[b.order[n]];
      ghost var i := r.sessions[b.order[n]];
      SameNames(a, r, i);
      MirrorsAt(b.objs, MergeTags(a, r, |a.order|).store, i);
      s.Fields();
      if s.applicationName !in tagged {
        var key := if s.authToken != "" then s.authToken else s.sessionId;
        ShowsWith(merged, MergeFiled(a, r, n).entries, active, b.objs, key, Filed(i), s);
        merged := merged[key := s];
      }
    }
  }

  lemma SameLength(objs: seq<ClientSession>, a: ActiveMap.Active, r: Registry)
    requires Inputs(a, r) && Mirrors(objs, MergeTags(a, r, |a.order|).store)
    ensures |objs| == |r.store|
  {
    hide ByToken;
  }

  lemma WatchedName(active: map<string, ClientSession>, a: ActiveMap.Active, t: string)
    requires Watches(active, a) && t in active
    ensures t in a.sessions && active[t].Value() == a.sessions[t]
  {}

  lemma ShownName(merged: map<string, ClientSession>, active: map<string, ClientSession>, objs: seq<ClientSession>,
                  a: ActiveMap.Active, r: Registry, k: string)
    requires Inputs(a, r) && Watches(active, a) && Mirrors(objs, MergeTags(a, r, |a.order|).store)
    requires Shows(merged, MergeTags(a, r, |a.order|).entries, active, objs) && k in merged
    ensures merged[k].applicationName == NameOf(a, r, MergeTags(a, r, |a.order|).entries[k])
  {
    hide ClientSession.Value, ByToken, MergeTags, Watches, Mirrors;
    merged[k].Fields();
    match MergeTags(a, r, |a.order|).entries[k]
    case Watched(t) => WatchedName(active, a, t);
    case Filed(i) => SameLength(objs, a, r); SameNames(a, r, i); MirrorsAt(objs, MergeTags(a, r, |a.order|).store, i);
  }

  method NamesShown(merged: map<string, ClientSession>,
                    ghost active: map<string, ClientSession>, ghost objs: seq<ClientSession>,
                    ghost a: ActiveMap.Active, ghost r: Registry)
    returns (names: set<string>)
    requires Inputs(a, r) && Watches(active, a) && Mirrors(objs, MergeTags(a, r, |a.order|).store)
    requires Shows(merged, MergeTags(a, r, |a.order|).entries, active, objs)
    ensures names == Tagged(a, r)
  {
    names := set k | k in merged :: merged[k].applicationName;
    forall k | k in merged ensures merged[k].applicationName == NameOf(a, r, MergeTags(a, r, |a.order|).entries[k]) {
      ShownName(merged, active, objs, a, r, k);
    }
  }

  ghost function ValueOf(ref: Ref, m: Merge, a: ActiveMap.Active): Option<Session> {
    match ref
    case Watched(t) => if t in a.sessions then Some(a.sessions[t]) else None
    case Filed(i) => if i < |m.store| then Some(m.store[i]) else None
  }

  /** The same keys, one object per reference, and each object with its final value. */
  ghost predicate Embodies(merged: map<string, ClientSession>, m: Merge, a: ActiveMap.Active)
    reads merged.Values
  {
    && merged.Keys == m.entries.Keys
    && (forall j, k :: j in merged && k in merged ==> (merged[j] == merged[k] <==> m.entries[j] == m.entries[k]))
    && (forall k :: k in merged ==> Some(merged[k].Value()) == ValueOf(m.entries[k], m, a))
  }

  lemma SameTarget(p: Ref, q: Ref, active: map<string, ClientSession>, objs: seq<ClientSession>,
                   m: Merge, a: ActiveMap.Active)
    requires Mirrors(objs, m.store) && Watches(active, a) && Apart(active, objs)
    requires Target(p, active, objs).Some? && Target(q, active, objs).Some?
    ensures Target(p, active, objs) == Target(q, active, objs) <==> p == q
  {
    hide ClientSession.Value;
  }

  lemma TargetsEmbody(merged: map<string, ClientSession>, active: map<string, ClientSession>, objs: seq<ClientSession>,
                       m: Merge, a: ActiveMap.Active)
    requires Shows(merged, m.entries, active, objs) && Mirrors(objs, m.store)
    requires Watches(active, a) && Apart(active, objs)
    ensures Embodies(merged, m, a)
  {
    hide ClientSession.Value;
    forall k | k in merged ensures Some(merged[k].Value()) == ValueOf(m.entries[k], m, a) {
      match m.entries[k] case Watched(t) => case Filed(i) =>
    }
    forall j, k | j in merged && k in merged ensures merged[j] == merged[k] <==> m.entries[j] == m.entries[k] {
      SameTarget(m.entries[j], m.entries[k], active, objs, m, a);
    }
  }

  /** The merged sessions of a log, as objects: keys, sharing and final values. */
  method BuildSessions(events: seq<OpcEvent>) returns (merged: map<string, ClientSession>)
    ensures Inputs(ActiveMap.Run(events), Run(events))
    ensures Embodies(merged, MergedSessions.BuildSessions(ActiveMap.Run(events), Run(events)), ActiveMap.Run(events))
  {
    hide ClientSession.Value, Mirrors, Points, Shows, MergeTags, Tagged, Inputs, Run, ActiveMap.Run;
    hide ByToken, InStore, Listed, Embodies;
    LogInputs(events);
    KeysAreListed(events);
    ghost var a, r := ActiveMap.Run(events), Run(events);
    var watched, order := BuildActiveMap(events);
    var b := BuildClientMap(events);
    var byToken := TokenMap(b, r);
    merged := ShowTags(watched, order, byToken, b.objs, a, r);
    var tagged := NamesShown(merged, watched, b.objs, a, r);
    merged := AddHandshakes(merged, tagged, watched, b, a, r);
    TargetsEmbody(merged, watched, b.objs, MergedSessions.BuildSessions(a, r), a);
  }
}
