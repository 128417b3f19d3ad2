/**
  When a merged handshake session was last seen: the tags that show its token tell, the
  first one in order that has a dated request.
 */
module LastSeen {
  import opened OpcEvents
  import opened ClientMap
  import opened MergedSessions
  import ActiveMap

  // ---- which handshake a token belongs to ----

  predicate HasToken(r: Registry, j: int, token: string)
    requires InStore(r) && Listed(r) && 0 <= j < |r.order|
  {
    assert r.order[j] in r.order;
    token != "" && r.store[r.sessions[r.order[j]]].authToken == token
  }

  /** Of the first `n` entries, the `j`-th is the last whose session has the token. */
  ghost predicate LastWithToken(r: Registry, n: int, token: string, j: int)
    requires InStore(r) && Listed(r) && 0 <= n <= |r.order|
  {
    && 0 <= j < n && HasToken(r, j, token)
    && forall k :: j < k < n ==> !HasToken(r, k, token)
  }

  lemma OneMoreEntry(r: Registry, n: nat, token: string, j: int)
    requires InStore(r) && Listed(r) && n < |r.order|
    ensures LastWithToken(r, n + 1, token, j) <==>
            if HasToken(r, n, token) then j == n else LastWithToken(r, n, token, j)
  {
    hide HasToken;
  }

  lemma OneMoreToken(r: Registry, n: nat, token: string)
    requires InStore(r) && Listed(r) && n < |r.order|
    ensures r.order[n] in r.sessions
    ensures var before, after := ByToken(r, n), ByToken(r, n + 1);
            if HasToken(r, n, token) then token in after && after[token] == r.sessions[r.order[n]]
            else (token in after <==> token in before) && (token in before ==> after[token] == before[token])
  {
    assert r.order[n] in r.order;
    if token == "" { assert "" !in ByToken(r, n + 1); }
  }

  lemma NoToken(r: Registry, token: string)
    requires InStore(r) && Listed(r)
    ensures token !in ByToken(r, 0) && forall j :: !LastWithToken(r, 0, token, j)
  {}

  /** A token belongs to the last entry whose session has it; the empty one to none. */
  lemma {:induction false} TokenBelongsToTheLast(r: Registry, n: nat, token: string)
    requires InStore(r) && Listed(r) && n <= |r.order|
    ensures token in ByToken(r, n) <==> exists j :: LastWithToken(r, n, token, j)
    ensures forall j :: LastWithToken(r, n, token, j) && token in ByToken(r, n) ==>
              r.order[j] in r.sessions && ByToken(r, n)[token] == r.sessions[r.order[j]]
  {
    hide HasToken, LastWithToken, ByToken, InStore, Listed;
    if n == 0 {
      NoToken(r, token);
    } else {
      var m := n - 1;
      TokenBelongsToTheLast(r, m, token);
      OneMoreToken(r, m, token);
      forall j ensures LastWithToken(r, n, token, j) <==>
                       if HasToken(r, n - 1, token) then j == n - 1 else LastWithToken(r, n - 1, token, j)
      {
        OneMoreEntry(r, n - 1, token, j);
      }
      if HasToken(r, n - 1, token) {
        assert LastWithToken(r, n, token, n - 1);
      } else if j :| LastWithToken(r, m, token, j) {
        assert LastWithToken(r, n, token, j);
      }
    }
  }

  // ---- the last time a handshake was seen ----

  lemma StepSeesNothing(r: Registry, ev: OpcEvent)
    requires InStore(r) && forall i :: 0 <= i < |r.store| ==> r.store[i].lastSeen == Blank
    ensures forall i :: 0 <= i < |Step(r, ev).store| ==> Step(r, ev).store[i].lastSeen == Blank
  {
    hide AppName, Rejected, Without, With, FindSession, FindByTagOrToken;
  }

  lemma {:induction false} NeverSeenBefore(events: seq<OpcEvent>)
    ensures forall i :: 0 <= i < |Run(events).store| ==> Run(events).store[i].lastSeen == Blank
  {
    hide Step;
    if events == [] {
      assert Run(events) == EMPTY;
    } else {
      NeverSeenBefore(events[..|events| - 1]);
      StepSeesNothing(Run(events[..|events| - 1]), events[|events| - 1]);
    }
  }

  /** The tag shows the token of the `i`-th handshake session. */
  predicate ShowsSession(a: ActiveMap.Active, r: Registry, tag: string, i: nat)
    requires Inputs(a, r)
  {
    && tag in a.sessions && a.sessions[tag].authToken in ByToken(r, |r.order|)
    && ByToken(r, |r.order|)[a.sessions[tag].authToken] == i
  }

  /** The tag shows the session's token, and tells when it was last seen. */
  predicate Tells(a: ActiveMap.Active, r: Registry, tag: string, i: nat)
    requires Inputs(a, r)
  {
    ShowsSession(a, r, tag, i) && a.sessions[tag].lastSeen != Blank
  }

  ghost predicate FirstTells(a: ActiveMap.Active, r: Registry, n: int, i: nat, j: int)
    requires Inputs(a, r) && 0 <= n <= |a.order|
  {
    0 <= j < n && Tells(a, r, a.order[j], i) && forall k :: 0 <= k < j ==> !Tells(a, r, a.order[k], i)
  }

  ghost predicate SeenAsTold(a: ActiveMap.Active, r: Registry, n: int, i: nat, at: Stamp)
    requires Inputs(a, r) && 0 <= n <= |a.order|
  {
    if at == Blank then forall j :: 0 <= j < n ==> !Tells(a, r, a.order[j], i)
    else exists j :: FirstTells(a, r, n, i, j) && a.order[j] in a.sessions && a.sessions[a.order[j]].lastSeen == at
  }

  lemma OneMoreTag(a: ActiveMap.Active, r: Registry, n: nat, i: nat)
    requires Inputs(a, r) && n < |a.order| && i < |r.store|
    ensures a.order[n] in a.sessions
    ensures var before, after := MergeTags(a, r, n).store[i].lastSeen, MergeTags(a, r, n + 1).store[i].lastSeen;
            after == if before == Blank && ShowsSession(a, r, a.order[n], i) then a.sessions[a.order[n]].lastSeen
                     else before
  {
    hide ByToken;
    assert a.order[n] in a.order;
  }

  lemma NothingMerged(a: ActiveMap.Active, r: Registry)
    requires Inputs(a, r)
    ensures MergeTags(a, r, 0).store == r.store
  {}

  lemma ToldBy(a: ActiveMap.Active, r: Registry, n: nat, i: nat, at: Stamp)
    requires Inputs(a, r) && n < |a.order| && a.order[n] in a.sessions && SeenAsTold(a, r, n, i, at)
    ensures var seen := a.sessions[a.order[n]].lastSeen;
            SeenAsTold(a, r, n + 1, i, if at == Blank && ShowsSession(a, r, a.order[n], i) then seen else at)
  {
    hide ShowsSession, Inputs;
    var seen := a.sessions[a.order[n]].lastSeen;
    if at != Blank {
      var j :| FirstTells(a, r, n, i, j) && a.order[j] in a.sessions && a.sessions[a.order[j]].lastSeen == at;
      assert FirstTells(a, r, n + 1, i, j);
    } else if ShowsSession(a, r, a.order[n], i) && seen != Blank {
      assert Tells(a, r, a.order[n], i) && FirstTells(a, r, n + 1, i, n);
    }
  }

  lemma {:induction false} TagsTell(a: ActiveMap.Active, r: Registry, n: nat, i: nat)
    requires Inputs(a, r) && n <= |a.order| && i < |r.store| && r.store[i].lastSeen == Blank
    ensures SeenAsTold(a, r, n, i, MergeTags(a, r, n).store[i].lastSeen)
  {
    hide MergeTags, Tells, Inputs;
    if n == 0 {
      NothingMerged(a, r);
    } else {
      TagsTell(a, r, n - 1, i);
      OneMoreTag(a, r, n - 1, i);
      ToldBy(a, r, n - 1, i, MergeTags(a, r, n - 1).store[i].lastSeen);
    }
  }

  /** Among the events of the tag there is a dated request. */
  predicate RequestsDated(events: seq<OpcEvent>, tag: string) {
    exists k :: 0 <= k < |events| && events[k].tag == tag && ActiveMap.IsDatedRequest(events[k])
  }

  /** The `j`-th tag is the first that shows the session's token and has a dated request. */
  ghost predicate FirstDatedTag(events: seq<OpcEvent>, i: nat, j: int) {
    var a, r := ActiveMap.Run(events), Run(events);
    && Inputs(a, r) && 0 <= j < |a.order| && ShowsSession(a, r, a.order[j], i) && RequestsDated(events, a.order[j])
    && forall k :: 0 <= k < j && ShowsSession(a, r, a.order[k], i) ==> !RequestsDated(events, a.order[k])
  }

  predicate AnyDatedRequest(events: seq<OpcEvent>) {
    exists k :: 0 <= k < |events| && ActiveMap.IsDatedRequest(events[k])
  }

  lemma {:induction false} OwnRequests(events: seq<OpcEvent>, tag: string)
    ensures RequestsDated(events, tag) <==> AnyDatedRequest(ActiveMap.OnlyTag(events, tag))
  {
    hide ActiveMap.IsDatedRequest;
    if events == [] {
    } else {
      var n := |events| - 1;
      var before, own, all := events[..n], ActiveMap.OnlyTag(events[..n], tag), ActiveMap.OnlyTag(events, tag);
      OwnRequests(before, tag);
      if RequestsDated(events, tag) {
        var k :| 0 <= k < |events| && events[k].tag == tag && ActiveMap.IsDatedRequest(events[k]);
        if k == n {
          assert all[|own|] == events[n];
        } else {
          assert before[k] == events[k] && RequestsDated(before, tag);
          var l :| 0 <= l < |own| && ActiveMap.IsDatedRequest(own[l]);
          assert all[l] == own[l];
        }
      }
      if AnyDatedRequest(all) {
        var l :| 0 <= l < |all| && ActiveMap.IsDatedRequest(all[l]);
        if l < |own| {
          assert own[l] == all[l] && AnyDatedRequest(own);
          var k :| 0 <= k < |before| && before[k].tag == tag && ActiveMap.IsDatedRequest(before[k]);
          assert events[k] == before[k];
        } else {
          assert all[l] == events[n];
        }
      }
    }
  }

  /** A tag tells of a session exactly if it shows it and has a dated request. */
  lemma TellsIff(events: seq<OpcEvent>, tag: string, i: nat)
    requires tag in ActiveMap.Run(events).sessions
    ensures Inputs(ActiveMap.Run(events), Run(events))
    ensures var a, r := ActiveMap.Run(events), Run(events);
            Tells(a, r, tag, i) <==> ShowsSession(a, r, tag, i) && RequestsDated(events, tag)
  {
    hide ShowsSession, ActiveMap.Run, Run;
    LogInputs(events);
    ActiveMap.SessionDescribesItsTag(events, tag);
    OwnRequests(events, tag);
  }

  lemma MergedStore(a: ActiveMap.Active, r: Registry)
    requires Inputs(a, r)
    ensures BuildSessions(a, r).store == MergeTags(a, r, |a.order|).store
  {}

  lemma OrderedTag(a: ActiveMap.Active, r: Registry, j: int)
    requires Inputs(a, r) && 0 <= j < |a.order|
    ensures a.order[j] in a.sessions
  {
    assert a.order[j] in a.order;
  }

  /**
    For every log: a merged handshake session was last seen at the last dated request of the
    first tag, in order of appearance, that shows its token and has one; and it carries no
    such time exactly when no tag does.
   */
  lemma HandshakesAreSeenByTheirTags(events: seq<OpcEvent>, i: nat)
    requires i < |Run(events).store|
    ensures Inputs(ActiveMap.Run(events), Run(events))
    ensures var a, m := ActiveMap.Run(events), BuildSessions(ActiveMap.Run(events), Run(events));
            && |m.store| == |Run(events).store|
            && (m.store[i].lastSeen == Blank <==> forall j :: !FirstDatedTag(events, i, j))
            && (forall j :: FirstDatedTag(events, i, j) ==>
                  ActiveMap.LastRequestIs(ActiveMap.OnlyTag(events, a.order[j]), m.store[i].lastSeen))
  {
    hide ShowsSession, ActiveMap.Run, Run, MergeTags, Inputs, ActiveMap.LastRequestIs, RequestsDated, Tells;
    LogInputs(events);
    NeverSeenBefore(events);
    var a, r := ActiveMap.Run(events), Run(events);
    MergedStore(a, r);
    TagsTell(a, r, |a.order|, i);
    var at := BuildSessions(a, r).store[i].lastSeen;
    forall j | 0 <= j < |a.order|
      ensures a.order[j] in a.sessions
      ensures Tells(a, r, a.order[j], i) <==> ShowsSession(a, r, a.order[j], i) && RequestsDated(events, a.order[j])
    {
      OrderedTag(a, r, j);
      TellsIff(events, a.order[j], i);
    }
    forall j ensures FirstDatedTag(events, i, j) <==> FirstTells(a, r, |a.order|, i, j) {}
    if at == Blank {
      forall j ensures !FirstTells(a, r, |a.order|, i, j) {}
    } else {
      var j :| FirstTells(a, r, |a.order|, i, j) && a.order[j] in a.sessions && a.sessions[a.order[j]].lastSeen == at;
      assert FirstDatedTag(events, i, j);
      forall k | FirstDatedTag(events, i, k)
        ensures ActiveMap.LastRequestIs(ActiveMap.OnlyTag(events, a.order[k]), at)
      {
        assert FirstTells(a, r, |a.order|, i, k) && k == j;
        ActiveMap.SessionDescribesItsTag(events, a.order[j]);
      }
    }
  }
}
