/**
  The merge of the two readings. A tag whose token belongs to a handshake shows the
  handshake's own session object; handshakes no tag shows are added under their key.
 */
module MergedSessions {
  import opened OpcEvents
  import opened Sessions
  import opened ClientMap
  import ActiveMap
  import ClientFiling
  import ClientKeys

  /** A merged entry is one of the active map's objects or one of the client map's. */
  datatype Ref = Watched(tag: string) | Filed(id: nat)

  datatype Merge = Merge(store: seq<Session>, entries: map<string, Ref>)

  ghost predicate Inputs(a: ActiveMap.Active, r: Registry) {
    && InStore(r) && Listed(r)
    && (forall t :: t in a.order <==> t in a.sessions)
    && (forall t :: t in a.sessions ==> a.sessions[t].applicationName == t)
  }

  /** `handshake_by_token` over the first `n` filed sessions: the last one wins. */
  function ByToken(r: Registry, n: nat): (m: map<string, nat>)
    requires InStore(r) && Listed(r) && n <= |r.order|
    ensures forall t :: t in m ==> t != "" && m[t] < |r.store| && r.store[m[t]].authToken == t
    ensures forall j :: 0 <= j < n && r.store[r.sessions[r.order[j]]].authToken != "" ==>
              r.store[r.sessions[r.order[j]]].authToken in m
  {
    if n == 0 then map[] else
      var m := ByToken(r, n - 1);
      var i := r.sessions[r.order[n - 1]];
      if r.store[i].authToken != "" then m[r.store[i].authToken := i] else m
  }

  function Seen(rich: Session, s: Session): Session {
    rich.(lastSeen := if rich.lastSeen != Blank then rich.lastSeen else s.lastSeen)
  }

  /** The first loop, over the first `n` active tags. */
  function MergeTags(a: ActiveMap.Active, r: Registry, n: nat): (m: Merge)
    requires Inputs(a, r) && n <= |a.order|
    ensures |m.store| == |r.store|
    ensures forall i :: 0 <= i < |r.store| ==> m.store[i] == r.store[i].(lastSeen := m.store[i].lastSeen)
    ensures forall t :: t in m.entries <==> t in a.order[..n]
    ensures forall t :: t in m.entries ==>
              var token := a.sessions[t].authToken;
              if token in ByToken(r, |r.order|) then m.entries[t] == Filed(ByToken(r, |r.order|)[token])
              else m.entries[t] == Watched(t)
  {
    if n == 0 then Merge(r.store, map[]) else
      var m := MergeTags(a, r, n - 1);
      var tag := a.order[n - 1];
      assert a.order[..n] == a.order[..n - 1] + [tag];
      var s := a.sessions[tag];
      var byToken := ByToken(r, |r.order|);
      if s.authToken in byToken then
        var i := byToken[s.authToken];
        Merge(m.store[i := Seen(m.store[i], s)], m.entries[tag := Filed(i)])
      else
        m.(entries := m.entries[tag := Watched(tag)])
  }

  function NameOf(a: ActiveMap.Active, r: Registry, ref: Ref): string {
    match ref
    case Watched(t) => if t in a.sessions then a.sessions[t].applicationName else ""
    case Filed(i) => if i < |r.store| then r.store[i].applicationName else ""
  }

  function Tagged(a: ActiveMap.Active, r: Registry): set<string>
    requires Inputs(a, r)
  {
    var m := MergeTags(a, r, |a.order|);
    set t | t in m.entries :: NameOf(a, r, m.entries[t])
  }

  /** The second loop, over the first `n` filed sessions. */
  function MergeFiled(a: ActiveMap.Active, r: Registry, n: nat): (m: Merge)
    requires Inputs(a, r) && n <= |r.order|
    ensures m.store == MergeTags(a, r, |a.order|).store
    ensures forall t :: t in a.sessions ==> t in m.entries
    decreases n
  {
    var base := MergeTags(a, r, |a.order|);
    assert a.order[..|a.order|] == a.order;
    if n == 0 then base else
      var m := MergeFiled(a, r, n - 1);
      var i := r.sessions[r.order[n - 1]];
      if r.store[i].applicationName in Tagged(a, r) then m
      else m.(entries := m.entries[r.store[i].Key() := Filed(i)])
  }

  function BuildSessions(a: ActiveMap.Active, r: Registry): (m: Merge)
    requires Inputs(a, r)
  {
    MergeFiled(a, r, |r.order|)
  }

  lemma LogInputs(events: seq<OpcEvent>)
    ensures Inputs(ActiveMap.Run(events), Run(events))
  {
    ActiveMap.KeysInOrder(events);
    KeysAreListed(events);
  }

  /** For every log: the merge drops no tag. */
  lemma EveryTagIsAKey(events: seq<OpcEvent>, tag: string)
    requires !ActiveMap.Skipped(tag) && ActiveMap.OnlyTag(events, tag) != []
    ensures Inputs(ActiveMap.Run(events), Run(events))
    ensures tag in BuildSessions(ActiveMap.Run(events), Run(events)).entries
  {
    LogInputs(events);
    ActiveMap.TagsAreIndependent(events, tag);
  }

  ghost predicate Claims(a: ActiveMap.Active, r: Registry, k: string, key: string)
    requires Inputs(a, r)
  {
    k in r.sessions && r.store[r.sessions[k]].Key() == key && r.store[r.sessions[k]].applicationName !in Tagged(a, r)
  }

  ghost predicate ClaimedBefore(a: ActiveMap.Active, r: Registry, n: nat, key: string)
    requires Inputs(a, r) && n <= |r.order|
  {
    exists j :: 0 <= j < n && Claims(a, r, r.order[j], key)
  }

  ghost predicate ClaimantShows(a: ActiveMap.Active, r: Registry, n: nat, key: string, m: Merge)
    requires Inputs(a, r) && n <= |r.order|
  {
    key in m.entries &&
    exists j :: 0 <= j < n && Claims(a, r, r.order[j], key) && m.entries[key] == Filed(r.sessions[r.order[j]])
  }

  ghost predicate SameEntry(m: Merge, base: Merge, key: string) {
    (key in m.entries <==> key in base.entries) && (key in m.entries ==> m.entries[key] == base.entries[key])
  }

  lemma OrderedKey(a: ActiveMap.Active, r: Registry, j: nat)
    requires Inputs(a, r) && j < |r.order|
    ensures r.order[j] in r.sessions && r.sessions[r.order[j]] < |r.store|
  {
    assert r.order[j] in r.order;
  }

  lemma {:induction false} FiledEntries(a: ActiveMap.Active, r: Registry, n: nat, key: string)
    requires Inputs(a, r) && n <= |r.order|
    ensures if ClaimedBefore(a, r, n, key) then ClaimantShows(a, r, n, key, MergeFiled(a, r, n))
            else SameEntry(MergeFiled(a, r, n), MergeTags(a, r, |a.order|), key)
  {
    hide MergeTags, Tagged, ByToken, NameOf, Inputs, InStore, Listed;
    if n == 0 {
    } else {
      FiledEntries(a, r, n - 1, key);
      var k := r.order[n - 1];
      OrderedKey(a, r, n - 1);
      if Claims(a, r, k, key) {
        assert ClaimedBefore(a, r, n, key);
        assert MergeFiled(a, r, n).entries[key] == Filed(r.sessions[k]);
      } else {
        assert ClaimedBefore(a, r, n, key) <==> ClaimedBefore(a, r, n - 1, key);
        assert SameEntry(MergeFiled(a, r, n), MergeFiled(a, r, n - 1), key);
      }
    }
  }

  /** What the first loop shows is named in `tagged`; a claimant is not. */
  lemma ShownNamesAreTagged(a: ActiveMap.Active, r: Registry, tag: string)
    requires Inputs(a, r) && tag in a.sessions
    ensures tag in MergeTags(a, r, |a.order|).entries
    ensures forall k :: Claims(a, r, k, tag) ==> MergeTags(a, r, |a.order|).entries[tag] != Filed(r.sessions[k])
  {
    hide ByToken;
    var base := MergeTags(a, r, |a.order|);
    assert a.order[..|a.order|] == a.order;
    assert NameOf(a, r, base.entries[tag]) in Tagged(a, r);
  }

  /**
    For every log, a tag keeps the client the first loop gave it exactly when no
    handshake that is still unshown is filed under a key equal to that tag.
   */
  lemma TagKeepsItsClient(a: ActiveMap.Active, r: Registry, tag: string)
    requires Inputs(a, r) && tag in a.sessions
    ensures tag in MergeTags(a, r, |a.order|).entries && tag in BuildSessions(a, r).entries
    ensures BuildSessions(a, r).entries[tag] == MergeTags(a, r, |a.order|).entries[tag] <==>
            forall k :: k in r.sessions ==> !Claims(a, r, k, tag)
  {
    hide MergeTags, MergeFiled, Tagged, ByToken, NameOf, InStore;
    FiledEntries(a, r, |r.order|, tag);
    ShownNamesAreTagged(a, r, tag);
    forall k | k in r.sessions && Claims(a, r, k, tag) ensures ClaimedBefore(a, r, |r.order|, tag) {
      assert k in r.order;
      var j :| 0 <= j < |r.order| && r.order[j] == k;
    }
    if ClaimedBefore(a, r, |r.order|, tag) {
      var j :| 0 <= j < |r.order| && Claims(a, r, r.order[j], tag);
      assert r.order[j] in r.sessions;
    }
  }

  lemma HandshakeShows(a: ActiveMap.Active, r: Registry, k: string)
    requires Inputs(a, r) && ClientKeys.FiledUnderKey(r.store, r.sessions)
    requires forall k :: k in r.sessions ==> k !in a.sessions
    requires k in r.sessions
    ensures var m := BuildSessions(a, r);
            exists key :: key in m.entries && NameOf(a, r, m.entries[key]) == r.store[r.sessions[k]].applicationName
  {
    hide ByToken, MergeFiled;
    var m, base := BuildSessions(a, r), MergeTags(a, r, |a.order|);
    assert a.order[..|a.order|] == a.order;
    var name := r.store[r.sessions[k]].applicationName;
    if name in Tagged(a, r) {
      var t :| t in base.entries && NameOf(a, r, base.entries[t]) == name;
      TagKeepsItsClient(a, r, t);
      assert m.entries[t] == base.entries[t];
    } else {
      var j :| 0 <= j < |r.order| && r.order[j] == k;
      assert Claims(a, r, r.order[j], k);
      FiledEntries(a, r, |r.order|, k);
      assert NameOf(a, r, m.entries[k]) == name;
    }
  }

  /**
    For a log all of whose events keep the filing and whose handshake keys are not also
    tags, the merge loses no client: every tag shows its own client, and every handshake's
    application name appears.
   */
  lemma NoClientIsLost(events: seq<OpcEvent>)
    requires ClientFiling.AlwaysKeepsFiling(events)
    requires forall k :: k in Run(events).sessions ==> k !in ActiveMap.Run(events).sessions
    ensures Inputs(ActiveMap.Run(events), Run(events))
    ensures var a, r := ActiveMap.Run(events), Run(events);
            var m, base := BuildSessions(a, r), MergeTags(a, r, |a.order|);
            && (forall t :: t in a.sessions ==> t in base.entries && t in m.entries && m.entries[t] == base.entries[t])
            && (forall k :: k in r.sessions ==>
                  exists key :: key in m.entries &&
                    NameOf(a, r, m.entries[key]) == r.store[r.sessions[k]].applicationName)
  {
    hide MergeTags, Tagged, ByToken, BuildSessions, MergeFiled, Run, ActiveMap.Run, NameOf;
    LogInputs(events);
    ClientFiling.LogFilesExactly(events);
    assert events[..|events|] == events && ClientFiling.Filed(Run(events));
    var a, r := ActiveMap.Run(events), Run(events);
    var m, base := BuildSessions(a, r), MergeTags(a, r, |a.order|);
    forall t | t in a.sessions
      ensures t in base.entries && t in m.entries && m.entries[t] == base.entries[t]
    {
      TagKeepsItsClient(a, r, t);
    }
    forall k | k in r.sessions
      ensures exists key :: key in m.entries && NameOf(a, r, m.entries[key]) == r.store[r.sessions[k]].applicationName
    {
      HandshakeShows(a, r, k);
    }
  }
}
