/**
  The order in which the two dictionaries list their keys: a key stands where it was
  inserted, keeps its place when it is assigned again, and goes to the end when it was
  deleted in between.
 */
module EntryOrder {
  import opened OpcEvents
  import opened ClientMap
  import opened RowOrder
  import ActiveMap

  lemma BeforeInTail(keys: seq<string>, x: string, y: string)
    requires keys != [] && Before(keys[1..], x, y)
    ensures Before(keys, x, y)
  {
    var i, j :| 0 <= i < j < |keys| - 1 && keys[1..][i] == x && keys[1..][j] == y;
    assert keys[i + 1] == x && keys[j + 1] == y;
  }

  lemma {:induction false} WithoutKeepsOrder(keys: seq<string>, key: string, x: string, y: string)
    requires Before(Without(keys, key), x, y)
    ensures Before(keys, x, y) && x != key && y != key
  {
    if keys == [] {
    } else {
      var rest := Without(keys[1..], key);
      var i, j :| 0 <= i < j < |Without(keys, key)| && Without(keys, key)[i] == x && Without(keys, key)[j] == y;
      assert x in Without(keys, key) && y in Without(keys, key);
      if keys[0] == key {
        WithoutKeepsOrder(keys[1..], key, x, y);
        BeforeInTail(keys, x, y);
      } else if i == 0 {
        assert y in rest by { assert rest[j - 1] == y; }
        var k :| 0 <= k < |keys| - 1 && keys[1..][k] == y;
        assert keys[0] == x && keys[k + 1] == y;
      } else {
        assert rest[i - 1] == x && rest[j - 1] == y;
        WithoutKeepsOrder(keys[1..], key, x, y);
        BeforeInTail(keys, x, y);
      }
    }
  }

  lemma WithKeepsOrder(keys: seq<string>, key: string, x: string, y: string)
    requires Before(With(keys, key), x, y)
    ensures Before(keys, x, y) || (key !in keys && x in keys && y == key)
  {
    if key !in keys {
      var i, j :| 0 <= i < j < |With(keys, key)| && With(keys, key)[i] == x && With(keys, key)[j] == y;
      if j < |keys| { assert keys[i] == x && keys[j] == y; }
    }
  }

  // ---- the client map ----

  /** The event since which the key has been an entry without interruption. */
  function Since(events: seq<OpcEvent>, key: string): (n: nat)
    requires key in Run(events).sessions
    ensures n < |events|
  {
    var n := |events| - 1;
    if key in Run(events[..n]).sessions then Since(events[..n], key) else n
  }

  ghost predicate ListedBySince(events: seq<OpcEvent>) {
    && Listed(Run(events))
    && forall x, y :: Before(Run(events).order, x, y) && x in Run(events).sessions && y in Run(events).sessions ==>
         Since(events, x) < Since(events, y)
  }

  lemma BothAreIn(keys: seq<string>, x: string, y: string)
    requires Before(keys, x, y)
    ensures x in keys && y in keys
  {}

  lemma OrderStep(r: Registry, ev: OpcEvent, x: string, y: string)
    requires InStore(r) && Listed(r) && Before(Step(r, ev).order, x, y)
    ensures (x in r.sessions && y in r.sessions && Before(r.order, x, y)) || (x in r.sessions && y !in r.sessions)
  {
    hide Before, AmendmentOf, Without, With, AppName, Rejected;
    if ev.kind.CreateSessionRequest? && AppName(ev) in r.byApp {
      WithoutKeepsOrder(r.order, r.store[r.byApp[AppName(ev)]].Key(), x, y);
    } else if ev.kind.CreateSessionResponse? && !Rejected(ev.Get("serviceResult")) && ev.tag in r.pending {
      var i := r.pending[ev.tag];
      WithKeepsOrder(r.order, r.store[i].Established(ev.Get("sessionId"), ev.Get("authenticationToken")).Key(), x, y);
    }
    if Before(r.order, x, y) { BothAreIn(r.order, x, y); }
  }

  /** For every log: the entries of the client map are listed by how long they have been there. */
  lemma {:induction false} EntriesAreListedBySince(events: seq<OpcEvent>)
    ensures ListedBySince(events)
  {
    hide Before, Step;
    KeysAreListed(events);
    if events == [] {
      assert Run(events).sessions == map[];
    } else {
      var n := |events| - 1;
      EntriesAreListedBySince(events[..n]);
      forall x, y | Before(Run(events).order, x, y) && x in Run(events).sessions && y in Run(events).sessions
        ensures Since(events, x) < Since(events, y)
      {
        OrderStep(Run(events[..n]), events[n], x, y);
      }
    }
  }

  // ---- the active map ----

  /** The `n`-th event is the first of its tag. */
  ghost predicate FirstOf(events: seq<OpcEvent>, tag: string, n: int) {
    0 <= n < |events| && events[n].tag == tag && forall j :: 0 <= j < n ==> events[j].tag != tag
  }

  ghost predicate ListedByFirst(events: seq<OpcEvent>, order: seq<string>) {
    && (forall t :: t in order ==> exists n :: FirstOf(events, t, n))
    && (forall x, y, m, n :: Before(order, x, y) && FirstOf(events, x, m) && FirstOf(events, y, n) ==> m < n)
  }

  lemma FirstStays(events: seq<OpcEvent>, ev: OpcEvent, tag: string, n: int)
    ensures FirstOf(events, tag, n) ==> FirstOf(events + [ev], tag, n)
    ensures FirstOf(events + [ev], tag, n) ==> FirstOf(events, tag, n) || (n == |events| && ev.tag == tag)
  {
    var all := events + [ev];
    forall i | 0 <= i < |events| ensures all[i] == events[i] {}
  }

  lemma FirstIsUnique(events: seq<OpcEvent>, tag: string, m: int, n: int)
    requires FirstOf(events, tag, m) && FirstOf(events, tag, n)
    ensures m == n
  {}

  lemma FirstAmongFewer(events: seq<OpcEvent>, ev: OpcEvent, order: seq<string>, tag: string, n: int)
    requires tag in order && ListedByFirst(events, order) && FirstOf(events + [ev], tag, n)
    ensures FirstOf(events, tag, n)
  {
    var k :| FirstOf(events, tag, k);
    FirstStays(events, ev, tag, k);
    FirstIsUnique(events + [ev], tag, k, n);
  }

  lemma FirstStep(events: seq<OpcEvent>, ev: OpcEvent, order: seq<string>)
    requires ListedByFirst(events, order)
    ensures ListedByFirst(events + [ev], order)
  {
    hide Before;
    forall t | t in order ensures exists n :: FirstOf(events + [ev], t, n) {
      var n :| FirstOf(events, t, n);
      FirstStays(events, ev, t, n);
    }
    forall x, y, m, n | Before(order, x, y) && FirstOf(events + [ev], x, m) && FirstOf(events + [ev], y, n)
      ensures m < n
    {
      BothAreIn(order, x, y);
      FirstAmongFewer(events, ev, order, x, m);
      FirstAmongFewer(events, ev, order, y, n);
    }
  }

  lemma NewTagStep(events: seq<OpcEvent>, ev: OpcEvent, order: seq<string>)
    requires ListedByFirst(events, order) && ev.tag !in order
    requires forall j :: 0 <= j < |events| ==> events[j].tag != ev.tag
    ensures ListedByFirst(events + [ev], order + [ev.tag])
  {
    hide Before;
    var all, order' := events + [ev], order + [ev.tag];
    FirstStep(events, ev, order);
    forall i | 0 <= i < |events| ensures all[i] == events[i] {}
    assert FirstOf(all, ev.tag, |events|);
    forall x, y, m, n | Before(order', x, y) && FirstOf(all, x, m) && FirstOf(all, y, n) ensures m < n {
      WithKeepsOrder(order, ev.tag, x, y);
      if !Before(order, x, y) {
        FirstAmongFewer(events, ev, order, x, m);
        FirstIsUnique(all, ev.tag, |events|, n);
      }
    }
  }

  lemma {:induction false} AllTagsOf(events: seq<OpcEvent>, tag: string)
    requires ActiveMap.OnlyTag(events, tag) == []
    ensures forall j :: 0 <= j < |events| ==> events[j].tag != tag
  {
    if events == [] {
    } else {
      AllTagsOf(events[..|events| - 1], tag);
      forall j | 0 <= j < |events| - 1 ensures events[j] == events[..|events| - 1][j] {}
    }
  }

  lemma NothingListed()
    ensures ListedByFirst([], ActiveMap.Run([]).order)
  {}

  /** For every log: the active map lists its tags in the order in which they first appear. */
  lemma {:induction false} TagsAreListedByFirst(events: seq<OpcEvent>)
    ensures ListedByFirst(events, ActiveMap.Run(events).order)
  {
    hide Before, ListedByFirst, ActiveMap.Observe;
    if events == [] {
      NothingListed();
    } else {
      var n := |events| - 1;
      var a, ev := ActiveMap.Run(events[..n]), events[n];
      TagsAreListedByFirst(events[..n]);
      assert events[..n] + [ev] == events;
      ActiveMap.KeysInOrder(events[..n]);
      if ActiveMap.Skipped(ev.tag) || ev.tag in a.order {
        FirstStep(events[..n], ev, a.order);
      } else {
        ActiveMap.TagsAreIndependent(events[..n], ev.tag);
        AllTagsOf(events[..n], ev.tag);
        NewTagStep(events[..n], ev, a.order);
      }
    }
  }
}
