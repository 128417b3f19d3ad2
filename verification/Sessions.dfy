/** The value of one client session and its connection spans. */
module Sessions {
  import opened Wrappers
  import opened OpcEvents

  datatype ConnectionSpan = ConnectionSpan(
    connectedAt: Stamp, authToken: string, disconnectedAt: Stamp, disconnectReason: string)

  datatype Session = Session(
    applicationName: string, applicationUri: string, endpointUrl: string, username: string,
    sessionId: string, authToken: string,
    connectedAt: Stamp, activatedAt: Stamp, lastSeen: Stamp, disconnectedAt: Stamp,
    disconnectReason: string, active: bool, past: seq<ConnectionSpan>)
  {
    /** `auth_token or session_id`: where a handshaken session is filed. */
    function Key(): string { if authToken != "" then authToken else sessionId }

    function Current(): ConnectionSpan {
      ConnectionSpan(connectedAt, authToken, disconnectedAt, disconnectReason)
    }

    function Spans(): (s: seq<ConnectionSpan>)
      ensures s != [] && s[|s| - 1] == Current()
    {
      past + [Current()]
    }

    function Reconnected(at: Stamp): Session {
      this.(past := Spans(), connectedAt := at, authToken := "", disconnectedAt := Blank,
            disconnectReason := "", active := false)
    }

    function Established(id: string, token: string): Session {
      this.(sessionId := id, authToken := token, active := true)
    }

    function Closed(at: Stamp, reason: string): Session {
      this.(active := false, disconnectedAt := at, disconnectReason := reason)
    }

    function Refused(reason: string): Session {
      this.(active := false, disconnectReason := reason)
    }

    function Activated(at: Stamp, user: string): Session {
      this.(username := if user != "" then user else username, activatedAt := at)
    }
  }

  function NewSession(name: string, uri: string, url: string, at: Stamp, active: bool): Session {
    Session(name, uri, url, "", "", "", at, Blank, Blank, Blank, "", active, [])
  }

  function ConnectTimes(spans: seq<ConnectionSpan>): seq<Stamp> {
    seq(|spans|, i requires 0 <= i < |spans| => spans[i].connectedAt)
  }

  // ---- downtime ----

  /** Time between two stamps; None when either cannot be read. */
  function Delta(t0: Stamp, t1: Stamp): Option<int> {
    if t0.At? && t1.At? then Some(t1.time - t0.time) else None
  }

  /** How long a client was away between the end of a span and the next connect, when both can be read. */
  function GapBetween(span: ConnectionSpan, next: Stamp): nat {
    match Delta(span.disconnectedAt, next)
    case Some(gap) => if gap > 0 then gap else 0
    case None => 0
  }

  function GapAfter(spans: seq<ConnectionSpan>, i: nat): nat
    requires i + 1 < |spans|
  {
    GapBetween(spans[i], spans[i + 1].connectedAt)
  }

  /** The sum of the first `n` gaps between consecutive spans. */
  function Downtime(spans: seq<ConnectionSpan>, n: nat): nat
    requires spans != [] && n < |spans|
  {
    if n == 0 then 0 else Downtime(spans, n - 1) + GapAfter(spans, n - 1)
  }

  /** Every span starts after the one before has ended, and none ends before it starts. */
  ghost predicate Interleaved(spans: seq<ConnectionSpan>, now: int) {
    && (forall i :: 0 <= i < |spans| ==> spans[i].connectedAt.At? && spans[i].connectedAt.time <= now)
    && (forall i :: 0 <= i < |spans| && spans[i].disconnectedAt != Blank ==>
          spans[i].disconnectedAt.At? && spans[i].connectedAt.time <= spans[i].disconnectedAt.time <= now)
    && (forall i, j :: 0 <= i < j < |spans| ==> spans[i].connectedAt.time <= spans[j].connectedAt.time)
    && (forall i, j :: 0 <= i < j < |spans| && spans[i].disconnectedAt.At? ==>
          spans[i].disconnectedAt.time <= spans[j].connectedAt.time)
  }

  ghost predicate Dated(spans: seq<ConnectionSpan>) {
    forall i :: 0 <= i < |spans| ==> spans[i].connectedAt.At?
  }

  /** How long span `i` was up before the next one began; without a dated end it counts as up until then. */
  function UpBefore(spans: seq<ConnectionSpan>, i: nat): int
    requires i + 1 < |spans| && spans[i].connectedAt.At? && spans[i + 1].connectedAt.At?
  {
    var next := spans[i + 1].connectedAt.time;
    var end := spans[i].disconnectedAt;
    (if end.At? && end.time < next then end.time else next) - spans[i].connectedAt.time
  }

  function Uptime(spans: seq<ConnectionSpan>, n: nat): int
    requires n < |spans| && Dated(spans)
  {
    if n == 0 then 0 else Uptime(spans, n - 1) + UpBefore(spans, n - 1)
  }

  /** Up and down time fill the time from the first connect exactly, whatever the stamps are. */
  lemma {:induction false} UpAndDownFillTheTime(spans: seq<ConnectionSpan>, n: nat)
    requires Dated(spans) && n < |spans|
    ensures Uptime(spans, n) + Downtime(spans, n) == spans[n].connectedAt.time - spans[0].connectedAt.time
  {
    if n == 0 {
    } else {
      UpAndDownFillTheTime(spans, n - 1);
    }
  }
}
