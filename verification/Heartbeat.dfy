/**
  The heartbeat: a triangle wave of numbers, an echo of each, and a map of send times
  from which round trips are measured.
 */
module Heartbeat {
  import opened Wrappers
  import IntRanges

  const MAX_BUFFERED_RTTS := 999

  datatype Rtt = Rtt(timestamp: int, value: int, rtt: int)

  datatype Sender = Sender(
    value: int, increasing: bool, lastReceived: Option<int>, lastReceivedAt: Option<int>,
    sentAt: map<int, int>, rtts: seq<Rtt>)

  const RESTED := Sender(0, true, None, None, map[], [])

  /** The direction of the next beat: it turns at the top and at zero. */
  function Direction(s: Sender, max: int): bool {
    if s.value == max && s.increasing then false
    else if s.value == 0 && !s.increasing then true
    else s.increasing
  }

  function Tick(s: Sender, max: int): Sender {
    var up := Direction(s, max);
    s.(increasing := up, value := s.value + if up then 1 else -1)
  }

  function Beat(s: Sender, max: int, time: int): Sender {
    var s' := Tick(s, max);
    s'.(sentAt := s'.sentAt[s'.value := time])
  }

  function Buffer(rtts: seq<Rtt>, r: Rtt): seq<Rtt> {
    if |rtts| >= MAX_BUFFERED_RTTS then rtts[1..] + [r] else rtts + [r]
  }

  predicate Jumps(s: Sender, val: int) {
    s.lastReceived.Some? && val - s.lastReceived.value != 1 && val - s.lastReceived.value != -1
  }

  function Measured(s: Sender, val: int, time: int, now: int): Option<Rtt> {
    if val in s.sentAt then Some(Rtt(now, val, time - s.sentAt[val])) else None
  }

  function Hear(s: Sender, val: int, time: int, now: int): Sender {
    var r := Measured(s, val, time, now);
    s.(lastReceived := Some(val), lastReceivedAt := Some(now), sentAt := s.sentAt - {val},
       rtts := if r.Some? then Buffer(s.rtts, r.value) else s.rtts)
  }

  /** Time since the value received before, if there was one. */
  function Gap(s: Sender, now: int): Option<int> {
    if s.lastReceivedAt.Some? then Some(now - s.lastReceivedAt.value) else None
  }

  predicate Slow(r: Option<Rtt>, maxRtt: int) { r.Some? && r.value.rtt > maxRtt }

  predicate Stale(s: Sender, now: int, staleAfter: int) {
    s.lastReceivedAt.Some? && now - s.lastReceivedAt.value > staleAfter
  }

  /** What one notification writes to the log. */
  datatype Report = Report(jump: bool, gap: Option<int>, slow: bool, notOurs: bool)

  class SystemHeartbeatHandler {
    const maxHeartbeat: int
    const maxRtt: int
    const staleAfter: int
    var heartbeat: int
    var increasing: bool
    var lastReceivedValue: Option<int>
    var lastReceivedAt: Option<int>
    var sentAtMap: map<int, int>
    var rtts: seq<Rtt>

    ghost function Value(): Sender
      reads this
    {
      Sender(heartbeat, increasing, lastReceivedValue, lastReceivedAt, sentAtMap, rtts)
    }

    constructor (max: int, slowest: int, silence: int)
      ensures Value() == RESTED && maxHeartbeat == max && maxRtt == slowest && staleAfter == silence
    {
      maxHeartbeat, maxRtt, staleAfter := max, slowest, silence;
      heartbeat, increasing, lastReceivedValue, lastReceivedAt, sentAtMap, rtts := 0, true, None, None, map[], [];
    }

    method UpdateHeartbeat()
      modifies this
      ensures Value() == Tick(old(Value()), maxHeartbeat)
    {
      if heartbeat == maxHeartbeat && increasing {
        increasing := false;
      } else if heartbeat == 0 && !increasing {
        increasing := true;
      }
      heartbeat := heartbeat + if increasing then 1 else -1;
    }

    method SendHeartbeat(time: int) returns (sent: int)
      modifies this
      ensures Value() == Beat(old(Value()), maxHeartbeat, time) && sent == heartbeat
    {
      UpdateHeartbeat();
      sentAtMap := sentAtMap[heartbeat := time];
      sent := heartbeat;
    }

    method DataChange(val: int, time: int, now: int) returns (report: Report, published: Option<Rtt>)
      modifies this
      ensures Value() == Hear(old(Value()), val, time, now)
      ensures published == Measured(old(Value()), val, time, now)
      ensures report ==
              Report(Jumps(old(Value()), val), Gap(old(Value()), now), Slow(published, maxRtt), published.None?)
    {
      var gap := if lastReceivedAt.Some? then Some(now - lastReceivedAt.value) else None;
      lastReceivedAt := Some(now);
      var jump, slow := false, false;
      published := None;
      if lastReceivedValue.Some? {
        var delta := val - lastReceivedValue.value;
        jump := delta != 1 && delta != -1;
      }
      lastReceivedValue := Some(val);
      if val in sentAtMap {
        var rtt := time - sentAtMap[val];
        sentAtMap := sentAtMap - {val};
        published := Some(Rtt(now, val, rtt));
        if |rtts| >= MAX_BUFFERED_RTTS { rtts := rtts[1..]; }
        rtts := rtts + [published.value];
        slow := rtt > maxRtt;
      } else {
        assert sentAtMap - {val} == sentAtMap;
      }
      report := Report(jump, gap, slow, published.None?);
    }

    method IsStale(now: int) returns (stale: bool)
      ensures stale == Stale(Value(), now, staleAfter)
    {
      if lastReceivedAt.None? { return false; }
      var elapsed := now - lastReceivedAt.value;
      return elapsed > staleAfter;
    }

    /** Empties the buffer, oldest first. */
    method DrainRtts() returns (drained: seq<Rtt>)
      modifies this
      ensures drained == old(rtts) && Value() == old(Value()).(rtts := [])
    {
      drained := [];
      while rtts != []
        invariant drained + rtts == old(rtts) && Value() == old(Value()).(rtts := rtts)
        decreases |rtts|
      {
        drained := drained + [rtts[0]];
        rtts := rtts[1..];
      }
    }
  }

  // ---- the wave ----

  function Wave(n: nat, max: int): int
    requires max >= 1
  {
    var m := n % (2 * max);
    if m <= max then m else 2 * max - m
  }

  function Ticks(n: nat, max: int): Sender {
    if n == 0 then RESTED else Tick(Ticks(n - 1, max), max)
  }

  lemma DivMod(n: int, k: int, q: int, r: int)
    requires k >= 1 && 0 <= r < k && n == k * q + r
    ensures n % k == r
  {
    var d := n / k - q;
    assert k * d == r - n % k;
    assert d >= 1 ==> k * d >= k;
    assert d <= -1 ==> k * d <= -k;
  }

  lemma ModStep(n: nat, k: int)
    requires k >= 1
    ensures (n + 1) % k == if n % k == k - 1 then 0 else n % k + 1
  {
    var q, r := n / k, n % k;
    assert n == k * q + r;
    if r == k - 1 {
      assert n + 1 == k * (q + 1);
      DivMod(n + 1, k, q + 1, 0);
    } else {
      DivMod(n + 1, k, q, r + 1);
    }
  }

  /** After n beats the value is the triangle wave. */
  lemma {:induction false} ValueIsTheWave(n: nat, max: int)
    requires max >= 1
    ensures Ticks(n, max).value == Wave(n, max)
    ensures Ticks(n, max).increasing <==> n == 0 || 1 <= n % (2 * max) <= max
  {
    if n > 0 {
      ValueIsTheWave(n - 1, max);
      ModStep(n - 1, 2 * max);
    } else {
      DivMod(0, 2 * max, 0, 0);
    }
  }

  lemma WaveStaysInRange(n: nat, max: int)
    requires max >= 1
    ensures 0 <= Wave(n, max) <= max
  {}

  /** The value stays between 0 and the maximum for ever exactly when the maximum is at least 1. */
  lemma InRangeIffPositiveMaximum(max: int)
    ensures (forall n: nat :: 0 <= Ticks(n, max).value <= max) <==> max >= 1
  {
    if max >= 1 {
      forall n: nat ensures 0 <= Ticks(n, max).value <= max {
        ValueIsTheWave(n, max);
        WaveStaysInRange(n, max);
      }
    } else {
      assert Ticks(0, max).value == 0;
      assert Ticks(1, max) == Tick(RESTED, max);
    }
  }

  lemma NeighboursDifferByOne(s: Sender, max: int)
    ensures Tick(s, max).value - s.value == 1 || Tick(s, max).value - s.value == -1
  {}

  // ---- any channel: values may be lost, repeated, reordered or made up ----

  datatype Step = Send(time: int) | Receive(val: int, time: int, now: int) | Drain

  datatype Log = Log(sender: Sender, beats: nat, recorded: seq<Rtt>)

  function Next(l: Log, step: Step, max: int): Log {
    match step
    case Send(time) => l.(sender := Beat(l.sender, max, time), beats := l.beats + 1)
    case Receive(val, time, now) =>
      var r := Measured(l.sender, val, time, now);
      l.(sender := Hear(l.sender, val, time, now), recorded := if r.Some? then l.recorded + [r.value] else l.recorded)
    case Drain => l.(sender := l.sender.(rtts := []))
  }

  function Run(steps: seq<Step>, max: int): Log {
    if steps == [] then Log(RESTED, 0, []) else Next(Run(steps[..|steps| - 1], max), steps[|steps| - 1], max)
  }

  ghost predicate InWave(l: Log, max: int) {
    && l.sender.value == Ticks(l.beats, max).value
    && l.sender.increasing == Ticks(l.beats, max).increasing
    && (forall v :: v in l.sender.sentAt ==> 0 <= v <= max)
  }

  lemma StepFollowsTheWave(l: Log, step: Step, max: int)
    requires max >= 1 && InWave(l, max)
    ensures InWave(Next(l, step, max), max)
  {
    hide Wave;
    ValueIsTheWave(l.beats + 1, max);
    WaveStaysInRange(l.beats + 1, max);
  }

  lemma {:induction false} SenderFollowsTheWave(steps: seq<Step>, max: int)
    requires max >= 1
    ensures InWave(Run(steps, max), max)
  {
    hide Next;
    if steps == [] {
      assert Run(steps, max) == Log(RESTED, 0, []);
    } else {
      SenderFollowsTheWave(steps[..|steps| - 1], max);
      StepFollowsTheWave(Run(steps[..|steps| - 1], max), steps[|steps| - 1], max);
    }
  }

  /** However many echoes are lost, the send-time map never exceeds maximum + 1 entries. */
  lemma SendTimesAreBounded(steps: seq<Step>, max: int)
    requires max >= 1
    ensures |Run(steps, max).sender.sentAt| <= max + 1
  {
    SenderFollowsTheWave(steps, max);
    var keys := Run(steps, max).sender.sentAt.Keys;
    IntRanges.RangeSize(0, max + 1);
    assert forall v :: v in keys ==> IntRanges.Within(v, 0, max + 1);
    IntRanges.SubsetSize(keys, IntRanges.Range(0, max + 1));
  }

  lemma RemoveOne(m: map<int, int>, k: int)
    requires k in m
    ensures |m - {k}| == |m| - 1
  {
    assert (m - {k}).Keys == m.Keys - {k};
  }

  /** A beat opens one more entry, unless its value has one. */
  lemma EntriesAfterBeat(s: Sender, max: int, time: int)
    ensures |Beat(s, max, time).sentAt| == |s.sentAt| + if Tick(s, max).value in s.sentAt then 0 else 1
  {
    var k := Tick(s, max).value;
    assert Beat(s, max, time).sentAt.Keys == s.sentAt.Keys + {k};
    if k in s.sentAt { assert s.sentAt.Keys + {k} == s.sentAt.Keys; }
  }

  /** A value received closes its entry, if it has one, and records one round trip for it. */
  lemma EntriesAfterHearing(s: Sender, val: int, time: int, now: int)
    ensures |Hear(s, val, time, now).sentAt| + (if Measured(s, val, time, now).Some? then 1 else 0) == |s.sentAt|
  {
    if val in s.sentAt {
      RemoveOne(s.sentAt, val);
    } else {
      assert s.sentAt - {val} == s.sentAt;
    }
  }

  /** No beat has the value of one whose send time is still open. */
  ghost predicate NewSends(steps: seq<Step>, max: int) {
    forall n :: 0 <= n < |steps| && steps[n].Send? ==>
      Tick(Run(steps[..n], max).sender, max).value !in Run(steps[..n], max).sender.sentAt
  }

  lemma OneMoreSend(steps: seq<Step>, max: int)
    requires steps != []
    ensures var n := |steps| - 1;
            var s := Run(steps[..n], max).sender;
            NewSends(steps, max) <==>
            NewSends(steps[..n], max) && (steps[n].Send? ==> Tick(s, max).value !in s.sentAt)
  {
    hide Run;
    var n := |steps| - 1;
    forall i | 0 <= i < n ensures steps[..n][..i] == steps[..i] {}
  }

  lemma NothingMet(max: int)
    ensures NewSends([], max)
  {}

  /** Every beat is recorded or open exactly as long as no beat meets an open entry; then one is lost. */
  lemma {:induction false} EveryBeatCountsIff(steps: seq<Step>, max: int)
    ensures var l := Run(steps, max);
            if NewSends(steps, max) then |l.recorded| + |l.sender.sentAt| == l.beats
            else |l.recorded| + |l.sender.sentAt| < l.beats
  {
    hide NewSends, Tick;
    if steps == [] {
      assert NewSends(steps, max) by { NothingMet(max); }
    } else {
      var n := |steps| - 1;
      EveryBeatCountsIff(steps[..n], max);
      OneMoreSend(steps, max);
      var s := Run(steps[..n], max).sender;
      match steps[n]
      case Send(time) => EntriesAfterBeat(s, max, time);
      case Receive(val, time, now) => EntriesAfterHearing(s, val, time, now);
      case Drain =>
    }
  }

  /** Over any channel, recorded round trips plus open send times never exceed the beats sent. */
  lemma AtMostOneRttPerBeat(steps: seq<Step>, max: int)
    ensures var l := Run(steps, max);
            |l.recorded| + |l.sender.sentAt| <= l.beats
  {
    EveryBeatCountsIff(steps, max);
  }

  /** How many round trips had been recorded when the buffer was last drained. */
  function Drained(steps: seq<Step>, max: int): nat {
    if steps == [] then 0
    else if steps[|steps| - 1].Drain? then |Run(steps[..|steps| - 1], max).recorded|
    else Drained(steps[..|steps| - 1], max)
  }

  /** The newest round trips recorded since the first `drained` ones, as many as fit. */
  ghost predicate HoldsNewest(l: Log, drained: nat) {
    && drained <= |l.recorded|
    && |l.sender.rtts| == (if |l.recorded| - drained < 999 then |l.recorded| - drained else 999)
    && l.sender.rtts == l.recorded[|l.recorded| - |l.sender.rtts|..]
  }

  lemma NothingBuffered()
    ensures HoldsNewest(Log(RESTED, 0, []), 0)
  {}

  lemma StepHoldsNewest(l: Log, step: Step, max: int, drained: nat)
    requires HoldsNewest(l, drained)
    ensures HoldsNewest(Next(l, step, max), if step.Drain? then |l.recorded| else drained)
  {
    hide Direction;
  }

  /**
    The buffer holds exactly the round trips recorded since it was last drained, oldest
    first, or the newest 999 of them when there are more.
   */
  lemma {:induction false} BufferHoldsTheNewest(steps: seq<Step>, max: int)
    ensures HoldsNewest(Run(steps, max), Drained(steps, max))
  {
    hide Next, HoldsNewest;
    if steps == [] {
      assert HoldsNewest(Log(RESTED, 0, []), 0) by { NothingBuffered(); }
    } else {
      var before := steps[..|steps| - 1];
      BufferHoldsTheNewest(before, max);
      StepHoldsNewest(Run(before, max), steps[|steps| - 1], max, Drained(before, max));
    }
  }

  /** The `i`-th step brings the last value received. */
  predicate HeardAt(steps: seq<Step>, i: int) {
    0 <= i < |steps| && steps[i].Receive? && forall j :: i < j < |steps| ==> !steps[j].Receive?
  }

  predicate LastHeard(steps: seq<Step>, i: int, at: int) { HeardAt(steps, i) && steps[i].now == at }

  lemma {:induction false} LastReceivedIsTheLast(steps: seq<Step>, max: int)
    ensures match Run(steps, max).sender.lastReceivedAt
            case None => forall i :: 0 <= i < |steps| ==> !steps[i].Receive?
            case Some(at) => exists i :: LastHeard(steps, i, at)
  {
    if steps == [] {
      assert Run(steps, max) == Log(RESTED, 0, []);
    } else {
      var n := |steps| - 1;
      var before := Run(steps[..n], max).sender.lastReceivedAt;
      LastReceivedIsTheLast(steps[..n], max);
      if steps[n].Receive? {
        assert Run(steps, max).sender.lastReceivedAt == Some(steps[n].now);
        assert LastHeard(steps, n, steps[n].now);
      } else {
        assert Run(steps, max).sender.lastReceivedAt == before;
        if before.Some? {
          var i :| LastHeard(steps[..n], i, before.value);
          assert LastHeard(steps, i, before.value);
        }
      }
    }
  }

  /**
    Over any channel the echo is stale exactly when the last value received is too long ago;
    silence from the start is not.
   */
  lemma StaleIffLastEchoIsOld(steps: seq<Step>, max: int, now: int, staleAfter: int)
    ensures Stale(Run(steps, max).sender, now, staleAfter) <==>
            exists i, at :: LastHeard(steps, i, at) && now - at > staleAfter
  {
    hide Run;
    LastReceivedIsTheLast(steps, max);
    var last := Run(steps, max).sender.lastReceivedAt;
    if last.Some? {
      var i :| LastHeard(steps, i, last.value);
      forall j, at | LastHeard(steps, j, at) ensures at == last.value {}
    }
  }
  // ---- what a notification reports, on the steps alone ----

  /** The value the `i`-th step sent. */
  function SentValue(steps: seq<Step>, max: int, i: int): int
    requires 0 <= i < |steps|
  {
    Run(steps[..i + 1], max).sender.value
  }

  /** The `i`-th step sent the value, which since then was neither sent again nor received. */
  ghost predicate OpenSend(steps: seq<Step>, max: int, val: int, i: int) {
    && 0 <= i < |steps| && steps[i].Send? && SentValue(steps, max, i) == val
    && (forall j :: i < j < |steps| ==>
          !(steps[j].Send? && SentValue(steps, max, j) == val) && !(steps[j].Receive? && steps[j].val == val))
  }

  /** The value received last, and when. */
  ghost predicate LastReceived(steps: seq<Step>, s: Sender) {
    && (s.lastReceived.None? <==> s.lastReceivedAt.None?)
    && (s.lastReceived.None? <==> forall i :: 0 <= i < |steps| ==> !steps[i].Receive?)
    && (forall i :: HeardAt(steps, i) ==>
          s.lastReceived == Some(steps[i].val) && s.lastReceivedAt == Some(steps[i].now))
  }

  lemma BeatKeepsLast(s: Sender, max: int)
    ensures Tick(s, max).lastReceived == s.lastReceived && Tick(s, max).lastReceivedAt == s.lastReceivedAt
    ensures Tick(s, max).sentAt == s.sentAt
  {}

  lemma {:induction false} LastReceivedIs(steps: seq<Step>, max: int)
    ensures LastReceived(steps, Run(steps, max).sender)
  {
    hide Tick;
    if steps == [] {
      assert Run(steps, max) == Log(RESTED, 0, []);
    } else {
      var n := |steps| - 1;
      var before := steps[..n];
      LastReceivedIs(before, max);
      BeatKeepsLast(Run(before, max).sender, max);
      forall i | 0 <= i < n ensures before[i] == steps[i] {}
    }
  }

  /** A send time is open for a value exactly if some beat of it is, and it is that beat's. */
  ghost predicate EntryIsOpenSend(steps: seq<Step>, max: int, val: int) {
    var sentAt := Run(steps, max).sender.sentAt;
    && (val in sentAt <==> exists i :: OpenSend(steps, max, val, i))
    && (forall i :: OpenSend(steps, max, val, i) && val in sentAt ==> sentAt[val] == steps[i].time)
  }

  lemma OpenSendStep(steps: seq<Step>, max: int, val: int, i: int)
    requires steps != []
    ensures var n := |steps| - 1;
            if steps[n].Send? && SentValue(steps, max, n) == val then OpenSend(steps, max, val, i) <==> i == n
            else if steps[n].Receive? && steps[n].val == val then !OpenSend(steps, max, val, i)
            else OpenSend(steps, max, val, i) <==> OpenSend(steps[..n], max, val, i)
  {
    hide Run;
    var n := |steps| - 1;
    forall j | 0 <= j < n ensures SentValue(steps[..n], max, j) == SentValue(steps, max, j) {
      assert steps[..n][..j + 1] == steps[..j + 1];
    }
    assert steps[..n + 1] == steps;
  }

  lemma EntryStep(steps: seq<Step>, max: int, val: int)
    requires steps != []
    ensures var n := |steps| - 1;
            var before, after := Run(steps[..n], max).sender.sentAt, Run(steps, max).sender.sentAt;
            if steps[n].Send? && SentValue(steps, max, n) == val then val in after && after[val] == steps[n].time
            else if steps[n].Receive? && steps[n].val == val then val !in after
            else (val in after <==> val in before) && (val in before ==> after[val] == before[val])
  {
    hide Tick;
    var n := |steps| - 1;
    assert steps[..n + 1] == steps;
    BeatKeepsLast(Run(steps[..n], max).sender, max);
  }

  lemma NothingOpen(max: int, val: int)
    ensures EntryIsOpenSend([], max, val)
  {}

  lemma OpenSendIsBefore(steps: seq<Step>, max: int, val: int, i: int)
    requires OpenSend(steps, max, val, i)
    ensures 0 <= i < |steps|
  {}

  lemma {:induction false} EntriesAreOpenSends(steps: seq<Step>, max: int, val: int)
    ensures EntryIsOpenSend(steps, max, val)
  {
    hide OpenSend, Run, SentValue;
    if steps == [] {
      NothingOpen(max, val);
    } else {
      var n := |steps| - 1;
      var before := steps[..n];
      EntriesAreOpenSends(before, max, val);
      EntryStep(steps, max, val);
      forall i
        ensures if steps[n].Send? && SentValue(steps, max, n) == val then OpenSend(steps, max, val, i) <==> i == n
                else if steps[n].Receive? && steps[n].val == val then !OpenSend(steps, max, val, i)
                else OpenSend(steps, max, val, i) <==> OpenSend(before, max, val, i)
      {
        OpenSendStep(steps, max, val, i);
      }
      if steps[n].Send? && SentValue(steps, max, n) == val {
        assert OpenSend(steps, max, val, n);
      } else if !(steps[n].Receive? && steps[n].val == val) {
        forall i | OpenSend(before, max, val, i) ensures OpenSend(steps, max, val, i) && 0 <= i < n {
          OpenSendIsBefore(before, max, val, i);
        }
      }
    }
  }

  /** The value received before, at the step with this number, was neither one more nor one less. */
  ghost predicate JumpsFrom(steps: seq<Step>, i: int, val: int) {
    HeardAt(steps, i) && val != steps[i].val + 1 && val != steps[i].val - 1
  }

  /**
    Over any channel, after any steps, a notification of a value reports a jump exactly if a
    value was received before and the last one is not a neighbour of it; the gap is the time
    since that one, if there was one; the echo is slow exactly if the value's last beat is
    unanswered and was sent longer ago than allowed; and a value without such a beat is
    reported as not sent.
   */
  lemma ReportsAreExact(steps: seq<Step>, max: int, val: int, time: int, now: int, maxRtt: int)
    ensures var s := Run(steps, max).sender;
            && (Jumps(s, val) <==> exists i :: JumpsFrom(steps, i, val))
            && (Gap(s, now).None? <==> forall i :: 0 <= i < |steps| ==> !steps[i].Receive?)
            && (forall i :: HeardAt(steps, i) ==> Gap(s, now) == Some(now - steps[i].now))
            && (Measured(s, val, time, now).None? <==> forall i :: !OpenSend(steps, max, val, i))
            && (forall i :: OpenSend(steps, max, val, i) ==>
                  && Measured(s, val, time, now) == Some(Rtt(now, val, time - steps[i].time))
                  && (Slow(Measured(s, val, time, now), maxRtt) <==> time - steps[i].time > maxRtt))
            && (Measured(s, val, time, now).None? ==> !Slow(Measured(s, val, time, now), maxRtt))
  {
    hide Run, OpenSend;
    LastReceivedIs(steps, max);
    EntriesAreOpenSends(steps, max, val);
    var s := Run(steps, max).sender;
    if s.lastReceived.Some? {
      LastReceivedIsTheLast(steps, max);
      var i :| LastHeard(steps, i, s.lastReceivedAt.value);
      assert HeardAt(steps, i) && s.lastReceived == Some(steps[i].val);
      if Jumps(s, val) { assert JumpsFrom(steps, i, val); }
    }
    forall i | OpenSend(steps, max, val, i) ensures 0 <= i < |steps| { OpenSendIsBefore(steps, max, val, i); }
  }
}
