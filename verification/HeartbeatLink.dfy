/** The sender and the echoing side joined by two first-in first-out channels that lose nothing. */
module HeartbeatLink {
  import opened Wrappers
  import opened Heartbeat

  datatype Sent = Sent(value: int, time: int)

  datatype Step = Beats(time: int) | Echoes | Returns(time: int, now: int)

  datatype Link = Link(
    sender: Sender,
    there: seq<int>,            // written, not yet seen by the echoing side
    back: seq<int>,             // echoed, not yet seen by the sender
    beats: seq<Sent>,
    received: seq<int>,
    recorded: seq<Rtt>,
    jumps: nat)

  const SILENT := Link(RESTED, [], [], [], [], [], 0)

  function Next(l: Link, step: Step, max: int): Link {
    match step
    case Beats(time) =>
      var s := Beat(l.sender, max, time);
      l.(sender := s, there := l.there + [s.value], beats := l.beats + [Sent(s.value, time)])
    case Echoes =>
      if l.there == [] then l else l.(there := l.there[1..], back := l.back + [l.there[0]])
    case Returns(time, now) =>
      if l.back == [] then l else
        var v := l.back[0];
        var r := Measured(l.sender, v, time, now);
        l.(sender := Heartbeat.Hear(l.sender, v, time, now), back := l.back[1..], received := l.received + [v],
           recorded := if r.Some? then l.recorded + [r.value] else l.recorded,
           jumps := if Jumps(l.sender, v) then l.jumps + 1 else l.jumps)
  }

  function Run(steps: seq<Step>, max: int): Link {
    if steps == [] then SILENT else Next(Run(steps[..|steps| - 1], max), steps[|steps| - 1], max)
  }

  function Values(beats: seq<Sent>): (vs: seq<int>)
    ensures |vs| == |beats| && forall i :: 0 <= i < |vs| ==> vs[i] == beats[i].value
  {
    seq(|beats|, i requires 0 <= i < |beats| => beats[i].value)
  }

  /** What was sent is, in order, what came back, what is coming back and what is on its way. */
  ghost predicate InOrder(l: Link) {
    && l.received + l.back + l.there == Values(l.beats)
    && (l.beats != [] ==> l.sender.value == l.beats[|l.beats| - 1].value)
    && (forall i :: 0 < i < |l.beats| ==>
          l.beats[i].value - l.beats[i - 1].value == 1 || l.beats[i].value - l.beats[i - 1].value == -1)
    && l.jumps == 0
    && l.sender.lastReceived == if l.received == [] then None else Some(l.received[|l.received| - 1])
  }

  lemma ValuesOfOneMore(beats: seq<Sent>, b: Sent)
    ensures Values(beats + [b]) == Values(beats) + [b.value]
  {}

  lemma BeatKeepsOrder(l: Link, time: int, max: int)
    requires InOrder(l)
    ensures InOrder(Next(l, Beats(time), max))
  {
    hide Values;
    var l' := Next(l, Beats(time), max);
    NeighboursDifferByOne(l.sender, max);
    ValuesOfOneMore(l.beats, Sent(l'.sender.value, time));
    assert l'.received + l'.back + l'.there == l.received + l.back + l.there + [l'.sender.value];
  }

  lemma EchoKeepsOrder(l: Link, max: int)
    requires InOrder(l) && l.there != []
    ensures InOrder(Next(l, Echoes, max))
  {
    hide Values;
    var l' := Next(l, Echoes, max);
    assert l.there == [l.there[0]] + l.there[1..];
    assert l'.received + l'.back + l'.there == l.received + l.back + l.there;
  }

  /** What comes back next answers the oldest unanswered beat. */
  lemma NextAnswer(l: Link)
    requires InOrder(l) && l.back != []
    ensures |l.received| < |l.beats| && l.beats[|l.received|].value == l.back[0]
    ensures l.received != [] ==> l.beats[|l.received| - 1].value == l.received[|l.received| - 1]
  {
    var all, n := l.received + l.back + l.there, |l.received|;
    assert |all| == |l.beats|;
    assert all[n] == l.back[0] && all[n] == Values(l.beats)[n];
    assert n > 0 ==> all[n - 1] == l.received[n - 1] && all[n - 1] == Values(l.beats)[n - 1];
  }

  lemma ReturnKeepsOrder(l: Link, time: int, now: int, max: int)
    requires InOrder(l) && l.back != []
    ensures InOrder(Next(l, Returns(time, now), max))
  {
    hide Values;
    var l' := Next(l, Returns(time, now), max);
    NextAnswer(l);
    assert l.back == [l.back[0]] + l.back[1..];
    assert l'.received + l'.back + l'.there == l.received + l.back + l.there;
  }

  lemma StepKeepsOrder(l: Link, step: Step, max: int)
    requires InOrder(l)
    ensures InOrder(Next(l, step, max))
  {
    hide InOrder;
    match step
    case Beats(time) => BeatKeepsOrder(l, time, max);
    case Echoes => if l.there != [] { EchoKeepsOrder(l, max); }
    case Returns(time, now) => if l.back != [] { ReturnKeepsOrder(l, time, now, max); }
  }

  lemma NothingSent()
    ensures InOrder(SILENT)
  {}

  /** Echoed values are always a prefix of sent values, so no unexpected jump is ever reported. */
  lemma {:induction false} EchoesAreAPrefix(steps: seq<Step>, max: int)
    ensures InOrder(Run(steps, max))
    ensures Run(steps, max).received <= Values(Run(steps, max).beats) && Run(steps, max).jumps == 0
  {
    hide Next, Values;
    if steps == [] {
      NothingSent();
    } else {
      EchoesAreAPrefix(steps[..|steps| - 1], max);
      StepKeepsOrder(Run(steps[..|steps| - 1], max), steps[|steps| - 1], max);
    }
    var l := Run(steps, max);
    assert l.received + (l.back + l.there) == Values(l.beats);
  }

  // ---- which send a round trip is timed from ----

  /** Every unanswered beat has its own entry with its own time, and there is no other entry. */
  ghost predicate OwnTimes(l: Link) {
    && |l.received| <= |l.beats|
    && (forall i :: |l.received| <= i < |l.beats| ==>
          l.beats[i].value in l.sender.sentAt && l.sender.sentAt[l.beats[i].value] == l.beats[i].time)
    && (forall i, j :: |l.received| <= i < j < |l.beats| ==> l.beats[i].value != l.beats[j].value)
    && (forall v :: v in l.sender.sentAt ==> exists i :: |l.received| <= i < |l.beats| && l.beats[i].value == v)
  }

  /** A beat keeps every entry its own exactly when its value has no open entry. */
  lemma BeatKeepsOwnTimesIff(l: Link, time: int, max: int)
    requires OwnTimes(l)
    ensures OwnTimes(Next(l, Beats(time), max)) <==> Tick(l.sender, max).value !in l.sender.sentAt
  {
    var l' := Next(l, Beats(time), max);
    var v, n := Tick(l.sender, max).value, |l.beats|;
    assert l'.beats[n] == Sent(v, time);
    forall i | |l.received| <= i < n ensures l'.beats[i] == l.beats[i] {}
    if v in l.sender.sentAt {
      var i :| |l.received| <= i < n && l.beats[i].value == v;
      assert l'.beats[i].value == l'.beats[n].value;
    } else {
      forall w | w in l'.sender.sentAt ensures exists i :: |l.received| <= i < |l'.beats| && l'.beats[i].value == w {
        if w == v {
          assert l'.beats[n].value == w;
        } else {
          var i :| |l.received| <= i < n && l.beats[i].value == w;
          assert l'.beats[i].value == w;
        }
      }
    }
  }

  lemma FirstEntryGoes(l: Link, l': Link, n: nat)
    requires OwnTimes(l) && n == |l.received| < |l.beats|
    requires l'.beats == l.beats && |l'.received| == n + 1
    requires l'.sender.sentAt == l.sender.sentAt - {l.beats[n].value}
    ensures OwnTimes(l')
  {
    forall v | v in l'.sender.sentAt ensures exists i :: n + 1 <= i < |l'.beats| && l'.beats[i].value == v {
      var i :| n <= i < |l.beats| && l.beats[i].value == v;
      assert l'.beats[i].value == v;
    }
  }

  lemma ReturnKeepsOwnTimes(l: Link, time: int, now: int, max: int)
    requires InOrder(l) && OwnTimes(l) && l.back != []
    ensures OwnTimes(Next(l, Returns(time, now), max))
    ensures |l.received| < |l.beats|
    ensures var b := l.beats[|l.received|];
            Next(l, Returns(time, now), max).recorded == l.recorded + [Rtt(now, b.value, time - b.time)]
  {
    hide InOrder;
    NextAnswer(l);
    FirstEntryGoes(l, Next(l, Returns(time, now), max), |l.received|);
    assert l.beats[|l.received|].value in l.sender.sentAt;
  }

  /** The i-th return of the run, as the sender's clock saw it. */
  function ReturnTimes(steps: seq<Step>, max: int): seq<int> {
    if steps == [] then [] else
      var n := |steps| - 1;
      ReturnTimes(steps[..n], max) +
      if steps[n].Returns? && Run(steps[..n], max).back != [] then [steps[n].time] else []
  }

  /** Every answer was measured, from the time of the beat it answers to its own return. */
  ghost predicate TimedFromOwnSend(l: Link, answers: seq<int>) {
    && |l.recorded| == |l.received| == |answers| <= |l.beats|
    && forall i :: 0 <= i < |l.recorded| ==>
         l.recorded[i].value == l.beats[i].value && l.recorded[i].rtt == answers[i] - l.beats[i].time
  }

  lemma SameLedger(l: Link, l': Link)
    requires OwnTimes(l) && l'.beats == l.beats && l'.received == l.received && l'.sender == l.sender
    ensures OwnTimes(l')
  {}

  lemma StepTimesEachBeat(l: Link, step: Step, max: int, answers: seq<int>)
    requires InOrder(l) && OwnTimes(l) && TimedFromOwnSend(l, answers)
    requires step.Beats? ==> Tick(l.sender, max).value !in l.sender.sentAt
    ensures OwnTimes(Next(l, step, max))
    ensures TimedFromOwnSend(Next(l, step, max), answers + if step.Returns? && l.back != [] then [step.time] else [])
  {
    hide OwnTimes, InOrder;
    match step
    case Beats(time) => BeatKeepsOwnTimesIff(l, time, max);
    case Echoes => SameLedger(l, Next(l, Echoes, max));
    case Returns(time, now) =>
      if l.back != [] { ReturnKeepsOwnTimes(l, time, now, max); }
  }

  /** No beat has the value of one whose send time is still open. */
  ghost predicate NewBeats(steps: seq<Step>, max: int) {
    forall n :: 0 <= n < |steps| && steps[n].Beats? ==>
      Tick(Run(steps[..n], max).sender, max).value !in Run(steps[..n], max).sender.sentAt
  }

  lemma OneMoreBeat(steps: seq<Step>, max: int)
    requires steps != []
    ensures var n := |steps| - 1;
            var s := Run(steps[..n], max).sender;
            NewBeats(steps, max) <==>
            NewBeats(steps[..n], max) && (steps[n].Beats? ==> Tick(s, max).value !in s.sentAt)
  {
    hide Run;
    var n := |steps| - 1;
    forall i | 0 <= i < n ensures steps[..n][..i] == steps[..i] {}
  }

  lemma NothingTimed(max: int)
    ensures OwnTimes(SILENT) && TimedFromOwnSend(SILENT, []) && NewBeats([], max)
  {}

  /** Over the lossless link too, a beat is lost exactly when it meets an open entry. */
  lemma {:induction false} EveryBeatIsTimedIff(steps: seq<Step>, max: int)
    ensures var l := Run(steps, max);
            if NewBeats(steps, max) then |l.recorded| + |l.sender.sentAt| == |l.beats|
            else |l.recorded| + |l.sender.sentAt| < |l.beats|
  {
    hide NewBeats, Tick;
    if steps == [] {
      NothingTimed(max);
    } else {
      var n := |steps| - 1;
      EveryBeatIsTimedIff(steps[..n], max);
      OneMoreBeat(steps, max);
      var l := Run(steps[..n], max);
      match steps[n]
      case Beats(time) => EntriesAfterBeat(l.sender, max, time);
      case Echoes =>
      case Returns(time, now) => if l.back != [] { EntriesAfterHearing(l.sender, l.back[0], time, now); }
    }
  }

  /** As long as no beat meets an open entry, every echo is timed from its own send to its own return. */
  lemma {:induction false} NewBeatsAreTimed(steps: seq<Step>, max: int)
    requires NewBeats(steps, max)
    ensures OwnTimes(Run(steps, max)) && TimedFromOwnSend(Run(steps, max), ReturnTimes(steps, max))
  {
    hide Next, InOrder, OwnTimes, TimedFromOwnSend, NewBeats, Tick;
    if steps == [] {
      NothingTimed(max);
    } else {
      var n := |steps| - 1;
      OneMoreBeat(steps, max);
      NewBeatsAreTimed(steps[..n], max);
      EchoesAreAPrefix(steps[..n], max);
      StepTimesEachBeat(Run(steps[..n], max), steps[n], max, ReturnTimes(steps[..n], max));
    }
  }

  /**
    For every run whose beats have all been answered, in whatever interleaving: every round
    trip is timed from its own send to its own return if and only if no beat was sent while
    the send time of an earlier beat with its value was open.
   */
  lemma AnsweredRunsAreTimedIff(steps: seq<Step>, max: int)
    requires |Run(steps, max).received| == |Run(steps, max).beats|
    ensures TimedFromOwnSend(Run(steps, max), ReturnTimes(steps, max)) <==> NewBeats(steps, max)
  {
    hide Run, NewBeats, OwnTimes;
    if NewBeats(steps, max) { NewBeatsAreTimed(steps, max); }
    EveryBeatIsTimedIff(steps, max);
  }

  // ---- prompt answers ----

  /** At every beat at most one earlier beat is unanswered. */
  ghost predicate Prompt(steps: seq<Step>, max: int) {
    forall i :: 0 <= i < |steps| && steps[i].Beats? ==>
      |Run(steps[..i], max).beats| - |Run(steps[..i], max).received| <= 1
  }

  lemma PromptBeatIsNew(l: Link, max: int)
    requires InOrder(l) && OwnTimes(l) && |l.beats| - |l.received| <= 1
    ensures Tick(l.sender, max).value !in l.sender.sentAt
  {
    NeighboursDifferByOne(l.sender, max);
  }

  /** While at most two beats are unanswered, no beat meets an open entry. */
  lemma {:induction false} PromptBeatsAreNew(steps: seq<Step>, max: int)
    requires Prompt(steps, max)
    ensures NewBeats(steps, max)
  {
    hide Run, InOrder, OwnTimes, TimedFromOwnSend, NewBeats;
    if steps == [] {
      NothingTimed(max);
    } else {
      var n := |steps| - 1;
      assert Prompt(steps[..n], max) by {
        forall i | 0 <= i < n ensures steps[..n][..i] == steps[..i] {}
      }
      PromptBeatsAreNew(steps[..n], max);
      OneMoreBeat(steps, max);
      NewBeatsAreTimed(steps[..n], max);
      EchoesAreAPrefix(steps[..n], max);
      if steps[n].Beats? { PromptBeatIsNew(Run(steps[..n], max), max); }
    }
  }

  /**
    So while at most two beats are unanswered, every echo is measured, and its round trip is
    the time from its own send to its own return.
   */
  lemma PromptRunsTimeEachBeat(steps: seq<Step>, max: int)
    requires Prompt(steps, max)
    ensures OwnTimes(Run(steps, max)) && TimedFromOwnSend(Run(steps, max), ReturnTimes(steps, max))
  {
    PromptBeatsAreNew(steps, max);
    NewBeatsAreTimed(steps, max);
  }

  // ---- three beats unanswered ----

  lemma {:induction false} LinkFollowsTheWave(steps: seq<Step>, max: int)
    ensures var l := Run(steps, max);
            && l.sender.value == Ticks(|l.beats|, max).value
            && l.sender.increasing == Ticks(|l.beats|, max).increasing
  {
    if steps == [] {
      assert Run(steps, max) == SILENT;
    } else {
      LinkFollowsTheWave(steps[..|steps| - 1], max);
    }
  }

  /** Two beats on the value is the same again exactly when the one between is at the top or at zero. */
  lemma TurnsIff(s: Sender, n: nat, max: int)
    requires max >= 1 && s.value == Ticks(n, max).value && s.increasing == Ticks(n, max).increasing
    ensures var first := Tick(s, max);
            var second := Tick(first, max);
            Tick(second, max).value == first.value <==> second.value == 0 || second.value == max
  {
    ValueIsTheWave(n + 1, max);
    ValueIsTheWave(n + 2, max);
    ModStep(n + 1, 2 * max);
  }

  lemma NothingOpen(l: Link)
    requires InOrder(l) && OwnTimes(l) && |l.received| == |l.beats|
    ensures l.there == [] && l.back == [] && l.sender.sentAt == map[]
  {
    assert |l.received + l.back + l.there| == |l.beats|;
    assert forall v :: v !in l.sender.sentAt;
  }

  function ThreeBeats(a: int, b: int, c: int, d: int, now: int): seq<Step> {
    [Beats(a)] + [Beats(b)] + [Beats(c)] + [Echoes] + [Returns(d, now)]
  }

  lemma RunMore(steps: seq<Step>, step: Step, max: int)
    ensures Run(steps + [step], max) == Next(Run(steps, max), step, max)
  {
    assert (steps + [step])[..|steps|] == steps;
  }

  function WithThreeBeats(l: Link, max: int, a: int, b: int, c: int, d: int, now: int): Link {
    var sent := Next(Next(Next(l, Beats(a), max), Beats(b), max), Beats(c), max);
    Next(Next(sent, Echoes, max), Returns(d, now), max)
  }

  lemma AfterThreeBeats(steps: seq<Step>, max: int, a: int, b: int, c: int, d: int, now: int)
    ensures Run(steps + ThreeBeats(a, b, c, d, now), max) ==
            WithThreeBeats(Run(steps, max), max, a, b, c, d, now)
  {
    hide Run, Next;
    var s1 := steps + [Beats(a)];
    var s2 := s1 + [Beats(b)];
    var s3 := s2 + [Beats(c)];
    var s4 := s3 + [Echoes];
    RunMore(steps, Beats(a), max);
    RunMore(s1, Beats(b), max);
    RunMore(s2, Beats(c), max);
    RunMore(s3, Echoes, max);
    RunMore(s4, Returns(d, now), max);
    assert steps + ThreeBeats(a, b, c, d, now) == s4 + [Returns(d, now)];
  }

  lemma SameTicks(s: Sender, sentAt: map<int, int>, max: int)
    ensures Tick(s.(sentAt := sentAt), max) == Tick(s, max).(sentAt := sentAt)
  {}

  lemma FirstEchoOfThree(l: Link, max: int, a: int, b: int, c: int, d: int, now: int)
    requires l.there == [] && l.back == [] && l.sender.sentAt == map[]
    ensures var first := Tick(l.sender, max);
            var second := Tick(first, max);
            var third := Tick(second, max);
            var l' := WithThreeBeats(l, max, a, b, c, d, now);
            && l'.beats == l.beats + [Sent(first.value, a), Sent(second.value, b), Sent(third.value, c)]
            && l'.recorded == l.recorded + [Rtt(now, first.value, d - if third.value == first.value then c else a)]
  {
    hide Tick;
    NeighboursDifferByOne(l.sender, max);
    NeighboursDifferByOne(Tick(l.sender, max), max);
    SameTicks(l.sender, map[], max);
    var l1 := Next(l, Beats(a), max);
    var l2 := Next(l1, Beats(b), max);
    var l3 := Next(l2, Beats(c), max);
    SameTicks(Tick(l.sender, max), l1.sender.sentAt, max);
    SameTicks(Tick(Tick(l.sender, max), max), l2.sender.sentAt, max);
    var first := Tick(l.sender, max).value;
    assert l3.there[0] == first && l3.back == [];
    assert l3.sender.sentAt[first] == if l3.sender.value == first then c else a;
  }

  /**
    For every maximum, after any run whose beats were answered in time: of three beats sent
    before the first echo returns, the first is timed from the third exactly when the second
    one is at the top or at zero, and from its own send otherwise.
   */
  lemma ThreeUnansweredBeatsMixTimesIff(steps: seq<Step>, max: int, a: int, b: int, c: int, d: int, now: int)
    requires max >= 1 && Prompt(steps, max) && |Run(steps, max).received| == |Run(steps, max).beats|
    ensures var l, l' := Run(steps, max), Run(steps + ThreeBeats(a, b, c, d, now), max);
            var n := |l.beats|;
            && |l'.beats| == n + 3 && l'.beats[n].time == a && l'.beats[n + 1].time == b && l'.beats[n + 2].time == c
            && l'.recorded == l.recorded + [Rtt(now, l'.beats[n].value,
                 d - if l'.beats[n + 1].value == 0 || l'.beats[n + 1].value == max then c else a)]
  {
    hide Run, Next, InOrder, OwnTimes, TimedFromOwnSend, Prompt;
    var l := Run(steps, max);
    EchoesAreAPrefix(steps, max);
    PromptRunsTimeEachBeat(steps, max);
    LinkFollowsTheWave(steps, max);
    NothingOpen(l);
    TurnsIff(l.sender, |l.beats|, max);
    AfterThreeBeats(steps, max, a, b, c, d, now);
    FirstEchoOfThree(l, max, a, b, c, d, now);
  }

  /** `n` beats, each answered before the next. */
  function Rounds(n: nat): seq<Step> {
    if n == 0 then [] else Rounds(n - 1) + [Beats(0)] + [Echoes] + [Returns(0, 0)]
  }

  lemma OneRound(l: Link, max: int)
    requires l.there == [] && l.back == []
    ensures var l1 := Next(l, Beats(0), max);
            var l' := Next(Next(l1, Echoes, max), Returns(0, 0), max);
            && l'.there == [] && l'.back == []
            && |l'.beats| == |l.beats| + 1 && |l'.received| == |l.received| + 1
  {}

  lemma MorePrompt(steps: seq<Step>, step: Step, max: int)
    requires Prompt(steps, max)
    requires step.Beats? ==> |Run(steps, max).beats| - |Run(steps, max).received| <= 1
    ensures Prompt(steps + [step], max)
  {
    hide Run;
    var all := steps + [step];
    forall i | 0 <= i < |all| && all[i].Beats?
      ensures |Run(all[..i], max).beats| - |Run(all[..i], max).received| <= 1
    {
      if i < |steps| { assert all[..i] == steps[..i]; } else { assert all[..i] == steps; }
    }
  }

  lemma EmptyRun(max: int)
    ensures Run([], max) == SILENT && Prompt([], max)
  {}

  lemma {:induction false} RoundsAreAnswered(n: nat, max: int)
    ensures Prompt(Rounds(n), max)
    ensures var l := Run(Rounds(n), max);
            l.there == [] && l.back == [] && |l.beats| == |l.received| == n
  {
    hide Run, Next, Prompt;
    if n == 0 {
      EmptyRun(max);
    } else {
      var s0 := Rounds(n - 1);
      var s1 := s0 + [Beats(0)];
      var s2 := s1 + [Echoes];
      RoundsAreAnswered(n - 1, max);
      RunMore(s0, Beats(0), max);
      RunMore(s1, Echoes, max);
      RunMore(s2, Returns(0, 0), max);
      OneRound(Run(s0, max), max);
      MorePrompt(s0, Beats(0), max);
      MorePrompt(s1, Echoes, max);
      MorePrompt(s2, Returns(0, 0), max);
    }
  }

  lemma SecondOfThree(steps: seq<Step>, max: int, a: int, b: int, c: int, d: int, now: int)
    requires Run(steps, max).there == [] && Run(steps, max).back == []
    ensures var n, l' := |Run(steps, max).beats|, Run(steps + ThreeBeats(a, b, c, d, now), max);
            |l'.beats| == n + 3 && l'.beats[n + 1].value == Ticks(n + 2, max).value
  {
    hide Run;
    LinkFollowsTheWave(steps, max);
    AfterThreeBeats(steps, max, a, b, c, d, now);
  }

  /** So for every maximum some run times an echo from the wrong beat: three unanswered ones around zero. */
  lemma ThreeUnansweredBeatsMixTimes(max: int, a: int, b: int, c: int, d: int, now: int)
    requires max >= 1 && a != c
    ensures var l := Run(Rounds(2 * max - 2) + ThreeBeats(a, b, c, d, now), max);
            var n := 2 * max - 2;
            && |l.beats| == n + 3 && l.beats[n].time == a && |l.recorded| == n + 1
            && l.recorded[n].value == l.beats[n].value && l.recorded[n].rtt == d - c != d - l.beats[n].time
  {
    hide Run, Prompt;
    var n := 2 * max - 2;
    var steps := Rounds(n);
    RoundsAreAnswered(n, max);
    ThreeUnansweredBeatsMixTimesIff(steps, max, a, b, c, d, now);
    PromptRunsTimeEachBeat(steps, max);
    SecondOfThree(steps, max, a, b, c, d, now);
    ValueIsTheWave(2 * max, max);
    DivMod(2 * max, 2 * max, 1, 0);
  }
}
