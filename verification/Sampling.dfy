/** How often a subscription samples a source that publishes every `seconds`. */
module Sampling {
  const QUEUE_SIZE := 10
  const PUBLISH_INTERVAL_MS := 500.0

  /** `int(x)` truncates toward zero. */
  function Truncate(x: real): int {
    if x >= 0.0 then x.Floor else -((-x).Floor)
  }

  /** The whole part: never further from zero, by less than one, and the same on either side of it. */
  lemma TruncationDropsTheFraction(x: real)
    requires x >= 0.0
    ensures Truncate(x) as real <= x < Truncate(x) as real + 1.0 && Truncate(-x) == -Truncate(x)
  {}

  function Max(a: int, b: int): int { if a < b then b else a }
  function Min(a: int, b: int): int { if a < b then a else b }

  /** `max(100, min(1000, int(seconds * 1000 / 2)))` */
  function SamplingIntervalMs(seconds: real): int {
    Max(100, Min(1000, Truncate(seconds * 1000.0 / 2.0)))
  }

  /** The interval is always between 100 ms and 1 s. */
  lemma IntervalIsClamped(seconds: real)
    ensures 100 <= SamplingIntervalMs(seconds) <= 1000
  {}

  /** Within its limits it is the largest whole number of milliseconds up to half the period. */
  lemma IntervalIsTheLargest(seconds: real, k: int)
    ensures var i, half := SamplingIntervalMs(seconds), seconds * 1000.0 / 2.0;
            && 100 <= i <= 1000 && (i as real <= half || i == 100)
            && (100 <= k <= 1000 && k as real <= half ==> k <= i)
  {
    if 100 <= k && k as real <= seconds * 1000.0 / 2.0 { assert k <= (seconds * 1000.0 / 2.0).Floor; }
  }

  /** `max(stale_after_seconds, 5 * seconds)` */
  function StaleAfterSeconds(usual: real, seconds: real): real {
    if usual < 5.0 * seconds then 5.0 * seconds else usual
  }

  /** Silence counts as stale no earlier than usual and no earlier than after five periods, and not later than both. */
  lemma StaleAfterIsTheLonger(usual: real, seconds: real, t: real)
    ensures t <= StaleAfterSeconds(usual, seconds) <==> t <= usual || t <= 5.0 * seconds
  {}

  /** Sampling is at most twice as slow as the source exactly for periods of at least 0.2 s. */
  lemma TwiceAsFastIff(seconds: real)
    ensures SamplingIntervalMs(seconds) as real <= seconds * 1000.0 / 2.0 <==> seconds >= 0.2
  {}

  /** The `k`-th sampling instant, in milliseconds. */
  function Instant(seconds: real, phase: real, k: int): real {
    phase + k as real * SamplingIntervalMs(seconds) as real
  }

  /** Some sampling instant lies at or after the first write and before the second. */
  ghost predicate Sampled(seconds: real, phase: real, first: real, second: real) {
    exists k :: first <= Instant(seconds, phase, k) < second
  }

  /** However the sampling is phased, no write is overwritten unseen by one a period later. */
  ghost predicate WritesAreSeparated(seconds: real) {
    forall phase, first, second :: second >= first + seconds * 1000.0 && second > first ==>
      Sampled(seconds, phase, first, second)
  }

  lemma Difference(a: real, b: real, i: real)
    requires i > 0.0
    ensures a * i - b * i == (a - b) * i
    ensures a > b ==> a * i > b * i
    ensures a >= b ==> a * i >= b * i
  {
    assert a > b ==> (a - b) * i > 0.0;
  }

  lemma MultiplyBounds(x: real, i: real, k: real)
    requires i > 0.0 && x / i <= k < x / i + 1.0
    ensures x <= k * i < x + i
  {
    var q := x / i;
    assert q * i == x;
    Difference(k, q, i);
    Difference(q + 1.0, k, i);
    Difference(q + 1.0, 1.0, i);
  }

  lemma FirstInstantAfter(seconds: real, phase: real, t: real) returns (k: int)
    ensures t <= Instant(seconds, phase, k) < t + SamplingIntervalMs(seconds) as real
  {
    var i := SamplingIntervalMs(seconds) as real;
    var q := (t - phase) / i;
    k := -((-q).Floor);
    assert q <= k as real < q + 1.0;
    MultiplyBounds(t - phase, i, k as real);
    assert k as real * i >= t - phase;
  }

  lemma LongPeriodsSeparate(seconds: real)
    requires seconds >= 0.1
    ensures WritesAreSeparated(seconds)
  {
    assert SamplingIntervalMs(seconds) as real <= seconds * 1000.0;
    forall phase, first, second | second >= first + seconds * 1000.0 && second > first
      ensures Sampled(seconds, phase, first, second)
    {
      var k := FirstInstantAfter(seconds, phase, first);
    }
  }

  lemma ShortPeriodsMiss(seconds: real)
    requires seconds < 0.1
    ensures !WritesAreSeparated(seconds)
  {
    var gap := if seconds * 1000.0 > 50.0 then seconds * 1000.0 else 50.0;
    var first, second := (100.0 - gap) / 2.0, (100.0 + gap) / 2.0;
    assert SamplingIntervalMs(seconds) == 100;
    forall k ensures !(first <= Instant(seconds, 0.0, k) < second) {
      assert k <= 0 ==> k as real * 100.0 <= 0.0;
      assert k >= 1 ==> k as real * 100.0 >= 100.0;
    }
    assert !Sampled(seconds, 0.0, first, second);
  }

  /** Two writes a period apart always have a sampling instant between them, exactly for periods of at least 0.1 s. */
  lemma WritesAreSeparatedIff(seconds: real)
    ensures WritesAreSeparated(seconds) <==> seconds >= 0.1
  {
    if seconds >= 0.1 { LongPeriodsSeparate(seconds); } else { ShortPeriodsMiss(seconds); }
  }

  /** The sampling instants `first..last` all lie in the publish window that starts at `t`. */
  ghost predicate InWindow(seconds: real, phase: real, t: real, first: int, last: int) {
    first <= last && t <= Instant(seconds, phase, first) && Instant(seconds, phase, last) < t + PUBLISH_INTERVAL_MS
  }

  /** For every period a publish window holds at most five samples, so the queue of ten never overflows. */
  lemma QueueNeverOverflows(seconds: real, phase: real, t: real, first: int, last: int)
    requires InWindow(seconds, phase, t, first, last)
    ensures last - first + 1 <= 5 < QUEUE_SIZE
  {
    var i, n := SamplingIntervalMs(seconds) as real, (last - first) as real;
    assert Instant(seconds, phase, last) - Instant(seconds, phase, first) == n * i;
    assert n * (i - 100.0) >= 0.0;
  }
}
