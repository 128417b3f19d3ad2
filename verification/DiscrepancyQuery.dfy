/**
  The discrepancy panels of the Balcones dashboard: a chain of SQL common table
  expressions over the samples of two nodes. Every CTE is a function over sequences.
  Time is an integer number of microseconds, the resolution of `timestamptz`.
 */
module DiscrepancyQuery {
  import opened Wrappers

  const EXPIRY := 60_000_000

  /** A row of `raw`: the tag text is already read as 0, 1 or NULL. */
  datatype Raw = Raw(node: string, ts: int, val: Option<int>)
  datatype Sample = Sample(ts: int, val: Option<int>)
  datatype Interval = Interval(val: Option<int>, a: int, z: int)
  datatype Span = Span(a: int, z: int, mismatch: bool)
  datatype Neighbor = Neighbor(span: Span, prev: Option<Span>, next: Option<Span>)
  datatype Grouped = Grouped(row: Neighbor, episode: nat)
  datatype Event = Event(startedAt: int, endedAt: int, startConfirmed: bool, endConfirmed: bool)

  function Max(x: int, y: int): int { if x < y then y else x }
  function Min(x: int, y: int): int { if x < y then x else y }

  // ---- raw: the rows of one node from EXPIRY before the window up to its end ----

  function NodeRows(raw: seq<Raw>, node: string, lo: int, hi: int): (rows: seq<Raw>)
    ensures forall r :: r in rows <==> r in raw && r.node == node && lo - EXPIRY <= r.ts <= hi
  {
    if raw == [] then [] else
      var rest := NodeRows(raw[1..], node, lo, hi);
      if raw[0].node == node && lo - EXPIRY <= raw[0].ts <= hi then [raw[0]] + rest else rest
  }

  // ---- samples: one value per instant, NULL unless all rows of the instant agree ----

  predicate Increasing(ts: seq<int>) {
    forall i, j :: 0 <= i < j < |ts| ==> ts[i] < ts[j]
  }

  /** Adds `t` to the sorted group keys, once. */
  function InsertKey(t: int, keys: seq<int>): (r: seq<int>)
    requires Increasing(keys)
    ensures Increasing(r)
    ensures forall x :: x in r <==> x == t || x in keys
  {
    if keys == [] || t < keys[0] then [t] + keys
    else if t == keys[0] then keys
    else
      var rest := InsertKey(t, keys[1..]);
      assert forall x :: x in keys <==> x == keys[0] || x in keys[1..];
      assert forall i :: 0 <= i < |rest| ==> rest[i] in rest && keys[0] < rest[i];
      [keys[0]] + rest
  }

  function GroupKeys(rows: seq<Raw>): (keys: seq<int>)
    ensures Increasing(keys)
    ensures forall t :: t in keys <==> exists r :: r in rows && r.ts == t
  {
    if rows == [] then [] else InsertKey(rows[0].ts, GroupKeys(rows[1..]))
  }

  function RowsAt(rows: seq<Raw>, ts: int): (g: seq<Raw>)
    ensures forall r :: r in g <==> r in rows && r.ts == ts
  {
    if rows == [] then [] else
      (if rows[0].ts == ts then [rows[0]] else []) + RowsAt(rows[1..], ts)
  }

  function NonNull(rows: seq<Raw>): (vals: seq<int>)
    ensures |vals| <= |rows|
    ensures |vals| == |rows| <==> forall r :: r in rows ==> r.val.Some?
    ensures forall v :: v in vals <==> exists r :: r in rows && r.val == Some(v)
  {
    if rows == [] then [] else
      var rest := NonNull(rows[1..]);
      if rows[0].val.Some? then [rows[0].val.value] + rest else rest
  }

  function Least(vals: seq<int>): (m: int)
    requires vals != []
    ensures m in vals && forall v :: v in vals ==> m <= v
  {
    if |vals| == 1 then vals[0] else
      assert forall v :: v in vals <==> v == vals[0] || v in vals[1..];
      Min(vals[0], Least(vals[1..]))
  }

  function Consensus(group: seq<Raw>): Option<int> {
    var vals := NonNull(group);
    if |vals| == |group| && |set v | v in vals| == 1 then Some(Least(vals)) else None
  }

  function Samples(rows: seq<Raw>): (s: seq<Sample>)
    ensures |s| == |GroupKeys(rows)|
  {
    var keys := GroupKeys(rows);
    seq(|keys|, i requires 0 <= i < |keys| => Sample(keys[i], Consensus(RowsAt(rows, keys[i]))))
  }

  // ---- ordered, intervals: each sample holds until the next one, EXPIRY or the window's end ----

  function IntervalOf(samples: seq<Sample>, i: nat, lo: int, hi: int): Interval
    requires i < |samples|
  {
    var s := samples[i];
    var next := if i + 1 < |samples| then samples[i + 1].ts else hi;
    Interval(s.val, Max(s.ts, lo), Min(Min(next, s.ts + EXPIRY), hi))
  }

  function IntervalsFrom(samples: seq<Sample>, i: nat, lo: int, hi: int): seq<Interval>
    requires i <= |samples|
    decreases |samples| - i
  {
    if i == |samples| then [] else
      (if samples[i].ts < hi then [IntervalOf(samples, i, lo, hi)] else [])
      + IntervalsFrom(samples, i + 1, lo, hi)
  }

  function Intervals(raw: seq<Raw>, node: string, lo: int, hi: int): seq<Interval> {
    IntervalsFrom(Samples(NodeRows(raw, node, lo, hi)), 0, lo, hi)
  }

  // ---- spans: the join of the two nodes' intervals, ordered by start ----

  predicate Joins(s: Interval, d: Interval) {
    && s.a < d.z && d.a < s.z && s.z > s.a && d.z > d.a
    && s.val.Some? && d.val.Some?
  }

  function Meet(s: Interval, d: Interval): Span {
    Span(Max(s.a, d.a), Min(s.z, d.z), s.val != d.val)
  }

  function JoinOne(s: Interval, ds: seq<Interval>): seq<Span> {
    if ds == [] then [] else
      (if Joins(s, ds[0]) then [Meet(s, ds[0])] else []) + JoinOne(s, ds[1..])
  }

  function Join(ss: seq<Interval>, ds: seq<Interval>): seq<Span> {
    if ss == [] then [] else JoinOne(ss[0], ds) + Join(ss[1..], ds)
  }

  function InsertByStart(s: Span, spans: seq<Span>): seq<Span> {
    if spans == [] || s.a <= spans[0].a then [s] + spans
    else [spans[0]] + InsertByStart(s, spans[1..])
  }

  function OrderByStart(spans: seq<Span>): seq<Span> {
    if spans == [] then [] else InsertByStart(spans[0], OrderByStart(spans[1..]))
  }

  function Spans(raw: seq<Raw>, src: string, dst: string, lo: int, hi: int): seq<Span> {
    OrderByStart(Join(Intervals(raw, src, lo, hi), Intervals(raw, dst, lo, hi)))
  }

  // ---- neighbors, grouped: window functions over the ordered spans ----

  function Neighbors(spans: seq<Span>): (n: seq<Neighbor>)
    ensures |n| == |spans|
  {
    seq(|spans|, i requires 0 <= i < |spans| =>
      Neighbor(spans[i],
               if i > 0 then Some(spans[i - 1]) else None,
               if i + 1 < |spans| then Some(spans[i + 1]) else None))
  }

  /** The summand of the running sum: NULL neighbours make the condition false. */
  function Break(n: Neighbor): nat {
    if n.span.mismatch && n.prev.Some? && n.prev.value.mismatch && n.prev.value.z == n.span.a
    then 0 else 1
  }

  function RunningSum(ns: seq<Neighbor>, i: nat): nat
    requires i < |ns|
  {
    Break(ns[i]) + if i == 0 then 0 else RunningSum(ns, i - 1)
  }

  function Group(ns: seq<Neighbor>): (g: seq<Grouped>)
    ensures |g| == |ns|
  {
    seq(|ns|, i requires 0 <= i < |ns| => Grouped(ns[i], RunningSum(ns, i)))
  }

  // ---- events: one row per episode of mismatching spans ----

  function EpisodeRows(rows: seq<Grouped>, episode: nat): (g: seq<Grouped>)
    ensures forall r :: r in g <==> r in rows && r.row.span.mismatch && r.episode == episode
  {
    if rows == [] then [] else
      (if rows[0].row.span.mismatch && rows[0].episode == episode then [rows[0]] else [])
      + EpisodeRows(rows[1..], episode)
  }

  function MinStart(g: seq<Grouped>): (a: int)
    requires g != []
    ensures exists r :: r in g && r.row.span.a == a
    ensures forall r :: r in g ==> a <= r.row.span.a
  {
    if |g| == 1 then assert g[0] in g; g[0].row.span.a else
      var m := MinStart(g[1..]);
      assert g[0] in g && forall r :: r in g[1..] ==> r in g;
      Min(g[0].row.span.a, m)
  }

  function MaxEnd(g: seq<Grouped>): (z: int)
    requires g != []
    ensures exists r :: r in g && r.row.span.z == z
    ensures forall r :: r in g ==> r.row.span.z <= z
  {
    if |g| == 1 then assert g[0] in g; g[0].row.span.z else
      var m := MaxEnd(g[1..]);
      assert g[0] in g && forall r :: r in g[1..] ==> r in g;
      Max(g[0].row.span.z, m)
  }

  /** `prev_z = a AND prev_mismatch = false` */
  predicate OpensAfterEqual(r: Grouped) {
    r.row.prev.Some? && r.row.prev.value.z == r.row.span.a && !r.row.prev.value.mismatch
  }

  /** `next_a = z AND next_mismatch = false` */
  predicate ClosesBeforeEqual(r: Grouped) {
    r.row.next.Some? && r.row.next.value.a == r.row.span.z && !r.row.next.value.mismatch
  }

  predicate AnyOpens(g: seq<Grouped>) { exists r :: r in g && OpensAfterEqual(r) }

  predicate AnyCloses(g: seq<Grouped>) { exists r :: r in g && ClosesBeforeEqual(r) }

  function Summarise(g: seq<Grouped>): Event
    requires g != []
  {
    Event(MinStart(g), MaxEnd(g), AnyOpens(g), AnyCloses(g))
  }

  function EventsUpTo(rows: seq<Grouped>, episode: nat): seq<Event>
  {
    if episode == 0 then [] else
      var g := EpisodeRows(rows, episode);
      EventsUpTo(rows, episode - 1) + if g == [] then [] else [Summarise(g)]
  }

  /** Episode numbers run from 1 to at most the number of spans. */
  function EventsOf(spans: seq<Span>): seq<Event> {
    EventsUpTo(Group(Neighbors(spans)), |spans|)
  }

  function Events(raw: seq<Raw>, src: string, dst: string, lo: int, hi: int): seq<Event> {
    EventsOf(Spans(raw, src, dst, lo, hi))
  }

  // ---- coverage: the total length of the spans ----

  function TotalLength(spans: seq<Span>): int {
    if spans == [] then 0 else spans[0].z - spans[0].a + TotalLength(spans[1..])
  }

  function Known(raw: seq<Raw>, src: string, dst: string, lo: int, hi: int): int {
    TotalLength(Spans(raw, src, dst, lo, hi))
  }

  function TotalDuration(events: seq<Event>): int {
    if events == [] then 0 else events[0].endedAt - events[0].startedAt + TotalDuration(events[1..])
  }
}
