// The bucket aggregator seen from outside: a history of submissions and
// flushes, and what a flush must report, recomputed from that history alone.
// Nothing here keeps a table, a cache or a last-sample map.
module BatchSpec {
  import opened Prelude
  import opened MetricSpec
  import opened TimeBuckets

  /** `at` is the clock when the call starts, `sampledAt` the clock when the metric object is updated. */
  datatype Event =
    | Submit(ctx: Context, reading: Reading, at: real, sampledAt: real)
    | Flush(at: real)
  {
    function End(): real {
      if Submit? then sampledAt else at
    }
  }

  type History = seq<Event>

  // ---------- histories ----------

  /** The clock never goes back: within a call, and from one call to the next. */
  ghost predicate WellTimed(h: History) {
    h == [] ||
    var e := h[|h| - 1];
    && WellTimed(h[..|h| - 1])
    && e.at <= e.End()
    && (|h| > 1 ==> h[|h| - 2].End() <= e.at)
  }

  /** `r` is of the kind of every earlier submission for the context. */
  ghost predicate KindFits(h: History, c: Context, r: Reading) {
    forall e :: e in h && e.Submit? && e.ctx == c ==> SameKind(e.reading, r)
  }

  /** Each context keeps one metric type, and the rates are those the parser lets through. */
  ghost predicate OneKindPerContext(h: History) {
    h == [] ||
    var e := h[|h| - 1];
    && OneKindPerContext(h[..|h| - 1])
    && (e.Submit? ==> e.reading.Valid() && KindFits(h[..|h| - 1], e.ctx, e.reading))
  }

  ghost predicate ValidHistory(h: History) {
    WellTimed(h) && OneKindPerContext(h)
  }

  /** The time of the last flush in `h`. */
  function LastFlush(h: History): Option<real> {
    if h == [] then None
    else if h[|h| - 1].Flush? then Some(h[|h| - 1].at)
    else LastFlush(h[..|h| - 1])
  }

  /** True for a time `b` that the flushes of `h` have not reached. */
  predicate NotYetFlushed(st: Settings, h: History, b: real)
    requires ValidSettings(st)
  {
    LastFlush(h).Some? ==> Bucket(st, LastFlush(h).value) <= b
  }

  /** The buckets submitted to and not flushed.  A submission of an unknown type leaves one as well. */
  function PendingBuckets(st: Settings, h: History): set<real>
    requires ValidSettings(st)
  {
    if h == [] then {}
    else
      var e := h[|h| - 1];
      var before := PendingBuckets(st, h[..|h| - 1]);
      if e.Submit? then before + {Bucket(st, e.at)}
      else set b | b in before && Bucket(st, e.at) <= b
  }

  /** Does `e` reach the metric object of context `c` in bucket `b`? */
  predicate Touches(st: Settings, e: Event, b: real, c: Context)
    requires ValidSettings(st)
  {
    e.Submit? && !e.reading.Unresolved? && e.ctx == c && Bucket(st, e.at) == b
  }

  /** The submissions of `h` for context `c` in bucket `b`, in order. */
  function Attempts(st: Settings, h: History, b: real, c: Context): History
    requires ValidSettings(st)
  {
    if h == [] then []
    else
      var e := h[|h| - 1];
      Attempts(st, h[..|h| - 1], b, c) + if Touches(st, e, b, c) then [e] else []
  }

  /** The counter submissions of `h` for context `c` in the buckets before `x`. */
  function CounterAttemptsBelow(st: Settings, h: History, x: real, c: Context): History
    requires ValidSettings(st)
  {
    if h == [] then []
    else
      var e := h[|h| - 1];
      CounterAttemptsBelow(st, h[..|h| - 1], x, c)
      + if e.Submit? && e.reading.CounterReading? && e.ctx == c && Bucket(st, e.at) < x then [e] else []
  }

  // ---------- what a group of submissions adds up to ----------

  function LastSampled(a: History): Option<real> {
    if a == [] then None
    else
      var e := a[|a| - 1];
      if e.Submit? && e.reading.Succeeds() then Some(e.sampledAt) else LastSampled(a[..|a| - 1])
  }

  /** Sum of value * floor(1 / rate). */
  function CounterMass(a: History): real {
    if a == [] then 0.0
    else CounterMass(a[..|a| - 1]) + EventMass(a[|a| - 1])
  }

  function EventMass(e: Event): real {
    if e.Submit? && e.reading.CounterReading? && e.reading.rate > 0.0
    then e.reading.value * Weight(e.reading.rate) as real else 0.0
  }

  function LastValue(a: History): Option<real> {
    if a == [] then None
    else
      var e := a[|a| - 1];
      if e.Submit? && e.reading.GaugeReading? then Some(e.reading.value) else LastValue(a[..|a| - 1])
  }

  function SampledValues(a: History): seq<real> {
    if a == [] then [] else SampledValues(a[..|a| - 1]) + EventValues(a[|a| - 1])
  }

  function EventValues(e: Event): seq<real> {
    if e.Submit? && e.reading.HistogramReading? && e.reading.rate > 0.0 then [e.reading.value] else []
  }

  function SampledCount(a: History): int {
    if a == [] then 0 else SampledCount(a[..|a| - 1]) + EventCount(a[|a| - 1])
  }

  function EventCount(e: Event): int {
    if e.Submit? && e.reading.HistogramReading? && e.reading.rate > 0.0 then Weight(e.reading.rate) else 0
  }

  function Members(a: History): set<string> {
    set i | 0 <= i < |a| && a[i].Submit? && a[i].reading.SetReading? :: a[i].reading.member
  }

  /** The object that a group of submissions of one kind leaves behind. */
  function BatchState(a: History): MetricState
    requires a != [] && a[0].Submit? && !a[0].reading.Unresolved?
  {
    match a[0].reading
    case GaugeReading(_) => GaugeState(LastValue(a), LastSampled(a))
    case CounterReading(_, _) => CounterState(CounterMass(a), LastSampled(a))
    case HistogramReading(_, _) => HistogramState(SampledCount(a), SampledValues(a), LastSampled(a))
    case SetReading(_) => SetState(Members(a), LastSampled(a))
  }

  // ---------- what a flush reports ----------

  predicate Fresh(last: Option<real>, threshold: real) {
    last.Some? && threshold <= last.value
  }

  /** When context `c` was last sampled in the latest bucket before `x` that holds it as a counter. */
  function PriorLast(st: Settings, h: History, x: real, c: Context): Option<real>
    requires ValidSettings(st)
  {
    var below := CounterAttemptsBelow(st, h, x, c);
    if below == [] then None
    else LastSampled(Attempts(st, h, Bucket(st, below[|below| - 1].at), c))
  }

  function ZeroPoint(c: Context, b: real): Point {
    Point(c, Plain, RateType, b, 0.0)
  }

  /** Report for a bucket that the flush closes. */
  function BucketReport(st: Settings, h: History, threshold: real, b: real, c: Context): seq<Point>
    requires ValidSettings(st)
  {
    var a := Attempts(st, h, b, c);
    if a != [] then
      AttemptsTouch(st, h, b, c, 0);
      if Fresh(LastSampled(a), threshold) then FlushPoints(st.histogram, st.interval, c, BatchState(a), b) else []
    else if Fresh(PriorLast(st, h, b, c), threshold) then [ZeroPoint(c, b)]
    else []
  }

  /** Report of a flush that finds no bucket at all, for the interval just before the cutoff. */
  function IdleReport(st: Settings, h: History, threshold: real, cutoff: real, c: Context): seq<Point>
    requires ValidSettings(st)
  {
    if Fresh(PriorLast(st, h, cutoff, c), threshold) then [ZeroPoint(c, cutoff - st.interval)] else []
  }

  /** `flush_cutoff_time >= last_flush_cutoff_time + interval`; the stored cutoff is 0 before the first flush. */
  predicate IdleDue(st: Settings, h: History, cutoff: real)
    requires ValidSettings(st)
  {
    var last := if LastFlush(h).Some? then Bucket(st, LastFlush(h).value) else 0.0;
    PendingBuckets(st, h) == {} && cutoff >= last + st.interval
  }

  /** The points with timestamp `b` and context `c` that a flush at time `t` after `h` reports. */
  function Expected(st: Settings, h: History, t: real, b: real, c: Context): seq<Point>
    requires ValidSettings(st)
  {
    var cutoff := Bucket(st, t);
    var threshold := t - st.expiry;
    if b in PendingBuckets(st, h) && b < cutoff then BucketReport(st, h, threshold, b, c)
    else if IdleDue(st, h, cutoff) && b == cutoff - st.interval then IdleReport(st, h, threshold, cutoff, c)
    else []
  }

  function PointsFor(points: seq<Point>, b: real, c: Context): seq<Point> {
    if points == [] then []
    else
      var p := points[|points| - 1];
      PointsFor(points[..|points| - 1], b, c) + if p.timestamp == b && p.ctx == c then [p] else []
  }

  ghost predicate InTimeOrder(points: seq<Point>) {
    forall i, j :: 0 <= i < j < |points| ==> points[i].timestamp <= points[j].timestamp
  }

  /** `points` is a report that a flush at time `t` after history `h` may return: the order of the
      contexts inside a bucket is the only freedom. */
  ghost predicate Reports(st: Settings, h: History, t: real, points: seq<Point>)
    requires ValidSettings(st)
  {
    && InTimeOrder(points)
    && forall b, c :: PointsFor(points, b, c) == Expected(st, h, t, b, c)
  }

  /** A whole run: `out` is what each event of `h` returned. */
  ghost predicate IsRun(st: Settings, h: History, out: seq<seq<Point>>)
    requires ValidSettings(st)
  {
    && |out| == |h|
    && (h == [] ||
        var n := |h| - 1;
        && IsRun(st, h[..n], out[..n])
        && if h[n].Flush? then Reports(st, h[..n], h[n].at, out[n]) else out[n] == [])
  }

  // ---------- first facts ----------

  /** Every element of Attempts is an event of `h` that touches (b, c). */
  lemma {:induction false} AttemptsTouch(st: Settings, h: History, b: real, c: Context, k: int)
    requires ValidSettings(st) && 0 <= k < |Attempts(st, h, b, c)|
    ensures Touches(st, Attempts(st, h, b, c)[k], b, c)
    ensures Attempts(st, h, b, c)[k] in h
  {
    if k < |Attempts(st, h[..|h| - 1], b, c)| {
      AttemptsTouch(st, h[..|h| - 1], b, c, k);
    }
  }
}
