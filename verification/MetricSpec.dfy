// What a metric object holds and what it reports, as values.  The classes that
// keep these values in fields and update them in place are in Metrics.dfy.
module MetricSpec {
  import opened Prelude
  import opened Rounding

  /** The key of a metric: name, sorted set of tags, host name. */
  datatype Context = Context(name: string, tags: seq<string>, host: string)

  /** The suffix under which a point is reported: none, a histogram aggregate or a percentile. */
  datatype Slot = Plain | Aggregate(name: string) | Percentile(hundredths: int)

  datatype MetricType = GaugeType | RateType | CountType

  datatype Point = Point(ctx: Context, slot: Slot, metricType: MetricType, timestamp: real, value: real)

  /** Aggregates and percentiles a histogram reports. */
  datatype HistogramConfig = HistogramConfig(aggregates: set<string>, percentiles: seq<real>)

  /** One call of `sample`, with the metric class that the type string resolves to. */
  datatype Reading =
    | GaugeReading(value: real)
    | CounterReading(value: real, rate: real)
    | HistogramReading(value: real, rate: real)
    | SetReading(member: string)
    | Unresolved
  {
    /** The parser lets through rates from 0 to 1, both included. */
    predicate Valid() {
      && (CounterReading? ==> 0.0 <= rate <= 1.0)
      && (HistogramReading? ==> 0.0 <= rate <= 1.0)
    }

    /** False when `1 / sample_rate` raises before anything is recorded. */
    predicate Succeeds() {
      && !Unresolved?
      && (CounterReading? ==> rate != 0.0)
      && (HistogramReading? ==> rate != 0.0)
    }
  }

  predicate SameKind(a: Reading, b: Reading) {
    && (a.GaugeReading? <==> b.GaugeReading?)
    && (a.CounterReading? <==> b.CounterReading?)
    && (a.HistogramReading? <==> b.HistogramReading?)
    && (a.SetReading? <==> b.SetReading?)
  }

  /** `int(1 / sample_rate)`: how many events one sample stands for. */
  function Weight(rate: real): (w: int)
    requires 0.0 < rate
    ensures rate <= 1.0 ==> 1 <= w
  {
    if rate <= 1.0 then
      assert 1.0 / rate >= 1.0 by { AtLeastOne(rate); }
      (1.0 / rate).Floor
    else
      (1.0 / rate).Floor
  }

  lemma AtLeastOne(rate: real)
    requires 0.0 < rate <= 1.0
    ensures 1.0 / rate >= 1.0
  {
    assert 1.0 / rate - 1.0 == (1.0 - rate) / rate;
  }

  /** `n` is the whole part of 1 / rate: the rate fits that often into one, and no more. */
  ghost predicate StandsFor(n: int, rate: real) {
    n as real * rate <= 1.0 < n as real * rate + rate
  }

  lemma PositiveProduct(x: real, y: real)
    requires 0.0 < y
    ensures x >= 0.0 ==> x * y >= 0.0
    ensures x > 0.0 ==> x * y > 0.0
  {
  }

  lemma Inverse(rate: real, q: real, n: real)
    requires 0.0 < rate && q * rate == 1.0 && n <= q < n + 1.0
    ensures n * rate <= 1.0 < n * rate + rate
  {
    var below, above := q - n, n + 1.0 - q;
    PositiveProduct(below, rate);
    PositiveProduct(above, rate);
    assert below * rate + n * rate == 1.0;
    assert above * rate + 1.0 == n * rate + rate;
  }

  /** The weight is the largest whole number of times that the rate fits into one. */
  lemma WeightIsWhole(rate: real)
    requires 0.0 < rate
    ensures Weight(rate) as real * rate <= 1.0 < Weight(rate) as real * rate + rate
    ensures StandsFor(Weight(rate), rate)
  {
    var q, n := WholePart(rate);
    Inverse(rate, q, n);
  }

  lemma WholePart(rate: real) returns (q: real, n: real)
    requires 0.0 < rate
    ensures q * rate == 1.0 && n == Weight(rate) as real && n <= q < n + 1.0
  {
    q := 1.0 / rate;
    n := Weight(rate) as real;
  }

  /** What a metric object holds. */
  datatype MetricState =
    | GaugeState(gauge: Option<real>, last: Option<real>)
    | CounterState(total: real, last: Option<real>)
    | HistogramState(count: int, samples: seq<real>, last: Option<real>)
    | SetState(members: set<string>, last: Option<real>)

  predicate KindOf(s: MetricState, r: Reading) {
    && (s.GaugeState? <==> r.GaugeReading?)
    && (s.CounterState? <==> r.CounterReading?)
    && (s.HistogramState? <==> r.HistogramReading?)
    && (s.SetState? <==> r.SetReading?)
  }

  /** A histogram that counted something holds samples. */
  predicate Sane(s: MetricState) {
    s.HistogramState? ==> s.count == 0 || s.samples != []
  }

  function NewState(r: Reading): MetricState
    requires !r.Unresolved?
  {
    match r
    case GaugeReading(_) => GaugeState(None, None)
    case CounterReading(_, _) => CounterState(0.0, None)
    case HistogramReading(_, _) => HistogramState(0, [], None)
    case SetReading(_) => SetState({}, None)
  }

  /** The effect of one call of `sample` at clock time `now`. */
  function SampleState(s: MetricState, r: Reading, now: real): MetricState
    requires r.Valid() && KindOf(s, r)
  {
    if !r.Succeeds() then s
    else match r
      case GaugeReading(v) => GaugeState(Some(v), Some(now))
      case CounterReading(v, rate) => CounterState(s.total + v * Weight(rate) as real, Some(now))
      case HistogramReading(v, rate) => HistogramState(s.count + Weight(rate), s.samples + [v], Some(now))
      case SetReading(m) => SetState(s.members + {m}, Some(now))
  }

  // ---------- sorting ----------

  predicate IsSorted(s: seq<real>) {
    forall i, j :: 0 <= i < j < |s| ==> s[i] <= s[j]
  }

  function Insert(x: real, s: seq<real>): seq<real> {
    if s == [] then [x]
    else if x <= s[0] then [x] + s
    else [s[0]] + Insert(x, s[1..])
  }

  lemma {:induction false} InsertAdds(x: real, s: seq<real>)
    ensures multiset(Insert(x, s)) == multiset(s) + multiset{x}
  {
    if s != [] && s[0] < x {
      InsertAdds(x, s[1..]);
      assert s == [s[0]] + s[1..];
    }
  }

  lemma LeastInFront(x: real, s: seq<real>)
    requires IsSorted(s) && (s == [] || x <= s[0])
    ensures IsSorted([x] + s)
  {
  }

  lemma {:induction false} InsertKeepsOrder(x: real, s: seq<real>)
    requires IsSorted(s)
    ensures IsSorted(Insert(x, s))
  {
    hide IsSorted;
    if s == [] || x <= s[0] {
      LeastInFront(x, s);
      assert s == [] ==> [x] + s == [x];
    } else {
      TailIsSorted(s);
      InsertKeepsOrder(x, s[1..]);
      LeastInFront(s[0], Insert(x, s[1..]));
    }
  }

  lemma TailIsSorted(s: seq<real>)
    requires IsSorted(s) && s != []
    ensures IsSorted(s[1..]) && (|s| > 1 ==> s[0] <= s[1])
  {
  }

  /** `list.sort` */
  function Sorted(s: seq<real>): (r: seq<real>)
    ensures IsSorted(r) && multiset(r) == multiset(s) && |r| == |s|
  {
    if s == [] then [] else
      var rest := Sorted(s[..|s| - 1]);
      var x := s[|s| - 1];
      assert s == s[..|s| - 1] + [x];
      InsertAdds(x, rest);
      InsertKeepsOrder(x, rest);
      assert |multiset(Insert(x, rest))| == |Insert(x, rest)|;
      assert |multiset(rest)| == |rest|;
      Insert(x, rest)
  }

  lemma TailBag(a: seq<real>)
    requires a != []
    ensures multiset(a[1..]) == multiset(a) - multiset{a[0]} && a == [a[0]] + a[1..]
  {
    assert a == [a[0]] + a[1..];
  }

  lemma SameLeast(a: seq<real>, b: seq<real>)
    requires IsSorted(a) && IsSorted(b) && multiset(a) == multiset(b) && a != []
    ensures b != [] && a[0] == b[0]
  {
    assert a[0] in multiset(b) && b[0] in multiset(a);
  }

  lemma {:induction false} SortedIsUnique(a: seq<real>, b: seq<real>)
    requires IsSorted(a) && IsSorted(b) && multiset(a) == multiset(b)
    ensures a == b
  {
    if a == [] {
      assert |multiset(b)| == 0;
    } else {
      SameLeast(a, b);
      TailBag(a);
      TailBag(b);
      SortedIsUnique(a[1..], b[1..]);
    }
  }

  function Sum(s: seq<real>): real {
    if s == [] then 0.0 else Sum(s[..|s| - 1]) + s[|s| - 1]
  }

  // ---------- histogram ----------

  /** Python list indexing: index -1 is the last element. */
  function At(s: seq<real>, k: int): real
    requires -|s| <= k < |s|
  {
    if k < 0 then s[|s| + k] else s[k]
  }

  function MedianIndex(length: nat): int {
    RoundHalfEven(length as real / 2.0 - 1.0)
  }

  function Scaled(x: real, n: nat): real {
    x * n as real
  }

  function PercentileIndex(p: real, length: nat): int {
    RoundHalfEven(Scaled(p, length) - 1.0)
  }

  /** The indices stay inside the list for a non-empty list and 0 <= p <= 1. */
  lemma MedianIndexInRange(length: nat)
    requires length > 0
    ensures 0 <= MedianIndex(length) < length
    ensures -0.5 <= MedianIndex(length) as real + 1.0 - length as real / 2.0 <= 0.5
  {
    RoundsToNearest(length as real / 2.0 - 1.0);
  }

  lemma PercentileIndexInRange(p: real, length: nat)
    requires length > 0 && 0.0 <= p <= 1.0
    ensures -1 <= PercentileIndex(p, length) < length
    ensures -0.5 <= PercentileIndex(p, length) as real + 1.0 - p * length as real <= 0.5
    ensures PercentileIndex(p, length) == -1 <==> p * length as real < 0.5
  {
    var x := p * length as real;
    assert 0.0 <= x <= length as real;
    RoundsToNearest(x - 1.0);
  }

  predicate InUnit(ps: seq<real>) {
    forall k :: 0 <= k < |ps| ==> 0.0 <= ps[k] <= 1.0
  }

  predicate ValidHistogramConfig(h: HistogramConfig) {
    InUnit(h.percentiles)
  }

  function PercentileValue(samples: seq<real>, p: real): real
    requires samples != [] && 0.0 <= p <= 1.0
  {
    PercentileIndexInRange(p, |samples|);
    At(Sorted(samples), PercentileIndex(p, |samples|))
  }

  function MedianValue(samples: seq<real>): real
    requires samples != []
  {
    MedianIndexInRange(|samples|);
    Sorted(samples)[MedianIndex(|samples|)]
  }

  /** The six aggregates in the order the program builds them. */
  function AllAggregates(count: int, samples: seq<real>, interval: real): seq<(string, real, MetricType)>
    requires samples != [] && interval > 0.0
  {
    var s := Sorted(samples);
    [ ("min", s[0], GaugeType),
      ("max", s[|s| - 1], GaugeType),
      ("median", MedianValue(samples), GaugeType),
      ("avg", Sum(s) / |s| as real, GaugeType),
      ("sum", Sum(s), GaugeType),
      ("count", count as real / interval, RateType) ]
  }

  function AggregatePoints(ctx: Context, wanted: set<string>, all: seq<(string, real, MetricType)>, ts: real): seq<Point>
  {
    if all == [] then []
    else
      var a := all[|all| - 1];
      AggregatePoints(ctx, wanted, all[..|all| - 1], ts)
      + if a.0 in wanted then [Point(ctx, Aggregate(a.0), a.2, ts, a.1)] else []
  }

  /** The number in the reported name, `int(p * 100)`. */
  function Hundredths(p: real): int {
    (p * 100.0).Floor
  }

  function PercentilePoints(ctx: Context, percentiles: seq<real>, samples: seq<real>, ts: real): seq<Point>
    requires samples != [] && InUnit(percentiles)
  {
    if percentiles == [] then []
    else
      var p := percentiles[|percentiles| - 1];
      PercentilePoints(ctx, percentiles[..|percentiles| - 1], samples, ts)
      + [Point(ctx, Percentile(Hundredths(p)), GaugeType, ts, PercentileValue(samples, p))]
  }

  /** The points an object holding `s` reports for time `ts`. */
  function FlushPoints(hc: HistogramConfig, interval: real, ctx: Context, s: MetricState, ts: real): seq<Point>
    requires ValidHistogramConfig(hc) && interval > 0.0
  {
    match s
    case GaugeState(None, _) => []
    case GaugeState(Some(v), _) => [Point(ctx, Plain, GaugeType, ts, v)]
    case CounterState(total, _) => [Point(ctx, Plain, RateType, ts, total / interval)]
    case HistogramState(count, samples, _) =>
      if count == 0 || samples == [] then []
      else AggregatePoints(ctx, hc.aggregates, AllAggregates(count, samples, interval), ts)
           + PercentilePoints(ctx, hc.percentiles, samples, ts)
    case SetState(members, _) =>
      if members == {} then [] else [Point(ctx, Plain, GaugeType, ts, |members| as real)]
  }
}
