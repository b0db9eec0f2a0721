// The metric classes of the bucket aggregator.  `ctx` is the identity an object
// is created with.
module Metrics {
  import opened Prelude
  import opened MetricSpec

  class BucketGauge {
    const ctx: Context
    var value: Option<real>
    var lastSampleTime: Option<real>

    constructor (ctx: Context)
      ensures this.ctx == ctx
      ensures State() == GaugeState(None, None)
    {
      this.ctx := ctx;
      value, lastSampleTime := None, None;
    }

    function State(): MetricState
      reads this
    {
      GaugeState(value, lastSampleTime)
    }

    method Sample(v: real, now: real)
      modifies this
      ensures value == Some(v) && lastSampleTime == Some(now)
      ensures State() == GaugeState(Some(v), Some(now))
    {
      value := Some(v);
      lastSampleTime := Some(now);
    }

    method Flush(hc: HistogramConfig, interval: real, ts: real) returns (points: seq<Point>)
      requires ValidHistogramConfig(hc) && interval > 0.0
      modifies this
      ensures points == if old(value).Some? then [Point(ctx, Plain, GaugeType, ts, old(value).value)] else []
      ensures points == old(FlushPoints(hc, interval, ctx, State(), ts))
      ensures State() == GaugeState(None, old(lastSampleTime))
    {
      points := [];
      if value.Some? {
        points := [Point(ctx, Plain, GaugeType, ts, value.value)];
        value := None;
      }
    }
  }

  class Counter {
    const ctx: Context
    var value: real
    var lastSampleTime: Option<real>

    constructor (ctx: Context)
      ensures this.ctx == ctx
      ensures State() == CounterState(0.0, None)
    {
      this.ctx := ctx;
      value, lastSampleTime := 0.0, None;
    }

    function State(): MetricState
      reads this
    {
      CounterState(value, lastSampleTime)
    }

    /** `ok` is false for the division by zero. */
    method Sample(v: real, rate: real, now: real) returns (ok: bool)
      requires 0.0 <= rate <= 1.0
      modifies this
      ensures ok <==> rate != 0.0
      ensures !ok ==> value == old(value) && lastSampleTime == old(lastSampleTime)
      ensures ok ==> lastSampleTime == Some(now) && exists n :: StandsFor(n, rate) && value == old(value) + v * n as real
      ensures State() == old(SampleState(State(), CounterReading(v, rate), now))
    {
      hide StandsFor;
      if rate == 0.0 {
        return false;
      }
      WeightIsWhole(rate);
      value := value + v * Weight(rate) as real;
      lastSampleTime := Some(now);
      ok := true;
    }

    method Flush(hc: HistogramConfig, interval: real, ts: real) returns (points: seq<Point>)
      requires ValidHistogramConfig(hc) && interval > 0.0
      modifies this
      ensures points == [Point(ctx, Plain, RateType, ts, old(value) / interval)]
      ensures points == old(FlushPoints(hc, interval, ctx, State(), ts))
      ensures State() == CounterState(0.0, old(lastSampleTime))
    {
      points := [Point(ctx, Plain, RateType, ts, value / interval)];
      value := 0.0;
    }
  }

  class Histogram {
    const ctx: Context
    var count: int
    var samples: seq<real>
    var lastSampleTime: Option<real>

    constructor (ctx: Context)
      ensures this.ctx == ctx
      ensures State() == HistogramState(0, [], None)
    {
      this.ctx := ctx;
      count, samples, lastSampleTime := 0, [], None;
    }

    function State(): MetricState
      reads this
    {
      HistogramState(count, samples, lastSampleTime)
    }

    /** `ok` is false for the division by zero. */
    method Sample(v: real, rate: real, now: real) returns (ok: bool)
      requires 0.0 <= rate <= 1.0
      modifies this
      ensures ok <==> rate != 0.0
      ensures !ok ==> count == old(count) && samples == old(samples) && lastSampleTime == old(lastSampleTime)
      ensures ok ==> samples == old(samples) + [v] && lastSampleTime == Some(now)
                     && exists n :: StandsFor(n, rate) && count == old(count) + n
      ensures State() == old(SampleState(State(), HistogramReading(v, rate), now))
    {
      hide StandsFor;
      if rate == 0.0 {
        return false;
      }
      WeightIsWhole(rate);
      count := count + Weight(rate);
      samples := samples + [v];
      lastSampleTime := Some(now);
      ok := true;
    }

    method SelectAggregates(aggregators: seq<(string, real, MetricType)>, wanted: set<string>, ts: real)
      returns (points: seq<Point>)
      ensures points == AggregatePoints(ctx, wanted, aggregators, ts)
    {
      points := [];
      for i := 0 to |aggregators|
        invariant points == AggregatePoints(ctx, wanted, aggregators[..i], ts)
      {
        assert aggregators[..i + 1][..i] == aggregators[..i];
        if aggregators[i].0 in wanted {
          points := points + [Point(ctx, Aggregate(aggregators[i].0), aggregators[i].2, ts, aggregators[i].1)];
        }
      }
      assert aggregators[..|aggregators|] == aggregators;
    }

    method SelectPercentiles(ghost taken: seq<real>, sorted: seq<real>, percentiles: seq<real>, ts: real)
      returns (points: seq<Point>)
      requires taken != [] && sorted == Sorted(taken) && InUnit(percentiles)
      ensures points == PercentilePoints(ctx, percentiles, taken, ts)
    {
      points := [];
      for i := 0 to |percentiles|
        invariant points == PercentilePoints(ctx, percentiles[..i], taken, ts)
      {
        assert percentiles[..i + 1][..i] == percentiles[..i];
        var p := percentiles[i];
        PercentileIndexInRange(p, |sorted|);
        points := points + [Point(ctx, Percentile(Hundredths(p)), GaugeType, ts, At(sorted, PercentileIndex(p, |sorted|)))];
      }
      assert percentiles[..|percentiles|] == percentiles;
    }

    method Flush(hc: HistogramConfig, interval: real, ts: real) returns (points: seq<Point>)
      requires ValidHistogramConfig(hc) && interval > 0.0
      requires Sane(State())
      modifies this
      ensures points == old(FlushPoints(hc, interval, ctx, State(), ts))
      ensures old(count) != 0 ==> State() == HistogramState(0, [], old(lastSampleTime))
      ensures old(count) == 0 ==> State() == old(State())
    {
      if count == 0 {
        return [];
      }
      var taken := samples;
      samples := Sorted(samples);
      var sorted := samples;
      var length := |sorted|;
      MedianIndexInRange(length);
      var sum := Sum(sorted);
      var aggregators := [
        ("min", sorted[0], GaugeType),
        ("max", sorted[length - 1], GaugeType),
        ("median", sorted[MedianIndex(length)], GaugeType),
        ("avg", sum / length as real, GaugeType),
        ("sum", sum, GaugeType),
        ("count", count as real / interval, RateType)];
      assert aggregators == AllAggregates(count, taken, interval);
      points := SelectAggregates(aggregators, hc.aggregates, ts);
      var rest := SelectPercentiles(taken, sorted, hc.percentiles, ts);
      points := points + rest;
      samples := [];
      count := 0;
    }
  }

  class MetricSet {
    const ctx: Context
    var values: set<string>
    var lastSampleTime: Option<real>

    constructor (ctx: Context)
      ensures this.ctx == ctx
      ensures State() == SetState({}, None)
    {
      this.ctx := ctx;
      values, lastSampleTime := {}, None;
    }

    function State(): MetricState
      reads this
    {
      SetState(values, lastSampleTime)
    }

    method Sample(v: string, now: real)
      modifies this
      ensures values == old(values) + {v} && lastSampleTime == Some(now)
      ensures State() == old(SampleState(State(), SetReading(v), now))
    {
      values := values + {v};
      lastSampleTime := Some(now);
    }

    method Flush(hc: HistogramConfig, interval: real, ts: real) returns (points: seq<Point>)
      requires ValidHistogramConfig(hc) && interval > 0.0
      modifies this
      ensures points == if old(values) == {} then [] else [Point(ctx, Plain, GaugeType, ts, |old(values)| as real)]
      ensures points == old(FlushPoints(hc, interval, ctx, State(), ts))
      ensures State() == SetState({}, old(lastSampleTime))
    {
      points := [];
      if values != {} {
        points := [Point(ctx, Plain, GaugeType, ts, |values| as real)];
        values := {};
      }
    }
  }

  /** A reference to a metric object of any of the four classes. */
  datatype Metric =
    | GaugeMetric(gauge: BucketGauge)
    | CounterMetric(counter: Counter)
    | HistogramMetric(histogram: Histogram)
    | SetMetric(metricSet: MetricSet)
  {
    function Obj(): object {
      match this
      case GaugeMetric(m) => m
      case CounterMetric(m) => m
      case HistogramMetric(m) => m
      case SetMetric(m) => m
    }

    function Ctx(): Context {
      match this
      case GaugeMetric(m) => m.ctx
      case CounterMetric(m) => m.ctx
      case HistogramMetric(m) => m.ctx
      case SetMetric(m) => m.ctx
    }

    function State(): MetricState
      reads Obj()
    {
      match this
      case GaugeMetric(m) => m.State()
      case CounterMetric(m) => m.State()
      case HistogramMetric(m) => m.State()
      case SetMetric(m) => m.State()
    }

    function LastSampleTime(): Option<real>
      reads Obj()
    {
      match this
      case GaugeMetric(m) => m.lastSampleTime
      case CounterMetric(m) => m.lastSampleTime
      case HistogramMetric(m) => m.lastSampleTime
      case SetMetric(m) => m.lastSampleTime
    }
  }

  /** One object has one identity, and is no object of another class. */
  lemma ObjectHasOneContext(m: Metric, n: Metric)
    ensures m.Obj() == n.Obj() ==> m.Ctx() == n.Ctx()
  {
  }

  /** `metric_class(...)` for the class that the reading's type resolves to. */
  method NewMetric(r: Reading, ctx: Context) returns (m: Metric)
    requires !r.Unresolved?
    ensures fresh(m.Obj())
    ensures m.Ctx() == ctx
    ensures m.State() == NewState(r)
  {
    match r {
      case GaugeReading(_) =>
        var g := new BucketGauge(ctx);
        m := GaugeMetric(g);
      case CounterReading(_, _) =>
        var c := new Counter(ctx);
        m := CounterMetric(c);
      case HistogramReading(_, _) =>
        var h := new Histogram(ctx);
        m := HistogramMetric(h);
      case SetReading(_) =>
        var s := new MetricSet(ctx);
        m := SetMetric(s);
    }
  }

  /** `metric.sample(...)`, on whichever class the object has. */
  method SampleMetric(m: Metric, r: Reading, now: real) returns (ok: bool)
    requires r.Valid() && KindOf(m.State(), r)
    modifies m.Obj()
    ensures ok <==> r.Succeeds()
    ensures m.State() == old(SampleState(m.State(), r, now))
  {
    match m {
      case GaugeMetric(g) =>
        g.Sample(r.value, now);
        ok := true;
      case CounterMetric(c) =>
        ok := c.Sample(r.value, r.rate, now);
      case HistogramMetric(h) =>
        ok := h.Sample(r.value, r.rate, now);
      case SetMetric(s) =>
        s.Sample(r.member, now);
        ok := true;
    }
  }

  /** `metric.flush(...)`, on whichever class the object has. */
  method FlushMetric(m: Metric, hc: HistogramConfig, interval: real, ts: real) returns (points: seq<Point>)
    requires ValidHistogramConfig(hc) && interval > 0.0
    requires Sane(m.State())
    modifies m.Obj()
    ensures points == FlushPoints(hc, interval, m.Ctx(), old(m.State()), ts)
  {
    match m {
      case GaugeMetric(g) =>
        points := g.Flush(hc, interval, ts);
      case CounterMetric(c) =>
        points := c.Flush(hc, interval, ts);
      case HistogramMetric(h) =>
        points := h.Flush(hc, interval, ts);
      case SetMetric(s) =>
        points := s.Flush(hc, interval, ts);
    }
  }
}
