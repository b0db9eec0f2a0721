// What stands under which name in the report of a histogram.
module HistogramReports {
  import opened Prelude
  import opened MetricSpec
  import opened HistogramTheorems

  // ---------- sums ----------

  /** The sum of a list is that of its parts, and a single element is its own sum. */
  lemma {:induction false} SumOfParts(a: seq<real>, b: seq<real>)
    ensures Sum(a + b) == Sum(a) + Sum(b)
    ensures |a| == 1 ==> Sum(a) == a[0]
  {
    if |a| == 1 {
      assert a[..0] == [] && Sum([]) == 0.0;
    }
    if b == [] {
      assert a + b == a;
    } else {
      var n := |b| - 1;
      SumOfParts(a, b[..n]);
      assert (a + b)[..|a + b| - 1] == a + b[..n] && (a + b)[|a + b| - 1] == b[n];
    }
  }

  lemma SumWithout(s: seq<real>, i: nat)
    requires i < |s|
    ensures Sum(s) == Sum(s[..i] + s[i + 1..]) + s[i]
  {
    assert s == s[..i] + ([s[i]] + s[i + 1..]);
    SumOfParts(s[..i], [s[i]] + s[i + 1..]);
    SumOfParts([s[i]], s[i + 1..]);
    SumOfParts(s[..i], s[i + 1..]);
  }

  lemma {:induction false} SumDependsOnBag(s: seq<real>, t: seq<real>)
    requires multiset(s) == multiset(t)
    ensures Sum(s) == Sum(t)
  {
    if s == [] {
      assert |t| == |multiset(t)|;
    } else {
      var n := |s| - 1;
      assert s[n] in multiset(t);
      var j :| 0 <= j < |t| && t[j] == s[n];
      BagWithout(s, n);
      BagWithout(t, j);
      assert s[..n] + s[n + 1..] == s[..n];
      SumDependsOnBag(s[..n], t[..j] + t[j + 1..]);
      SumWithout(t, j);
    }
  }

  // ---------- aggregates ----------

  ghost predicate HasRank(samples: seq<real>, v: real, k: int) {
    v in samples && CountAtMost(samples, v) >= k + 1 && CountBelow(samples, v) <= k
  }

  /** `k` is the 0-based position of the median of `n` sorted samples: the lower of the two middle ones, and for an odd
      number the even one of the two nearest positions. */
  ghost predicate IsMiddle(k: int, n: nat) {
    -0.5 <= (k + 1) as real - n as real / 2.0 <= 0.5 && (n % 2 == 1 ==> k % 2 == 0)
  }

  /** What a value reported under the name `n` has to be. */
  ghost predicate IsAggregate(n: string, v: real, metricType: MetricType, count: int, samples: seq<real>, interval: real)
  {
    && (metricType == if n == "count" then RateType else GaugeType)
    && (n == "min" ==> v in samples && forall i :: 0 <= i < |samples| ==> v <= samples[i])
    && (n == "max" ==> v in samples && forall i :: 0 <= i < |samples| ==> samples[i] <= v)
    && (n == "median" ==> exists k :: IsMiddle(k, |samples|) && HasRank(samples, v, k))
    && (n == "avg" ==> v * |samples| as real == Sum(samples))
    && (n == "sum" ==> v == Sum(samples))
    && (n == "count" ==> v * interval == count as real)
  }

  lemma NamesDiffer()
    ensures "min" != "max" && "min" != "median" && "min" != "avg" && "min" != "sum" && "min" != "count"
    ensures "max" != "median" && "max" != "avg" && "max" != "sum" && "max" != "count"
    ensures "median" != "avg" && "median" != "sum" && "median" != "count"
    ensures "avg" != "sum" && "avg" != "count" && "sum" != "count"
  {
    assert "min"[1] == 'i' && "max"[1] == 'a' && "median"[1] == 'e';
    assert "avg"[1] == 'v' && "sum"[1] == 'u' && "count"[1] == 'o';
  }

  lemma Extremes(samples: seq<real>, v: real)
    requires samples != [] && v in Sorted(samples)
    ensures v in samples
    ensures v == Sorted(samples)[0] ==> forall i :: 0 <= i < |samples| ==> v <= samples[i]
    ensures v == Sorted(samples)[|samples| - 1] ==> forall i :: 0 <= i < |samples| ==> samples[i] <= v
  {
    ExtremesBoundAll(samples);
    assert v in multiset(Sorted(samples));
  }

  lemma Quotient(x: real, y: real)
    requires y != 0.0
    ensures x / y * y == x
  {
  }

  lemma AggregateIs(count: int, samples: seq<real>, interval: real, i: nat)
    requires samples != [] && interval > 0.0 && i < 6
    ensures var a := AllAggregates(count, samples, interval)[i]; IsAggregate(a.0, a.1, a.2, count, samples, interval)
  {
    hide Sorted, Sum, MedianValue, HasRank, IsMiddle;
    var s := Sorted(samples);
    NamesDiffer();
    SortedHasBag(samples);
    SumDependsOnBag(s, samples);
    Extremes(samples, s[0]);
    Extremes(samples, s[|s| - 1]);
    MedianIs(samples);
    Quotient(Sum(s), |s| as real);
    Quotient(count as real, interval);
  }

  lemma SortedHasBag(samples: seq<real>)
    requires samples != []
    ensures var s := Sorted(samples); |s| == |samples| && multiset(s) == multiset(samples) && s[0] in s && s[|s| - 1] in s
  {
  }

  lemma MedianIs(samples: seq<real>)
    requires samples != []
    ensures exists k :: IsMiddle(k, |samples|) && HasRank(samples, MedianValue(samples), k)
  {
    MedianRank(samples);
    assert IsMiddle(MedianIndex(|samples|), |samples|) && HasRank(samples, MedianValue(samples), MedianIndex(|samples|));
  }

  ghost predicate IsAggregateName(n: string) {
    n == "min" || n == "max" || n == "median" || n == "avg" || n == "sum" || n == "count"
  }

  lemma {:induction false} PointOf(ctx: Context, wanted: set<string>, all: seq<(string, real, MetricType)>, ts: real,
                                   k: nat)
    returns (i: nat)
    requires k < |AggregatePoints(ctx, wanted, all, ts)|
    ensures i < |all| && all[i].0 in wanted
    ensures AggregatePoints(ctx, wanted, all, ts)[k] == Point(ctx, Aggregate(all[i].0), all[i].2, ts, all[i].1)
  {
    var n := |all| - 1;
    if k < |AggregatePoints(ctx, wanted, all[..n], ts)| {
      i := PointOf(ctx, wanted, all[..n], ts, k);
    } else {
      i := n;
    }
  }

  lemma {:induction false} WantedIsThere(ctx: Context, wanted: set<string>, all: seq<(string, real, MetricType)>, ts: real,
                                         i: nat)
    returns (k: nat)
    requires i < |all| && all[i].0 in wanted
    ensures k < |AggregatePoints(ctx, wanted, all, ts)|
    ensures AggregatePoints(ctx, wanted, all, ts)[k].slot == Aggregate(all[i].0)
  {
    var n := |all| - 1;
    if i < n {
      k := WantedIsThere(ctx, wanted, all[..n], ts, i);
    } else {
      k := |AggregatePoints(ctx, wanted, all[..n], ts)|;
    }
  }

  lemma {:induction false} PercentilesAre(ctx: Context, ps: seq<real>, samples: seq<real>, ts: real)
    requires samples != [] && InUnit(ps)
    ensures var points := PercentilePoints(ctx, ps, samples, ts);
            && |points| == |ps|
            && forall i :: 0 <= i < |ps| ==>
                 points[i] == Point(ctx, Percentile(Hundredths(ps[i])), GaugeType, ts, PercentileValue(samples, ps[i]))
  {
    hide PercentileValue, Hundredths;
    if ps != [] {
      PercentilesAre(ctx, ps[..|ps| - 1], samples, ts);
    }
  }

  lemma HundredthsAre(p: real)
    ensures Hundredths(p) as real <= 100.0 * p < Hundredths(p) as real + 1.0
  {
  }

  // ---------- the report ----------

  function Report(hc: HistogramConfig, interval: real, ctx: Context, count: int, samples: seq<real>, last: Option<real>,
                  ts: real): seq<Point>
    requires ValidHistogramConfig(hc) && interval > 0.0
  {
    FlushPoints(hc, interval, ctx, HistogramState(count, samples, last), ts)
  }

  lemma ReportParts(hc: HistogramConfig, interval: real, ctx: Context, count: int, samples: seq<real>, last: Option<real>,
                    ts: real)
    requires ValidHistogramConfig(hc) && interval > 0.0 && count != 0 && samples != []
    ensures Report(hc, interval, ctx, count, samples, last, ts)
            == AggregatePoints(ctx, hc.aggregates, AllAggregates(count, samples, interval), ts)
               + PercentilePoints(ctx, hc.percentiles, samples, ts)
  {
  }

  /** An aggregate is reported exactly when it is wanted and one of the six. */
  lemma AggregateReportedIff(hc: HistogramConfig, interval: real, ctx: Context, count: int, samples: seq<real>,
                             last: Option<real>, ts: real, n: string)
    requires ValidHistogramConfig(hc) && interval > 0.0 && count != 0 && samples != []
    ensures (exists k :: 0 <= k < |Report(hc, interval, ctx, count, samples, last, ts)|
                         && Report(hc, interval, ctx, count, samples, last, ts)[k].slot == Aggregate(n))
       <==> n in hc.aggregates && IsAggregateName(n)
  {
    hide Report, PercentileValue, Hundredths, Sorted, Sum, MedianValue, AggregatePoints, PercentilePoints;
    ReportParts(hc, interval, ctx, count, samples, last, ts);
    var all := AllAggregates(count, samples, interval);
    var first := AggregatePoints(ctx, hc.aggregates, all, ts);
    var points := Report(hc, interval, ctx, count, samples, last, ts);
    if k :| 0 <= k < |points| && points[k].slot == Aggregate(n) {
      if k < |first| {
        var i := PointOf(ctx, hc.aggregates, all, ts, k);
      } else {
        PercentilesAre(ctx, hc.percentiles, samples, ts);
      }
    }
    if n in hc.aggregates && IsAggregateName(n) {
      var i := if n == "min" then 0 else if n == "max" then 1 else if n == "median" then 2 else if n == "avg" then 3
               else if n == "sum" then 4 else 5;
      var k := WantedIsThere(ctx, hc.aggregates, all, ts, i);
      assert points[k] == first[k];
    }
  }

  /** Every point has the context and the flush's time.  An aggregate has the value and the type that its name asks for;
      the percentiles follow in their order, named by their whole hundredths. */
  lemma ReportedValues(hc: HistogramConfig, interval: real, ctx: Context, count: int, samples: seq<real>,
                       last: Option<real>, ts: real, k: nat)
    requires ValidHistogramConfig(hc) && interval > 0.0 && count != 0 && samples != []
    requires k < |Report(hc, interval, ctx, count, samples, last, ts)|
    ensures var points := Report(hc, interval, ctx, count, samples, last, ts);
            var first := |points| - |hc.percentiles|;
            var p := points[k];
            && p.ctx == ctx && p.timestamp == ts && first >= 0
            && if k < first then
                 p.slot.Aggregate? && IsAggregate(p.slot.name, p.value, p.metricType, count, samples, interval)
               else
                 && p.slot.Percentile? && p.metricType == GaugeType
                 && p.slot.hundredths as real <= 100.0 * hc.percentiles[k - first] < p.slot.hundredths as real + 1.0
                 && p.value == PercentileValue(samples, hc.percentiles[k - first])
  {
    hide Report, PercentileValue, Hundredths, Sorted, Sum, MedianValue, AggregatePoints, PercentilePoints, IsAggregate;
    ReportParts(hc, interval, ctx, count, samples, last, ts);
    var all := AllAggregates(count, samples, interval);
    var first := AggregatePoints(ctx, hc.aggregates, all, ts);
    PercentilesAre(ctx, hc.percentiles, samples, ts);
    if k < |first| {
      var i := PointOf(ctx, hc.aggregates, all, ts, k);
      AggregateIs(count, samples, interval, i);
    } else {
      HundredthsAre(hc.percentiles[k - |first|]);
    }
  }
}
