// Counters over whole runs: nothing is lost or counted twice.
module MassConservation {
  import opened Prelude
  import opened MetricSpec
  import opened TimeBuckets
  import opened BatchSpec
  import opened BatchFacts
  import opened FlushHistory
  import opened RunTheorems
  import opened Freshness
  import Keys

  // ---------- mass ----------

  /** What the submissions of `h` add up to for `c`: value * floor(1 / rate) for each that succeeds. */
  function SubmittedMass(h: History, c: Context): real {
    if h == [] then 0.0
    else SubmittedMass(h[..|h| - 1], c) + MassFor(h[|h| - 1], c)
  }

  function MassFor(e: Event, c: Context): real {
    if e.Submit? && e.ctx == c then EventMass(e) else 0.0
  }

  predicate IsCounterPoint(p: Point, c: Context) {
    p.ctx == c && p.slot == Plain && p.metricType == RateType
  }

  function PointMass(st: Settings, p: Point, c: Context): real {
    if IsCounterPoint(p, c) then p.value * st.interval else 0.0
  }

  /** Reported rates, multiplied out over the interval. */
  function PointsMass(st: Settings, points: seq<Point>, c: Context): real {
    if points == [] then 0.0
    else
      var p := points[|points| - 1];
      PointsMass(st, points[..|points| - 1], c) + PointMass(st, p, c)
  }

  function ReportedMass(st: Settings, out: seq<seq<Point>>, c: Context): real {
    if out == [] then 0.0
    else ReportedMass(st, out[..|out| - 1], c) + PointsMass(st, out[|out| - 1], c)
  }

  /** The part of `part` whose buckets no flush of `h` has reached. */
  function PendingMass(st: Settings, h: History, part: History, c: Context): real
    requires ValidSettings(st)
  {
    if part == [] then 0.0
    else
      var e := part[|part| - 1];
      PendingMass(st, h, part[..|part| - 1], c)
      + if NotYetFlushed(st, h, Bucket(st, e.at)) then MassFor(e, c) else 0.0
  }

  predicate IsStale(st: Settings, h: History, t: real, b: real, c: Context)
    requires ValidSettings(st)
  {
    !Fresh(LastSampled(Attempts(st, h, b, c)), t - st.expiry)
  }

  /** The part of `part` that the flush at `t` after `h` closes below `x`: its stale or its fresh half. */
  function ClosedMass(st: Settings, h: History, part: History, t: real, c: Context, x: real, stale: bool): real
    requires ValidSettings(st)
  {
    if part == [] then 0.0
    else
      var e := part[|part| - 1];
      var b := Bucket(st, e.at);
      ClosedMass(st, h, part[..|part| - 1], t, c, x, stale)
      + if NotYetFlushed(st, h, b) && b < x && IsStale(st, h, t, b, c) == stale then MassFor(e, c) else 0.0
  }

  /** What the flushes of `h` threw away because the object was stale. */
  function DroppedMass(st: Settings, h: History, c: Context): real
    requires ValidSettings(st)
  {
    if h == [] then 0.0
    else
      var g, e := h[..|h| - 1], h[|h| - 1];
      DroppedMass(st, g, c) + if e.Flush? then ClosedMass(st, g, g, e.at, c, Bucket(st, e.at), true) else 0.0
  }

  // ---------- points of one bucket ----------

  lemma {:induction false} PointsMassConcat(st: Settings, p: seq<Point>, q: seq<Point>, c: Context)
    ensures PointsMass(st, p + q, c) == PointsMass(st, p, c) + PointsMass(st, q, c)
  {
    if q == [] {
      assert p + q == p;
    } else {
      assert (p + q)[..|p + q| - 1] == p + q[..|q| - 1];
      PointsMassConcat(st, p, q[..|q| - 1], c);
    }
  }

  lemma {:induction false} NoCounterPoints(st: Settings, p: seq<Point>, c: Context)
    requires forall i :: 0 <= i < |p| ==> !IsCounterPoint(p[i], c)
    ensures PointsMass(st, p, c) == 0.0
  {
    if p != [] {
      NoCounterPoints(st, p[..|p| - 1], c);
    }
  }

  lemma OnePointMass(st: Settings, p: Point, c: Context)
    ensures PointsMass(st, [p], c) == PointMass(st, p, c)
  {
    assert [p][..0] == [];
    assert PointsMass(st, [p][..0], c) == 0.0;
  }

  lemma MultiplyBack(total: real, interval: real)
    requires interval > 0.0
    ensures total / interval * interval == total
  {
  }

  lemma HistogramHasNoCounterPoints(st: Settings, c: Context, s: MetricState, b: real)
    requires ValidSettings(st) && ReportsHistogram(s)
    ensures PointsMass(st, FlushPoints(st.histogram, st.interval, c, s, b), c) == 0.0
  {
    var all := AllAggregates(s.count, s.samples, st.interval);
    AggregateNamesDiffer(s.count, s.samples, st.interval);
    AggregateSlots(c, st.histogram.aggregates, all, b);
    PercentileSlots(c, st.histogram.percentiles, s.samples, b);
    NoCounterPoints(st, AggregatePoints(c, st.histogram.aggregates, all, b), c);
    NoCounterPoints(st, PercentilePoints(c, st.histogram.percentiles, s.samples, b), c);
    PointsMassConcat(st, AggregatePoints(c, st.histogram.aggregates, all, b),
      PercentilePoints(c, st.histogram.percentiles, s.samples, b), c);
  }

  lemma FlushPointsMass(st: Settings, c: Context, s: MetricState, b: real)
    requires ValidSettings(st)
    ensures PointsMass(st, FlushPoints(st.histogram, st.interval, c, s, b), c) == if s.CounterState? then s.total else 0.0
  {
    if ReportsHistogram(s) {
      HistogramHasNoCounterPoints(st, c, s, b);
    } else {
      var points := FlushPoints(st.histogram, st.interval, c, s, b);
      if points != [] {
        assert points == [points[0]];
        OnePointMass(st, points[0], c);
      }
      if s.CounterState? {
        MultiplyBack(s.total, st.interval);
      }
    }
  }

  lemma {:induction false} OtherKindsHaveNoMass(a: History)
    requires forall i :: 0 <= i < |a| ==> a[i].Submit? && !a[i].reading.CounterReading?
    ensures CounterMass(a) == 0.0
  {
    if a != [] {
      OtherKindsHaveNoMass(a[..|a| - 1]);
    }
  }

  lemma BatchStateMass(st: Settings, a: History, b: real, c: Context)
    requires ValidSettings(st) && a != [] && a[0].Submit? && AllOfKind(a, a[0].reading)
    ensures PointsMass(st, FlushPoints(st.histogram, st.interval, c, BatchState(a), b), c) == CounterMass(a)
  {
    FlushPointsMass(st, c, BatchState(a), b);
    if !a[0].reading.CounterReading? {
      OtherKindsHaveNoMass(a);
    }
  }

  lemma ZeroPointMass(st: Settings, c: Context, b: real)
    ensures PointsMass(st, [ZeroPoint(c, b)], c) == 0.0
  {
    OnePointMass(st, ZeroPoint(c, b), c);
  }

  lemma EmptyReportMass(st: Settings, report: seq<Point>, b: real, c: Context)
    requires report == [] || report == [ZeroPoint(c, b)]
    ensures PointsMass(st, report, c) == 0.0
  {
    if report != [] {
      ZeroPointMass(st, c, b);
    }
  }

  lemma EmptyReport(st: Settings, h: History, t: real, b: real, c: Context)
    requires ValidSettings(st)
    requires Attempts(st, h, b, c) == [] || IsStale(st, h, t, b, c)
    ensures var report := BucketReport(st, h, t - st.expiry, b, c); report == [] || report == [ZeroPoint(c, b)]
  {
  }

  lemma FreshReport(st: Settings, h: History, t: real, b: real, c: Context)
    requires ValidSettings(st) && ValidHistory(h) && !IsStale(st, h, t, b, c)
    ensures Attempts(st, h, b, c) != []
    ensures PointsMass(st, BucketReport(st, h, t - st.expiry, b, c), c) == CounterMass(Attempts(st, h, b, c))
  {
    AttemptsAreOneKind(st, h, b, c);
    BatchStateMass(st, Attempts(st, h, b, c), b, c);
  }

  /** The counter mass in the report of one bucket. */
  lemma BucketReportMass(st: Settings, h: History, t: real, b: real, c: Context)
    requires ValidSettings(st) && ValidHistory(h)
    ensures PointsMass(st, BucketReport(st, h, t - st.expiry, b, c), c)
         == if IsStale(st, h, t, b, c) then 0.0 else CounterMass(Attempts(st, h, b, c))
  {
    if IsStale(st, h, t, b, c) {
      EmptyReport(st, h, t, b, c);
      EmptyReportMass(st, BucketReport(st, h, t - st.expiry, b, c), b, c);
    } else {
      FreshReport(st, h, t, b, c);
    }
  }

  // ---------- the report of one flush ----------

  function PointsMassBelow(st: Settings, points: seq<Point>, c: Context, x: real): real {
    if points == [] then 0.0
    else
      var p := points[|points| - 1];
      PointsMassBelow(st, points[..|points| - 1], c, x)
      + if p.timestamp < x then PointMass(st, p, c) else 0.0
  }

  lemma {:induction false} AllPointsBelow(st: Settings, points: seq<Point>, c: Context, x: real)
    requires forall k :: 0 <= k < |points| ==> points[k].timestamp < x
    ensures PointsMassBelow(st, points, c, x) == PointsMass(st, points, c)
  {
    if points != [] {
      AllPointsBelow(st, points[..|points| - 1], c, x);
    }
  }

  lemma {:induction false} NoPointsBelow(st: Settings, points: seq<Point>, c: Context, x: real)
    requires forall k :: 0 <= k < |points| ==> x <= points[k].timestamp
    ensures PointsMassBelow(st, points, c, x) == 0.0
  {
    if points != [] {
      NoPointsBelow(st, points[..|points| - 1], c, x);
    }
  }

  /** Between two stops the only reported timestamp is the bucket between them. */
  lemma {:induction false} PointsAcross(st: Settings, points: seq<Point>, c: Context, b: real, y: real)
    requires b < y && forall k :: 0 <= k < |points| ==> !(b < points[k].timestamp < y)
    ensures PointsMassBelow(st, points, c, y)
         == PointsMassBelow(st, points, c, b) + PointsMass(st, PointsFor(points, b, c), c)
  {
    if points != [] {
      var n := |points| - 1;
      PointsAcross(st, points[..n], c, b, y);
      var before := PointsFor(points[..n], b, c);
      if points[n].timestamp == b && points[n].ctx == c {
        PointsMassConcat(st, before, [points[n]], c);
        OnePointMass(st, points[n], c);
      } else {
        assert PointsFor(points, b, c) == before;
      }
    }
  }

  /** The same for the submissions: between two stops only those of the bucket between them. */
  lemma {:induction false} ClosedAcross(st: Settings, h: History, part: History, t: real, c: Context, b: real, y: real)
    requires ValidSettings(st) && b < y && NotYetFlushed(st, h, b)
    requires forall k :: 0 <= k < |part| && part[k].Submit? ==> !(b < Bucket(st, part[k].at) < y)
    ensures ClosedMass(st, h, part, t, c, y, false)
         == ClosedMass(st, h, part, t, c, b, false)
            + if IsStale(st, h, t, b, c) then 0.0 else CounterMass(Attempts(st, part, b, c))
  {
    if part != [] {
      var n := |part| - 1;
      var rest, e := part[..n], part[n];
      assert forall k :: 0 <= k < n ==> rest[k] == part[k];
      ClosedAcross(st, h, rest, t, c, b, y);
      var a := Attempts(st, rest, b, c);
      if Touches(st, e, b, c) {
        assert Attempts(st, part, b, c) == a + [e] && (a + [e])[..|a|] == a;
      } else {
        assert Attempts(st, part, b, c) == a;
      }
    }
  }

  lemma {:induction false} NothingClosedBelow(st: Settings, h: History, part: History, t: real, c: Context, x: real)
    requires ValidSettings(st)
    requires forall k :: 0 <= k < |part| && part[k].Submit? && NotYetFlushed(st, h, Bucket(st, part[k].at)) ==>
               x <= Bucket(st, part[k].at)
    ensures ClosedMass(st, h, part, t, c, x, false) == 0.0
  {
    if part != [] {
      var n := |part| - 1;
      assert forall k :: 0 <= k < n ==> part[..n][k] == part[k];
      NothingClosedBelow(st, h, part[..n], t, c, x);
    }
  }

  lemma ReportedTimesArePending(st: Settings, h: History, t: real, points: seq<Point>, k: nat)
    requires ValidSettings(st) && Reports(st, h, t, points) && PendingBuckets(st, h) != {} && k < |points|
    ensures points[k].timestamp in PendingBuckets(st, h) && points[k].timestamp < Bucket(st, t)
  {
    PointsForHas(points, k);
    assert PointsFor(points, points[k].timestamp, points[k].ctx) == Expected(st, h, t, points[k].timestamp, points[k].ctx);
  }

  lemma {:induction false} ReportMassUpTo(st: Settings, h: History, t: real, points: seq<Point>, c: Context,
                                          order: seq<real>, i: nat)
    requires ValidSettings(st) && ValidHistory(h) && Lists(order, st, h) && i <= |order|
    requires Reports(st, h, t, points) && PendingBuckets(st, h) != {}
    ensures PointsMassBelow(st, points, c, Stop(order, i, Bucket(st, t)))
         == ClosedMass(st, h, h, t, c, Stop(order, i, Bucket(st, t)), false)
    decreases i
  {
    var cutoff := Bucket(st, t);
    if i == 0 {
      var x := Stop(order, 0, cutoff);
      forall k | 0 <= k < |points| ensures x <= points[k].timestamp {
        ReportedTimesArePending(st, h, t, points, k);
        var j :| 0 <= j < |order| && order[j] == points[k].timestamp;
        AscendingOrder(order, 0, j);
      }
      NoPointsBelow(st, points, c, x);
      forall k | 0 <= k < |h| && h[k].Submit? && NotYetFlushed(st, h, Bucket(st, h[k].at)) ensures x <= Bucket(st, h[k].at) {
        NothingBeforeFirst(st, h, order, cutoff, k);
      }
      NothingClosedBelow(st, h, h, t, c, x);
    } else if cutoff <= order[i - 1] {
      ReportMassUpTo(st, h, t, points, c, order, i - 1);
      AscendingOrder(order, i - 1, i);
    } else {
      ReportMassUpTo(st, h, t, points, c, order, i - 1);
      MassOfOneBucket(st, h, t, points, c, order, i - 1, Stop(order, i, cutoff));
    }
  }

  lemma NoPointsBetween(st: Settings, h: History, t: real, points: seq<Point>, order: seq<real>, i: nat, k: nat)
    requires ValidSettings(st) && Lists(order, st, h) && PendingBuckets(st, h) != {}
    requires Reports(st, h, t, points) && i < |order| && order[i] < Bucket(st, t) && k < |points|
    ensures !(order[i] < points[k].timestamp < Stop(order, i + 1, Bucket(st, t)))
  {
    ReportedTimesArePending(st, h, t, points, k);
    var j :| 0 <= j < |order| && order[j] == points[k].timestamp;
    AscendingOrder(order, j, i);
    AscendingOrder(order, i + 1, j);
  }

  lemma ReportedForBucket(st: Settings, h: History, t: real, points: seq<Point>, c: Context, b: real)
    requires ValidSettings(st) && ValidHistory(h) && Reports(st, h, t, points)
    requires b in PendingBuckets(st, h) && b < Bucket(st, t)
    ensures PointsMass(st, PointsFor(points, b, c), c)
         == if IsStale(st, h, t, b, c) then 0.0 else CounterMass(Attempts(st, h, b, c))
  {
    assert PointsFor(points, b, c) == Expected(st, h, t, b, c);
    BucketReportMass(st, h, t, b, c);
  }

  lemma MassOfOneBucket(st: Settings, h: History, t: real, points: seq<Point>, c: Context, order: seq<real>, i: nat, y: real)
    requires ValidSettings(st) && ValidHistory(h) && Lists(order, st, h) && PendingBuckets(st, h) != {}
    requires Reports(st, h, t, points) && i < |order| && order[i] < Bucket(st, t) && y == Stop(order, i + 1, Bucket(st, t))
    ensures PointsMassBelow(st, points, c, y) - PointsMassBelow(st, points, c, order[i])
         == ClosedMass(st, h, h, t, c, y, false) - ClosedMass(st, h, h, t, c, order[i], false)
  {
    var b := order[i];
    assert b in order;
    NothingBetween(st, h, order, i, Bucket(st, t));
    forall k | 0 <= k < |points| ensures !(b < points[k].timestamp < y) {
      NoPointsBetween(st, h, t, points, order, i, k);
    }
    PointsAcross(st, points, c, b, y);
    var w := PendingIsUnreached(st, h, b);
    ClosedAcross(st, h, h, t, c, b, y);
    ReportedForBucket(st, h, t, points, c, b);
  }

  lemma ListOfPending(st: Settings, h: History) returns (order: seq<real>)
    requires ValidSettings(st)
    ensures Lists(order, st, h)
  {
    var all := Keys.ElementsOf(PendingBuckets(st, h));
    order := Keys.InsertAll(all);
  }

  /** A flush reports exactly the counter mass of the fresh objects that it closes. */
  lemma ReportMass(st: Settings, h: History, t: real, points: seq<Point>, c: Context)
    requires ValidSettings(st) && ValidHistory(h + [Flush(t)]) && Reports(st, h, t, points)
    ensures PointsMass(st, points, c) == ClosedMass(st, h, h, t, c, Bucket(st, t), false)
  {
    LastEvent(h, Flush(t));
    var order := ListOfPending(st, h);
    if PendingBuckets(st, h) == {} {
      forall k | 0 <= k < |points| ensures !IsCounterPoint(points[k], c) || points[k].value == 0.0 {
        PointsForHas(points, k);
        assert PointsFor(points, points[k].timestamp, points[k].ctx) == Expected(st, h, t, points[k].timestamp, points[k].ctx);
      }
      ZerosHaveNoMass(st, points, c);
      forall k | 0 <= k < |h| && h[k].Submit? && NotYetFlushed(st, h, Bucket(st, h[k].at)) ensures Bucket(st, t) <= Bucket(st, h[k].at) {
        NothingBeforeFirst(st, h, order, Bucket(st, t), k);
        assert |order| > 0 ==> order[0] in PendingBuckets(st, h);
      }
      NothingClosedBelow(st, h, h, t, c, Bucket(st, t));
    } else {
      ReportMassUpTo(st, h, t, points, c, order, |order|);
      forall k | 0 <= k < |points| ensures points[k].timestamp < Bucket(st, t) {
        ReportedTimesArePending(st, h, t, points, k);
      }
      AllPointsBelow(st, points, c, Bucket(st, t));
    }
  }

  lemma {:induction false} ZerosHaveNoMass(st: Settings, points: seq<Point>, c: Context)
    requires forall k :: 0 <= k < |points| ==> !IsCounterPoint(points[k], c) || points[k].value == 0.0
    ensures PointsMass(st, points, c) == 0.0
  {
    if points != [] {
      ZerosHaveNoMass(st, points[..|points| - 1], c);
    }
  }

  // ---------- conservation over a run ----------

  /** A flush splits what was pending into what it reports, what it drops and what stays pending. */
  lemma {:induction false} FlushSplits(st: Settings, g: History, part: History, t: real, c: Context)
    requires ValidSettings(st)
    requires LastFlush(g).Some? ==> LastFlush(g).value <= t
    ensures PendingMass(st, g, part, c)
         == PendingMass(st, g + [Flush(t)], part, c)
            + ClosedMass(st, g, part, t, c, Bucket(st, t), false) + ClosedMass(st, g, part, t, c, Bucket(st, t), true)
  {
    PendingStep(st, g, Flush(t));
    if LastFlush(g).Some? {
      BucketMonotone(st, LastFlush(g).value, t);
    }
    if part != [] {
      FlushSplits(st, g, part[..|part| - 1], t, c);
    }
  }

  lemma {:induction false} PendingMassSame(st: Settings, g: History, e: Event, part: History, c: Context)
    requires ValidSettings(st) && e.Submit?
    ensures PendingMass(st, g + [e], part, c) == PendingMass(st, g, part, c)
  {
    PendingStep(st, g, e);
    if part != [] {
      PendingMassSame(st, g, e, part[..|part| - 1], c);
    }
  }

  lemma SubmitKeepsBalance(st: Settings, g: History, e: Event, c: Context)
    requires ValidSettings(st) && ValidHistory(g + [e]) && e.Submit?
    ensures PendingMass(st, g + [e], g + [e], c) == PendingMass(st, g, g, c) + MassFor(e, c)
    ensures DroppedMass(st, g + [e], c) == DroppedMass(st, g, c)
    ensures SubmittedMass(g + [e], c) == SubmittedMass(g, c) + MassFor(e, c)
  {
    var h := g + [e];
    assert h[..|g|] == g && h[|g|] == e;
    PendingMassSame(st, g, e, g, c);
    NewcomerIsUnreached(st, g, e);
    PendingStep(st, g, e);
  }

  lemma FlushKeepsBalance(st: Settings, g: History, t: real, points: seq<Point>, c: Context)
    requires ValidSettings(st) && ValidHistory(g + [Flush(t)]) && Reports(st, g, t, points)
    ensures PointsMass(st, points, c) + (DroppedMass(st, g + [Flush(t)], c) - DroppedMass(st, g, c))
            + PendingMass(st, g + [Flush(t)], g + [Flush(t)], c)
         == PendingMass(st, g, g, c)
    ensures SubmittedMass(g + [Flush(t)], c) == SubmittedMass(g, c)
  {
    var h := g + [Flush(t)];
    assert h[..|g|] == g && h[|g|] == Flush(t);
    LastEvent(g, Flush(t));
    if LastFlush(g).Some? {
      LastFlushIsEarlier(g);
    }
    FlushSplits(st, g, g, t, c);
    ReportMass(st, g, t, points, c);
  }

  /** For every run and every context: what was reported, multiplied out over the interval, plus what stale
      objects lost, plus what is pending, is what was submitted. */
  lemma {:induction false} MassIsConserved(st: Settings, h: History, out: seq<seq<Point>>, c: Context)
    requires ValidSettings(st) && ValidHistory(h) && IsRun(st, h, out)
    ensures ReportedMass(st, out, c) + DroppedMass(st, h, c) + PendingMass(st, h, h, c) == SubmittedMass(h, c)
  {
    if h != [] {
      var n := |h| - 1;
      assert h == h[..n] + [h[n]];
      MassIsConserved(st, h[..n], out[..n], c);
      if h[n].Submit? {
        SubmitKeepsBalance(st, h[..n], h[n], c);
      } else {
        FlushKeepsBalance(st, h[..n], h[n].at, out[n], c);
      }
    }
  }
}
