// How the functions of BatchSpec change when the history grows by one event,
// and where the submissions of a history can lie in time.
module BatchFacts {
  import opened Prelude
  import opened MetricSpec
  import opened TimeBuckets
  import opened BatchSpec

  // ---------- one more submission for the same object ----------

  /** All submissions of `a` reach an object of the same class as `r`. */
  ghost predicate AllOfKind(a: History, r: Reading) {
    forall i :: 0 <= i < |a| ==> a[i].Submit? && !a[i].reading.Unresolved? && SameKind(a[i].reading, r)
  }

  lemma BatchStateOfOne(e: Event)
    requires e.Submit? && !e.reading.Unresolved? && e.reading.Valid()
    ensures BatchState([e]) == SampleState(NewState(e.reading), e.reading, e.sampledAt)
  {
    var none: History := [];
    assert [e][..0] == none;
    match e.reading
    case GaugeReading(_) =>
    case CounterReading(_, _) =>
      assert CounterMass([e]) == CounterMass(none) + EventMass(e);
      assert LastSampled(none) == None;
    case HistogramReading(_, _) =>
      assert SampledCount(none) == 0 && SampledValues(none) == [] && LastSampled(none) == None;
      if e.reading.rate > 0.0 {
        assert SampledValues([e]) == SampledValues(none) + [e.reading.value];
      } else {
        assert SampledValues([e]) == SampledValues(none);
      }
    case SetReading(m) =>
      assert [e][0].reading.member in Members([e]);
      assert Members([e]) == {m};
  }

  lemma BatchStateStep(a: History, e: Event)
    requires a != [] && e.Submit? && !e.reading.Unresolved? && e.reading.Valid()
    requires AllOfKind(a, e.reading)
    ensures KindOf(BatchState(a), e.reading)
    ensures BatchState(a + [e]) == SampleState(BatchState(a), e.reading, e.sampledAt)
  {
    var b := a + [e];
    assert b[..|a|] == a && b[|a|] == e && b[0] == a[0];
    if e.reading.SetReading? {
      assert Members(b) == Members(a) + {e.reading.member} by {
        forall m | m in Members(a) + {e.reading.member} ensures m in Members(b) {
          if m in Members(a) {
            var i :| 0 <= i < |a| && a[i].Submit? && a[i].reading.SetReading? && a[i].reading.member == m;
            assert b[i].reading.member == m;
          } else {
            assert b[|a|].reading.member == m;
          }
        }
      }
    }
  }

  // ---------- one more event in the history ----------

  lemma ExtendHistory(h: History, e: Event)
    requires ValidHistory(h) && e.at <= e.End()
    requires h != [] ==> h[|h| - 1].End() <= e.at
    requires e.Submit? ==> e.reading.Valid() && KindFits(h, e.ctx, e.reading)
    ensures ValidHistory(h + [e])
  {
    assert (h + [e])[..|h|] == h;
  }

  lemma LastEvent(h: History, e: Event)
    requires ValidHistory(h + [e])
    ensures ValidHistory(h) && e.at <= e.End()
    ensures h != [] ==> h[|h| - 1].End() <= e.at
    ensures e.Submit? ==> e.reading.Valid() && KindFits(h, e.ctx, e.reading)
  {
    assert (h + [e])[..|h|] == h;
  }

  lemma {:induction false} PrefixIsValid(h: History, n: nat)
    requires ValidHistory(h) && n <= |h|
    ensures ValidHistory(h[..n])
  {
    if n < |h| {
      PrefixIsValid(h[..|h| - 1], n);
      assert h[..|h| - 1][..n] == h[..n];
    } else {
      assert h[..n] == h;
    }
  }

  lemma {:induction false} InOrder(h: History, i: nat, j: nat)
    requires WellTimed(h) && i < j < |h|
    ensures h[i].at <= h[i].End() <= h[j].at <= h[j].End()
  {
    var g := h[..|h| - 1];
    if j < |g| {
      InOrder(g, i, j);
    } else if i < j - 1 {
      InOrder(g, i, j - 1);
    } else {
      assert WellTimed(g[..|g| - 1]);
    }
  }

  lemma {:induction false} WithinCall(h: History, i: nat)
    requires WellTimed(h) && i < |h|
    ensures h[i].at <= h[i].End()
  {
    if i < |h| - 1 {
      WithinCall(h[..|h| - 1], i);
    }
  }

  lemma {:induction false} ContextHasOneKind(h: History, i: nat, j: nat)
    requires OneKindPerContext(h) && i < |h| && j < |h|
    requires h[i].Submit? && h[j].Submit? && h[i].ctx == h[j].ctx
    ensures SameKind(h[i].reading, h[j].reading) && h[i].reading.Valid()
  {
    var n := |h| - 1;
    if i < n && j < n {
      ContextHasOneKind(h[..n], i, j);
    } else if i < n {
      assert h[..n][i] in h[..n];
      ContextHasOneKind(h[..n], i, i);
    } else if j < n {
      assert h[..n][j] in h[..n];
    }
  }

  lemma OneKindOf(h: History, e: Event, f: Event)
    requires OneKindPerContext(h) && e in h && f in h
    requires e.Submit? && f.Submit? && e.ctx == f.ctx
    ensures SameKind(e.reading, f.reading) && e.reading.Valid()
  {
    var i :| 0 <= i < |h| && h[i] == e;
    var j :| 0 <= j < |h| && h[j] == f;
    ContextHasOneKind(h, i, j);
  }

  lemma AttemptsStep(st: Settings, h: History, e: Event, b: real, c: Context)
    requires ValidSettings(st)
    ensures Attempts(st, h + [e], b, c) == Attempts(st, h, b, c) + if Touches(st, e, b, c) then [e] else []
  {
    assert (h + [e])[..|h|] == h;
  }

  lemma PendingStep(st: Settings, h: History, e: Event)
    requires ValidSettings(st)
    ensures PendingBuckets(st, h + [e])
         == if e.Submit? then PendingBuckets(st, h) + {Bucket(st, e.at)}
            else set b | b in PendingBuckets(st, h) && Bucket(st, e.at) <= b
    ensures LastFlush(h + [e]) == if e.Flush? then Some(e.at) else LastFlush(h)
  {
    assert (h + [e])[..|h|] == h;
  }

  lemma AttemptsAreOneKind(st: Settings, h: History, b: real, c: Context)
    requires ValidSettings(st) && ValidHistory(h)
    ensures var a := Attempts(st, h, b, c);
            a != [] ==> a[0].Submit? && AllOfKind(a, a[0].reading) && forall i :: 0 <= i < |a| ==> a[i].reading.Valid()
  {
    var a := Attempts(st, h, b, c);
    forall i | 0 <= i < |a|
      ensures a[0].Submit? && a[i].Submit? && !a[i].reading.Unresolved?
      ensures SameKind(a[i].reading, a[0].reading) && a[i].reading.Valid()
    {
      AttemptsTouch(st, h, b, c, i);
      AttemptsTouch(st, h, b, c, 0);
      OneKindOf(h, a[i], a[0]);
    }
  }

  /** A submission for `c` has the kind of every earlier one. */
  lemma NewcomerFits(st: Settings, h: History, e: Event, b: real, c: Context)
    requires ValidSettings(st) && ValidHistory(h + [e]) && e.Submit? && e.ctx == c
    ensures AllOfKind(Attempts(st, h, b, c), e.reading)
    ensures e.reading.Valid()
  {
    LastEvent(h, e);
    var a := Attempts(st, h, b, c);
    forall i | 0 <= i < |a|
      ensures a[i].Submit? && !a[i].reading.Unresolved? && SameKind(a[i].reading, e.reading)
    {
      AttemptsTouch(st, h, b, c, i);
    }
  }

  // ---------- where submissions lie ----------

  /** Every submission that no flush has reached yet has its bucket pending. */
  lemma {:induction false} UnreachedIsPending(st: Settings, h: History, k: nat)
    requires ValidSettings(st) && WellTimed(h) && k < |h| && h[k].Submit?
    requires NotYetFlushed(st, h, Bucket(st, h[k].at))
    ensures Bucket(st, h[k].at) in PendingBuckets(st, h)
  {
    var n := |h| - 1;
    if k < n {
      var g := h[..n];
      assert g[k] == h[k];
      if h[n].Flush? && LastFlush(g).Some? {
        LastFlushIsEarlier(g);
        BucketMonotone(st, LastFlush(g).value, h[n].at);
      }
      UnreachedIsPending(st, g, k);
    }
  }

  lemma {:induction false} LastFlushIsEarlier(h: History)
    requires WellTimed(h) && LastFlush(h).Some?
    ensures h != [] && LastFlush(h).value <= h[|h| - 1].End()
  {
    if !h[|h| - 1].Flush? {
      LastFlushIsEarlier(h[..|h| - 1]);
    }
  }

  /** What is pending was submitted, and no flush has reached it. */
  lemma {:induction false} PendingIsUnreached(st: Settings, h: History, b: real) returns (k: nat)
    requires ValidSettings(st) && WellTimed(h) && b in PendingBuckets(st, h)
    ensures k < |h| && h[k].Submit? && Bucket(st, h[k].at) == b
    ensures NotYetFlushed(st, h, b)
  {
    var n := |h| - 1;
    var g := h[..n];
    if h[n].Submit? && Bucket(st, h[n].at) == b {
      k := n;
      if LastFlush(h).Some? {
        LastFlushIsEarlier(g);
        BucketMonotone(st, LastFlush(h).value, h[n].at);
      }
    } else {
      k := PendingIsUnreached(st, g, b);
    }
  }

  /** A new submission comes at or after every flush. */
  lemma NewcomerIsUnreached(st: Settings, h: History, e: Event)
    requires ValidSettings(st) && ValidHistory(h + [e])
    ensures NotYetFlushed(st, h, Bucket(st, e.at))
  {
    LastEvent(h, e);
    if LastFlush(h).Some? {
      LastFlushIsEarlier(h);
      BucketMonotone(st, LastFlush(h).value, e.at);
    }
  }

  lemma UnlistedBucketIsEmpty(st: Settings, h: History, b: real, c: Context)
    requires ValidSettings(st) && WellTimed(h)
    requires NotYetFlushed(st, h, b) && b !in PendingBuckets(st, h)
    ensures Attempts(st, h, b, c) == []
  {
    if Attempts(st, h, b, c) != [] {
      AttemptsTouch(st, h, b, c, 0);
      var k :| 0 <= k < |h| && h[k] == Attempts(st, h, b, c)[0];
      UnreachedIsPending(st, h, k);
    }
  }

  lemma RunWithSubmit(st: Settings, h: History, out: seq<seq<Point>>, e: Event)
    requires ValidSettings(st) && IsRun(st, h, out) && e.Submit?
    ensures IsRun(st, h + [e], out + [[]])
  {
    hide Reports;
    WithOneMore(h, e);
    WithOneMore(out, []);
  }

  lemma RunWithFlush(st: Settings, h: History, out: seq<seq<Point>>, t: real, points: seq<Point>)
    requires ValidSettings(st) && IsRun(st, h, out)
    requires Reports(st, h, t, points)
    ensures IsRun(st, h + [Flush(t)], out + [points])
  {
    hide Reports;
    WithOneMore(h, Flush(t));
    WithOneMore(out, points);
  }

  ghost predicate NoSubmitIn(st: Settings, h: History, x: real, y: real)
    requires ValidSettings(st)
  {
    forall k :: 0 <= k < |h| && h[k].Submit? ==> !(x <= Bucket(st, h[k].at) < y)
  }

  // ---------- the last sample before a bucket ----------

  lemma {:induction false} BelowSkipsGap(st: Settings, h: History, x: real, y: real, c: Context)
    requires ValidSettings(st) && x <= y && NoSubmitIn(st, h, x, y)
    ensures CounterAttemptsBelow(st, h, y, c) == CounterAttemptsBelow(st, h, x, c)
  {
    if h != [] {
      var g := h[..|h| - 1];
      assert forall k :: 0 <= k < |g| ==> g[k] == h[k];
      BelowSkipsGap(st, g, x, y, c);
    }
  }

  lemma PriorLastSkipsGap(st: Settings, h: History, x: real, y: real, c: Context)
    requires ValidSettings(st) && x <= y && NoSubmitIn(st, h, x, y)
    ensures PriorLast(st, h, y, c) == PriorLast(st, h, x, c)
  {
    BelowSkipsGap(st, h, x, y, c);
  }

  lemma {:induction false} BelowAre(st: Settings, h: History, x: real, c: Context, k: int)
    requires ValidSettings(st) && 0 <= k < |CounterAttemptsBelow(st, h, x, c)|
    ensures var e := CounterAttemptsBelow(st, h, x, c)[k];
            e in h && e.Submit? && e.reading.CounterReading? && e.ctx == c && Bucket(st, e.at) < x
  {
    if k < |CounterAttemptsBelow(st, h[..|h| - 1], x, c)| {
      BelowAre(st, h[..|h| - 1], x, c, k);
    }
  }

  /** Submissions for a bucket that holds `c` as a counter come last among those below the next bucket. */
  lemma {:induction false} BelowEndsWithBucket(st: Settings, h: History, b: real, y: real, c: Context)
    requires ValidSettings(st) && ValidHistory(h) && b < y
    requires forall k :: 0 <= k < |h| && h[k].Submit? ==> !(b < Bucket(st, h[k].at) < y)
    requires Attempts(st, h, b, c) != [] && Attempts(st, h, b, c)[0].Submit? && Attempts(st, h, b, c)[0].reading.CounterReading?
    ensures var below := CounterAttemptsBelow(st, h, y, c);
            below != [] && Bucket(st, below[|below| - 1].at) == b
  {
    var n := |h| - 1;
    var g := h[..n];
    var e := h[n];
    if Touches(st, e, b, c) {
      AttemptsAreOneKind(st, h, b, c);
      var a := Attempts(st, h, b, c);
      assert a[|a| - 1] == e;
    } else {
      assert Attempts(st, h, b, c) == Attempts(st, g, b, c);
      AttemptsTouch(st, g, b, c, 0);
      var k :| 0 <= k < |g| && g[k] == Attempts(st, g, b, c)[0];
      assert h[k] == g[k];
      InOrder(h, k, n);
      BucketMonotone(st, h[k].at, e.at);
      PrefixIsValid(h, n);
      assert forall i :: 0 <= i < |g| ==> g[i] == h[i];
      BelowEndsWithBucket(st, g, b, y, c);
    }
  }

  lemma {:induction false} BelowWithoutBucket(st: Settings, h: History, b: real, y: real, c: Context)
    requires ValidSettings(st) && b < y
    requires forall k :: 0 <= k < |h| && h[k].Submit? ==> !(b < Bucket(st, h[k].at) < y)
    requires Attempts(st, h, b, c) == []
    ensures CounterAttemptsBelow(st, h, y, c) == CounterAttemptsBelow(st, h, b, c)
  {
    if h != [] {
      var g := h[..|h| - 1];
      assert forall i :: 0 <= i < |g| ==> g[i] == h[i];
      BelowWithoutBucket(st, g, b, y, c);
    }
  }

  /** PriorLast of the bucket that follows `b`. */
  function PriorAfter(st: Settings, h: History, b: real, c: Context): Option<real>
    requires ValidSettings(st)
  {
    var a := Attempts(st, h, b, c);
    if a == [] then PriorLast(st, h, b, c)
    else if a[0].Submit? && a[0].reading.CounterReading? then LastSampled(a)
    else None
  }

  lemma PriorLastAcross(st: Settings, h: History, b: real, y: real, c: Context)
    requires ValidSettings(st) && ValidHistory(h) && b < y
    requires forall k :: 0 <= k < |h| && h[k].Submit? ==> !(b < Bucket(st, h[k].at) < y)
    ensures PriorLast(st, h, y, c) == PriorAfter(st, h, b, c)
  {
    var a := Attempts(st, h, b, c);
    if a == [] {
      BelowWithoutBucket(st, h, b, y, c);
    } else {
      AttemptsTouch(st, h, b, c, 0);
      if a[0].reading.CounterReading? {
        BelowEndsWithBucket(st, h, b, y, c);
      } else {
        OtherKindHasNoPrior(st, h, b, y, c);
      }
    }
  }

  /** A context that some bucket holds as another kind is nowhere a counter. */
  lemma OtherKindHasNoPrior(st: Settings, h: History, b: real, x: real, c: Context)
    requires ValidSettings(st) && ValidHistory(h)
    requires var a := Attempts(st, h, b, c); a != [] && a[0].Submit? && !a[0].reading.CounterReading?
    ensures PriorLast(st, h, x, c) == None
  {
    AttemptsTouch(st, h, b, c, 0);
    if CounterAttemptsBelow(st, h, x, c) != [] {
      BelowAre(st, h, x, c, 0);
      OneKindOf(h, Attempts(st, h, b, c)[0], CounterAttemptsBelow(st, h, x, c)[0]);
    }
  }

  /** Events at or after `x` do not matter for the buckets before `x`. */
  lemma PriorLastIgnoresLater(st: Settings, h: History, e: Event, x: real, c: Context)
    requires ValidSettings(st)
    requires e.Submit? ==> x <= Bucket(st, e.at)
    ensures PriorLast(st, h + [e], x, c) == PriorLast(st, h, x, c)
  {
    assert (h + [e])[..|h|] == h;
    var below := CounterAttemptsBelow(st, h, x, c);
    assert CounterAttemptsBelow(st, h + [e], x, c) == below;
    if below != [] {
      var b := Bucket(st, below[|below| - 1].at);
      BelowAre(st, h, x, c, |below| - 1);
      assert !Touches(st, e, b, c);
      assert Attempts(st, h + [e], b, c) == Attempts(st, h, b, c);
    }
  }

  // ---------- lists of points ----------

  lemma {:induction false} PointsForConcat(p: seq<Point>, q: seq<Point>, b: real, c: Context)
    ensures PointsFor(p + q, b, c) == PointsFor(p, b, c) + PointsFor(q, b, c)
  {
    if q == [] {
      assert p + q == p;
    } else {
      assert (p + q)[..|p + q| - 1] == p + q[..|q| - 1];
      PointsForConcat(p, q[..|q| - 1], b, c);
    }
  }

  ghost predicate AllAt(points: seq<Point>, b: real, c: Context) {
    forall i :: 0 <= i < |points| ==> points[i].timestamp == b && points[i].ctx == c
  }

  lemma {:induction false} PointsForAll(points: seq<Point>, b: real, c: Context)
    requires AllAt(points, b, c)
    ensures PointsFor(points, b, c) == points
  {
    if points != [] {
      PointsForAll(points[..|points| - 1], b, c);
      assert points == points[..|points| - 1] + [points[|points| - 1]];
    }
  }

  lemma {:induction false} PointsForNone(points: seq<Point>, b: real, c: Context)
    requires forall i :: 0 <= i < |points| ==> points[i].timestamp != b || points[i].ctx != c
    ensures PointsFor(points, b, c) == []
  {
    if points != [] {
      PointsForNone(points[..|points| - 1], b, c);
    }
  }

  lemma {:induction false} AggregatePointsAt(ctx: Context, wanted: set<string>, all: seq<(string, real, MetricType)>, ts: real)
    ensures AllAt(AggregatePoints(ctx, wanted, all, ts), ts, ctx)
  {
    if all != [] {
      AggregatePointsAt(ctx, wanted, all[..|all| - 1], ts);
    }
  }

  lemma {:induction false} PercentilePointsAt(ctx: Context, percentiles: seq<real>, samples: seq<real>, ts: real)
    requires samples != [] && InUnit(percentiles)
    ensures AllAt(PercentilePoints(ctx, percentiles, samples, ts), ts, ctx)
  {
    if percentiles != [] {
      PercentilePointsAt(ctx, percentiles[..|percentiles| - 1], samples, ts);
    }
  }

  lemma FlushPointsAt(hc: HistogramConfig, interval: real, ctx: Context, s: MetricState, ts: real)
    requires ValidHistogramConfig(hc) && interval > 0.0
    ensures AllAt(FlushPoints(hc, interval, ctx, s, ts), ts, ctx)
  {
    if s.HistogramState? && s.count != 0 && s.samples != [] {
      AggregatePointsAt(ctx, hc.aggregates, AllAggregates(s.count, s.samples, interval), ts);
      PercentilePointsAt(ctx, hc.percentiles, s.samples, ts);
    }
  }

  /** A histogram that counted something has samples. */
  lemma {:induction false} CountedHasSamples(a: History)
    ensures SampledCount(a) != 0 ==> SampledValues(a) != []
  {
    if a != [] {
      CountedHasSamples(a[..|a| - 1]);
    }
  }
}
