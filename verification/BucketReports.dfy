// What a closed bucket reports for a gauge, a set and a histogram, told by the
// submissions alone.
module BucketReports {
  import opened Prelude
  import opened MetricSpec
  import opened TimeBuckets
  import opened BatchSpec
  import opened BatchFacts
  import opened ZeroFillTheorems
  import HistogramReports

  /** The i-th call is the last one that reaches context `c` in bucket `b`. */
  ghost predicate IsLast(st: Settings, h: History, b: real, c: Context, i: nat)
    requires ValidSettings(st)
  {
    i < |h| && Touches(st, h[i], b, c) && forall j :: i < j < |h| ==> !Touches(st, h[j], b, c)
  }

  lemma {:induction false} AttemptsEnd(st: Settings, h: History, b: real, c: Context, i: nat)
    requires ValidSettings(st) && IsLast(st, h, b, c, i)
    ensures var a := Attempts(st, h, b, c); a != [] && a[|a| - 1] == h[i]
  {
    hide Touches;
    var n := |h| - 1;
    if i < n {
      assert forall j :: i < j < n ==> h[..n][j] == h[j];
      AttemptsEnd(st, h[..n], b, c, i);
    }
  }

  lemma {:induction false} TouchingIsAttempt(st: Settings, h: History, b: real, c: Context, e: Event)
    requires ValidSettings(st) && e in h && Touches(st, e, b, c)
    ensures e in Attempts(st, h, b, c)
  {
    hide Touches;
    var n := |h| - 1;
    InitAndLast(h, n);
    if e != h[n] {
      TouchingIsAttempt(st, h[..n], b, c, e);
    }
  }

  /** The attempts of one kind are all of the kind of the last one. */
  lemma SameKindAsLast(st: Settings, h: History, b: real, c: Context, i: nat)
    requires ValidSettings(st) && ValidHistory(h) && IsLast(st, h, b, c, i)
    ensures var a := Attempts(st, h, b, c);
            && a != [] && a[|a| - 1] == h[i]
            && a[0].Submit? && !a[0].reading.Unresolved? && SameKind(a[0].reading, h[i].reading)
  {
    hide Attempts, ValidHistory;
    AttemptsEnd(st, h, b, c, i);
    AttemptsTouch(st, h, b, c, 0);
    AttemptsAreOneKind(st, h, b, c);
    var a := Attempts(st, h, b, c);
    KindOfLast(a);
  }

  lemma KindOfLast(a: History)
    requires a != [] && a[0].Submit? && AllOfKind(a, a[0].reading)
    ensures a[|a| - 1].Submit? && SameKind(a[|a| - 1].reading, a[0].reading)
  {
  }

  lemma ClosedReport(st: Settings, h: History, t: real, points: seq<Point>, b: real, c: Context, i: nat)
    requires ValidSettings(st) && ValidHistory(h) && Reports(st, h, t, points)
    requires b in PendingBuckets(st, h) && b < Bucket(st, t) && IsLast(st, h, b, c, i)
    ensures var a := Attempts(st, h, b, c);
            && a != [] && a[0].Submit? && !a[0].reading.Unresolved?
            && PointsFor(points, b, c)
               == if Fresh(LastSampled(a), t - st.expiry) then FlushPoints(st.histogram, st.interval, c, BatchState(a), b)
                  else []
  {
    hide Bucket, PendingBuckets, Attempts, LastSampled, FlushPoints, Fresh, Expected, ValidHistory;
    SameKindAsLast(st, h, b, c, i);
    assert PointsFor(points, b, c) == Expected(st, h, t, b, c);
    ExpectedOfBucket(st, h, t, b, c);
  }

  /** A gauge reports the value of its last sample in the bucket, if that is recent. */
  lemma GaugeReport(st: Settings, h: History, t: real, points: seq<Point>, b: real, c: Context, i: nat)
    requires ValidSettings(st) && ValidHistory(h) && Reports(st, h, t, points)
    requires b in PendingBuckets(st, h) && b < Bucket(st, t) && IsLast(st, h, b, c, i) && h[i].reading.GaugeReading?
    ensures PointsFor(points, b, c)
            == if t - st.expiry <= h[i].sampledAt then [Point(c, Plain, GaugeType, b, h[i].reading.value)] else []
  {
    hide Bucket, PendingBuckets, Attempts, Reports, ValidHistory;
    ClosedReport(st, h, t, points, b, c, i);
    SameKindAsLast(st, h, b, c, i);
  }

  /** A set reports the number of different members submitted to the bucket, if the last one is recent. */
  lemma SetReport(st: Settings, h: History, t: real, points: seq<Point>, b: real, c: Context, i: nat)
    requires ValidSettings(st) && ValidHistory(h) && Reports(st, h, t, points)
    requires b in PendingBuckets(st, h) && b < Bucket(st, t) && IsLast(st, h, b, c, i) && h[i].reading.SetReading?
    ensures var members := set e | e in h && Touches(st, e, b, c) && e.reading.SetReading? :: e.reading.member;
            PointsFor(points, b, c)
            == if t - st.expiry <= h[i].sampledAt then [Point(c, Plain, GaugeType, b, |members| as real)] else []
  {
    hide Bucket, PendingBuckets, Attempts, Reports, ValidHistory;
    ClosedReport(st, h, t, points, b, c, i);
    SameKindAsLast(st, h, b, c, i);
    MembersAre(st, h, b, c);
    var a := Attempts(st, h, b, c);
    assert a[|a| - 1].reading.member in Members(a);
  }

  lemma MembersAre(st: Settings, h: History, b: real, c: Context)
    requires ValidSettings(st)
    ensures Members(Attempts(st, h, b, c))
            == set e | e in h && Touches(st, e, b, c) && e.reading.SetReading? :: e.reading.member
  {
    hide Bucket, Attempts;
    var a := Attempts(st, h, b, c);
    var members := set e | e in h && Touches(st, e, b, c) && e.reading.SetReading? :: e.reading.member;
    forall m | m in Members(a) ensures m in members {
      var k :| 0 <= k < |a| && a[k].Submit? && a[k].reading.SetReading? && a[k].reading.member == m;
      AttemptsTouch(st, h, b, c, k);
    }
    forall m | m in members ensures m in Members(a) {
      var e :| e in h && Touches(st, e, b, c) && e.reading.SetReading? && e.reading.member == m;
      TouchingIsAttempt(st, h, b, c, e);
      var k :| 0 <= k < |a| && a[k] == e;
    }
  }

  /** A histogram reports the summary of the samples in the bucket that did not raise, if one of them is recent. */
  lemma HistogramReport(st: Settings, h: History, t: real, points: seq<Point>, b: real, c: Context, i: nat)
    requires ValidSettings(st) && ValidHistory(h) && Reports(st, h, t, points)
    requires b in PendingBuckets(st, h) && b < Bucket(st, t) && IsLast(st, h, b, c, i) && h[i].reading.HistogramReading?
    ensures var a := Attempts(st, h, b, c);
            PointsFor(points, b, c)
            == if CountedIn(st, h, b, c, t - st.expiry) then
                 HistogramReports.Report(st.histogram, st.interval, c, SampledCount(a), SampledValues(a), LastSampled(a), b)
               else []
  {
    hide Bucket, PendingBuckets, Attempts, Reports, ValidHistory, CountedIn, Fresh, LastSampled, SampledCount, SampledValues,
         FlushPoints;
    ClosedReport(st, h, t, points, b, c, i);
    SameKindAsLast(st, h, b, c, i);
    TimedHistory(h);
    SampledFreshIff(st, h, b, c, t - st.expiry);
  }

  lemma TimedHistory(h: History)
    requires ValidHistory(h)
    ensures WellTimed(h)
  {
  }
}
