// Why one flush, bucket after bucket in ascending order, reports what BatchSpec
// recomputes and leaves fields that match the longer history.
module FlushHistory {
  import opened Prelude
  import opened MetricSpec
  import opened TimeBuckets
  import opened BatchSpec
  import opened BatchFacts
  import opened Tables
  import opened Keys
  import opened TableHistory

  // ---------- the loop over the buckets ----------

  /** `order` lists the pending buckets. */
  ghost predicate Lists(order: seq<real>, st: Settings, h: History)
    requires ValidSettings(st)
  {
    Ascending(order) && forall b :: b in order <==> b in PendingBuckets(st, h)
  }

  /** How far the last-sample map has got when the buckets before position `i` are closed. */
  function Stop(order: seq<real>, i: nat, cutoff: real): real {
    if i < |order| && order[i] < cutoff then order[i] else cutoff
  }

  ghost predicate Closed(order: seq<real>, i: nat, cutoff: real, b: real)
    requires i <= |order|
  {
    b in order[..i] && b < cutoff
  }

  function BucketReportIf(closed: bool, st: Settings, h: History, threshold: real, b: real, c: Context): seq<Point>
    requires ValidSettings(st)
  {
    if closed then BucketReport(st, h, threshold, b, c) else []
  }

  ghost predicate ReportsClosed(points: seq<Point>, st: Settings, h: History, order: seq<real>, i: nat, cutoff: real,
                                threshold: real)
    requires ValidSettings(st) && i <= |order|
  {
    && InTimeOrder(points)
    && (forall k :: 0 <= k < |points| ==> Closed(order, i, cutoff, points[k].timestamp))
    && forall b, c :: PointsFor(points, b, c) == BucketReportIf(Closed(order, i, cutoff, b), st, h, threshold, b, c)
  }

  ghost predicate FlushLoop(points: seq<Point>, pending: Pending, last: map<Context, real>, st: Settings, h: History,
                            before: Pending, order: seq<real>, i: nat, cutoff: real, threshold: real)
    requires ValidSettings(st) && i <= |order|
  {
    && (forall b :: b in pending <==> b in before && !Closed(order, i, cutoff, b))
    && (forall b :: b in pending ==> pending[b] == before[b])
    && LastTracks(last, st, h, Stop(order, i, cutoff), threshold)
    && ReportsClosed(points, st, h, order, i, cutoff, threshold)
  }

  lemma AscendingOrder(order: seq<real>, i: nat, j: nat)
    requires Ascending(order)
    ensures i <= j < |order| ==> order[i] <= order[j]
  {
  }

  /** Nothing was submitted between a pending bucket and the next stop. */
  lemma NothingBetween(st: Settings, h: History, order: seq<real>, i: nat, cutoff: real)
    requires ValidSettings(st) && ValidHistory(h) && Lists(order, st, h)
    requires i < |order| && order[i] < cutoff
    ensures order[i] < Stop(order, i + 1, cutoff)
    ensures forall k :: 0 <= k < |h| && h[k].Submit? ==> !(order[i] < Bucket(st, h[k].at) < Stop(order, i + 1, cutoff))
  {
    var y := Stop(order, i + 1, cutoff);
    forall k | 0 <= k < |h| && h[k].Submit? ensures !(order[i] < Bucket(st, h[k].at) < y) {
      var x := Bucket(st, h[k].at);
      if order[i] < x {
        assert order[i] in order;
        var w := PendingIsUnreached(st, h, order[i]);
        UnreachedIsPending(st, h, k);
        assert x in order;
        var j :| 0 <= j < |order| && order[j] == x;
        AscendingOrder(order, j, i);
        AscendingOrder(order, i + 1, j);
      }
    }
  }

  /** Nothing was submitted between what the last flush reached and the first pending bucket. */
  lemma NothingBeforeFirst(st: Settings, h: History, order: seq<real>, cutoff: real, k: nat)
    requires ValidSettings(st) && ValidHistory(h) && Lists(order, st, h)
    requires k < |h| && h[k].Submit? && NotYetFlushed(st, h, Bucket(st, h[k].at))
    ensures Stop(order, 0, cutoff) <= Bucket(st, h[k].at)
  {
    var x := Bucket(st, h[k].at);
    UnreachedIsPending(st, h, k);
    assert x in order;
    var j :| 0 <= j < |order| && order[j] == x;
    AscendingOrder(order, 0, j);
  }

  lemma StopIsReached(st: Settings, h: History, order: seq<real>, t: real)
    requires ValidSettings(st) && ValidHistory(h + [Flush(t)]) && Lists(order, st, h) && LastFlush(h).Some?
    ensures Bucket(st, LastFlush(h).value) <= Stop(order, 0, Bucket(st, t))
    ensures LastFlush(h).value <= t
  {
    LastEvent(h, Flush(t));
    LastFlushIsEarlier(h);
    BucketMonotone(st, LastFlush(h).value, t);
    if order != [] {
      assert order[0] in order;
      var k := PendingIsUnreached(st, h, order[0]);
    }
  }

  /** When a flush at `t` starts, the last-sample map is right up to the first pending bucket. */
  lemma TracksAtStart(last: map<Context, real>, cutoff: real, st: Settings, h: History, order: seq<real>, t: real)
    requires ValidSettings(st) && ValidHistory(h + [Flush(t)]) && Lists(order, st, h)
    requires MemoryMatches(last, cutoff, st, h)
    ensures LastTracks(last, st, h, Stop(order, 0, Bucket(st, t)), t - st.expiry)
  {
    LastEvent(h, Flush(t));
    var x := Stop(order, 0, Bucket(st, t));
    forall c
      ensures c in last ==> PriorLast(st, h, x, c) == Some(last[c])
      ensures Fresh(PriorLast(st, h, x, c), t - st.expiry) ==> c in last
    {
      if LastFlush(h).None? {
        if CounterAttemptsBelow(st, h, x, c) != [] {
          BelowAre(st, h, x, c, 0);
          var k :| 0 <= k < |h| && h[k] == CounterAttemptsBelow(st, h, x, c)[0];
          NothingBeforeFirst(st, h, order, Bucket(st, t), k);
        }
      } else {
        StopIsReached(st, h, order, t);
        forall k | 0 <= k < |h| && h[k].Submit? ensures !(cutoff <= Bucket(st, h[k].at) < x) {
          if cutoff <= Bucket(st, h[k].at) {
            NothingBeforeFirst(st, h, order, Bucket(st, t), k);
          }
        }
        PriorLastSkipsGap(st, h, cutoff, x, c);
      }
    }
  }

  lemma FlushLoopStart(pending: Pending, last: map<Context, real>, cutoff: real, st: Settings, h: History,
                       out: seq<seq<Point>>, order: seq<real>, t: real)
    requires ValidSettings(st) && ValidHistory(h + [Flush(t)]) && Consistent(st, h, out, pending, last, cutoff)
    requires Ascending(order) && forall b :: b in order <==> b in pending.Keys
    ensures ValidHistory(h) && IsRun(st, h, out) && PendingMatches(pending, st, h) && PendingBuckets(st, h) == pending.Keys
    ensures Lists(order, st, h) && FlushLoop([], pending, last, st, h, pending, order, 0, Bucket(st, t), t - st.expiry)
  {
    TracksAtStart(last, cutoff, st, h, order, t);
  }

  lemma InOrderPrefix(order: seq<real>, i: nat, b: real)
    requires Ascending(order) && i < |order|
    ensures b in order[..i + 1] <==> b in order[..i] || b == order[i]
    ensures b in order[..i] ==> b < order[i]
  {
    assert order[..i + 1] == order[..i] + [order[i]];
  }

  /** Buckets at or after the cutoff stay. */
  lemma FlushLoopSkip(points: seq<Point>, pending: Pending, last: map<Context, real>, st: Settings, h: History,
                      before: Pending, order: seq<real>, i: nat, cutoff: real, threshold: real)
    requires ValidSettings(st) && Ascending(order) && i < |order| && cutoff <= order[i]
    requires FlushLoop(points, pending, last, st, h, before, order, i, cutoff, threshold)
    ensures FlushLoop(points, pending, last, st, h, before, order, i + 1, cutoff, threshold)
  {
    forall b ensures Closed(order, i + 1, cutoff, b) == Closed(order, i, cutoff, b) {
      InOrderPrefix(order, i, b);
    }
    if i + 1 < |order| {
      assert order[i] < order[i + 1];
    }
  }

  /** The points of one more bucket. */
  lemma ReportsOneMore(points: seq<Point>, more: seq<Point>, st: Settings, h: History, order: seq<real>, i: nat,
                       cutoff: real, threshold: real)
    requires ValidSettings(st) && Ascending(order) && i < |order| && order[i] < cutoff
    requires ReportsClosed(points, st, h, order, i, cutoff, threshold)
    requires AllTimes(more, order[i])
    requires forall c :: PointsFor(more, order[i], c) == BucketReport(st, h, threshold, order[i], c)
    ensures ReportsClosed(points + more, st, h, order, i + 1, cutoff, threshold)
  {
    var all := points + more;
    forall k | 0 <= k < |all| ensures Closed(order, i + 1, cutoff, all[k].timestamp) {
      InOrderPrefix(order, i, all[k].timestamp);
    }
    forall j, k | 0 <= j < k < |all| ensures all[j].timestamp <= all[k].timestamp {
      if j < |points| <= k {
        InOrderPrefix(order, i, points[j].timestamp);
      }
    }
    forall b, c ensures PointsFor(all, b, c) == BucketReportIf(Closed(order, i + 1, cutoff, b), st, h, threshold, b, c) {
      InOrderPrefix(order, i, b);
      PointsForConcat(points, more, b, c);
      if b == order[i] {
        assert !Closed(order, i, cutoff, b);
      } else {
        PointsForNone(more, b, c);
      }
    }
  }

  lemma ConcatReports(table: seq<Point>, zeros: seq<Point>, st: Settings, h: History, held: map<Context, MetricState>,
                      times: map<Context, real>, threshold: real, b: real)
    requires ValidSettings(st)
    requires ReportsTable(table, st, held, threshold, b) && ReportsZeros(zeros, times, threshold, b)
    requires forall c :: TableReport(st, held, threshold, b, c) + ZeroReport(times, threshold, b, c)
                      == BucketReport(st, h, threshold, b, c)
    ensures forall c :: PointsFor(table + zeros, b, c) == BucketReport(st, h, threshold, b, c)
  {
    forall c ensures PointsFor(table + zeros, b, c) == BucketReport(st, h, threshold, b, c) {
      PointsForConcat(table, zeros, b, c);
    }
  }

  /** One bucket closed: its table reported, the missing counters zero-filled, its entry deleted. */
  /** The table whose turn it is, untouched so far. */
  lemma TurnHolds(points: seq<Point>, pending: Pending, last: map<Context, real>, st: Settings, h: History,
                  before: Pending, order: seq<real>, i: nat, cutoff: real, threshold: real)
    requires ValidSettings(st) && Lists(order, st, h) && PendingMatches(before, st, h)
    requires i < |order| && FlushLoop(points, pending, last, st, h, before, order, i, cutoff, threshold)
    ensures var b := order[i];
            && b in before && b in pending && pending[b] == before[b]
            && forall c :: c in before[b] ==> Sane(before[b][c])
  {
    var b := order[i];
    assert b in order;
    InOrderPrefix(order, i, b);
    HeldIsSane(before[b], st, h, b);
  }

  lemma FlushLoopStep(points: seq<Point>, pending: Pending, last: map<Context, real>, st: Settings, h: History,
                      before: Pending, order: seq<real>, i: nat, cutoff: real, threshold: real,
                      table: seq<Point>, zeros: seq<Point>)
    requires ValidSettings(st) && ValidHistory(h) && Lists(order, st, h) && PendingMatches(before, st, h)
    requires i < |order| && order[i] < cutoff
    requires FlushLoop(points, pending, last, st, h, before, order, i, cutoff, threshold)
    ensures order[i] in pending
    requires ReportsTable(table, st, before[order[i]], threshold, order[i]) && AllTimes(table, order[i])
    requires ReportsZeros(zeros, NotSampled(last, before[order[i]], threshold), threshold, order[i]) && AllTimes(zeros, order[i])
    ensures var times := NotSampled(last, before[order[i]], threshold);
            FlushLoop(points + (table + zeros), pending - {order[i]},
                      Unexpired(AfterTable(last, before[order[i]], threshold), times, threshold),
                      st, h, before, order, i + 1, cutoff, threshold)
  {
    var b, held := order[i], before[order[i]];
    var times := NotSampled(last, held, threshold);
    assert b in order;
    InOrderPrefix(order, i, b);
    NothingBetween(st, h, order, i, cutoff);
    BucketStep(st, h, held, last, threshold, b, Stop(order, i + 1, cutoff));
    ConcatReports(table, zeros, st, h, held, times, threshold, b);
    ReportsOneMore(points, table + zeros, st, h, order, i, cutoff, threshold);
    forall x ensures Closed(order, i + 1, cutoff, x) <==> Closed(order, i, cutoff, x) || x == b {
      InOrderPrefix(order, i, x);
    }
  }

  // ---------- the end of a flush ----------

  lemma PendingAfterFlush(pending: Pending, before: Pending, st: Settings, h: History, t: real)
    requires ValidSettings(st) && PendingMatches(before, st, h)
    requires forall b :: b in pending <==> b in before && !(b in PendingBuckets(st, h) && b < Bucket(st, t))
    requires forall b :: b in pending ==> pending[b] == before[b]
    ensures PendingMatches(pending, st, h + [Flush(t)])
  {
    PendingStep(st, h, Flush(t));
    forall b | b in pending ensures MatchesHistory(pending[b], st, h + [Flush(t)], b) {
      MatchesElsewhere(before[b], st, h, Flush(t), b);
    }
  }

  lemma MemoryAfterFlush(last: map<Context, real>, st: Settings, h: History, t: real)
    requires ValidSettings(st) && LastTracks(last, st, h, Bucket(st, t), t - st.expiry)
    ensures MemoryMatches(last, Bucket(st, t), st, h + [Flush(t)])
  {
    PendingStep(st, h, Flush(t));
    forall c ensures PriorLast(st, h + [Flush(t)], Bucket(st, t), c) == PriorLast(st, h, Bucket(st, t), c) {
      PriorLastIgnoresLater(st, h, Flush(t), Bucket(st, t), c);
    }
  }

  lemma ExpectedWithBuckets(st: Settings, h: History, t: real, b: real, c: Context)
    requires ValidSettings(st) && PendingBuckets(st, h) != {}
    ensures Expected(st, h, t, b, c)
         == BucketReportIf(b in PendingBuckets(st, h) && b < Bucket(st, t), st, h, t - st.expiry, b, c)
  {
  }

  lemma ExpectedWhenIdle(last: map<Context, real>, st: Settings, h: History, t: real, b: real, c: Context)
    requires ValidSettings(st) && PendingBuckets(st, h) == {} && IdleDue(st, h, Bucket(st, t))
    requires LastTracks(last, st, h, Bucket(st, t), t - st.expiry)
    ensures Expected(st, h, t, b, c)
         == if b == Bucket(st, t) - st.interval then ZeroReport(last, t - st.expiry, b, c) else []
  {
    hide Bucket, PriorLast, PendingBuckets, LastFlush, BucketReport;
    assert b !in PendingBuckets(st, h);
    var prior := PriorLast(st, h, Bucket(st, t), c);
    assert Fresh(prior, t - st.expiry) <==> c in last && t - st.expiry <= last[c];
  }

  lemma ClosedAtEnd(order: seq<real>, st: Settings, h: History, cutoff: real, b: real)
    requires ValidSettings(st) && Lists(order, st, h)
    ensures Closed(order, |order|, cutoff, b) <==> b in PendingBuckets(st, h) && b < cutoff
  {
    assert order[..|order|] == order;
  }

  lemma ReportsBuckets(points: seq<Point>, st: Settings, h: History, order: seq<real>, t: real)
    requires ValidSettings(st) && Lists(order, st, h) && PendingBuckets(st, h) != {}
    requires ReportsClosed(points, st, h, order, |order|, Bucket(st, t), t - st.expiry)
    ensures Reports(st, h, t, points)
  {
    forall b, c ensures PointsFor(points, b, c) == Expected(st, h, t, b, c) {
      ClosedAtEnd(order, st, h, Bucket(st, t), b);
      ExpectedWithBuckets(st, h, t, b, c);
    }
  }

  lemma ConsistentAfterBuckets(points: seq<Point>, pending: Pending, last: map<Context, real>, st: Settings, h: History,
                               out: seq<seq<Point>>, before: Pending, order: seq<real>,
                               t: real, cutoff: real, threshold: real)
    requires ValidSettings(st) && ValidHistory(h + [Flush(t)]) && IsRun(st, h, out)
    requires Lists(order, st, h) && PendingMatches(before, st, h) && PendingBuckets(st, h) != {}
    requires FlushLoop(points, pending, last, st, h, before, order, |order|, cutoff, threshold)
    requires cutoff == Bucket(st, t) && threshold == t - st.expiry
    ensures Consistent(st, h + [Flush(t)], out + [points], pending, last, cutoff)
  {
    hide ValidHistory, IsRun, PendingMatches, PendingBuckets, LastTracks, MemoryMatches, Lists, Closed, ReportsClosed, Reports,
         Bucket;
    ReportsBuckets(points, st, h, order, t);
    RunWithFlush(st, h, out, t, points);
    forall b ensures b in pending <==> b in before && !(b in PendingBuckets(st, h) && b < cutoff) {
      ClosedAtEnd(order, st, h, cutoff, b);
    }
    PendingAfterFlush(pending, before, st, h, t);
    MemoryAfterFlush(last, st, h, t);
  }

  lemma ReportsIdle(points: seq<Point>, last: map<Context, real>, st: Settings, h: History, t: real)
    requires ValidSettings(st) && PendingBuckets(st, h) == {} && IdleDue(st, h, Bucket(st, t))
    requires LastTracks(last, st, h, Bucket(st, t), t - st.expiry)
    requires ReportsZeros(points, last, t - st.expiry, Bucket(st, t) - st.interval)
    requires AllTimes(points, Bucket(st, t) - st.interval)
    ensures Reports(st, h, t, points)
  {
    forall b, c ensures PointsFor(points, b, c) == Expected(st, h, t, b, c) {
      ExpectedWhenIdle(last, st, h, t, b, c);
      if b != Bucket(st, t) - st.interval {
        PointsForNone(points, b, c);
      }
    }
  }

  lemma UnexpiredTracks(last: map<Context, real>, st: Settings, h: History, x: real, threshold: real)
    requires ValidSettings(st) && LastTracks(last, st, h, x, threshold)
    ensures LastTracks(Unexpired(last, last, threshold), st, h, x, threshold)
  {
  }

  lemma ConsistentAfterIdle(points: seq<Point>, pending: Pending, last: map<Context, real>, lastCutoff: real,
                            st: Settings, h: History, out: seq<seq<Point>>, t: real)
    requires ValidSettings(st) && ValidHistory(h + [Flush(t)])
    requires Consistent(st, h, out, pending, last, lastCutoff) && pending.Keys == {}
    requires Bucket(st, t) >= lastCutoff + st.interval
    requires ReportsZeros(points, last, t - st.expiry, Bucket(st, t) - st.interval)
    requires AllTimes(points, Bucket(st, t) - st.interval)
    ensures Consistent(st, h + [Flush(t)], out + [points], pending, Unexpired(last, last, t - st.expiry), Bucket(st, t))
  {
    assert PendingBuckets(st, h) == {};
    TracksAtStart(last, lastCutoff, st, h, [], t);
    ReportsIdle(points, last, st, h, t);
    UnexpiredTracks(last, st, h, Bucket(st, t), t - st.expiry);
    RunWithFlush(st, h, out, t, points);
    PendingAfterFlush(pending, pending, st, h, t);
    MemoryAfterFlush(Unexpired(last, last, t - st.expiry), st, h, t);
  }

  lemma ConsistentAfterQuiet(pending: Pending, last: map<Context, real>, lastCutoff: real, st: Settings, h: History,
                             out: seq<seq<Point>>, t: real)
    requires ValidSettings(st) && ValidHistory(h + [Flush(t)])
    requires Consistent(st, h, out, pending, last, lastCutoff) && pending.Keys == {}
    requires Bucket(st, t) < lastCutoff + st.interval
    ensures Consistent(st, h + [Flush(t)], out + [[]], pending, last, Bucket(st, t))
  {
    assert PendingBuckets(st, h) == {};
    TracksAtStart(last, lastCutoff, st, h, [], t);
    forall b, c ensures PointsFor([], b, c) == Expected(st, h, t, b, c) {
    }
    RunWithFlush(st, h, out, t, []);
    PendingAfterFlush(pending, pending, st, h, t);
    MemoryAfterFlush(last, st, h, t);
  }
}
