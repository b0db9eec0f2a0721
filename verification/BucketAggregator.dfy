// The dogstatsd aggregator.  `Valid()` ties its fields to the history of calls,
// and says that what the flushes returned is what BatchSpec recomputes from it.
module BucketAggregator {
  import opened Prelude
  import opened MetricSpec
  import opened Metrics
  import opened TimeBuckets
  import opened BatchSpec
  import opened BatchFacts
  import opened Tables
  import opened TableHistory
  import opened FlushHistory
  import opened Keys
  import Tags

  class MetricsBucketAggregator {
    const settings: Settings
    const hostname: string
    const buckets: BucketTables
    var lastSampleTimeByContext: map<Context, real>
    var lastFlushCutoffTime: real
    ghost var log: History
    ghost var outputs: seq<seq<Point>>

    ghost predicate Valid()
      reads this, buckets, buckets.Repr
    {
      && ValidSettings(settings)
      && this !in buckets.Repr
      && buckets.Valid()
      && Consistent(settings, log, outputs, buckets.contents, lastSampleTimeByContext, lastFlushCutoffTime)
    }

    constructor (settings: Settings, hostname: string)
      requires ValidSettings(settings)
      ensures Valid() && fresh(buckets.Repr)
      ensures log == [] && outputs == []
      ensures this.settings == settings && this.hostname == hostname
    {
      this.settings, this.hostname := settings, hostname;
      lastSampleTimeByContext, lastFlushCutoffTime := map[], 0.0;
      log, outputs := [], [];
      buckets := new BucketTables();
    }

    /** `submit_metric` for a packet: no caller-supplied timestamp. */
    method SubmitMetric(name: string, reading: Reading, tags: Option<seq<string>>, host: Option<string>, at: real,
                        sampledAt: real)
      returns (ok: bool)
      requires Valid()
      requires ValidHistory(log + [Event.Submit(Tags.MakeContext(name, tags, host, hostname), reading, at, sampledAt)])
      modifies this, buckets.Repr
      ensures Valid() && fresh(buckets.Repr - old(buckets.Repr))
      ensures log == old(log) + [Event.Submit(Tags.MakeContext(name, tags, host, hostname), reading, at, sampledAt)]
      ensures outputs == old(outputs) + [[]]
      ensures ok <==> reading.Succeeds()
    {
      ok := Submit(Tags.MakeContext(name, tags, host, hostname), reading, at, sampledAt);
    }

    /** One submission; `ok` is false when the program raises, for an unknown type or a zero rate. */
    method Submit(ctx: Context, reading: Reading, at: real, sampledAt: real) returns (ok: bool)
      requires Valid()
      requires ValidHistory(log + [Event.Submit(ctx, reading, at, sampledAt)])
      modifies this, buckets.Repr
      ensures Valid() && fresh(buckets.Repr - old(buckets.Repr))
      ensures log == old(log) + [Event.Submit(ctx, reading, at, sampledAt)]
      ensures outputs == old(outputs) + [[]]
      ensures ok <==> reading.Succeeds()
    {
      hide Consistent, ValidHistory, BucketTables.Valid, Entry, SampledEntry, KindOf, TableAt, Bucket, Reading.Valid,
           Reading.Succeeds;
      ConsistentAfterSubmit(settings, log, outputs, buckets.contents, lastSampleTimeByContext, lastFlushCutoffTime,
        Event.Submit(ctx, reading, at, sampledAt));
      ok := buckets.SampleAt(Bucket(settings, at), ctx, reading, sampledAt);
      log, outputs := log + [Event.Submit(ctx, reading, at, sampledAt)], outputs + [[]];
    }

    /** One flush at clock time `now`. */
    method Flush(now: real) returns (metrics: seq<Point>)
      requires Valid() && ValidHistory(log + [Event.Flush(now)])
      modifies this, buckets.Repr
      ensures Valid() && fresh(buckets.Repr - old(buckets.Repr))
      ensures log == old(log) + [Event.Flush(now)]
      ensures outputs == old(outputs) + [metrics]
    {
      hide Consistent, ValidHistory, Bucket, BucketTables.Valid;
      var cutoff := Bucket(settings, now);
      ghost var h, out;
      metrics, h, out := Report(now, cutoff, now - settings.expiry);
      FinishFlush(cutoff, h, out);
    }

    method FinishFlush(cutoff: real, ghost h: History, ghost out: seq<seq<Point>>)
      requires buckets.Valid() && this !in buckets.Repr
      modifies this`lastFlushCutoffTime, this`log, this`outputs
      ensures buckets.Valid() && lastFlushCutoffTime == cutoff && log == h && outputs == out
    {
      lastFlushCutoffTime := cutoff;
      log, outputs := h, out;
    }

    /** The points of a flush, from the pending buckets or for the idle interval; then the cache is reset. */
    method Report(now: real, cutoff: real, threshold: real)
      returns (metrics: seq<Point>, ghost h: History, ghost out: seq<seq<Point>>)
      requires Valid() && ValidHistory(log + [Event.Flush(now)])
      requires cutoff == Bucket(settings, now) && threshold == now - settings.expiry
      modifies this`lastSampleTimeByContext, buckets.Repr
      ensures buckets.Valid() && this !in buckets.Repr && fresh(buckets.Repr - old(buckets.Repr))
      ensures h == log + [Event.Flush(now)] && out == outputs + [metrics]
      ensures Consistent(settings, h, out, buckets.contents, lastSampleTimeByContext, cutoff)
    {
      hide Consistent, ValidHistory, ValidSettings, Bucket;
      h := log + [Event.Flush(now)];
      if buckets.metricByBucket.Keys != {} {
        metrics := FlushBuckets(now, cutoff, threshold);
      } else {
        metrics := FlushIdle(now, cutoff, threshold);
      }
      out := outputs + [metrics];
      ghost var pending, last := buckets.contents, lastSampleTimeByContext;
      assert Consistent(settings, h, out, pending, last, cutoff);
      buckets.ResetCache();
      assert buckets.contents == pending && lastSampleTimeByContext == last;
    }

    /** The branch without any bucket. */
    method FlushIdle(now: real, cutoff: real, threshold: real) returns (metrics: seq<Point>)
      requires ValidSettings(settings) && ValidHistory(log + [Event.Flush(now)])
      requires Consistent(settings, log, outputs, buckets.contents, lastSampleTimeByContext, lastFlushCutoffTime)
      requires buckets.contents.Keys == {} && cutoff == Bucket(settings, now) && threshold == now - settings.expiry
      modifies this`lastSampleTimeByContext
      ensures Consistent(settings, log + [Event.Flush(now)], outputs + [metrics], buckets.contents,
                         lastSampleTimeByContext, cutoff)
    {
      hide *;
      if cutoff >= lastFlushCutoffTime + settings.interval {
        ghost var last := lastSampleTimeByContext;
        metrics := CreateEmptyMetrics(lastSampleTimeByContext, threshold, cutoff - settings.interval);
        ConsistentAfterIdle(metrics, buckets.contents, last, lastFlushCutoffTime, settings, log, outputs, now);
      } else {
        metrics := [];
        ConsistentAfterQuiet(buckets.contents, lastSampleTimeByContext, lastFlushCutoffTime, settings, log, outputs, now);
      }
    }

    /** The buckets before the cutoff, in ascending order. */
    method FlushBuckets(now: real, cutoff: real, threshold: real) returns (metrics: seq<Point>)
      requires ValidSettings(settings) && ValidHistory(log + [Event.Flush(now)])
      requires Consistent(settings, log, outputs, buckets.contents, lastSampleTimeByContext, lastFlushCutoffTime)
      requires buckets.TablesValid({}) && this !in buckets.Repr
      requires buckets.contents.Keys != {} && cutoff == Bucket(settings, now) && threshold == now - settings.expiry
      modifies this`lastSampleTimeByContext, buckets.Repr
      ensures buckets.TablesValid({}) && buckets.Repr == old(buckets.Repr)
      ensures Consistent(settings, log + [Event.Flush(now)], outputs + [metrics], buckets.contents,
                         lastSampleTimeByContext, cutoff)
    {
      hide *;
      ghost var h, out, before := log, outputs, buckets.contents;
      buckets.SameKeys();
      var order := SortedKeys(buckets.metricByBucket.Keys);
      FlushLoopStart(before, lastSampleTimeByContext, lastFlushCutoffTime, settings, h, out, order, now);
      metrics := CloseBuckets(order, cutoff, threshold, h, before);
      ConsistentAfterBuckets(metrics, buckets.contents, lastSampleTimeByContext, settings, h, out, before, order,
        now, cutoff, threshold);
      assert log == h && outputs == out;
    }

    method CloseBuckets(order: seq<real>, cutoff: real, threshold: real, ghost h: History, ghost before: Pending)
      returns (metrics: seq<Point>)
      requires ValidSettings(settings) && ValidHistory(h)
      requires Lists(order, settings, h) && PendingMatches(before, settings, h)
      requires buckets.TablesValid({}) && this !in buckets.Repr
      requires FlushLoop([], buckets.contents, lastSampleTimeByContext, settings, h, before, order, 0, cutoff, threshold)
      modifies this`lastSampleTimeByContext, buckets.Repr
      ensures buckets.TablesValid({}) && buckets.Repr == old(buckets.Repr)
      ensures FlushLoop(metrics, buckets.contents, lastSampleTimeByContext, settings, h, before, order, |order|, cutoff, threshold)
    {
      metrics := [];
      for i := 0 to |order|
        invariant buckets.TablesValid({}) && buckets.Repr == old(buckets.Repr)
        invariant FlushLoop(metrics, buckets.contents, lastSampleTimeByContext, settings, h, before, order, i, cutoff, threshold)
      {
        if order[i] < cutoff {
          metrics := FlushBucket(order, i, cutoff, threshold, metrics, h, before);
        } else {
          FlushLoopSkip(metrics, buckets.contents, lastSampleTimeByContext, settings, h, before, order, i, cutoff, threshold);
        }
      }
    }

    /** One turn of that loop. */
    method FlushBucket(order: seq<real>, i: nat, cutoff: real, threshold: real, metrics: seq<Point>,
                       ghost h: History, ghost before: Pending)
      returns (all: seq<Point>)
      requires ValidSettings(settings) && ValidHistory(h)
      requires Lists(order, settings, h) && PendingMatches(before, settings, h)
      requires i < |order| && order[i] < cutoff
      requires buckets.TablesValid({}) && this !in buckets.Repr
      requires FlushLoop(metrics, buckets.contents, lastSampleTimeByContext, settings, h, before, order, i, cutoff, threshold)
      modifies this`lastSampleTimeByContext, buckets.Repr
      ensures buckets.TablesValid({}) && buckets.Repr == old(buckets.Repr)
      ensures FlushLoop(all, buckets.contents, lastSampleTimeByContext, settings, h, before, order, i + 1, cutoff, threshold)
    {
      hide *;
      var b := order[i];
      ghost var last, pending := lastSampleTimeByContext, buckets.contents;
      TurnHolds(metrics, pending, last, settings, h, before, order, i, cutoff, threshold);
      buckets.SameKeys();
      buckets.OwnsTable(b);
      var table := buckets.metricByBucket[b];
      var points, notSampled := FlushTable(table, b, threshold);
      TableLoopEnd(points, notSampled, lastSampleTimeByContext, settings, last, before[b], threshold, b);
      buckets.OnlyTableChanged(b);
      var zeros := CreateEmptyMetrics(notSampled, threshold, b);
      FlushLoopStep(metrics, pending, last, settings, h, before, order, i, cutoff, threshold, points, zeros);
      all := metrics + (points + zeros);
      buckets.Drop(b);
    }

    /** Reports a zero for every context of `times` sampled recently enough, and forgets the others. */
    method CreateEmptyMetrics(times: map<Context, real>, threshold: real, ts: real) returns (points: seq<Point>)
      requires ValidSettings(settings)
      modifies this`lastSampleTimeByContext
      ensures lastSampleTimeByContext == Unexpired(old(lastSampleTimeByContext), times, threshold)
      ensures ReportsZeros(points, times, threshold, ts) && AllTimes(points, ts)
    {
      points := [];
      ghost var last, done := lastSampleTimeByContext, {};
      var left := times.Keys;
      UnexpiredStart(last, times, threshold);
      while left != {}
        invariant left <= times.Keys && done == times.Keys - left
        invariant lastSampleTimeByContext == Unexpired(last, TimesPart(times, done), threshold)
        invariant ReportsZeros(points, TimesPart(times, done), threshold, ts) && AllTimes(points, ts)
        decreases left
      {
        var c :| c in left;
        UnexpiredStep(last, times, done, c, threshold);
        var more := [];
        if times[c] < threshold {
          lastSampleTimeByContext := lastSampleTimeByContext - {c};
        } else {
          var metric := new Counter(c);
          more := metric.Flush(settings.histogram, settings.interval, ts);
        }
        ReportsZerosStep(points, more, times, done, c, threshold, ts);
        points := points + more;
        left, done := left - {c}, done + {c};
      }
      assert done == times.Keys;
    }

    /** Flushes the objects of one table; `notSampled` are the known counters that it does not hold. */
    method FlushTable(table: ContextTable, b: real, threshold: real)
      returns (points: seq<Point>, notSampled: map<Context, real>)
      requires ValidSettings(settings) && table.Valid() && this !in table.Repr
      requires forall c :: c in table.contents ==> Sane(table.contents[c])
      modifies this`lastSampleTimeByContext, table.Repr
      ensures TableLoop(points, notSampled, lastSampleTimeByContext, settings, old(lastSampleTimeByContext),
                        old(table.contents), old(table.contents).Keys, threshold, b)
    {
      hide *;
      points, notSampled := [], lastSampleTimeByContext;
      ghost var last, held := lastSampleTimeByContext, table.contents;
      ghost var done: set<Context> := {};
      table.Keys();
      var left := table.metrics.Keys;
      TableLoopStart(settings, last, held, threshold, b);
      while left != {}
        invariant left <= held.Keys && done == held.Keys - left
        invariant table.Valid() && table.Repr == old(table.Repr) && table.contents.Keys == held.Keys
        invariant forall c :: c in left ==> table.contents[c] == held[c]
        invariant TableLoop(points, notSampled, lastSampleTimeByContext, settings, last, held, done, threshold, b)
        decreases left
      {
        var c :| c in left;
        points, notSampled := FlushContext(table, c, b, threshold, points, notSampled, last, held, done);
        left, done := left - {c}, done + {c};
      }
      assert done == old(table.contents).Keys && held == old(table.contents);
    }

    /** One turn of the loop over a table. */
    method FlushContext(table: ContextTable, c: Context, b: real, threshold: real, points: seq<Point>,
                        notSampled: map<Context, real>, ghost last: map<Context, real>,
                        ghost held: map<Context, MetricState>, ghost done: set<Context>)
      returns (all: seq<Point>, rest: map<Context, real>)
      requires ValidSettings(settings) && table.Valid() && this !in table.Repr
      requires c in table.contents && c in held && c !in done && table.contents[c] == held[c] && Sane(held[c])
      requires TableLoop(points, notSampled, lastSampleTimeByContext, settings, last, held, done, threshold, b)
      modifies this`lastSampleTimeByContext, table.Repr
      ensures table.Valid() && table.Repr == old(table.Repr) && table.contents.Keys == old(table.contents.Keys)
      ensures forall d :: d in table.contents && d != c ==> table.contents[d] == old(table.contents[d])
      ensures TableLoop(all, rest, lastSampleTimeByContext, settings, last, held, done + {c}, threshold, b)
    {
      TableLoopStep(points, notSampled, lastSampleTimeByContext, settings, last, held, done, threshold, b, c);
      var more;
      more, rest := FlushObject(table, c, b, threshold, notSampled, held[c]);
      assert more == TableReport(settings, held, threshold, b, c);
      all := points + more;
    }

    /** The object of one context: stale ones are dropped, the others report, counters are remembered. */
    method FlushObject(table: ContextTable, c: Context, b: real, threshold: real, notSampled: map<Context, real>,
                       ghost s: MetricState)
      returns (points: seq<Point>, rest: map<Context, real>)
      requires ValidSettings(settings) && table.Valid() && this !in table.Repr
      requires c in table.contents && table.contents[c] == s && Sane(s)
      modifies this`lastSampleTimeByContext, table.Repr
      ensures table.Valid() && table.Repr == old(table.Repr) && table.contents.Keys == old(table.contents.Keys)
      ensures forall d :: d in table.contents && d != c ==> table.contents[d] == old(table.contents[d])
      ensures lastSampleTimeByContext == AfterOne(old(lastSampleTimeByContext), s, c, threshold)
      ensures points == if Fresh(s.last, threshold) then FlushPoints(settings.histogram, settings.interval, c, s, b) else []
      ensures rest == notSampled - if s.CounterState? || !Fresh(s.last, threshold) then {c} else {}
    {
      hide ContextTable.Valid, Sane, ValidHistogramConfig, FlushPoints;
      table.HoldsState(c);
      points, rest := [], notSampled;
      var sampled := table.LastSampleTime(c);
      if sampled.None? || sampled.value < threshold {
        rest := rest - {c};
        lastSampleTimeByContext := lastSampleTimeByContext - {c};
      } else {
        var isCounter := table.metrics[c].CounterMetric?;
        points := table.FlushOne(c, settings.histogram, settings.interval, b);
        if isCounter {
          lastSampleTimeByContext := lastSampleTimeByContext[c := sampled.value];
          rest := rest - {c};
        }
      }
    }
  }
}
