// The fields of the bucket aggregator, taken as values, against the history of
// calls: what each call does to them and why they go on matching the history.
module TableHistory {
  import opened Prelude
  import opened MetricSpec
  import opened TimeBuckets
  import opened BatchSpec
  import opened BatchFacts
  import opened Tables

  /** `contents` holds for each context what its submissions in bucket `b` add up to. */
  ghost predicate MatchesHistory(contents: map<Context, MetricState>, st: Settings, h: History, b: real)
    requires ValidSettings(st)
  {
    && (forall c :: c in contents <==> Attempts(st, h, b, c) != [])
    && (forall c :: c in contents ==> HoldsBatch(contents[c], Attempts(st, h, b, c)))
  }

  ghost predicate HoldsBatch(s: MetricState, a: History) {
    a != [] && a[0].Submit? && !a[0].reading.Unresolved? && s == BatchState(a)
  }

  /** One more sample turns the object for `a` into the object for `a + [e]`. */
  lemma EntryAfterSample(a: History, e: Event, s: MetricState)
    requires e.Submit? && e.reading.Valid() && !e.reading.Unresolved? && AllOfKind(a, e.reading)
    requires if a == [] then s == NewState(e.reading) else HoldsBatch(s, a)
    ensures KindOf(s, e.reading)
    ensures HoldsBatch(SampleState(s, e.reading, e.sampledAt), a + [e])
  {
    if a == [] {
      BatchStateOfOne(e);
      assert a + [e] == [e];
    } else {
      BatchStateStep(a, e);
      assert (a + [e])[0] == a[0];
    }
  }

  lemma SampleFits(contents: map<Context, MetricState>, st: Settings, h: History, e: Event)
    requires ValidSettings(st) && ValidHistory(h + [e]) && e.Submit?
    requires MatchesHistory(contents, st, h, Bucket(st, e.at))
    ensures e.reading.Valid()
    ensures e.ctx in contents ==> !e.reading.Unresolved?
    ensures !e.reading.Unresolved? ==> KindOf(Entry(contents, e.ctx, e.reading), e.reading)
  {
    var a := Attempts(st, h, Bucket(st, e.at), e.ctx);
    NewcomerFits(st, h, e, Bucket(st, e.at), e.ctx);
    if !e.reading.Unresolved? {
      EntryAfterSample(a, e, Entry(contents, e.ctx, e.reading));
    }
  }

  lemma MatchesAfterSubmit(contents: map<Context, MetricState>, st: Settings, h: History, e: Event)
    requires ValidSettings(st) && ValidHistory(h + [e]) && e.Submit? && e.reading.Valid()
    requires MatchesHistory(contents, st, h, Bucket(st, e.at))
    requires !e.reading.Unresolved? ==> KindOf(Entry(contents, e.ctx, e.reading), e.reading)
    ensures MatchesHistory(contents + SampledEntry(contents, e.ctx, e.reading, e.sampledAt), st, h + [e], Bucket(st, e.at))
  {
    var b := Bucket(st, e.at);
    var after := contents + SampledEntry(contents, e.ctx, e.reading, e.sampledAt);
    NewcomerFits(st, h, e, b, e.ctx);
    if !e.reading.Unresolved? {
      EntryAfterSample(Attempts(st, h, b, e.ctx), e, Entry(contents, e.ctx, e.reading));
    }
    forall c
      ensures c in after <==> Attempts(st, h + [e], b, c) != []
      ensures c in after ==> HoldsBatch(after[c], Attempts(st, h + [e], b, c))
    {
      AttemptsStep(st, h, e, b, c);
      if c != e.ctx || e.reading.Unresolved? {
        assert Attempts(st, h + [e], b, c) == Attempts(st, h, b, c);
      }
    }
  }

  lemma MatchesElsewhere(contents: map<Context, MetricState>, st: Settings, h: History, e: Event, b: real)
    requires ValidSettings(st) && MatchesHistory(contents, st, h, b)
    requires e.Submit? ==> Bucket(st, e.at) != b
    ensures MatchesHistory(contents, st, h + [e], b)
  {
    forall c ensures Attempts(st, h + [e], b, c) == Attempts(st, h, b, c) {
      AttemptsStep(st, h, e, b, c);
    }
  }

  /** What the tables hold is what the history left pending. */
  ghost predicate PendingMatches(pending: Pending, st: Settings, h: History)
    requires ValidSettings(st)
  {
    && pending.Keys == PendingBuckets(st, h)
    && forall b :: b in pending ==> MatchesHistory(pending[b], st, h, b)
  }

  lemma TableBeforeSubmit(pending: Pending, st: Settings, h: History, e: Event)
    requires ValidSettings(st) && ValidHistory(h + [e]) && e.Submit?
    requires PendingMatches(pending, st, h)
    ensures MatchesHistory(TableAt(pending, Bucket(st, e.at)), st, h, Bucket(st, e.at))
  {
    var b := Bucket(st, e.at);
    if b !in pending {
      AbsentBucketIsEmpty(st, h, e);
    }
  }

  lemma PendingAfterSubmit(pending: Pending, st: Settings, h: History, e: Event)
    requires ValidSettings(st) && ValidHistory(h + [e]) && e.Submit? && e.reading.Valid()
    requires PendingMatches(pending, st, h)
    requires !e.reading.Unresolved? ==> KindOf(Entry(TableAt(pending, Bucket(st, e.at)), e.ctx, e.reading), e.reading)
    ensures var b := Bucket(st, e.at);
            PendingMatches(pending[b := TableAt(pending, b) + SampledEntry(TableAt(pending, b), e.ctx, e.reading, e.sampledAt)],
                           st, h + [e])
  {
    var b := Bucket(st, e.at);
    var after := pending[b := TableAt(pending, b) + SampledEntry(TableAt(pending, b), e.ctx, e.reading, e.sampledAt)];
    PendingStep(st, h, e);
    forall x | x in after ensures MatchesHistory(after[x], st, h + [e], x) {
      if x == b {
        TableBeforeSubmit(pending, st, h, e);
        MatchesAfterSubmit(TableAt(pending, b), st, h, e);
      } else {
        MatchesElsewhere(pending[x], st, h, e, x);
      }
    }
  }

  /** The last-sample map knows every context that was sampled recently enough before `x`, and what it
      says is right.  Entries that have expired may linger. */
  ghost predicate LastTracks(last: map<Context, real>, st: Settings, h: History, x: real, threshold: real)
    requires ValidSettings(st)
  {
    forall c ::
      && (c in last ==> PriorLast(st, h, x, c) == Some(last[c]))
      && (Fresh(PriorLast(st, h, x, c), threshold) ==> c in last)
  }

  lemma TracksAfterSubmit(last: map<Context, real>, st: Settings, h: History, e: Event, x: real, threshold: real)
    requires ValidSettings(st) && LastTracks(last, st, h, x, threshold)
    requires e.Submit? && x <= Bucket(st, e.at)
    ensures LastTracks(last, st, h + [e], x, threshold)
  {
    forall c ensures PriorLast(st, h + [e], x, c) == PriorLast(st, h, x, c) {
      PriorLastIgnoresLater(st, h, e, x, c);
    }
  }

  lemma AbsentBucketIsEmpty(st: Settings, h: History, e: Event)
    requires ValidSettings(st) && ValidHistory(h + [e]) && e.Submit?
    ensures Bucket(st, e.at) !in PendingBuckets(st, h) ==> forall c :: Attempts(st, h, Bucket(st, e.at), c) == []
  {
    LastEvent(h, e);
    NewcomerIsUnreached(st, h, e);
    if Bucket(st, e.at) !in PendingBuckets(st, h) {
      forall c ensures Attempts(st, h, Bucket(st, e.at), c) == [] {
        UnlistedBucketIsEmpty(st, h, Bucket(st, e.at), c);
      }
    }
  }

  ghost predicate MemoryMatches(last: map<Context, real>, cutoff: real, st: Settings, h: History)
    requires ValidSettings(st)
  {
    match LastFlush(h)
    case None => last == map[] && cutoff == 0.0
    case Some(t) => cutoff == Bucket(st, t) && LastTracks(last, st, h, cutoff, t - st.expiry)
  }

  /** The fields of the aggregator, as values, are what the history of calls makes them, and the
      flushes so far returned what BatchSpec recomputes. */
  ghost predicate Consistent(st: Settings, h: History, out: seq<seq<Point>>, pending: Pending, last: map<Context, real>,
                             cutoff: real)
    requires ValidSettings(st)
  {
    ValidHistory(h) && IsRun(st, h, out) && PendingMatches(pending, st, h) && MemoryMatches(last, cutoff, st, h)
  }

  lemma ConsistentAfterSubmit(st: Settings, h: History, out: seq<seq<Point>>, pending: Pending,
                              last: map<Context, real>, cutoff: real, e: Event)
    requires ValidSettings(st) && ValidHistory(h + [e]) && e.Submit?
    requires Consistent(st, h, out, pending, last, cutoff)
    ensures var table := TableAt(pending, Bucket(st, e.at));
            && e.reading.Valid()
            && (e.ctx in table ==> !e.reading.Unresolved?)
            && (!e.reading.Unresolved? ==> KindOf(Entry(table, e.ctx, e.reading), e.reading))
            && Consistent(st, h + [e], out + [[]],
                 pending[Bucket(st, e.at) := table + SampledEntry(table, e.ctx, e.reading, e.sampledAt)], last, cutoff)
  {
    TableBeforeSubmit(pending, st, h, e);
    SampleFits(TableAt(pending, Bucket(st, e.at)), st, h, e);
    PendingAfterSubmit(pending, st, h, e);
    RunWithSubmit(st, h, out, e);
    PendingStep(st, h, e);
    if LastFlush(h).Some? {
      NewcomerIsUnreached(st, h, e);
      TracksAfterSubmit(last, st, h, e, cutoff, LastFlush(h).value - st.expiry);
    }
  }

  // ---------- a flush, on values ----------

  /** What the table of bucket `b` reports for `c`: nothing for an object that was sampled too long ago. */
  function TableReport(st: Settings, held: map<Context, MetricState>, threshold: real, b: real, c: Context): seq<Point>
    requires ValidSettings(st)
  {
    if c in held && Fresh(held[c].last, threshold) then FlushPoints(st.histogram, st.interval, c, held[c], b) else []
  }

  /** The last-sample map after the objects of a table: stale ones are forgotten, counters remembered. */
  function AfterTable(last: map<Context, real>, held: map<Context, MetricState>, threshold: real): map<Context, real> {
    map c | c in last.Keys + held.Keys &&
            (if c in held then Fresh(held[c].last, threshold) && (held[c].CounterState? || c in last) else true)
      :: if c in held && held[c].CounterState? then held[c].last.value else last[c]
  }

  predicate Handled(held: map<Context, MetricState>, threshold: real, c: Context) {
    c in held && (held[c].CounterState? || !Fresh(held[c].last, threshold))
  }

  /** `not_sampled_in_this_bucket` */
  function NotSampled(last: map<Context, real>, held: map<Context, MetricState>, threshold: real): map<Context, real> {
    map c | c in last && !Handled(held, threshold, c) :: last[c]
  }

  function ZeroReport(times: map<Context, real>, threshold: real, b: real, c: Context): seq<Point> {
    if c in times && threshold <= times[c] then [ZeroPoint(c, b)] else []
  }

  function Unexpired(last: map<Context, real>, times: map<Context, real>, threshold: real): map<Context, real> {
    map c | c in last && !(c in times && times[c] < threshold) :: last[c]
  }

  lemma CountersHaveNoOtherKind(st: Settings, h: History, held: map<Context, MetricState>, last: map<Context, real>, b: real, c: Context)
    requires ValidSettings(st) && ValidHistory(h)
    requires c in held ==> HoldsBatch(held[c], Attempts(st, h, b, c))
    requires c in last ==> PriorLast(st, h, b, c) == Some(last[c])
    ensures c in held && c in last ==> held[c].CounterState?
  {
    if c in held && !held[c].CounterState? {
      OtherKindHasNoPrior(st, h, b, b, c);
    }
  }

  lemma BucketReportStep(st: Settings, h: History, held: map<Context, MetricState>, last: map<Context, real>,
                         threshold: real, b: real, c: Context)
    requires ValidSettings(st) && ValidHistory(h)
    requires c in held <==> Attempts(st, h, b, c) != []
    requires c in held ==> HoldsBatch(held[c], Attempts(st, h, b, c))
    requires c in last ==> PriorLast(st, h, b, c) == Some(last[c])
    requires Fresh(PriorLast(st, h, b, c), threshold) ==> c in last
    ensures TableReport(st, held, threshold, b, c) + ZeroReport(NotSampled(last, held, threshold), threshold, b, c)
         == BucketReport(st, h, threshold, b, c)
  {
    hide Bucket, ValidHistory, FlushPoints, PriorLast, Attempts, LastSampled;
    CountersHaveNoOtherKind(st, h, held, last, b, c);
    var zeros := ZeroReport(NotSampled(last, held, threshold), threshold, b, c);
    if c in held {
      assert zeros == [];
    } else {
      assert TableReport(st, held, threshold, b, c) == [];
    }
  }

  lemma BucketMemoryStep(st: Settings, h: History, held: map<Context, MetricState>, last: map<Context, real>,
                         threshold: real, b: real, prior: Option<real>, c: Context)
    requires ValidSettings(st) && ValidHistory(h) && prior == PriorAfter(st, h, b, c)
    requires c in held <==> Attempts(st, h, b, c) != []
    requires c in held ==> HoldsBatch(held[c], Attempts(st, h, b, c))
    requires c in last ==> PriorLast(st, h, b, c) == Some(last[c])
    requires Fresh(PriorLast(st, h, b, c), threshold) ==> c in last
    ensures var after := Unexpired(AfterTable(last, held, threshold), NotSampled(last, held, threshold), threshold);
            && (c in after ==> prior == Some(after[c]))
            && (Fresh(prior, threshold) ==> c in after)
  {
    CountersHaveNoOtherKind(st, h, held, last, b, c);
  }

  lemma BucketStepFor(st: Settings, h: History, held: map<Context, MetricState>, last: map<Context, real>,
                      threshold: real, b: real, y: real, c: Context)
    requires ValidSettings(st) && ValidHistory(h) && b < y
    requires forall k :: 0 <= k < |h| && h[k].Submit? ==> !(b < Bucket(st, h[k].at) < y)
    requires MatchesHistory(held, st, h, b) && LastTracks(last, st, h, b, threshold)
    ensures TableReport(st, held, threshold, b, c) + ZeroReport(NotSampled(last, held, threshold), threshold, b, c)
         == BucketReport(st, h, threshold, b, c)
    ensures var after := Unexpired(AfterTable(last, held, threshold), NotSampled(last, held, threshold), threshold);
            && (c in after ==> PriorLast(st, h, y, c) == Some(after[c]))
            && (Fresh(PriorLast(st, h, y, c), threshold) ==> c in after)
  {
    PriorLastAcross(st, h, b, y, c);
    BucketReportStep(st, h, held, last, threshold, b, c);
    BucketMemoryStep(st, h, held, last, threshold, b, PriorLast(st, h, y, c), c);
  }

  /** Closing bucket `b`: what is reported is what BatchSpec recomputes, and the last-sample map moves on to
      the next bucket. */
  lemma BucketStep(st: Settings, h: History, held: map<Context, MetricState>, last: map<Context, real>,
                   threshold: real, b: real, y: real)
    requires ValidSettings(st) && ValidHistory(h) && b < y
    requires forall k :: 0 <= k < |h| && h[k].Submit? ==> !(b < Bucket(st, h[k].at) < y)
    requires MatchesHistory(held, st, h, b) && LastTracks(last, st, h, b, threshold)
    ensures forall c :: TableReport(st, held, threshold, b, c) + ZeroReport(NotSampled(last, held, threshold), threshold, b, c)
                     == BucketReport(st, h, threshold, b, c)
    ensures LastTracks(Unexpired(AfterTable(last, held, threshold), NotSampled(last, held, threshold), threshold),
                       st, h, y, threshold)
  {
    forall c
      ensures TableReport(st, held, threshold, b, c) + ZeroReport(NotSampled(last, held, threshold), threshold, b, c)
           == BucketReport(st, h, threshold, b, c)
      ensures var after := Unexpired(AfterTable(last, held, threshold), NotSampled(last, held, threshold), threshold);
              && (c in after ==> PriorLast(st, h, y, c) == Some(after[c]))
              && (Fresh(PriorLast(st, h, y, c), threshold) ==> c in after)
    {
      BucketStepFor(st, h, held, last, threshold, b, y, c);
    }
  }

  /** Every object that a history leaves behind is sane. */
  lemma HeldIsSane(held: map<Context, MetricState>, st: Settings, h: History, b: real)
    requires ValidSettings(st) && MatchesHistory(held, st, h, b)
    ensures forall c :: c in held ==> Sane(held[c])
  {
    forall c | c in held ensures Sane(held[c]) {
      CountedHasSamples(Attempts(st, h, b, c));
    }
  }

  // ---------- the loop over one table ----------

  function Part(held: map<Context, MetricState>, done: set<Context>): map<Context, MetricState> {
    map c | c in held && c in done :: held[c]
  }

  /** What one object of the table does to the last-sample map. */
  function AfterOne(last: map<Context, real>, s: MetricState, c: Context, threshold: real): map<Context, real> {
    if !Fresh(s.last, threshold) then last - {c}
    else if s.CounterState? then last[c := s.last.value]
    else last
  }

  lemma AfterTableStep(last: map<Context, real>, held: map<Context, MetricState>, done: set<Context>, c: Context, threshold: real)
    requires c in held && c !in done
    ensures AfterTable(last, Part(held, done + {c}), threshold)
         == AfterOne(AfterTable(last, Part(held, done), threshold), held[c], c, threshold)
  {
    var before, after := Part(held, done), Part(held, done + {c});
    assert after == before[c := held[c]];
  }

  lemma NotSampledStep(last: map<Context, real>, held: map<Context, MetricState>, done: set<Context>, c: Context, threshold: real)
    requires c in held && c !in done
    ensures NotSampled(last, Part(held, done + {c}), threshold)
         == NotSampled(last, Part(held, done), threshold) - if Handled(held, threshold, c) then {c} else {}
  {
  }

  lemma AfterTableStart(last: map<Context, real>, held: map<Context, MetricState>, threshold: real)
    ensures AfterTable(last, Part(held, {}), threshold) == last
    ensures NotSampled(last, Part(held, {}), threshold) == last
    ensures Part(held, held.Keys) == held
  {
  }

  ghost predicate ReportsTable(points: seq<Point>, st: Settings, held: map<Context, MetricState>, threshold: real, b: real)
    requires ValidSettings(st)
  {
    forall c :: PointsFor(points, b, c) == TableReport(st, held, threshold, b, c)
  }

  ghost predicate AllTimes(points: seq<Point>, b: real) {
    forall i :: 0 <= i < |points| ==> points[i].timestamp == b
  }

  lemma TableReportAt(st: Settings, held: map<Context, MetricState>, threshold: real, b: real, c: Context)
    requires ValidSettings(st)
    ensures AllAt(TableReport(st, held, threshold, b, c), b, c)
  {
    if c in held && Fresh(held[c].last, threshold) {
      FlushPointsAt(st.histogram, st.interval, c, held[c], b);
    }
  }

  /** Points for one context, appended to points that have none for it. */
  lemma PointsForAppend(points: seq<Point>, more: seq<Point>, b: real, c: Context, d: Context, before: seq<Point>,
                        after: seq<Point>)
    requires AllAt(more, b, c) && PointsFor(points, b, d) == before
    requires if c == d then before == [] && after == more else after == before
    ensures PointsFor(points + more, b, d) == after
  {
    PointsForConcat(points, more, b, d);
    if d == c {
      PointsForAll(more, b, c);
    } else {
      PointsForNone(more, b, d);
    }
  }

  lemma AllTimesAppend(points: seq<Point>, more: seq<Point>, b: real, c: Context)
    requires AllTimes(points, b) && AllAt(more, b, c)
    ensures AllTimes(points + more, b)
  {
  }

  lemma TableReportStep(st: Settings, held: map<Context, MetricState>, done: set<Context>, c: Context, threshold: real,
                        b: real, d: Context)
    requires ValidSettings(st) && c in held && c !in done
    ensures TableReport(st, Part(held, done + {c}), threshold, b, d)
         == if c == d then TableReport(st, held, threshold, b, c) else TableReport(st, Part(held, done), threshold, b, d)
    ensures c == d ==> TableReport(st, Part(held, done), threshold, b, d) == []
  {
  }

  lemma ReportsTableFor(points: seq<Point>, st: Settings, held: map<Context, MetricState>,
                        done: set<Context>, c: Context, threshold: real, b: real, d: Context)
    requires ValidSettings(st) && c in held && c !in done
    requires PointsFor(points, b, d) == TableReport(st, Part(held, done), threshold, b, d)
    ensures PointsFor(points + TableReport(st, held, threshold, b, c), b, d)
         == TableReport(st, Part(held, done + {c}), threshold, b, d)
  {
    TableReportAt(st, held, threshold, b, c);
    TableReportStep(st, held, done, c, threshold, b, d);
    PointsForAppend(points, TableReport(st, held, threshold, b, c), b, c, d,
      TableReport(st, Part(held, done), threshold, b, d), TableReport(st, Part(held, done + {c}), threshold, b, d));
  }

  lemma ReportsTableStep(points: seq<Point>, st: Settings, held: map<Context, MetricState>,
                         done: set<Context>, c: Context, threshold: real, b: real)
    requires ValidSettings(st) && c in held && c !in done
    requires ReportsTable(points, st, Part(held, done), threshold, b)
    ensures ReportsTable(points + TableReport(st, held, threshold, b, c), st, Part(held, done + {c}), threshold, b)
  {
    var more := TableReport(st, held, threshold, b, c);
    forall d ensures PointsFor(points + more, b, d) == TableReport(st, Part(held, done + {c}), threshold, b, d) {
      ReportsTableFor(points, st, held, done, c, threshold, b, d);
    }
  }

  /** The state of the loop over a table once the contexts `done` are dealt with. */
  ghost predicate TableLoop(points: seq<Point>, notSampled: map<Context, real>, now: map<Context, real>, st: Settings,
                            last: map<Context, real>, held: map<Context, MetricState>, done: set<Context>,
                            threshold: real, b: real)
    requires ValidSettings(st)
  {
    && now == AfterTable(last, Part(held, done), threshold)
    && notSampled == NotSampled(last, Part(held, done), threshold)
    && ReportsTable(points, st, Part(held, done), threshold, b)
    && AllTimes(points, b)
  }

  lemma TableLoopStart(st: Settings, last: map<Context, real>, held: map<Context, MetricState>, threshold: real, b: real)
    requires ValidSettings(st)
    ensures TableLoop([], last, last, st, last, held, {}, threshold, b)
  {
    AfterTableStart(last, held, threshold);
  }

  lemma TableLoopEnd(points: seq<Point>, notSampled: map<Context, real>, now: map<Context, real>, st: Settings,
                     last: map<Context, real>, held: map<Context, MetricState>, threshold: real, b: real)
    requires ValidSettings(st) && TableLoop(points, notSampled, now, st, last, held, held.Keys, threshold, b)
    ensures now == AfterTable(last, held, threshold) && notSampled == NotSampled(last, held, threshold)
    ensures ReportsTable(points, st, held, threshold, b) && AllTimes(points, b)
  {
    AfterTableStart(last, held, threshold);
  }

  lemma TableLoopStep(points: seq<Point>, notSampled: map<Context, real>, now: map<Context, real>, st: Settings,
                      last: map<Context, real>, held: map<Context, MetricState>, done: set<Context>,
                      threshold: real, b: real, c: Context)
    requires ValidSettings(st) && c in held && c !in done
    requires TableLoop(points, notSampled, now, st, last, held, done, threshold, b)
    ensures TableLoop(points + TableReport(st, held, threshold, b, c),
                      notSampled - (if Handled(held, threshold, c) then {c} else {}),
                      AfterOne(now, held[c], c, threshold), st, last, held, done + {c}, threshold, b)
  {
    AfterTableStep(last, held, done, c, threshold);
    NotSampledStep(last, held, done, c, threshold);
    ReportsTableStep(points, st, held, done, c, threshold, b);
    TableReportAt(st, held, threshold, b, c);
    AllTimesAppend(points, TableReport(st, held, threshold, b, c), b, c);
  }

  // ---------- the loop over the contexts to zero-fill ----------

  function TimesPart(times: map<Context, real>, done: set<Context>): map<Context, real> {
    map c | c in times && c in done :: times[c]
  }

  lemma UnexpiredStep(last: map<Context, real>, times: map<Context, real>, done: set<Context>, c: Context, threshold: real)
    requires c in times && c !in done
    ensures Unexpired(last, TimesPart(times, done + {c}), threshold)
         == Unexpired(last, TimesPart(times, done), threshold) - if times[c] < threshold then {c} else {}
  {
  }

  lemma UnexpiredStart(last: map<Context, real>, times: map<Context, real>, threshold: real)
    ensures Unexpired(last, TimesPart(times, {}), threshold) == last
    ensures TimesPart(times, times.Keys) == times
  {
  }

  ghost predicate ReportsZeros(points: seq<Point>, times: map<Context, real>, threshold: real, b: real) {
    forall c :: PointsFor(points, b, c) == ZeroReport(times, threshold, b, c)
  }

  lemma ZeroReportStep(times: map<Context, real>, done: set<Context>, c: Context, threshold: real, b: real, d: Context)
    requires c in times && c !in done
    ensures ZeroReport(TimesPart(times, done + {c}), threshold, b, d)
         == if c == d then ZeroReport(times, threshold, b, c) else ZeroReport(TimesPart(times, done), threshold, b, d)
    ensures c == d ==> ZeroReport(TimesPart(times, done), threshold, b, d) == []
  {
  }

  lemma ReportsZerosFor(points: seq<Point>, times: map<Context, real>, done: set<Context>, c: Context,
                        threshold: real, b: real, d: Context)
    requires c in times && c !in done
    requires PointsFor(points, b, d) == ZeroReport(TimesPart(times, done), threshold, b, d)
    ensures PointsFor(points + ZeroReport(times, threshold, b, c), b, d)
         == ZeroReport(TimesPart(times, done + {c}), threshold, b, d)
  {
    ZeroReportStep(times, done, c, threshold, b, d);
    PointsForAppend(points, ZeroReport(times, threshold, b, c), b, c, d,
      ZeroReport(TimesPart(times, done), threshold, b, d), ZeroReport(TimesPart(times, done + {c}), threshold, b, d));
  }

  lemma ReportsZerosStep(points: seq<Point>, more: seq<Point>, times: map<Context, real>, done: set<Context>, c: Context,
                         threshold: real, b: real)
    requires c in times && c !in done
    requires ReportsZeros(points, TimesPart(times, done), threshold, b) && AllTimes(points, b)
    requires more == ZeroReport(times, threshold, b, c)
    ensures ReportsZeros(points + more, TimesPart(times, done + {c}), threshold, b)
    ensures AllTimes(points + more, b)
  {
    forall d ensures PointsFor(points + more, b, d) == ZeroReport(TimesPart(times, done + {c}), threshold, b, d) {
      ReportsZerosFor(points, times, done, c, threshold, b, d);
    }
    AllTimesAppend(points, more, b, c);
  }
}
