// Zero-filling of counters, and why the report of a bucket depends only on
// which samples it received and not on their order.
module ZeroFillTheorems {
  import opened Prelude
  import opened MetricSpec
  import opened TimeBuckets
  import opened BatchSpec
  import opened BatchFacts
  import opened Freshness
  import opened Tables
  import opened TableHistory
  import opened RunTheorems

  // ---------- zero-filling ----------

  predicate CountsBelow(st: Settings, e: Event, x: real, c: Context)
    requires ValidSettings(st)
  {
    e.Submit? && e.reading.CounterReading? && e.ctx == c && Bucket(st, e.at) < x
  }

  /** No counter submission for `c` below `x` lies in a later bucket than `b`. */
  ghost predicate NoLaterThan(st: Settings, h: History, x: real, c: Context, b: real)
    requires ValidSettings(st)
  {
    forall f :: f in h && CountsBelow(st, f, x, c) ==> Bucket(st, f.at) <= b
  }

  /** A counter sample below `x` that was not refused, is recent, and lies in the latest bucket with a submission at all. */
  ghost predicate LatelyCounted(st: Settings, h: History, x: real, c: Context, threshold: real, e: Event)
    requires ValidSettings(st)
  {
    && e in h && CountsBelow(st, e, x, c) && e.reading.Succeeds() && threshold <= e.sampledAt
    && NoLaterThan(st, h, x, c, Bucket(st, e.at))
  }

  /** The latest bucket below `b` that `c` was submitted to has such a sample. */
  ghost predicate CountedBefore(st: Settings, h: History, b: real, c: Context, threshold: real)
    requires ValidSettings(st)
  {
    exists e :: LatelyCounted(st, h, b, c, threshold, e)
  }

  /** The last submission before a bucket lies in the latest bucket that has one. */
  lemma {:induction false} LastBelowIsLatest(st: Settings, h: History, x: real, c: Context, e: Event)
    requires ValidSettings(st) && WellTimed(h) && e in h && CountsBelow(st, e, x, c)
    ensures var below := CounterAttemptsBelow(st, h, x, c);
            below != [] && below[|below| - 1].Submit? && Bucket(st, e.at) <= Bucket(st, below[|below| - 1].at)
  {
    hide Bucket;
    var n := |h| - 1;
    var g, f := h[..n], h[n];
    InitAndLast(h, n);
    if CountsBelow(st, f, x, c) {
      var below := CounterAttemptsBelow(st, h, x, c);
      assert below[|below| - 1] == f;
      if e != f {
        var i :| 0 <= i < |g| && g[i] == e;
        assert h[i] == e;
        InOrder(h, i, n);
        BucketMonotone(st, e.at, f.at);
      }
    } else {
      assert CounterAttemptsBelow(st, h, x, c) == CounterAttemptsBelow(st, g, x, c);
      LastBelowIsLatest(st, g, x, c, e);
    }
  }

  /** In a valid history, a sample of that bucket is a sample of the counter. */
  lemma CountsHere(st: Settings, h: History, x: real, c: Context, f: Event, e: Event)
    requires ValidSettings(st) && ValidHistory(h) && f in h && CountsBelow(st, f, x, c)
    requires e in h && Touches(st, e, Bucket(st, f.at), c)
    ensures CountsBelow(st, e, x, c)
  {
    OneKindOf(h, f, e);
  }

  /** A counter is known as recently seen before `x` exactly when the latest bucket with submissions for it below `x`
      holds a recent one that was not refused. */
  lemma PriorFreshIff(st: Settings, h: History, x: real, c: Context, threshold: real)
    requires ValidSettings(st) && ValidHistory(h)
    ensures Fresh(PriorLast(st, h, x, c), threshold) <==> CountedBefore(st, h, x, c, threshold)
  {
    hide Bucket, Fresh, LastSampled, Attempts, CounterAttemptsBelow, WellTimed, OneKindPerContext;
    var below := CounterAttemptsBelow(st, h, x, c);
    if below == [] {
      NothingIsFresh(threshold);
      forall e | e in h && CountsBelow(st, e, x, c) ensures false {
        LastBelowIsLatest(st, h, x, c, e);
      }
    } else {
      var last := below[|below| - 1];
      var b := Bucket(st, last.at);
      BelowAre(st, h, x, c, |below| - 1);
      FreshIff(st, h, b, c, threshold);
      LastBelowBounds(st, h, x, c);
      if e :| e in h && Touches(st, e, b, c) && e.reading.Succeeds() && threshold <= e.sampledAt {
        CountsHere(st, h, x, c, last, e);
        assert LatelyCounted(st, h, x, c, threshold, e);
      }
      if e :| LatelyCounted(st, h, x, c, threshold, e) {
        assert Bucket(st, last.at) <= Bucket(st, e.at);
        assert Touches(st, e, b, c);
      }
    }
  }

  lemma NothingIsFresh(threshold: real)
    ensures !Fresh(None, threshold)
  {
  }

  lemma LastBelowBounds(st: Settings, h: History, x: real, c: Context)
    requires ValidSettings(st) && ValidHistory(h) && CounterAttemptsBelow(st, h, x, c) != []
    ensures var below := CounterAttemptsBelow(st, h, x, c);
            below[|below| - 1].Submit? && NoLaterThan(st, h, x, c, Bucket(st, below[|below| - 1].at))
  {
    hide Bucket, CounterAttemptsBelow, OneKindPerContext, WellTimed;
    var below := CounterAttemptsBelow(st, h, x, c);
    BelowAre(st, h, x, c, |below| - 1);
    forall f | f in h && CountsBelow(st, f, x, c) ensures Bucket(st, f.at) <= Bucket(st, below[|below| - 1].at) {
      LastBelowIsLatest(st, h, x, c, f);
    }
  }

  /** `c` is the name of a counter. */
  ghost predicate IsCounter(h: History, c: Context) {
    forall e :: e in h && e.Submit? && e.ctx == c ==> e.reading.CounterReading?
  }

  ghost predicate Sampled(st: Settings, h: History, b: real, c: Context, threshold: real, e: Event)
    requires ValidSettings(st)
  {
    e in h && Touches(st, e, b, c) && e.reading.Succeeds() && threshold <= e.sampledAt
  }

  /** Some sample for `c` in bucket `b` succeeded recently enough. */
  ghost predicate CountedIn(st: Settings, h: History, b: real, c: Context, threshold: real)
    requires ValidSettings(st)
  {
    exists e :: Sampled(st, h, b, c, threshold, e)
  }

  /** Nothing was submitted for `c` in bucket `b`. */
  ghost predicate Untouched(st: Settings, h: History, b: real, c: Context)
    requires ValidSettings(st)
  {
    forall e :: e in h ==> !Touches(st, e, b, c)
  }

  lemma SampledFreshIff(st: Settings, h: History, b: real, c: Context, threshold: real)
    requires ValidSettings(st) && WellTimed(h)
    ensures Fresh(LastSampled(Attempts(st, h, b, c)), threshold) <==> CountedIn(st, h, b, c, threshold)
  {
    hide Bucket, Fresh, Attempts, LastSampled, WellTimed;
    FreshIff(st, h, b, c, threshold);
    if e :| e in h && Touches(st, e, b, c) && e.reading.Succeeds() && threshold <= e.sampledAt {
      assert Sampled(st, h, b, c, threshold, e);
    }
  }

  /** When a bucket is closed, a counter gets one point holding its total if some sample there succeeded recently
      enough; one zero if nothing was submitted for it there, but the latest earlier bucket that it was submitted to
      has such a sample; and nothing otherwise. */
  lemma ZeroFill(st: Settings, h: History, t: real, points: seq<Point>, b: real, c: Context)
    requires ValidSettings(st) && ValidHistory(h) && IsCounter(h, c) && Reports(st, h, t, points)
    requires b in PendingBuckets(st, h) && b < Bucket(st, t)
    ensures var threshold := t - st.expiry;
            PointsFor(points, b, c)
            == if CountedIn(st, h, b, c, threshold) then
                 [Point(c, Plain, RateType, b, CounterMass(Attempts(st, h, b, c)) / st.interval)]
               else if Untouched(st, h, b, c) && CountedBefore(st, h, b, c, threshold) then
                 [Point(c, Plain, RateType, b, 0.0)]
               else []
  {
    hide Bucket, PriorLast, WellTimed, OneKindPerContext, CountedIn, CountedBefore, Untouched, PendingBuckets, CounterMass,
         Attempts, Expected;
    var threshold := t - st.expiry;
    var a := Attempts(st, h, b, c);
    SampledFreshIff(st, h, b, c, threshold);
    PriorFreshIff(st, h, b, c, threshold);
    assert PointsFor(points, b, c) == Expected(st, h, t, b, c);
    ExpectedOfBucket(st, h, t, b, c);
    AttemptsIff(st, h, b, c);
    if a != [] {
      CounterObject(st, h, b, c);
    }
  }

  /** A flush that finds no bucket reports zeros for the interval before its cutoff, if an interval has passed since the
      last cutoff, for the counters that are known as recently sampled; and nothing else. */
  lemma IdleFill(st: Settings, h: History, t: real, points: seq<Point>, b: real, c: Context)
    requires ValidSettings(st) && ValidHistory(h) && Reports(st, h, t, points) && PendingBuckets(st, h) == {}
    ensures var cutoff := Bucket(st, t);
            var before := if LastFlush(h).Some? then Bucket(st, LastFlush(h).value) else 0.0;
            PointsFor(points, b, c)
            == if cutoff - before >= st.interval && b == cutoff - st.interval
                  && CountedBefore(st, h, cutoff, c, t - st.expiry) then
                 [Point(c, Plain, RateType, b, 0.0)]
               else []
  {
    hide Bucket, Fresh, PriorLast, CountedBefore, LastFlush, PendingBuckets, BucketReport;
    PriorFreshIff(st, h, Bucket(st, t), c, t - st.expiry);
    assert PointsFor(points, b, c) == Expected(st, h, t, b, c);
  }

  /** A flush that finds buckets reports nothing but those before its cutoff. */
  lemma OnlyClosedBuckets(st: Settings, h: History, t: real, points: seq<Point>, b: real, c: Context)
    requires ValidSettings(st) && Reports(st, h, t, points) && PendingBuckets(st, h) != {}
    requires b !in PendingBuckets(st, h) || Bucket(st, t) <= b
    ensures PointsFor(points, b, c) == []
  {
    hide Bucket, PendingBuckets, BucketReport, IdleReport;
    assert PointsFor(points, b, c) == Expected(st, h, t, b, c);
  }

  /** A bucket is pending exactly when something was submitted in it and no flush has reached it. */
  lemma PendingIff(st: Settings, h: History, b: real)
    requires ValidSettings(st) && WellTimed(h)
    ensures b in PendingBuckets(st, h)
       <==> (LastFlush(h).Some? ==> Bucket(st, LastFlush(h).value) <= b)
            && exists k :: 0 <= k < |h| && h[k].Submit? && Bucket(st, h[k].at) == b
  {
    hide Bucket, PendingBuckets, LastFlush, WellTimed;
    if b in PendingBuckets(st, h) {
      var k := PendingIsUnreached(st, h, b);
    }
    if NotYetFlushed(st, h, b) {
      if k :| 0 <= k < |h| && h[k].Submit? && Bucket(st, h[k].at) == b {
        UnreachedIsPending(st, h, k);
      }
    }
  }

  lemma ExpectedOfBucket(st: Settings, h: History, t: real, b: real, c: Context)
    requires ValidSettings(st) && b in PendingBuckets(st, h) && b < Bucket(st, t)
    ensures Expected(st, h, t, b, c) == BucketReport(st, h, t - st.expiry, b, c)
  {
    hide Bucket, PendingBuckets, BucketReport, IdleReport, IdleDue;
  }

  lemma CounterObject(st: Settings, h: History, b: real, c: Context)
    requires ValidSettings(st) && IsCounter(h, c) && Attempts(st, h, b, c) != []
    ensures var a := Attempts(st, h, b, c);
            a[0].Submit? && !a[0].reading.Unresolved? && BatchState(a) == CounterState(CounterMass(a), LastSampled(a))
  {
    AttemptsTouch(st, h, b, c, 0);
  }

  lemma AttemptsIff(st: Settings, h: History, b: real, c: Context)
    requires ValidSettings(st)
    ensures Attempts(st, h, b, c) == [] <==> Untouched(st, h, b, c)
  {
    if Attempts(st, h, b, c) == [] {
      forall e | e in h ensures !Touches(st, e, b, c) {
        NoAttempts(st, h, b, c, e);
      }
    } else {
      AttemptsTouch(st, h, b, c, 0);
    }
  }

  lemma {:induction false} NoAttempts(st: Settings, h: History, b: real, c: Context, e: Event)
    requires ValidSettings(st) && Attempts(st, h, b, c) == [] && e in h
    ensures !Touches(st, e, b, c)
  {
    hide Bucket;
    var n := |h| - 1;
    InitAndLast(h, n);
    if e != h[n] {
      NoAttempts(st, h[..n], b, c, e);
    }
  }

  // ---------- the memory of a counter ----------

  /** Of two submissions in different buckets, the later one comes later in the history. */
  lemma LaterBucketLater(st: Settings, h: History, e: Event, f: Event)
    requires ValidSettings(st) && WellTimed(h) && e in h && f in h && e.Submit? && f.Submit?
    requires Bucket(st, e.at) < Bucket(st, f.at)
    ensures e.sampledAt <= f.sampledAt
  {
    hide Bucket, WellTimed;
    var i :| 0 <= i < |h| && h[i] == e;
    var j :| 0 <= j < |h| && h[j] == f;
    if i < j {
      InOrder(h, i, j);
    } else if j < i {
      InOrder(h, j, i);
      BucketMonotone(st, f.at, e.at);
    }
  }

  /** Later in the run and before a later bucket, a counter that is known was not last sampled earlier. */
  lemma PriorLastNeverGoesBack(st: Settings, g: History, h: History, x: real, y: real, c: Context)
    requires ValidSettings(st) && ValidHistory(g) && ValidHistory(h) && (forall e :: e in g ==> e in h) && x <= y
    requires PriorLast(st, g, x, c).Some? && PriorLast(st, h, y, c).Some?
    ensures PriorLast(st, g, x, c).value <= PriorLast(st, h, y, c).value
  {
    hide Bucket, PriorLast, WellTimed, OneKindPerContext;
    var v, w := PriorLast(st, g, x, c).value, PriorLast(st, h, y, c).value;
    PriorFreshIff(st, g, x, c, v);
    var e :| LatelyCounted(st, g, x, c, v, e);
    PriorFreshIff(st, h, y, c, w);
    var f :| LatelyCounted(st, h, y, c, w, f);
    PriorFreshIff(st, h, y, c, v);
    assert CountsBelow(st, e, y, c) && Bucket(st, e.at) <= Bucket(st, f.at);
    if Bucket(st, e.at) == Bucket(st, f.at) {
      assert LatelyCounted(st, h, y, c, v, e);
    } else {
      LaterBucketLater(st, h, e, f);
      assert LatelyCounted(st, h, y, c, v, f);
    }
  }

  /** An entry of the last-sample map that is there at two points of a run never goes back.  The field is tied to the
      history by the aggregator's invariant, which is `Consistent`. */
  lemma MemoryNeverGoesBack(st: Settings, c: Context,
                            g: History, out1: seq<seq<Point>>, pending1: Pending, last1: map<Context, real>, cutoff1: real,
                            h: History, out2: seq<seq<Point>>, pending2: Pending, last2: map<Context, real>, cutoff2: real)
    requires ValidSettings(st) && g <= h
    requires Consistent(st, g, out1, pending1, last1, cutoff1) && Consistent(st, h, out2, pending2, last2, cutoff2)
    requires c in last1 && c in last2
    ensures last1[c] <= last2[c]
  {
    hide Bucket, PriorLast, WellTimed, OneKindPerContext, IsRun, PendingMatches, LastFlush;
    CutoffGrows(st, g, h);
    PriorLastNeverGoesBack(st, g, h, cutoff1, cutoff2, c);
  }

  lemma CutoffGrows(st: Settings, g: History, h: History)
    requires ValidSettings(st) && WellTimed(h) && g <= h && LastFlush(g).Some?
    ensures LastFlush(h).Some? && Bucket(st, LastFlush(g).value) <= Bucket(st, LastFlush(h).value)
  {
    hide Bucket;
    var k := LastFlushIs(g);
    assert h[k] == g[k];
    LastFlushAt(h, k);
    BucketMonotone(st, LastFlush(g).value, LastFlush(h).value);
  }

  lemma {:induction false} LastFlushIs(h: History) returns (k: nat)
    requires LastFlush(h).Some?
    ensures k < |h| && h[k].Flush? && LastFlush(h) == Some(h[k].at)
  {
    k := |h| - 1;
    if !h[k].Flush? {
      k := LastFlushIs(h[..|h| - 1]);
    }
  }

  // ---------- a packet with rate zero ----------

  /** A sample, and in the next bucket a packet with rate zero, which raises. */
  function RefusedLater(st: Settings, c: Context): History
    requires ValidSettings(st)
  {
    [ Submit(c, CounterReading(1.0, 1.0), 0.0, 0.0),
      Submit(c, CounterReading(1.0, 0.0), st.interval, st.interval) ]
  }

  /** The packet ends the zero-filling of the counter, however long the expiry: below any later bucket it is unknown,
      while without the packet it would be known. */
  lemma ZeroRateStopsZeros(st: Settings, c: Context, x: real, threshold: real)
    requires ValidSettings(st) && st.interval < x
    ensures var h := RefusedLater(st, c);
            && ValidHistory(h) && IsCounter(h, c)
            && !Fresh(PriorLast(st, h, x, c), threshold)
            && (Fresh(PriorLast(st, h[..1], x, c), threshold) <==> threshold <= 0.0)
  {
    hide Bucket;
    FirstBuckets(st);
    var h := RefusedLater(st, c);
    var one := h[..1];
    RefusedLaterIsValid(st, c);
    PriorFreshIff(st, h, x, c, threshold);
    PriorFreshIff(st, one, x, c, threshold);
    assert one == [h[0]];
    forall e ensures !LatelyCounted(st, h, x, c, threshold, e) {
      assert h[1] in h && CountsBelow(st, h[1], x, c);
    }
    assert h[0] in one;
    assert threshold <= 0.0 ==> LatelyCounted(st, one, x, c, threshold, h[0]);
  }

  lemma FirstBuckets(st: Settings)
    requires ValidSettings(st)
    ensures Bucket(st, 0.0) == 0.0 && Bucket(st, st.interval) == st.interval
  {
    assert 0.0 / st.interval == 0.0 && st.interval / st.interval == 1.0;
  }

  lemma RefusedLaterIsValid(st: Settings, c: Context)
    requires ValidSettings(st)
    ensures ValidHistory(RefusedLater(st, c)) && ValidHistory(RefusedLater(st, c)[..1])
  {
    var h := RefusedLater(st, c);
    var none: History := [];
    ExtendHistory(none, h[0]);
    assert none + [h[0]] == [h[0]] == h[..1];
    ExtendHistory([h[0]], h[1]);
    assert [h[0]] + [h[1]] == h;
  }

  // ---------- order of arrival ----------

  lemma {:induction false} MassWithout(a: History, i: nat)
    requires i < |a|
    ensures CounterMass(a) == CounterMass(a[..i] + a[i + 1..]) + EventMass(a[i])
  {
    var n := |a| - 1;
    if i == n {
      assert a[..i] + a[i + 1..] == a[..n];
    } else {
      var b := a[..i] + a[i + 1..];
      assert a[..n][..i] + a[..n][i + 1..] == b[..|b| - 1] && b[|b| - 1] == a[n];
      MassWithout(a[..n], i);
    }
  }

  lemma {:induction false} CountWithout(a: History, i: nat)
    requires i < |a|
    ensures SampledCount(a) == SampledCount(a[..i] + a[i + 1..]) + EventCount(a[i])
  {
    var n := |a| - 1;
    if i == n {
      assert a[..i] + a[i + 1..] == a[..n];
    } else {
      var b := a[..i] + a[i + 1..];
      assert a[..n][..i] + a[..n][i + 1..] == b[..|b| - 1] && b[|b| - 1] == a[n];
      CountWithout(a[..n], i);
    }
  }

  /** Values as a bag. */
  function ValueBag(a: History): multiset<real> {
    multiset(SampledValues(a))
  }

  lemma ValuesStep(a: History, e: Event)
    ensures ValueBag(a + [e]) == ValueBag(a) + multiset(EventValues(e))
  {
    assert (a + [e])[..|a|] == a;
    assert SampledValues(a + [e]) == SampledValues(a) + EventValues(e);
  }

  lemma {:induction false} ValuesWithout(a: History, i: nat)
    requires i < |a|
    ensures ValueBag(a) == ValueBag(a[..i] + a[i + 1..]) + multiset(EventValues(a[i]))
  {
    var n := |a| - 1;
    assert a == a[..n] + [a[n]];
    ValuesStep(a[..n], a[n]);
    if i == n {
      assert a[..i] + a[i + 1..] == a[..n];
    } else {
      var rest := a[..n][..i] + a[..n][i + 1..];
      assert a[..i] + a[i + 1..] == rest + [a[n]];
      ValuesWithout(a[..n], i);
      ValuesStep(rest, a[n]);
    }
  }

  lemma SameWithout(a: History, b: History) returns (j: nat)
    requires a != [] && multiset(a) == multiset(b)
    ensures j < |b| && b[j] == a[|a| - 1]
    ensures multiset(a[..|a| - 1]) == multiset(b[..j] + b[j + 1..])
  {
    var n := |a| - 1;
    assert a == a[..n] + [a[n]];
    assert a[n] in multiset(b);
    j :| 0 <= j < |b| && b[j] == a[n];
    BagWithout(b, j);
    BagWithout(a, n);
    assert a[..n] + a[n + 1..] == a[..n];
  }

  lemma BagWithout(a: History, i: nat)
    requires i < |a|
    ensures multiset(a[..i] + a[i + 1..]) == multiset(a) - multiset{a[i]}
  {
    assert a == a[..i] + [a[i]] + a[i + 1..];
  }

  /** Counter totals, histogram counts and values and set members depend only on which samples arrived. */
  lemma {:induction false} OrderDoesNotMatter(a: History, b: History)
    requires multiset(a) == multiset(b)
    ensures CounterMass(a) == CounterMass(b)
    ensures SampledCount(a) == SampledCount(b)
    ensures ValueBag(a) == ValueBag(b)
  {
    if a == [] {
      assert |b| == |multiset(b)|;
    } else {
      var n := |a| - 1;
      var j := SameWithout(a, b);
      var rest := b[..j] + b[j + 1..];
      OrderDoesNotMatter(a[..n], rest);
      MassWithout(a, n);
      MassWithout(b, j);
      CountWithout(a, n);
      CountWithout(b, j);
      ValuesWithout(a, n);
      ValuesWithout(b, j);
      assert a[..n] + a[n + 1..] == a[..n];
    }
  }

  /** Percentiles, median, minimum and maximum depend only on the bag of values. */
  lemma SortedDependsOnBag(x: seq<real>, y: seq<real>)
    requires multiset(x) == multiset(y)
    ensures Sorted(x) == Sorted(y)
  {
    SortedIsUnique(Sorted(x), Sorted(y));
  }

  lemma SameMembers(a: History, b: History)
    requires multiset(a) == multiset(b)
    ensures Members(a) == Members(b)
  {
    forall m ensures m in Members(a) <==> m in Members(b) {
      if m in Members(a) {
        MemberMoves(a, b, m);
      }
      if m in Members(b) {
        MemberMoves(b, a, m);
      }
    }
  }

  lemma MemberMoves(a: History, b: History, m: string)
    requires multiset(a) == multiset(b) && m in Members(a)
    ensures m in Members(b)
  {
    var i :| 0 <= i < |a| && a[i].Submit? && a[i].reading.SetReading? && a[i].reading.member == m;
    assert a[i] in multiset(b);
    var j :| 0 <= j < |b| && b[j] == a[i];
    assert b[j].reading.member == m;
  }
}
