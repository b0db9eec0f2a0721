// How often the flushes must come for no counter sample to be dropped.
module TimingBound {
  import opened Prelude
  import opened MetricSpec
  import opened TimeBuckets
  import opened BatchSpec
  import opened BatchFacts
  import opened RunTheorems
  import opened Freshness
  import opened MassConservation

  // ---------- timely flushes drop nothing ----------

  lemma {:induction false} NothingStaleClosed(st: Settings, g: History, k: nat, start: real, gap: real, t: real, c: Context)
    requires ValidSettings(st) && ValidHistory(g + [Flush(t)]) && GapsAtMost(g + [Flush(t)], start, gap)
    requires gap + st.interval <= st.expiry && k <= |g|
    ensures ClosedMass(st, g, g[..k], t, c, Bucket(st, t), true) == 0.0
  {
    if k > 0 {
      var e := g[k - 1];
      assert g[..k][..k - 1] == g[..k - 1] && g[..k][k - 1] == e;
      NothingStaleClosed(st, g, k - 1, start, gap, t, c);
      var b := Bucket(st, e.at);
      if e.Submit? && e.ctx == c && e.reading.CounterReading? && e.reading.Succeeds() && NotYetFlushed(st, g, b) && b < Bucket(st, t) {
        LastEvent(g, Flush(t));
        FreshIff(st, g, b, c, e.sampledAt);
        UnreachedIsPending(st, g, k - 1);
        TimelyFlushesExpireNothing(st, g, start, gap, t, b, c);
      }
    }
  }

  lemma {:induction false} TimelyFlushesDropNothing(st: Settings, h: History, start: real, gap: real, c: Context)
    requires ValidSettings(st) && ValidHistory(h) && GapsAtMost(h, start, gap)
    requires gap + st.interval <= st.expiry
    ensures DroppedMass(st, h, c) == 0.0
  {
    if h != [] {
      var n := |h| - 1;
      TimelyFlushesDropNothing(st, h[..n], start, gap, c);
      if h[n].Flush? {
        assert h == h[..n] + [Flush(h[n].at)];
        assert h[..n][..n] == h[..n];
        NothingStaleClosed(st, h[..n], n, start, gap, h[n].at, c);
      }
    }
  }

  // ---------- the bound is the best possible ----------

  /** A sample at time zero, and `n` flushes that come `d` apart. */
  function EarlyRun(c: Context, d: real, n: nat): History {
    if n == 0 then [Submit(c, CounterReading(1.0, 1.0), 0.0, 0.0)] else EarlyRun(c, d, n - 1) + [Flush(Stretch(n, d))]
  }

  /** All of them inside the first bucket; the next flush comes `gap` later. */
  function LateRun(c: Context, d: real, n: nat, gap: real): History {
    EarlyRun(c, d, n) + [Flush(Stretch(n, d) + gap)]
  }

  lemma BucketOf(st: Settings, t: real)
    requires ValidSettings(st) && 0.0 <= t < st.interval
    ensures Bucket(st, t) == 0.0
  {
    BucketBounds(st, t);
    QuotientInUnit(t, st.interval);
  }

  lemma QuotientInUnit(t: real, interval: real)
    requires 0.0 <= t < interval
    ensures 0.0 <= t / interval < 1.0
    ensures (t / interval).Floor == 0
  {
    assert (t / interval) * interval == t;
    if t / interval >= 1.0 {
      ScaleUp(t / interval, interval);
    }
  }

  lemma ScaleUp(q: real, interval: real)
    requires q >= 1.0 && interval > 0.0
    ensures q * interval >= interval
  {
    assert (q - 1.0) * interval >= 0.0;
  }

  lemma StretchIsPositive(n: nat, d: real)
    requires d > 0.0
    ensures Stretch(n, d) >= 0.0
  {
  }

  lemma PositiveProduct(x: real, d: real)
    requires d > 0.0
    ensures x >= 0.0 ==> x * d >= 0.0
    ensures x > 0.0 ==> x * d > 0.0
  {
  }

  lemma Between(d: real, q: real, f: real, x: real)
    requires d > 0.0 && f <= q < f + 1.0 && q * d == x
    ensures f * d <= x < f * d + d
  {
    var below, above := q - f, f + 1.0 - q;
    PositiveProduct(below, d);
    PositiveProduct(above, d);
    assert below * d + f * d == x;
    assert above * d + x == f * d + d;
  }

  lemma Quotient(d: real, x: real) returns (n: nat)
    requires d > 0.0 && x >= 0.0
    ensures Stretch(n, d) <= x < Stretch(n, d) + d
  {
    var q := x / d;
    assert q >= 0.0;
    n := q.Floor;
    Between(d, q, n as real, x);
  }

  /** Steps of at most `gap` that end between `low` and `high`. */
  lemma StepsBetween(gap: real, low: real, high: real) returns (d: real, n: nat)
    requires 0.0 < gap && 0.0 <= low < high
    ensures 0.0 < d <= gap && low < Stretch(n, d) < high
  {
    hide Stretch;
    d := if gap < (high - low) / 2.0 then gap else (high - low) / 2.0;
    var k := Quotient(d, low);
    n := k + 1;
    StretchOne(k, d);
  }

  lemma {:induction false} EarlyRunEnds(c: Context, d: real, n: nat)
    ensures var h := EarlyRun(c, d, n);
            && h != [] && h[|h| - 1].End() == Stretch(n, d)
            && LastFlush(h) == if n == 0 then None else Some(Stretch(n, d))
  {
    hide Stretch;
    StretchOne(0, d);
    if n > 0 {
      EarlyRunEnds(c, d, n - 1);
    }
  }

  lemma {:induction false} EarlyRunIsTimely(c: Context, d: real, n: nat, gap: real)
    requires 0.0 < d <= gap
    ensures ValidHistory(EarlyRun(c, d, n)) && GapsAtMost(EarlyRun(c, d, n), 0.0, gap)
  {
    hide ValidHistory, Stretch;
    if n == 0 {
      var none: History := [];
      var first := Submit(c, CounterReading(1.0, 1.0), 0.0, 0.0);
      EmptyIsValid();
      ExtendHistory(none, first);
      assert none + [first] == [first] && [first][..0] == none;
      assert GapsAtMost(none, 0.0, gap);
    } else {
      EarlyRunIsTimely(c, d, n - 1, gap);
      EarlyRunEnds(c, d, n - 1);
      StretchOne(n - 1, d);
      StretchIsPositive(n - 1, d);
      FlushExtends(EarlyRun(c, d, n - 1), Stretch(n, d), gap);
    }
  }

  lemma EmptyIsValid()
    ensures ValidHistory([])
  {
  }

  lemma FlushExtends(h: History, t: real, gap: real)
    requires ValidHistory(h) && GapsAtMost(h, 0.0, gap) && 0.0 <= t
    requires h != [] && h[|h| - 1].End() <= t <= gap + if LastFlush(h).Some? then LastFlush(h).value else 0.0
    ensures ValidHistory(h + [Flush(t)]) && GapsAtMost(h + [Flush(t)], 0.0, gap)
  {
    hide ValidHistory;
    ExtendHistory(h, Flush(t));
    WithOneMore(h, Flush(t));
  }

  lemma LateRunIsTimely(c: Context, d: real, n: nat, gap: real)
    requires 0.0 < d <= gap
    ensures ValidHistory(LateRun(c, d, n, gap)) && GapsAtMost(LateRun(c, d, n, gap), 0.0, gap)
  {
    hide ValidHistory, GapsAtMost, EarlyRun, Stretch;
    EarlyRunIsTimely(c, d, n, gap);
    EarlyRunEnds(c, d, n);
    StretchOne(0, d);
    StretchIsPositive(n, d);
    FlushExtends(EarlyRun(c, d, n), Stretch(n, d) + gap, gap);
  }

  /** Inside the first bucket, the flushes find the sample pending, and close nothing. */
  lemma {:induction false} EarlyRunHolds(st: Settings, c: Context, d: real, n: nat)
    requires ValidSettings(st) && 0.0 < d && Stretch(n, d) < st.interval
    ensures var h := EarlyRun(c, d, n);
            && NotYetFlushed(st, h, 0.0) && DroppedMass(st, h, c) == 0.0
            && Attempts(st, h, 0.0, c) == [Submit(c, CounterReading(1.0, 1.0), 0.0, 0.0)]
  {
    hide Bucket, ClosedMass, Stretch;
    BucketOf(st, 0.0);
    if n == 0 {
      FirstSample(st, c);
    } else {
      var g := EarlyRun(c, d, n - 1);
      StretchOne(n - 1, d);
      StretchIsPositive(n - 1, d);
      EarlyRunHolds(st, c, d, n - 1);
      BucketOf(st, Stretch(n, d));
      EarlyRunEnds(c, d, n);
      WithOneMore(g, Flush(Stretch(n, d)));
      EarlyRunIsPositive(st, c, d, n - 1, g, Stretch(n, d), true);
    }
  }

  lemma FirstSample(st: Settings, c: Context)
    requires ValidSettings(st) && Bucket(st, 0.0) == 0.0
    ensures var h := EarlyRun(c, 1.0, 0);
            && NotYetFlushed(st, h, 0.0) && DroppedMass(st, h, c) == 0.0
            && Attempts(st, h, 0.0, c) == [Submit(c, CounterReading(1.0, 1.0), 0.0, 0.0)]
  {
    var h := EarlyRun(c, 1.0, 0);
    var none: History := [];
    assert h[..0] == none && LastFlush(none) == None && Attempts(st, none, 0.0, c) == [] && DroppedMass(st, none, c) == 0.0;
  }

  /** Nothing lies before the first bucket. */
  lemma {:induction false} EarlyRunIsPositive(st: Settings, c: Context, d: real, n: nat, g: History, t: real, stale: bool)
    requires ValidSettings(st) && 0.0 < d && Stretch(n, d) < st.interval
    ensures ClosedMass(st, g, EarlyRun(c, d, n), t, c, 0.0, stale) == 0.0
  {
    hide Bucket, IsStale, NotYetFlushed, Stretch;
    BucketOf(st, 0.0);
    if n == 0 {
      OneClosed(st, g, t, c, 0.0, stale);
    } else {
      StretchOne(n - 1, d);
      StretchIsPositive(n - 1, d);
      BucketOf(st, Stretch(n, d));
      EarlyRunIsPositive(st, c, d, n - 1, g, t, stale);
      WithOneMore(EarlyRun(c, d, n - 1), Flush(Stretch(n, d)));
    }
  }

  lemma WeightOfOne()
    ensures Weight(1.0) == 1
  {
  }

  lemma OneClosed(st: Settings, g: History, t: real, c: Context, x: real, stale: bool)
    requires ValidSettings(st) && Bucket(st, 0.0) == 0.0
    ensures ClosedMass(st, g, EarlyRun(c, 1.0, 0), t, c, x, stale)
            == if NotYetFlushed(st, g, 0.0) && 0.0 < x && IsStale(st, g, t, 0.0, c) == stale then 1.0 else 0.0
  {
    hide Bucket, IsStale, NotYetFlushed, Stretch;
    var none: History, h := [], EarlyRun(c, 1.0, 0);
    WeightOfOne();
    assert h[..0] == none && ClosedMass(st, g, none, t, c, x, stale) == 0.0 && MassFor(h[0], c) == 1.0;
  }

  /** The late flush closes the sample's bucket, and drops it. */
  lemma {:induction false} SampleIsDropped(st: Settings, c: Context, d: real, n: nat, g: History, t: real, x: real)
    requires ValidSettings(st) && NotYetFlushed(st, g, 0.0) && 0.0 < x && IsStale(st, g, t, 0.0, c)
    requires Bucket(st, 0.0) == 0.0
    ensures ClosedMass(st, g, EarlyRun(c, d, n), t, c, x, true) == 1.0
  {
    hide Bucket, IsStale, NotYetFlushed, Stretch;
    if n == 0 {
      OneClosed(st, g, t, c, x, true);
    } else {
      SampleIsDropped(st, c, d, n - 1, g, t, x);
      WithOneMore(EarlyRun(c, d, n - 1), Flush(Stretch(n, d)));
    }
  }

  /** A run whose last flush before the sample's bucket ends comes too early for the next one to be in time. */
  lemma LateRunDrops(st: Settings, c: Context, d: real, n: nat, gap: real)
    requires ValidSettings(st) && 0.0 < d && 0.0 < gap
    requires Stretch(n, d) < st.interval <= Stretch(n, d) + gap && st.expiry < Stretch(n, d) + gap
    ensures DroppedMass(st, LateRun(c, d, n, gap), c) == 1.0
  {
    hide Bucket, ClosedMass, EarlyRun, NotYetFlushed, IsStale, Stretch;
    var g, t := EarlyRun(c, d, n), Stretch(n, d) + gap;
    BucketOf(st, 0.0);
    EarlyRunHolds(st, c, d, n);
    LateIsStale(st, g, c, t);
    BucketBounds(st, t);
    BucketIsPositive(st, t);
    SampleIsDropped(st, c, d, n, g, t, Bucket(st, t));
    WithOneMore(g, Flush(t));
  }

  lemma LateIsStale(st: Settings, g: History, c: Context, t: real)
    requires ValidSettings(st) && st.expiry < t
    requires Attempts(st, g, 0.0, c) == [Submit(c, CounterReading(1.0, 1.0), 0.0, 0.0)]
    ensures IsStale(st, g, t, 0.0, c)
  {
    assert LastSampled(Attempts(st, g, 0.0, c)) == Some(0.0);
  }

  lemma BucketIsPositive(st: Settings, t: real)
    requires ValidSettings(st) && st.interval <= t
    ensures Bucket(st, t) > 0.0
  {
    BucketBounds(st, t);
  }

  /** No run whose flushes keep to the gap ever drops anything. */
  ghost predicate NeverDrops(st: Settings, gap: real)
    requires ValidSettings(st)
  {
    forall h, start, c :: ValidHistory(h) && GapsAtMost(h, start, gap) ==> DroppedMass(st, h, c) == 0.0
  }

  /** For any flush gap, that is so if and only if gap + interval <= expiry. */
  lemma TimingBoundIsExact(st: Settings, gap: real)
    requires ValidSettings(st) && 0.0 < gap
    ensures NeverDrops(st, gap) <==> gap + st.interval <= st.expiry
  {
    if gap + st.interval <= st.expiry {
      forall h, start, c | ValidHistory(h) && GapsAtMost(h, start, gap) ensures DroppedMass(st, h, c) == 0.0 {
        TimelyFlushesDropNothing(st, h, start, gap, c);
      }
    } else {
      LateRunRefutes(st, Context("c", [], ""), gap);
    }
  }

  /** Flushes that keep to a gap beyond expiry - interval can lose a sample. */
  lemma LateRunRefutes(st: Settings, c: Context, gap: real)
    requires ValidSettings(st) && 0.0 < gap && st.expiry < gap + st.interval
    ensures !NeverDrops(st, gap)
  {
    hide ValidHistory, GapsAtMost, DroppedMass, LateRun, Stretch;
    var late := if st.interval < st.expiry then st.expiry - gap else st.interval - gap;
    var d, n := StepsBetween(gap, if late < 0.0 then 0.0 else late, st.interval);
    LateRunIsTimely(c, d, n, gap);
    LateRunDrops(st, c, d, n, gap);
    var h := LateRun(c, d, n, gap);
    assert ValidHistory(h) && GapsAtMost(h, 0.0, gap) && DroppedMass(st, h, c) != 0.0;
  }
}
