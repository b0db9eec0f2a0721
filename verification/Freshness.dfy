// When a flush finds a metric object stale.
module Freshness {
  import opened Prelude
  import opened MetricSpec
  import opened TimeBuckets
  import opened BatchSpec
  import opened BatchFacts

  // ---------- when the stale branch is taken ----------

  /** An object is fresh exactly when some successful sample of its bucket is recent enough; in particular an
      object whose samples all divided by a zero rate is never fresh. */
  lemma {:induction false} FreshIff(st: Settings, h: History, b: real, c: Context, threshold: real)
    requires ValidSettings(st) && WellTimed(h)
    ensures Fresh(LastSampled(Attempts(st, h, b, c)), threshold)
       <==> exists e :: e in h && Touches(st, e, b, c) && e.reading.Succeeds() && threshold <= e.sampledAt
  {
    if h != [] {
      var n := |h| - 1;
      var g, e := h[..n], h[n];
      FreshIff(st, g, b, c, threshold);
      assert h == g + [e];
      if Touches(st, e, b, c) && e.reading.Succeeds() {
        assert Attempts(st, h, b, c)[|Attempts(st, g, b, c)|] == e;
        forall f | f in g && f.Submit? ensures f.sampledAt <= e.sampledAt {
          var i :| 0 <= i < |g| && g[i] == f;
          assert h[i] == f;
          InOrder(h, i, n);
        }
        assert e in h;
      } else {
        LastSampledSkips(st, g, e, b, c);
      }
    }
  }

  lemma LastSampledSkips(st: Settings, g: History, e: Event, b: real, c: Context)
    requires ValidSettings(st) && !(Touches(st, e, b, c) && e.reading.Succeeds())
    ensures LastSampled(Attempts(st, g + [e], b, c)) == LastSampled(Attempts(st, g, b, c))
  {
    AttemptsStep(st, g, e, b, c);
    if Touches(st, e, b, c) {
      var a := Attempts(st, g, b, c);
      assert (a + [e])[..|a|] == a;
    } else {
      assert Attempts(st, g + [e], b, c) == Attempts(st, g, b, c);
    }
  }

  // ---------- how often to flush ----------

  /** Flushes come at most `gap` apart, the first one at most `gap` after `start`. */
  ghost predicate GapsAtMost(h: History, start: real, gap: real) {
    h == [] ||
    var g, e := h[..|h| - 1], h[|h| - 1];
    && GapsAtMost(g, start, gap)
    && start <= e.at
    && (e.Flush? ==> e.at <= gap + if LastFlush(g).Some? then LastFlush(g).value else start)
  }

  lemma {:induction false} StartsAfter(h: History, start: real, gap: real, k: nat)
    requires GapsAtMost(h, start, gap) && k < |h|
    ensures start <= h[k].at
  {
    if k < |h| - 1 {
      StartsAfter(h[..|h| - 1], start, gap, k);
    }
  }

  /** If flushes come at most `gap` apart and gap + interval <= expiry, no sampled object is ever stale when its
      bucket is flushed: the branch marked as impossible is. */
  lemma TimelyFlushesExpireNothing(st: Settings, h: History, start: real, gap: real, t: real, b: real, c: Context)
    requires ValidSettings(st) && ValidHistory(h + [Flush(t)]) && GapsAtMost(h + [Flush(t)], start, gap)
    requires gap + st.interval <= st.expiry
    requires b in PendingBuckets(st, h) && b < Bucket(st, t)
    requires LastSampled(Attempts(st, h, b, c)).Some?
    ensures Fresh(LastSampled(Attempts(st, h, b, c)), t - st.expiry)
  {
    assert (h + [Flush(t)])[..|h|] == h;
    LastEvent(h, Flush(t));
    var last := LastSampled(Attempts(st, h, b, c)).value;
    FreshIff(st, h, b, c, last);
    var e :| e in h && Touches(st, e, b, c) && e.reading.Succeeds() && last <= e.sampledAt;
    var i :| 0 <= i < |h| && h[i] == e;
    WithinCall(h, i);
    BucketBounds(st, e.at);
    StartsAfter(h, start, gap, i);
    if LastFlush(h).Some? {
      var w := PendingIsUnreached(st, h, b);
      BucketBounds(st, LastFlush(h).value);
    }
    assert t - st.expiry <= e.sampledAt;
    FreshIff(st, h, b, c, t - st.expiry);
  }
}
