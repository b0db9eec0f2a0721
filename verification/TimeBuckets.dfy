// The settings of the bucket aggregator, and the time buckets they define.
module TimeBuckets {
  import opened MetricSpec

  datatype Settings = Settings(interval: real, expiry: real, histogram: HistogramConfig)

  predicate ValidSettings(st: Settings) {
    st.interval > 0.0 && ValidHistogramConfig(st.histogram)
  }

  // ---------- time buckets ----------

  /** Python's `%` on a positive divisor. */
  function PyMod(t: real, interval: real): real
    requires interval > 0.0
  {
    t - interval * (t / interval).Floor as real
  }

  function Bucket(st: Settings, t: real): real
    requires ValidSettings(st)
  {
    t - PyMod(t, st.interval)
  }

  lemma ScaledFraction(i: real, d: real)
    requires i > 0.0 && 0.0 <= d < 1.0
    ensures 0.0 <= i * d < i
  {
    assert i * (1.0 - d) > 0.0;
  }

  lemma Distribute(i: real, d: real, f: real)
    ensures i * (d + f) == i * d + i * f
  {
  }

  lemma RemainderBounds(t: real, interval: real, d: real, f: real)
    requires interval > 0.0 && t == interval * (d + f) && 0.0 <= d < 1.0
    ensures 0.0 <= t - interval * f < interval
  {
    ScaledFraction(interval, d);
    Distribute(interval, d, f);
  }

  lemma ModBounds(t: real, interval: real)
    requires interval > 0.0
    ensures 0.0 <= PyMod(t, interval) < interval
  {
    var q := t / interval;
    var f := q.Floor as real;
    assert (q - f) + f == q;
    RemainderBounds(t, interval, q - f, f);
  }

  lemma BucketBounds(st: Settings, t: real)
    requires ValidSettings(st)
    ensures Bucket(st, t) <= t < Bucket(st, t) + st.interval
  {
    ModBounds(t, st.interval);
  }

  /** Buckets start at the multiples of the interval. */
  lemma BucketIsMultiple(st: Settings, t: real) returns (k: int)
    requires ValidSettings(st)
    ensures Bucket(st, t) == st.interval * k as real
  {
    k := (t / st.interval).Floor;
  }

  lemma BucketMonotone(st: Settings, t: real, u: real)
    requires ValidSettings(st) && t <= u
    ensures Bucket(st, t) <= Bucket(st, u)
  {
    assert t / st.interval <= u / st.interval;
    var a, b := (t / st.interval).Floor as real, (u / st.interval).Floor as real;
    assert a <= b;
    assert st.interval * a <= st.interval * b;
  }

  lemma MultiplesInOrder(x: real, i: int, j: int)
    requires x > 0.0 && x * i as real < x * j as real
    ensures i < j
  {
    assert x * (j as real - i as real) > 0.0;
  }

  /** Different buckets are at least one interval apart. */
  lemma BucketGap(st: Settings, t: real, u: real)
    requires ValidSettings(st) && Bucket(st, t) < Bucket(st, u)
    ensures Bucket(st, t) + st.interval <= Bucket(st, u)
  {
    var i, j := (t / st.interval).Floor, (u / st.interval).Floor;
    assert st.interval * i as real < st.interval * j as real;
    MultiplesInOrder(st.interval, i, j);
    assert st.interval * (i + 1) as real <= st.interval * j as real;
  }
}
