// What a reported percentile, median and average mean for the samples.
module HistogramTheorems {
  import opened Prelude
  import opened Rounding
  import opened MetricSpec

  function CountAtMost(s: seq<real>, v: real): nat {
    if s == [] then 0 else CountAtMost(s[..|s| - 1], v) + if s[|s| - 1] <= v then 1 else 0
  }

  function CountBelow(s: seq<real>, v: real): nat {
    if s == [] then 0 else CountBelow(s[..|s| - 1], v) + if s[|s| - 1] < v then 1 else 0
  }

  // ---------- counting does not depend on the order ----------

  lemma {:induction false} CountsWithout(s: seq<real>, i: nat, v: real)
    requires i < |s|
    ensures CountAtMost(s, v) == CountAtMost(s[..i] + s[i + 1..], v) + if s[i] <= v then 1 else 0
    ensures CountBelow(s, v) == CountBelow(s[..i] + s[i + 1..], v) + if s[i] < v then 1 else 0
  {
    var n := |s| - 1;
    if i == n {
      assert s[..i] + s[i + 1..] == s[..n];
    } else {
      var t := s[..i] + s[i + 1..];
      assert s[..n][..i] + s[..n][i + 1..] == t[..|t| - 1] && t[|t| - 1] == s[n];
      CountsWithout(s[..n], i, v);
    }
  }

  lemma BagWithout(s: seq<real>, i: nat)
    requires i < |s|
    ensures multiset(s[..i] + s[i + 1..]) == multiset(s) - multiset{s[i]}
  {
    assert s == s[..i] + [s[i]] + s[i + 1..];
  }

  lemma {:induction false} CountsDependOnBag(s: seq<real>, t: seq<real>, v: real)
    requires multiset(s) == multiset(t)
    ensures CountAtMost(s, v) == CountAtMost(t, v) && CountBelow(s, v) == CountBelow(t, v)
  {
    if s == [] {
      assert |t| == |multiset(t)|;
    } else {
      var n := |s| - 1;
      assert s[n] in multiset(t);
      var j :| 0 <= j < |t| && t[j] == s[n];
      BagWithout(s, n);
      BagWithout(t, j);
      assert s[..n] + s[n + 1..] == s[..n];
      CountsDependOnBag(s[..n], t[..j] + t[j + 1..], v);
      CountsWithout(s, n, v);
      CountsWithout(t, j, v);
    }
  }

  /** In a sorted list, the element at `k` has at least k + 1 elements up to it and at most k below it. */
  lemma {:induction false} RankInSorted(s: seq<real>, k: nat)
    requires IsSorted(s) && k < |s|
    ensures CountAtMost(s, s[k]) >= k + 1 && CountBelow(s, s[k]) <= k
  {
    var n := |s| - 1;
    var t := s[..n];
    if k < n {
      assert t[k] == s[k];
      RankInSorted(t, k);
    } else {
      AllAtMost(t, s[k]);
      BelowAtMostLength(t, s[k]);
    }
  }

  lemma {:induction false} AllAtMost(s: seq<real>, v: real)
    requires forall i :: 0 <= i < |s| ==> s[i] <= v
    ensures CountAtMost(s, v) == |s|
  {
    if s != [] {
      AllAtMost(s[..|s| - 1], v);
    }
  }

  lemma {:induction false} BelowAtMostLength(s: seq<real>, v: real)
    ensures CountBelow(s, v) <= |s|
  {
    if s != [] {
      BelowAtMostLength(s[..|s| - 1], v);
    }
  }

  // ---------- percentiles ----------

  /** The 0-based position that Python's indexing picks: -1 is the last one. */
  function PercentilePosition(p: real, length: nat): int {
    var k := PercentileIndex(p, length);
    if k < 0 then length + k else k
  }

  /** Half way between two indices the even one is taken. */
  lemma PercentileTie(p: real, length: nat)
    requires var e := PercentileIndex(p, length) as real + 1.0 - Scaled(p, length); e == 0.5 || e == -0.5
    ensures PercentileIndex(p, length) % 2 == 0
  {
    TieIsEven(Scaled(p, length) - 1.0);
  }

  /** The reported percentile is a sample whose rank is within one half of p * L, provided p * L >= 1/2. */
  lemma PercentileRank(samples: seq<real>, p: real)
    requires samples != [] && 0.0 <= p <= 1.0 && p * |samples| as real >= 0.5
    ensures var k := PercentileIndex(p, |samples|);
            var v := PercentileValue(samples, p);
            && 0 <= k < |samples|
            && -0.5 <= (k + 1) as real - p * |samples| as real <= 0.5
            && v in samples
            && CountAtMost(samples, v) >= k + 1 && CountBelow(samples, v) <= k
  {
    PercentileIndexInRange(p, |samples|);
    var k := PercentileIndex(p, |samples|);
    var v := PercentileValue(samples, p);
    RankInSorted(Sorted(samples), k);
    CountsDependOnBag(samples, Sorted(samples), v);
    assert v in multiset(Sorted(samples));
  }

  /** The rank error stays within one half exactly when p * L >= 1/2; below that the index is -1. */
  lemma RankErrorIff(p: real, length: nat)
    requires length > 0 && 0.0 <= p <= 1.0
    ensures -0.5 <= (PercentilePosition(p, length) + 1) as real - p * length as real <= 0.5 <==> p * length as real >= 0.5
    ensures p * length as real < 0.5 <==> PercentileIndex(p, length) == -1
  {
    PercentileIndexInRange(p, length);
  }

  /** Below that bound the largest sample is reported. */
  lemma LowPercentileIsMaximum(samples: seq<real>, p: real)
    requires samples != [] && 0.0 <= p <= 1.0 && p * |samples| as real < 0.5
    ensures PercentileValue(samples, p) in samples
    ensures forall i :: 0 <= i < |samples| ==> samples[i] <= PercentileValue(samples, p)
  {
    PercentileIndexInRange(p, |samples|);
    ExtremesBoundAll(samples);
    var s := Sorted(samples);
    assert s[|s| - 1] in multiset(s);
  }

  lemma ScaleUp(p: real, q: real, n: nat)
    requires p <= q
    ensures Scaled(p, n) <= Scaled(q, n)
  {
    Multiply(q - p, n as real);
    assert Scaled(q, n) - Scaled(p, n) == (q - p) * n as real;
  }

  lemma Multiply(x: real, y: real)
    requires 0.0 <= x && 0.0 <= y
    ensures 0.0 <= x * y
  {
  }

  lemma PercentileIndexIsMonotone(p: real, q: real, length: nat)
    requires p <= q
    ensures PercentileIndex(p, length) <= PercentileIndex(q, length)
  {
    ScaleUp(p, q, length);
    RoundIsMonotone(Scaled(p, length) - 1.0, Scaled(q, length) - 1.0);
  }

  lemma InSortedOrder(s: seq<real>, i: int, j: int)
    requires IsSorted(s) && 0 <= i <= j < |s|
    ensures At(s, i) <= At(s, j)
  {
  }

  /** Percentiles are ordered, as long as the lower one keeps to the bound. */
  lemma PercentilesAreMonotone(samples: seq<real>, p: real, q: real)
    requires samples != [] && 0.0 <= p <= q <= 1.0 && p * |samples| as real >= 0.5
    ensures PercentileValue(samples, p) <= PercentileValue(samples, q)
  {
    PercentileIndexInRange(p, |samples|);
    PercentileIndexInRange(q, |samples|);
    PercentileIndexIsMonotone(p, q, |samples|);
    InSortedOrder(Sorted(samples), PercentileIndex(p, |samples|), PercentileIndex(q, |samples|));
  }

  lemma HalfWay(m: int)
    ensures RoundHalfEven(m as real - 0.5) % 2 == 0
  {
    var x := m as real - 0.5;
    RoundsToNearest(x);
    var n := RoundHalfEven(x);
    assert n == m || n == m - 1;
    TieIsEven(x);
  }

  lemma OddMedian(length: nat)
    requires length % 2 == 1
    ensures MedianIndex(length) % 2 == 0
  {
    hide RoundHalfEven;
    var m := length / 2;
    assert length == 2 * m + 1;
    HalfWay(m);
    assert length as real / 2.0 - 1.0 == m as real - 0.5;
  }

  /** The median is a sample whose rank is within one half of L / 2. */
  lemma MedianRank(samples: seq<real>)
    requires samples != []
    ensures var k := MedianIndex(|samples|);
            var v := MedianValue(samples);
            && 0 <= k < |samples|
            && -0.5 <= (k + 1) as real - |samples| as real / 2.0 <= 0.5 && (|samples| % 2 == 1 ==> k % 2 == 0)
            && v in samples
            && CountAtMost(samples, v) >= k + 1 && CountBelow(samples, v) <= k
  {
    if |samples| % 2 == 1 {
      OddMedian(|samples|);
    }
    MedianIndexInRange(|samples|);
    var k := MedianIndex(|samples|);
    var v := MedianValue(samples);
    RankInSorted(Sorted(samples), k);
    CountsDependOnBag(samples, Sorted(samples), v);
    assert v in multiset(Sorted(samples));
  }

  // ---------- minimum, maximum and average ----------

  /** The first and last of the sorted samples are the minimum and the maximum of the samples. */
  lemma ExtremesBoundAll(samples: seq<real>)
    requires samples != []
    ensures var s := Sorted(samples); forall i :: 0 <= i < |samples| ==> s[0] <= samples[i] <= s[|s| - 1]
  {
    hide Sorted;
    forall i | 0 <= i < |samples| ensures Sorted(samples)[0] <= samples[i] <= Sorted(samples)[|Sorted(samples)| - 1] {
      WithinExtremes(samples, Sorted(samples), i);
    }
  }

  lemma WithinExtremes(samples: seq<real>, s: seq<real>, i: nat)
    requires IsSorted(s) && multiset(s) == multiset(samples) && i < |samples|
    ensures s != [] && s[0] <= samples[i] <= s[|s| - 1]
  {
    assert samples[i] in multiset(s);
    var j :| 0 <= j < |s| && s[j] == samples[i];
  }

  lemma OneMore(x: real, n: nat)
    ensures Scaled(x, n + 1) == Scaled(x, n) + x
  {
    assert (n + 1) as real == n as real + 1.0;
  }

  lemma {:induction false} SumBounds(s: seq<real>, low: real, high: real)
    requires forall i :: 0 <= i < |s| ==> low <= s[i] <= high
    ensures Scaled(low, |s|) <= Sum(s) <= Scaled(high, |s|)
  {
    if s != [] {
      SumBounds(s[..|s| - 1], low, high);
      OneMore(low, |s| - 1);
      OneMore(high, |s| - 1);
    }
  }

  lemma CancelScale(p: real, q: real, n: real)
    requires 0.0 < n && p * n <= q * n
    ensures p <= q
  {
    assert (q - p) * n >= 0.0;
  }

  lemma DivideBounds(total: real, n: nat, low: real, high: real)
    requires n > 0 && Scaled(low, n) <= total <= Scaled(high, n)
    ensures low <= total / n as real <= high
  {
    var m := n as real;
    var q := total / m;
    assert q * m == total;
    CancelScale(low, q, m);
    CancelScale(q, high, m);
  }

  lemma AtInBounds(s: seq<real>, k: int)
    requires IsSorted(s) && -|s| <= k < |s|
    ensures s[0] <= At(s, k) <= s[|s| - 1]
  {
  }

  /** Percentiles, the median and the average lie between the reported minimum and maximum. */
  lemma PercentileInBounds(samples: seq<real>, p: real)
    requires samples != [] && 0.0 <= p <= 1.0
    ensures var s := Sorted(samples); s[0] <= PercentileValue(samples, p) <= s[|s| - 1]
  {
    PercentileIndexInRange(p, |samples|);
    AtInBounds(Sorted(samples), PercentileIndex(p, |samples|));
  }

  lemma MedianInBounds(samples: seq<real>)
    requires samples != []
    ensures var s := Sorted(samples); s[0] <= MedianValue(samples) <= s[|s| - 1]
  {
    MedianIndexInRange(|samples|);
    AtInBounds(Sorted(samples), MedianIndex(|samples|));
  }

  lemma AverageInBounds(samples: seq<real>)
    requires samples != []
    ensures var s := Sorted(samples); s[0] <= Sum(s) / |s| as real <= s[|s| - 1]
  {
    AverageOfSorted(Sorted(samples));
  }

  lemma AverageOfSorted(s: seq<real>)
    requires IsSorted(s) && s != []
    ensures s[0] <= Sum(s) / |s| as real <= s[|s| - 1]
  {
    SumBounds(s, s[0], s[|s| - 1]);
    DivideBounds(Sum(s), |s|, s[0], s[|s| - 1]);
  }
}
