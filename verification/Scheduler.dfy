// The arithmetic of the check scheduler: which interval a check gets, how many
// starts fit into a stretch of time, and the window of execution times.
module Scheduler {
  import opened Prelude

  const WINDOW := 100

  // ---------- the interval of an instance ----------

  /** What `float` makes of a configured value. */
  datatype Parsed = Number(x: real) | Infinity | Invalid

  /** A configured value; a missing one is not truthy and Invalid. */
  datatype Raw = Raw(truthy: bool, parsed: Parsed)

  /** `int(x)`: toward zero. */
  function Truncate(x: real): int {
    if x >= 0.0 then x.Floor else -((-x).Floor)
  }

  /** The first that reads, or the last resort; None for an OverflowError, which no handler here catches. */
  function FirstReadable(values: seq<Raw>, last: int): Option<int> {
    if values == [] then Some(last)
    else match values[0].parsed
      case Number(x) => Some(Truncate(x))
      case Infinity => None
      case Invalid => FirstReadable(values[1..], last)
  }

  function ReadOr(v: Raw, other: Option<int>): Option<int> {
    match v.parsed
    case Number(x) => Some(Truncate(x))
    case Infinity => None
    case Invalid => other
  }

  lemma ReadThree(a: Raw, b: Raw, c: Raw, last: int)
    ensures FirstReadable([a, b, c], last) == ReadOr(a, ReadOr(b, ReadOr(c, Some(last))))
  {
    assert [a, b, c][1..] == [b, c] && [b, c][1..] == [c];
    assert FirstReadable([c], last) == ReadOr(c, Some(last));
    assert FirstReadable([b, c], last) == ReadOr(b, ReadOr(c, Some(last)));
  }

  function Resolve(own: Raw, init: Raw, fallback: Raw, globalMin: int): Option<int> {
    var first := if own.truthy then own else if init.truthy then init else fallback;
    match FirstReadable([first, init, fallback], globalMin)
    case None => None
    case Some(n) => Some(Max(Max(n, 1), globalMin))
  }

  method ResolveInterval(own: Raw, init: Raw, fallback: Raw, globalMin: int) returns (r: Option<int>)
    ensures r == Resolve(own, init, fallback, globalMin)
  {
    var first := if own.truthy then own else if init.truthy then init else fallback;
    var interval := globalMin;
    ReadThree(first, init, fallback, globalMin);
    match first.parsed {
      case Number(x) => interval := Truncate(x);
      case Infinity => return None;
      case Invalid =>
        match init.parsed {
          case Number(x) => interval := Truncate(x);
          case Infinity => return None;
          case Invalid =>
            match fallback.parsed {
              case Number(x) => interval := Truncate(x);
              case Infinity => return None;
              case Invalid =>
            }
        }
    }
    r := Some(Max(Max(interval, 1), globalMin));
  }

  lemma {:induction false} ReadableIsFirst(values: seq<Raw>, last: int, k: nat)
    requires k <= |values| && forall j :: 0 <= j < k ==> values[j].parsed == Invalid
    requires k < |values| ==> values[k].parsed.Number?
    ensures FirstReadable(values, last) == Some(if k < |values| then Truncate(values[k].parsed.x) else last)
  {
    if k > 0 {
      ReadableIsFirst(values[1..], last, k - 1);
    }
  }

  /** The interval is at least one second and at least the global minimum, and no larger than needed. */
  lemma ResolvedInterval(own: Raw, init: Raw, fallback: Raw, globalMin: int)
    requires Resolve(own, init, fallback, globalMin).Some?
    ensures var n := Resolve(own, init, fallback, globalMin).value;
            && n >= 1 && n >= globalMin
            && (own.truthy && own.parsed.Number? ==> n == Max(Max(Truncate(own.parsed.x), 1), globalMin))
            && (own.parsed == init.parsed == fallback.parsed == Invalid ==> n == Max(1, globalMin))
  {
    var first := if own.truthy then own else if init.truthy then init else fallback;
    if first.parsed.Number? {
      ReadableIsFirst([first, init, fallback], globalMin, 0);
    }
    if own.parsed == init.parsed == fallback.parsed == Invalid {
      ReadableIsFirst([first, init, fallback], globalMin, 3);
    }
  }

  /** Toward zero: the whole number next to `x` that is no farther from zero. */
  lemma TruncateIs(x: real)
    ensures x >= 0.0 ==> Truncate(x) as real <= x < Truncate(x) as real + 1.0
    ensures x <= 0.0 ==> Truncate(x) as real - 1.0 < x <= Truncate(x) as real
  {
  }

  /** At least one second and at least the global minimum, and otherwise as it is. */
  function Clamped(n: int, globalMin: int): int {
    if n >= 1 && n >= globalMin then n else if globalMin >= 1 then globalMin else 1
  }

  lemma ClampedIs(n: int, globalMin: int)
    ensures Max(Max(n, 1), globalMin) == Clamped(n, globalMin)
    ensures var c := Clamped(n, globalMin); c >= 1 && c >= globalMin && c >= n && (c == 1 || c == globalMin || c == n)
  {
  }

  /** Which value counts.  The first choice is the instance's own value, else that of init_config, else the class default,
      passing over what is not truthy.  If the choice does not read, init_config is tried, then the class default, then
      the global minimum stands.  An infinite value that is tried makes it fail. */
  lemma IntervalChain(own: Raw, init: Raw, fallback: Raw, globalMin: int)
    ensures own.truthy && own.parsed.Number? ==>
              Resolve(own, init, fallback, globalMin) == Some(Clamped(Truncate(own.parsed.x), globalMin))
    ensures !own.truthy && init.truthy && init.parsed.Number? ==>
              Resolve(own, init, fallback, globalMin) == Some(Clamped(Truncate(init.parsed.x), globalMin))
    ensures !own.truthy && !init.truthy && fallback.parsed.Number? ==>
              Resolve(own, init, fallback, globalMin) == Some(Clamped(Truncate(fallback.parsed.x), globalMin))
    ensures (own.truthy && own.parsed == Invalid) || (!own.truthy && !init.truthy && fallback.parsed == Invalid) ==>
              (init.parsed.Number? ==>
                 Resolve(own, init, fallback, globalMin) == Some(Clamped(Truncate(init.parsed.x), globalMin)))
              && (init.parsed == Infinity ==> Resolve(own, init, fallback, globalMin) == None)
    ensures (if own.truthy then own.parsed == Invalid else init.truthy) && init.parsed == Invalid ==>
              (fallback.parsed.Number? ==>
                 Resolve(own, init, fallback, globalMin) == Some(Clamped(Truncate(fallback.parsed.x), globalMin)))
              && (fallback.parsed == Infinity ==> Resolve(own, init, fallback, globalMin) == None)
    ensures (own.truthy ==> own.parsed == Invalid) && init.parsed == fallback.parsed == Invalid ==>
              Resolve(own, init, fallback, globalMin) == Some(Clamped(globalMin, globalMin))
    ensures (if own.truthy then own else if init.truthy then init else fallback).parsed == Infinity ==>
              Resolve(own, init, fallback, globalMin) == None
  {
    hide Truncate, Max, Clamped;
    var first := if own.truthy then own else if init.truthy then init else fallback;
    ReadThree(first, init, fallback, globalMin);
    ClampEach(first, globalMin);
    ClampEach(init, globalMin);
    ClampEach(fallback, globalMin);
    ClampedIs(globalMin, globalMin);
  }

  lemma ClampEach(v: Raw, globalMin: int)
    ensures v.parsed.Number? ==> Max(Max(Truncate(v.parsed.x), 1), globalMin) == Clamped(Truncate(v.parsed.x), globalMin)
  {
    if v.parsed.Number? {
      ClampedIs(Truncate(v.parsed.x), globalMin);
    }
  }

  // ---------- spacing ----------

  /** Each start is at least an interval after the one before. */
  predicate Spaced(starts: seq<real>, interval: real) {
    |starts| < 2 ||
    var n := |starts| - 1;
    Spaced(starts[..n], interval) && starts[n] - starts[n - 1] >= interval
  }

  /** The starts in the closed window of length `length` from `from` on. */
  function InWindow(starts: seq<real>, from: real, length: real): nat {
    if starts == [] then 0
    else InWindow(starts[..|starts| - 1], from, length)
         + if from <= starts[|starts| - 1] <= from + length then 1 else 0
  }

  lemma {:induction false} SpacedApart(starts: seq<real>, interval: real, i: nat, j: nat)
    requires Spaced(starts, interval) && i <= j < |starts|
    ensures starts[j] - starts[i] >= Stretch(j - i, interval)
  {
    var n := |starts| - 1;
    StretchOne(0, interval);
    if j < n {
      SpacedApart(starts[..n], interval, i, j);
    } else if i < j {
      SpacedApart(starts[..n], interval, i, n - 1);
      StretchOne(n - 1 - i, interval);
    }
  }

  lemma {:induction false} SpacedPrefix(starts: seq<real>, interval: real, n: nat)
    requires Spaced(starts, interval) && n <= |starts|
    ensures Spaced(starts[..n], interval)
  {
    if n < |starts| {
      SpacedPrefix(starts[..|starts| - 1], interval, n);
      assert starts[..|starts| - 1][..n] == starts[..n];
    } else {
      assert starts[..n] == starts;
    }
  }

  /** The starts in a window follow each other, so that the first of them bounds their number. */
  lemma {:induction false} WindowIsRun(starts: seq<real>, interval: real, from: real, length: real) returns (first: nat)
    requires interval > 0.0 && Spaced(starts, interval)
    ensures first <= |starts| && InWindow(starts, from, length) <= |starts| - first
    ensures first < |starts| ==> from <= starts[first]
    ensures forall k :: 0 <= k < |starts| && from <= starts[k] <= from + length ==> first <= k
  {
    if starts == [] {
      first := 0;
    } else {
      var n := |starts| - 1;
      var before := WindowIsRun(starts[..n], interval, from, length);
      if before < n || starts[n] >= from {
        first := before;
      } else {
        first := n + 1;
      }
    }
  }

  lemma NegativeProduct(d: real, b: real)
    requires b > 0.0 && d < 0.0
    ensures d * b < 0.0
  {
  }

  lemma QuotientAtLeast(a: real, b: real, m: real, q: real)
    requires b > 0.0 && q * b == a && m * b <= a
    ensures q >= m
  {
    assert (q - m) * b == q * b - m * b;
    if q - m < 0.0 {
      NegativeProduct(q - m, b);
    }
  }

  lemma WindowCount(gap: real, length: real, n: nat)
    requires gap > 0.0 && length >= 0.0 && (n > 0 ==> Stretch(n - 1, gap) <= length)
    ensures n <= (length / gap).Floor + 1
  {
    if n > 0 {
      QuotientAtLeast(length, gap, (n - 1) as real, length / gap);
    } else {
      QuotientAtLeast(length, gap, 0.0, length / gap);
    }
  }

  /** The last start inside the window. */
  lemma {:induction false} LastInWindow(starts: seq<real>, interval: real, from: real, length: real) returns (last: nat)
    requires interval > 0.0 && Spaced(starts, interval) && InWindow(starts, from, length) > 0
    ensures last < |starts| && from <= starts[last] <= from + length
    ensures InWindow(starts, from, length) == InWindow(starts[..last + 1], from, length)
  {
    var n := |starts| - 1;
    if from <= starts[n] <= from + length {
      last := n;
      assert starts[..n + 1] == starts;
    } else {
      last := LastInWindow(starts[..n], interval, from, length);
      assert starts[..n][..last + 1] == starts[..last + 1];
    }
  }

  lemma MoreIsFarther(m: nat, n: nat, gap: real)
    requires m <= n && gap > 0.0
    ensures Stretch(m, gap) <= Stretch(n, gap)
  {
    assert (n as real - m as real) * gap >= 0.0;
  }

  /** The starts that count lie between two of them that are in the window. */
  lemma WindowEnds(starts: seq<real>, interval: real, from: real, length: real) returns (first: nat, last: nat)
    requires interval > 0.0 && Spaced(starts, interval) && InWindow(starts, from, length) > 0
    ensures first <= last < |starts| && from <= starts[first] && starts[last] <= from + length
    ensures InWindow(starts, from, length) <= last - first + 1
  {
    last := LastInWindow(starts, interval, from, length);
    var inner := starts[..last + 1];
    SpacedPrefix(starts, interval, last + 1);
    assert inner[last] == starts[last];
    first := WindowIsRun(inner, interval, from, length);
  }

  /** Any closed window of length T has at most floor(T / interval) + 1 starts. */
  lemma AtMostSoMany(starts: seq<real>, interval: real, from: real, length: real)
    requires interval > 0.0 && length >= 0.0 && Spaced(starts, interval)
    ensures InWindow(starts, from, length) <= (length / interval).Floor + 1
  {
    var n := InWindow(starts, from, length);
    if n > 0 {
      var first, last := WindowEnds(starts, interval, from, length);
      SpacedApart(starts, interval, first, last);
      MoreIsFarther(n - 1, last - first, interval);
    }
    WindowCount(interval, length, n);
  }

  // ---------- the execution times ----------

  function LastUpTo(times: seq<real>, n: nat): seq<real> {
    if |times| <= n then times else times[|times| - n..]
  }

  /** `append`, and `pop(0)` when there are too many. */
  lemma WindowSlides(times: seq<real>, time: real)
    ensures var longer := LastUpTo(times, WINDOW) + [time];
            LastUpTo(times + [time], WINDOW) == if |longer| > WINDOW then longer[1..] else longer
  {
  }

  datatype Stat = Stat(executionTimes: seq<real>, totalRuns: nat)

  /** The counter and the window of a whole history. */
  ghost predicate Remembers(stat: Stat, history: seq<real>) {
    stat.totalRuns == |history| && stat.executionTimes == LastUpTo(history, WINDOW)
  }

  function Recorded(stat: Stat, time: real): Stat {
    var longer := stat.executionTimes + [time];
    Stat(if |longer| > WINDOW then longer[1..] else longer, stat.totalRuns + 1)
  }

  lemma RecordedRemembers(stat: Stat, history: seq<real>, time: real)
    requires Remembers(stat, history)
    ensures Remembers(Recorded(stat, time), history + [time])
  {
    WindowSlides(history, time);
  }
}
