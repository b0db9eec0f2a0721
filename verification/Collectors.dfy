// The collector: checks that are registered once, and rounds that run those
// that are due.
module Collectors {
  import opened Prelude
  import opened Scheduler

  // ---------- checks ----------

  /** A run that came back: when it started and how long it took. */
  datatype Run = Run(start: real, duration: real)

  function Starts(runs: seq<Run>): (r: seq<real>)
    ensures |r| == |runs|
  {
    if runs == [] then [] else Starts(runs[..|runs| - 1]) + [runs[|runs| - 1].start]
  }

  function Durations(runs: seq<Run>): (r: seq<real>)
    ensures |r| == |runs|
  {
    if runs == [] then [] else Durations(runs[..|runs| - 1]) + [runs[|runs| - 1].duration]
  }

  lemma OneMoreRun(runs: seq<Run>, run: Run)
    ensures Starts(runs + [run]) == Starts(runs) + [run.start]
    ensures Durations(runs + [run]) == Durations(runs) + [run.duration]
  {
    WithOneMore(runs, run);
  }

  /** `_last_run_time`, which is zero before the first run. */
  function LastStart(runs: seq<Run>): real {
    if runs == [] then 0.0 else runs[|runs| - 1].start
  }

  predicate DueAt(runs: seq<Run>, interval: int, now: real) {
    now - LastStart(runs) >= interval as real
  }

  /** A run that is due keeps the starts an interval apart. */
  lemma DueKeepsSpacing(runs: seq<Run>, interval: int, run: Run)
    requires Spaced(Starts(runs), interval as real) && DueAt(runs, interval, run.start)
    ensures Spaced(Starts(runs + [run]), interval as real)
  {
    var starts := Starts(runs);
    OneMoreRun(runs, run);
    WithOneMore(starts, run.start);
    assert runs != [] ==> starts[|starts| - 1] == LastStart(runs);
  }

  /** `runs` is a record of all runs that came back; the program keeps only the last start. */
  class Check {
    const signature: int
    const minCollectionInterval: int
    var lastRunTime: real
    ghost var runs: seq<Run>

    /** The starts are an interval apart, and the last one is remembered. */
    ghost predicate Valid()
      reads this
    {
      && minCollectionInterval >= 1
      && Spaced(Starts(runs), minCollectionInterval as real)
      && lastRunTime == LastStart(runs)
    }

    constructor (signature: int, interval: int)
      requires interval >= 1
      ensures Valid() && runs == [] && this.signature == signature && minCollectionInterval == interval
    {
      this.signature, minCollectionInterval := signature, interval;
      lastRunTime := 0.0;
      runs := [];
    }

    predicate Due(now: real)
      reads this
    {
      now - lastRunTime >= minCollectionInterval as real
    }

    /** Over any stretch of time. */
    lemma StartsInWindow(from: real, length: real)
      requires Valid() && length >= 0.0
      ensures InWindow(Starts(runs), from, length) <= (length / minCollectionInterval as real).Floor + 1
    {
      AtMostSoMany(Starts(runs), minCollectionInterval as real, from, length);
    }

    /** Starts that lie close together are few: of two within a stretch of that length, so many are in between. */
    lemma CloseStarts(i: nat, j: nat, length: real)
      requires Valid() && i <= j < |runs| && runs[j].start - runs[i].start <= length
      ensures j - i <= (length / minCollectionInterval as real).Floor
      ensures runs[j].start - runs[i].start >= (j - i) as real * minCollectionInterval as real
    {
      var gap := minCollectionInterval as real;
      RunAt(runs, i);
      RunAt(runs, j);
      SpacedApart(Starts(runs), gap, i, j);
      MoreIsFarther(0, j - i, gap);
      WindowCount(gap, length, j - i + 1);
    }

    method HasRun(now: real, ghost duration: real)
      requires Valid() && Due(now)
      modifies this
      ensures Valid() && runs == old(runs) + [Run(now, duration)]
    {
      lastRunTime := now;
      DueKeepsSpacing(runs, minCollectionInterval, Run(now, duration));
      runs := runs + [Run(now, duration)];
    }
  }

  // ---------- signatures and intervals ----------

  datatype Pair = Pair(signature: int, interval: int)

  predicate Among(pairs: seq<Pair>, signature: int) {
    pairs != [] && (pairs[|pairs| - 1].signature == signature || Among(pairs[..|pairs| - 1], signature))
  }

  /** No signature twice. */
  predicate Distinct(pairs: seq<Pair>) {
    pairs == [] ||
    var n := |pairs| - 1;
    Distinct(pairs[..n]) && !Among(pairs[..n], pairs[n].signature)
  }

  function SignaturesOf(pairs: seq<Pair>): set<int> {
    if pairs == [] then {} else SignaturesOf(pairs[..|pairs| - 1]) + {pairs[|pairs| - 1].signature}
  }

  lemma {:induction false} AmongIff(pairs: seq<Pair>, signature: int)
    ensures Among(pairs, signature) <==> signature in SignaturesOf(pairs)
    ensures Among(pairs, signature) <==> exists i :: 0 <= i < |pairs| && pairs[i].signature == signature
  {
    if pairs != [] {
      var n := |pairs| - 1;
      AmongIff(pairs[..n], signature);
      assert pairs == pairs[..n] + [pairs[n]];
    }
  }

  lemma {:induction false} SignaturesDiffer(pairs: seq<Pair>, i: nat, j: nat)
    requires Distinct(pairs) && i < j < |pairs|
    ensures pairs[i].signature != pairs[j].signature
  {
    var n := |pairs| - 1;
    if j < n {
      SignaturesDiffer(pairs[..n], i, j);
    } else {
      AmongIff(pairs[..n], pairs[n].signature);
      assert pairs[..n][i] == pairs[i];
    }
  }

  lemma AmongOneMore(pairs: seq<Pair>, last: Pair, signature: int)
    ensures Among(pairs + [last], signature) <==> Among(pairs, signature) || last.signature == signature
    ensures Distinct(pairs + [last]) <==> Distinct(pairs) && !Among(pairs, last.signature)
    ensures SignaturesOf(pairs + [last]) == SignaturesOf(pairs) + {last.signature}
  {
    WithOneMore(pairs, last);
  }

  // ---------- instances ----------

  /** `constructs`: creating the check object does not raise. */
  datatype Instance = Instance(signature: int, constructs: bool, own: Raw, init: Raw, fallback: Raw)

  function IntervalOf(x: Instance, globalMin: int): Option<int> {
    Resolve(x.own, x.init, x.fallback, globalMin)
  }

  predicate Usable(x: Instance, globalMin: int) {
    x.constructs && IntervalOf(x, globalMin).Some?
  }

  /** With one more instance: skipped when its signature is there, or when it cannot be made. */
  function Next(before: seq<Pair>, x: Instance, globalMin: int): seq<Pair> {
    if Among(before, x.signature) || !Usable(x, globalMin) then before
    else before + [Pair(x.signature, IntervalOf(x, globalMin).value)]
  }

  /** Signatures and intervals when `known` are there already and the instances come in order. */
  function Registered(known: seq<Pair>, instances: seq<Instance>, globalMin: int): seq<Pair> {
    if instances == [] then known
    else Next(Registered(known, instances[..|instances| - 1], globalMin), instances[|instances| - 1], globalMin)
  }

  /** What is known stays. */
  lemma {:induction false} RegisteredKeeps(known: seq<Pair>, instances: seq<Instance>, globalMin: int)
    ensures var r := Registered(known, instances, globalMin); |known| <= |r| && r[..|known|] == known
  {
    if instances != [] {
      RegisteredKeeps(known, instances[..|instances| - 1], globalMin);
    }
  }

  /** No signature is registered twice. */
  lemma {:induction false} RegisteredOnce(known: seq<Pair>, instances: seq<Instance>, globalMin: int)
    requires Distinct(known)
    ensures Distinct(Registered(known, instances, globalMin))
  {
    if instances != [] {
      var x := instances[|instances| - 1];
      RegisteredOnce(known, instances[..|instances| - 1], globalMin);
      if Usable(x, globalMin) {
        AmongOneMore(Registered(known, instances[..|instances| - 1], globalMin),
                     Pair(x.signature, IntervalOf(x, globalMin).value), x.signature);
      }
    }
  }

  /** No new interval is below a second or below the global minimum. */
  lemma {:induction false} RegisteredLongEnough(known: seq<Pair>, instances: seq<Instance>, globalMin: int, k: nat)
    requires |known| <= k < |Registered(known, instances, globalMin)|
    ensures var r := Registered(known, instances, globalMin); r[k].interval >= 1 && r[k].interval >= globalMin
  {
    if instances != [] {
      var x := instances[|instances| - 1];
      if k < |Registered(known, instances[..|instances| - 1], globalMin)| {
        RegisteredLongEnough(known, instances[..|instances| - 1], globalMin, k);
      } else {
        ResolvedInterval(x.own, x.init, x.fallback, globalMin);
      }
    }
  }

  predicate HasUsable(instances: seq<Instance>, globalMin: int, signature: int) {
    exists j :: 0 <= j < |instances| && instances[j].signature == signature && Usable(instances[j], globalMin)
  }

  lemma LastUsable(instances: seq<Instance>, n: nat, globalMin: int, signature: int)
    requires |instances| == n + 1
    ensures HasUsable(instances, globalMin, signature)
       <==> HasUsable(instances[..n], globalMin, signature)
            || (instances[n].signature == signature && Usable(instances[n], globalMin))
  {
    if HasUsable(instances[..n], globalMin, signature) {
      var j :| 0 <= j < n && instances[..n][j].signature == signature && Usable(instances[..n][j], globalMin);
      assert instances[j] == instances[..n][j];
    }
    if HasUsable(instances, globalMin, signature) {
      var j :| 0 <= j < n + 1 && instances[j].signature == signature && Usable(instances[j], globalMin);
      assert j < n ==> instances[..n][j] == instances[j];
    }
  }

  /** An instance is usable when its check can be made and its interval has no infinite value on the way. */
  lemma UsableIff(x: Instance, globalMin: int)
    ensures var first := if x.own.truthy then x.own else if x.init.truthy then x.init else x.fallback;
            Usable(x, globalMin) <==>
              x.constructs && first.parsed != Infinity
              && (first.parsed == Invalid ==> x.init.parsed != Infinity
                                              && (x.init.parsed == Invalid ==> x.fallback.parsed != Infinity))
  {
    hide Truncate, Max;
    var first := if x.own.truthy then x.own else if x.init.truthy then x.init else x.fallback;
    ReadThree(first, x.init, x.fallback, globalMin);
  }

  /** A signature is registered exactly when it was known, or some usable instance has it. */
  lemma {:induction false} RegisteredIff(known: seq<Pair>, instances: seq<Instance>, globalMin: int, signature: int)
    ensures Among(Registered(known, instances, globalMin), signature)
       <==> Among(known, signature) || HasUsable(instances, globalMin, signature)
  {
    if instances != [] {
      var n := |instances| - 1;
      var x := instances[n];
      var before := Registered(known, instances[..n], globalMin);
      RegisteredIff(known, instances[..n], globalMin, signature);
      LastUsable(instances, n, globalMin, signature);
      if Usable(x, globalMin) {
        AmongOneMore(before, Pair(x.signature, IntervalOf(x, globalMin).value), signature);
      }
    }
  }

  /** A new signature has the interval of the first usable instance that has it. */
  lemma {:induction false} FirstInstanceCounts(known: seq<Pair>, instances: seq<Instance>, globalMin: int, i: nat)
    requires i < |instances| && Usable(instances[i], globalMin)
    requires !Among(known, instances[i].signature) && !HasUsable(instances[..i], globalMin, instances[i].signature)
    ensures var x := instances[i];
            Pair(x.signature, IntervalOf(x, globalMin).value) in Registered(known, instances, globalMin)
  {
    var n := |instances| - 1;
    if i < n {
      assert instances[..n][..i] == instances[..i];
      FirstInstanceCounts(known, instances[..n], globalMin, i);
    } else {
      RegisteredIff(known, instances[..n], globalMin, instances[n].signature);
    }
  }

  function StatIn(stats: map<int, Stat>, signature: int): Stat {
    if signature in stats then stats[signature] else Stat([], 0)
  }

  /** The stats once the instances are registered: a new signature gets an empty entry. */
  function Enrolled(stats: map<int, Stat>, known: seq<Pair>, instances: seq<Instance>, globalMin: int): map<int, Stat> {
    if instances == [] then stats
    else
      var n := |instances| - 1;
      Enlisted(Enrolled(stats, known, instances[..n], globalMin), Registered(known, instances[..n], globalMin), instances[n],
               globalMin)
  }

  function Enlisted(stats: map<int, Stat>, before: seq<Pair>, x: Instance, globalMin: int): map<int, Stat> {
    if Among(before, x.signature) || !Usable(x, globalMin) then stats else stats[x.signature := Stat([], 0)]
  }

  /** Only new signatures get an entry, and it is empty. */
  lemma {:induction false} EnrolledAt(stats: map<int, Stat>, known: seq<Pair>, instances: seq<Instance>, globalMin: int,
                                      signature: int)
    ensures StatIn(Enrolled(stats, known, instances, globalMin), signature)
            == if !Among(known, signature) && Among(Registered(known, instances, globalMin), signature) then Stat([], 0)
               else StatIn(stats, signature)
  {
    if instances != [] {
      var n := |instances| - 1;
      var x := instances[n];
      EnrolledAt(stats, known, instances[..n], globalMin, signature);
      RegisteredIff(known, instances[..n], globalMin, signature);
      if Usable(x, globalMin) {
        AmongOneMore(Registered(known, instances[..n], globalMin), Pair(x.signature, IntervalOf(x, globalMin).value),
                     signature);
      }
    }
  }

  /** That many checks without a run. */
  function Idle(n: nat): (r: seq<seq<Run>>)
    ensures |r| == n
  {
    if n == 0 then [] else Idle(n - 1) + [[]]
  }

  lemma {:induction false} IdleAgain(runs: seq<seq<Run>>, m: nat, n: nat)
    ensures runs + Idle(m) + Idle(n) == runs + Idle(m + n)
  {
    if n > 0 {
      IdleAgain(runs, m, n - 1);
      Associates(runs + Idle(m), Idle(n - 1), [[]]);
      Associates(runs, Idle(m + n - 1), [[]]);
    } else {
      assert runs + Idle(m) + [] == runs + Idle(m);
    }
  }

  lemma NoInstances(stats: map<int, Stat>, known: seq<Pair>, runs: seq<seq<Run>>, globalMin: int)
    ensures Registered(known, [], globalMin) == known && Enrolled(stats, known, [], globalMin) == stats
    ensures runs + Idle(0) == runs
  {
  }

  lemma OneMoreInstance(stats: map<int, Stat>, known: seq<Pair>, instances: seq<Instance>, i: nat, globalMin: int)
    requires i < |instances|
    ensures var before := Registered(known, instances[..i], globalMin);
            && Registered(known, instances[..i + 1], globalMin) == Next(before, instances[i], globalMin)
            && Enrolled(stats, known, instances[..i + 1], globalMin)
               == Enlisted(Enrolled(stats, known, instances[..i], globalMin), before, instances[i], globalMin)
  {
    assert instances[..i + 1][..i] == instances[..i];
  }

  // ---------- one round, as values ----------

  /** How `check.run()` ends: with an error result or without, or with an exception. */
  datatype Outcome = Returns(error: bool, duration: real) | Raises

  /** What a round finds, and what happens in it: clock readings and outcomes, check by check. */
  datatype Setting = Setting(pairs: seq<Pair>, runs: seq<seq<Run>>, stats: map<int, Stat>, errors: set<int>,
                             nows: seq<real>, outcomes: seq<Outcome>)
  {
    predicate Fits() {
      |pairs| == |runs| == |nows| == |outcomes|
    }

    predicate Due(i: nat)
      requires Fits() && i < |pairs|
    {
      DueAt(runs[i], pairs[i].interval, nows[i])
    }

    /** The check is due and comes back. */
    predicate Runs(i: nat)
      requires Fits() && i < |pairs|
    {
      Due(i) && outcomes[i].Returns?
    }

    /** The variable `result` after the first `n` checks: that of the last one that came back. */
    function ResultAfter(n: nat): Option<bool>
      requires Fits() && n <= |pairs|
    {
      if n == 0 then None
      else if Runs(n - 1) then Some(outcomes[n - 1].error)
      else ResultAfter(n - 1)
    }

    /** The check raises before any came back: `result` is not bound yet. */
    predicate Aborts(i: nat)
      requires Fits() && i < |pairs|
    {
      Due(i) && outcomes[i].Raises? && ResultAfter(i).None?
    }

    /** The check is due while `result` says error: its own result, or an earlier check's. */
    predicate Reports(i: nat)
      requires Fits() && i < |pairs|
    {
      Due(i) && ResultAfter(i + 1) == Some(true)
    }
  }

  /** A round as it stands after some turns; `bound` says that none of them read `result` unbound. */
  datatype Round = Round(result: Option<bool>, runs: seq<seq<Run>>, stats: map<int, Stat>, errors: set<int>, bound: bool)

  function Begun(r: Setting): Round {
    Round(None, r.runs, r.stats, r.errors, true)
  }

  /** `if result:` */
  function Reported(errors: set<int>, signature: int, result: Option<bool>): set<int> {
    if result == Some(true) then errors + {signature} else errors
  }

  function Ran(runs: seq<seq<Run>>, i: nat, run: Run): seq<seq<Run>>
    requires i < |runs|
  {
    runs[i := runs[i] + [run]]
  }

  function Timed(stats: map<int, Stat>, signature: int, duration: real): map<int, Stat> {
    stats[signature := Recorded(StatIn(stats, signature), duration)]
  }

  /** One more turn, of the i-th check. */
  function Turned(s: Round, i: nat, pair: Pair, now: real, outcome: Outcome): Round
    requires i < |s.runs|
  {
    if !DueAt(s.runs[i], pair.interval, now) then s
    else
      match outcome
      case Raises => s.(bound := s.bound && s.result.Some?, errors := Reported(s.errors, pair.signature, s.result))
      case Returns(error, duration) =>
        Round(Some(error), Ran(s.runs, i, Run(now, duration)), Timed(s.stats, pair.signature, duration),
              Reported(s.errors, pair.signature, Some(error)), s.bound)
  }

  function RoundAfter(r: Setting, n: nat): (s: Round)
    requires r.Fits() && n <= |r.pairs|
    ensures |s.runs| == |r.pairs|
  {
    if n == 0 then Begun(r) else Turned(RoundAfter(r, n - 1), n - 1, r.pairs[n - 1], r.nows[n - 1], r.outcomes[n - 1])
  }

  lemma TurnRuns(s: Round, i: nat, pair: Pair, now: real, outcome: Outcome, j: nat)
    requires i < |s.runs| && j < |s.runs|
    ensures Turned(s, i, pair, now, outcome).runs[j]
            == if j == i && DueAt(s.runs[i], pair.interval, now) && outcome.Returns?
               then s.runs[i] + [Run(now, outcome.duration)] else s.runs[j]
  {
  }

  /** A round adds one run to every due check that came back, and none to the others. */
  lemma {:induction false} RoundRuns(r: Setting, n: nat, i: nat)
    requires r.Fits() && n <= |r.pairs| && i < |r.pairs|
    ensures RoundAfter(r, n).runs[i]
            == if i < n && r.Runs(i) then r.runs[i] + [Run(r.nows[i], r.outcomes[i].duration)] else r.runs[i]
  {
    hide Turned, DueAt;
    if n > 0 {
      RoundRuns(r, n - 1, i);
      RoundRuns(r, n - 1, n - 1);
      TurnRuns(RoundAfter(r, n - 1), n - 1, r.pairs[n - 1], r.nows[n - 1], r.outcomes[n - 1], i);
    }
  }

  /** A check that was due is due again an interval later, or at once if it raised: the bound on starts is not one on
      attempts. */
  lemma DueAgainIff(r: Setting, n: nat, i: nat, later: real)
    requires r.Fits() && i < n <= |r.pairs| && r.Due(i) && r.nows[i] <= later
    ensures DueAt(RoundAfter(r, n).runs[i], r.pairs[i].interval, later)
       <==> r.outcomes[i].Raises? || later - r.nows[i] >= r.pairs[i].interval as real
  {
    hide RoundAfter;
    RoundRuns(r, n, i);
  }

  /** A check is due when an interval has passed since its last run started, or since time zero if it never ran. */
  lemma DueIff(runs: seq<Run>, interval: int, now: real)
    ensures DueAt(runs, interval, now)
       <==> now - (if runs == [] then 0.0 else runs[|runs| - 1].start) >= interval as real
  {
  }

  /** The variable `result` holds what the last check that came back gave, across checks that were skipped or raised. */
  lemma {:induction false} ResultIsLast(r: Setting, n: nat, j: int)
    requires r.Fits() && n <= |r.pairs| && -1 <= j < n
    requires j >= 0 ==> r.Due(j) && r.outcomes[j].Returns?
    requires forall k :: j < k < n ==> !(r.Due(k) && r.outcomes[k].Returns?)
    ensures r.ResultAfter(n) == if j < 0 then None else Some(r.outcomes[j].error)
  {
    hide DueAt;
    if j < n - 1 {
      ResultIsLast(r, n - 1, j);
    }
  }

  lemma {:induction false} RoundResult(r: Setting, n: nat)
    requires r.Fits() && n <= |r.pairs|
    ensures RoundAfter(r, n).result == r.ResultAfter(n)
  {
    if n > 0 {
      RoundResult(r, n - 1);
      RoundRuns(r, n - 1, n - 1);
    }
  }

  /** `result` was never read unbound exactly when no check aborted the round. */
  lemma {:induction false} RoundIsBound(r: Setting, n: nat)
    requires r.Fits() && n <= |r.pairs|
    ensures RoundAfter(r, n).bound <==> forall i :: 0 <= i < n ==> !r.Aborts(i)
  {
    if n > 0 {
      RoundIsBound(r, n - 1);
      RoundRuns(r, n - 1, n - 1);
      RoundResult(r, n - 1);
      assert RoundAfter(r, n).bound <==> RoundAfter(r, n - 1).bound && !r.Aborts(n - 1);
    }
  }

  /** Where the round ends: at the first check that aborts it, or behind the last check. */
  predicate EndsAt(r: Setting, n: nat)
    requires r.Fits()
  {
    && n <= |r.pairs|
    && (forall i :: 0 <= i < n ==> !r.Aborts(i))
    && (n < |r.pairs| ==> r.Aborts(n))
  }

  lemma RoundEnds(r: Setting, n: nat)
    requires r.Fits() && n <= |r.pairs| && RoundAfter(r, n).bound
    requires n < |r.pairs| ==> !RoundAfter(r, n + 1).bound
    ensures EndsAt(r, n)
  {
    RoundIsBound(r, n);
    if n < |r.pairs| {
      RoundIsBound(r, n + 1);
    }
  }

  lemma TurnStats(s: Round, i: nat, pair: Pair, now: real, outcome: Outcome, sig: int)
    requires i < |s.runs|
    ensures StatIn(Turned(s, i, pair, now, outcome).stats, sig)
            == if pair.signature == sig && DueAt(s.runs[i], pair.interval, now) && outcome.Returns?
               then Recorded(StatIn(s.stats, sig), outcome.duration) else StatIn(s.stats, sig)
  {
  }

  /** It records the duration of such a run under the check's signature, once, and nothing else. */
  lemma {:induction false} RoundStats(r: Setting, n: nat, i: nat)
    requires r.Fits() && n <= |r.pairs| && i < |r.pairs| && Distinct(r.pairs)
    ensures var sig := r.pairs[i].signature;
            StatIn(RoundAfter(r, n).stats, sig)
            == if i < n && r.Runs(i) then Recorded(StatIn(r.stats, sig), r.outcomes[i].duration) else StatIn(r.stats, sig)
  {
    hide Turned, Recorded, StatIn, Distinct, DueAt;
    if n > 0 {
      RoundStats(r, n - 1, i);
      RoundRuns(r, n - 1, n - 1);
      TurnStats(RoundAfter(r, n - 1), n - 1, r.pairs[n - 1], r.nows[n - 1], r.outcomes[n - 1], r.pairs[i].signature);
      if i < n - 1 {
        SignaturesDiffer(r.pairs, i, n - 1);
      } else if n - 1 < i {
        SignaturesDiffer(r.pairs, n - 1, i);
      }
    }
  }

  /** Entries of other signatures stay. */
  lemma {:induction false} RoundKeepsOtherStats(r: Setting, n: nat, sig: int)
    requires r.Fits() && n <= |r.pairs| && !Among(r.pairs, sig)
    ensures StatIn(RoundAfter(r, n).stats, sig) == StatIn(r.stats, sig)
  {
    hide Turned, Recorded, StatIn, Among, DueAt;
    if n > 0 {
      RoundKeepsOtherStats(r, n - 1, sig);
      TurnStats(RoundAfter(r, n - 1), n - 1, r.pairs[n - 1], r.nows[n - 1], r.outcomes[n - 1], sig);
      AmongIff(r.pairs, sig);
    }
  }

  /** It reports the checks that are due while `result` says error, and only those are added. */
  lemma {:induction false} RoundErrors(r: Setting, n: nat, sig: int)
    requires r.Fits() && n <= |r.pairs|
    ensures sig in RoundAfter(r, n).errors
       <==> sig in r.errors || exists i :: 0 <= i < n && r.pairs[i].signature == sig && r.Reports(i)
  {
    hide RoundAfter, Setting.Reports;
    NoTurnYet(r);
    if n > 0 {
      RoundErrors(r, n - 1, sig);
      TurnErrors(r, n - 1);
    }
  }

  lemma NoTurnYet(r: Setting)
    requires r.Fits()
    ensures RoundAfter(r, 0).errors == r.errors
  {
  }

  lemma TurnErrors(r: Setting, i: nat)
    requires r.Fits() && i < |r.pairs|
    ensures RoundAfter(r, i + 1).errors == RoundAfter(r, i).errors + if r.Reports(i) then {r.pairs[i].signature} else {}
  {
    RoundResult(r, i);
    RoundRuns(r, i, i);
  }

  // ---------- the collector ----------

  /** The counters and windows are those of the runs, check by check. */
  ghost predicate Fit(pairs: seq<Pair>, stats: map<int, Stat>, runs: seq<seq<Run>>)
    requires |runs| == |pairs|
  {
    pairs == [] ||
    var n := |pairs| - 1;
    Fit(pairs[..n], stats, runs[..n]) && Remembers(StatIn(stats, pairs[n].signature), Durations(runs[n]))
  }

  lemma {:induction false} RunAt(runs: seq<Run>, k: nat)
    requires k < |runs|
    ensures Durations(runs)[k] == runs[k].duration && Starts(runs)[k] == runs[k].start
  {
    if k < |runs| - 1 {
      RunAt(runs[..|runs| - 1], k);
    }
  }

  /** The window, entry by entry. */
  lemma WindowAt(pairs: seq<Pair>, stats: map<int, Stat>, runs: seq<seq<Run>>, i: nat, k: nat)
    requires |runs| == |pairs| && Fit(pairs, stats, runs) && i < |pairs|
    ensures var stat, n := StatIn(stats, pairs[i].signature), |runs[i]|;
            && stat.totalRuns == n && |stat.executionTimes| == (if n <= 100 then n else 100)
            && (k < |stat.executionTimes| ==> stat.executionTimes[k] == runs[i][n - |stat.executionTimes| + k].duration)
  {
    hide Fit;
    FitAt(pairs, stats, runs, i);
    var n := |runs[i]|;
    if k < n && k < 100 {
      RunAt(runs[i], if n <= 100 then k else n - 100 + k);
    }
  }

  /** Every check's counter is the number of its runs, and its window the last hundred of their durations. */
  lemma {:induction false} FitAt(pairs: seq<Pair>, stats: map<int, Stat>, runs: seq<seq<Run>>, i: nat)
    requires |runs| == |pairs| && Fit(pairs, stats, runs) && i < |pairs|
    ensures var stat := StatIn(stats, pairs[i].signature);
            && stat.totalRuns == |runs[i]|
            && stat.executionTimes == LastUpTo(Durations(runs[i]), WINDOW)
  {
    if i < |pairs| - 1 {
      FitAt(pairs[..|pairs| - 1], stats, runs[..|pairs| - 1], i);
    }
  }

  /** Another signature's entry does not matter. */
  lemma {:induction false} FitsWithout(pairs: seq<Pair>, stats: map<int, Stat>, runs: seq<seq<Run>>, sig: int, stat: Stat)
    requires |runs| == |pairs| && Fit(pairs, stats, runs) && !Among(pairs, sig)
    ensures Fit(pairs, stats[sig := stat], runs)
  {
    if pairs != [] {
      FitsWithout(pairs[..|pairs| - 1], stats, runs[..|pairs| - 1], sig, stat);
    }
  }

  lemma {:induction false} StillFit(pairs: seq<Pair>, stats: map<int, Stat>, runs: seq<seq<Run>>, i: nat, run: Run)
    requires |runs| == |pairs| && Distinct(pairs) && Fit(pairs, stats, runs) && i < |pairs|
    ensures Fit(pairs, Timed(stats, pairs[i].signature, run.duration), Ran(runs, i, run))
  {
    var n := |pairs| - 1;
    var sig := pairs[i].signature;
    var more := Ran(runs, i, run);
    if i < n {
      StillFit(pairs[..n], stats, runs[..n], i, run);
      SignaturesDiffer(pairs, i, n);
      assert more[..n] == Ran(runs[..n], i, run);
    } else {
      FitsWithout(pairs[..n], stats, runs[..n], sig, Recorded(StatIn(stats, sig), run.duration));
      OneMoreRun(runs[n], run);
      RecordedRemembers(StatIn(stats, sig), Durations(runs[n]), run.duration);
      assert more[..n] == runs[..n];
    }
  }

  lemma FitsOneMore(pairs: seq<Pair>, stats: map<int, Stat>, runs: seq<seq<Run>>, pair: Pair)
    requires |runs| == |pairs| && Fit(pairs, stats, runs) && !Among(pairs, pair.signature)
    ensures Fit(pairs + [pair], stats[pair.signature := Stat([], 0)], runs + Idle(1))
  {
    hide Among, Distinct;
    FitsWithout(pairs, stats, runs, pair.signature, Stat([], 0));
    WithOneMore(pairs, pair);
    WithOneMore(runs, []);
    assert Idle(1) == [[]] && Remembers(Stat([], 0), Durations([]));
  }

  /** The check is sound, and is known by that pair and those runs. */
  ghost predicate Shows(c: Check, pair: Pair, runs: seq<Run>)
    reads c
  {
    c.Valid() && c.signature == pair.signature && c.minCollectionInterval == pair.interval && c.runs == runs
  }

  ghost predicate AllShow(checks: seq<Check>, pairs: seq<Pair>, runs: seq<seq<Run>>)
    reads checks
  {
    |checks| == |pairs| == |runs| && forall i :: 0 <= i < |checks| ==> Shows(checks[i], pairs[i], runs[i])
  }

  /** `pairs` and `runs` mirror what the checks hold. */
  class Collector {
    var checks: seq<Check>
    var signatures: set<int>
    var stats: map<int, Stat>
    var errors: set<int>
    ghost var pairs: seq<Pair>
    ghost var runs: seq<seq<Run>>

    ghost predicate Valid()
      reads this`checks, this`signatures, this`stats, this`pairs, this`runs, checks
    {
      && |runs| == |pairs| && Distinct(pairs) && signatures == SignaturesOf(pairs)
      && Fit(pairs, stats, runs)
      && AllShow(checks, pairs, runs)
    }

    constructor ()
      ensures Valid() && checks == [] && pairs == [] && stats == map[] && errors == {}
    {
      checks, signatures, stats, errors := [], {}, map[], {};
      pairs, runs := [], [];
    }

    /** One instance: skipped when its signature is known, or when it cannot be made. */
    method Instantiate(x: Instance, globalMin: int) returns (added: seq<Check>)
      requires Valid()
      modifies this
      ensures Valid() && errors == old(errors)
      ensures checks == old(checks) + added && forall c :: c in added ==> fresh(c)
      ensures pairs == Next(old(pairs), x, globalMin) && runs == old(runs) + Idle(|added|)
      ensures stats == Enlisted(old(stats), old(pairs), x, globalMin)
    {
      hide Valid, Among, Resolve;
      added := [];
      Known(x.signature);
      if x.signature in signatures || !x.constructs {
        return;
      }
      var interval := ResolveInterval(x.own, x.init, x.fallback, globalMin);
      if interval.None? {
        return;
      }
      ResolvedInterval(x.own, x.init, x.fallback, globalMin);
      var check := new Check(x.signature, interval.value);
      Register(check);
      added := [check];
    }

    lemma Known(signature: int)
      requires Valid()
      ensures signature in signatures <==> Among(pairs, signature)
      ensures checks + [] == checks && runs + Idle(0) == runs
    {
      AmongIff(pairs, signature);
    }

    method Register(check: Check)
      requires Valid() && check.Valid() && check.runs == [] && !Among(pairs, check.signature)
      modifies this
      ensures Valid() && errors == old(errors) && checks == old(checks) + [check] && runs == old(runs) + Idle(1)
      ensures pairs == old(pairs) + [Pair(check.signature, check.minCollectionInterval)]
      ensures stats == old(stats)[check.signature := Stat([], 0)]
    {
      hide Distinct, SignaturesOf, Fit, Among, Check.Valid;
      ghost var pair := Pair(check.signature, check.minCollectionInterval);
      AmongOneMore(pairs, pair, pair.signature);
      FitsOneMore(pairs, stats, runs, pair);
      checks := checks + [check];
      signatures := signatures + {check.signature};
      stats := stats[check.signature := Stat([], 0)];
      pairs, runs := pairs + [pair], runs + Idle(1);
    }

    /** Every instance in turn; the checks there already stay as they are, and the new ones have not run. */
    method InstantiateAll(instances: seq<Instance>, globalMin: int) returns (added: seq<Check>)
      requires Valid()
      modifies this
      ensures Valid() && errors == old(errors)
      ensures checks == old(checks) + added && forall c :: c in added ==> fresh(c)
      ensures pairs == Registered(old(pairs), instances, globalMin) && runs == old(runs) + Idle(|added|)
      ensures stats == Enrolled(old(stats), old(pairs), instances, globalMin)
    {
      hide Valid, Registered, Enrolled, Next, Enlisted, Idle;
      added := [];
      NoInstances(stats, pairs, runs, globalMin);
      for i := 0 to |instances|
        invariant Valid() && errors == old(errors)
        invariant checks == old(checks) + added && forall c :: c in added ==> fresh(c)
        invariant pairs == Registered(old(pairs), instances[..i], globalMin) && runs == old(runs) + Idle(|added|)
        invariant stats == Enrolled(old(stats), old(pairs), instances[..i], globalMin)
      {
        OneMoreInstance(old(stats), old(pairs), instances, i, globalMin);
        var one := Instantiate(instances[i], globalMin);
        Associates(old(checks), added, one);
        IdleAgain(old(runs), |added|, |one|);
        added := added + one;
      }
      assert instances[..|instances|] == instances;
    }

    /** The collector is as a round has it. */
    ghost predicate Stands(s: Round)
      reads this`runs, this`stats, this`errors
    {
      runs == s.runs && stats == s.stats && errors == s.errors
    }

    /** One check of a round that stands at `s`; false when `result` is read before it is bound.  A check that raises
        stays due. */
    method RunOne(i: nat, now: real, outcome: Outcome, result: Option<bool>, ghost s: Round)
      returns (r: Option<bool>, ok: bool)
      requires Valid() && Stands(s) && i < |checks| && s.result == result
      modifies this`stats, this`errors, this`runs, checks[i]
      ensures var s' := Turned(s, i, pairs[i], now, outcome);
              Valid() && Stands(s') && r == s'.result && (s.bound ==> ok == s'.bound)
      ensures !ok ==> r == result && Stands(s)
    {
      hide Valid, Check.Due, DueAt, Timed, Ran;
      r, ok := result, true;
      var check := checks[i];
      Mirrors(i, now);
      if !check.Due(now) {
        return;
      }
      match outcome {
        case Raises =>
          if result.None? {
            return r, false;
          }
        case Returns(error, duration) =>
          r := Some(error);
          RunAndRecord(i, now, duration);
      }
      Report(check.signature, r);
    }

    method Report(signature: int, result: Option<bool>)
      modifies this`errors
      ensures errors == Reported(old(errors), signature, result)
    {
      if result == Some(true) {
        errors := errors + {signature};
      }
    }

    lemma Mirrors(i: nat, now: real)
      requires Valid() && i < |checks|
      ensures |runs| == |pairs| == |checks| && checks[i].signature == pairs[i].signature
      ensures checks[i].Due(now) <==> DueAt(runs[i], pairs[i].interval, now)
    {
      assert Shows(checks[i], pairs[i], runs[i]);
    }

    lemma Sizes()
      requires Valid()
      ensures |runs| == |pairs| == |checks|
    {
    }

    method RunAndRecord(i: nat, now: real, duration: real)
      requires Valid() && i < |checks| && checks[i].Due(now)
      modifies this`stats, this`runs, checks[i]
      ensures Valid() && runs == Ran(old(runs), i, Run(now, duration))
      ensures stats == Timed(old(stats), pairs[i].signature, duration)
    {
      hide Distinct, SignaturesOf, Fit, AllShow, Timed, Ran, Check.Valid, Check.Due;
      Mirrors(i, now);
      StillFit(pairs, stats, runs, i, Run(now, duration));
      Perform(i, now, duration);
      Record(checks[i].signature, duration);
    }

    method Perform(i: nat, now: real, ghost duration: real)
      requires AllShow(checks, pairs, runs) && Distinct(pairs) && i < |checks| && checks[i].Due(now)
      modifies this`runs, checks[i]
      ensures AllShow(checks, pairs, runs) && runs == Ran(old(runs), i, Run(now, duration))
    {
      assert Shows(checks[i], pairs[i], runs[i]);
      forall j | 0 <= j < |checks| && j != i ensures checks[j] != checks[i] {
        assert Shows(checks[j], pairs[j], runs[j]);
        if j < i {
          SignaturesDiffer(pairs, j, i);
        } else {
          SignaturesDiffer(pairs, i, j);
        }
      }
      checks[i].HasRun(now, duration);
      runs := Ran(runs, i, Run(now, duration));
      forall j | 0 <= j < |checks| ensures Shows(checks[j], pairs[j], runs[j]) {
        assert j != i ==> old(Shows(checks[j], pairs[j], runs[j]));
      }
    }

    /** The execution time of a run, of which the last hundred are kept. */
    method Record(signature: int, time: real)
      modifies this`stats
      ensures stats == Timed(old(stats), signature, time)
    {
      if signature !in stats {
        stats := stats[signature := Stat([], 0)];
      }
      var times := stats[signature].executionTimes + [time];
      if |times| > WINDOW {
        times := times[1..];
      }
      stats := stats[signature := Stat(times, stats[signature].totalRuns + 1)];
    }

    /** The same, as part of a whole round. */
    method Turn(i: nat, now: real, outcome: Outcome, result: Option<bool>, ghost r: Setting)
      returns (next: Option<bool>, ok: bool)
      requires Suits(r) && i < |checks| && r.nows[i] == now && r.outcomes[i] == outcome
      requires Valid() && Stands(RoundAfter(r, i)) && RoundAfter(r, i).bound && RoundAfter(r, i).result == result
      modifies this`stats, this`errors, this`runs, checks[i]
      ensures Valid() && RoundAfter(r, i + 1).bound == ok
      ensures var s := RoundAfter(r, if ok then i + 1 else i); next == s.result && Stands(s)
    {
      hide Valid, Stands, Turned;
      next, ok := RunOne(i, now, outcome, result, RoundAfter(r, i));
    }

    ghost predicate Suits(r: Setting)
      reads this`checks, this`pairs
    {
      r.Fits() && r.pairs == pairs && |pairs| == |checks|
    }

    lemma Opens(r: Setting)
      requires r.Fits() && runs == r.runs && stats == r.stats && errors == r.errors
      ensures Stands(RoundAfter(r, 0)) && RoundAfter(r, 0).bound && RoundAfter(r, 0).result == None
    {
    }

    method Turns(nows: seq<real>, outcomes: seq<Outcome>, ghost r: Setting) returns (visited: nat)
      requires Suits(r) && r.nows == nows && r.outcomes == outcomes
      requires Valid() && runs == r.runs && stats == r.stats && errors == r.errors
      modifies this`stats, this`errors, this`runs, checks
      ensures Valid() && visited <= |checks| && Stands(RoundAfter(r, visited)) && RoundAfter(r, visited).bound
      ensures visited < |checks| ==> !RoundAfter(r, visited + 1).bound
    {
      hide Valid, Stands, RoundAfter;
      visited := 0;
      var result, ok := None, true;
      Opens(r);
      while visited < |checks| && ok
        invariant Valid() && visited <= |checks|
        invariant Stands(RoundAfter(r, visited)) && RoundAfter(r, visited).bound && RoundAfter(r, visited).result == result
        invariant !ok ==> visited < |checks| && !RoundAfter(r, visited + 1).bound
        decreases |checks| - visited, ok
      {
        result, ok := Turn(visited, nows[visited], outcomes[visited], result, r);
        if ok {
          visited := visited + 1;
        }
      }
    }

    /** One round over all checks.  `visited` of them were gone through; it is all of them, unless one raises
        before any came back.  Runs, stats and errors are what the turns make of those found. */
    method RunChecks(nows: seq<real>, outcomes: seq<Outcome>) returns (visited: nat)
      requires Valid() && |nows| == |outcomes| == |checks|
      modifies this`stats, this`errors, this`runs, checks
      ensures Valid() && |checks| == |pairs| == |old(runs)|
      ensures var r := Setting(pairs, old(runs), old(stats), old(errors), nows, outcomes);
              EndsAt(r, visited) && Stands(RoundAfter(r, visited))
    {
      hide Valid, Stands, EndsAt, RoundAfter;
      Sizes();
      ghost var r := Setting(pairs, runs, stats, errors, nows, outcomes);
      visited := Turns(nows, outcomes, r);
      RoundEnds(r, visited);
    }
  }
}
