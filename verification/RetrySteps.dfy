// What single steps and whole runs of the protocol do to clocks, counters and queues.
module RetrySteps {
  import opened Prelude
  import opened Newest
  import opened Workers
  import opened RetryProtocol
  import opened RetryConservation
  import opened RetryAccounting
  import opened RetryFlush

  /** A submission is stamped with the clock, and queued unless a hundred are waiting. */
  lemma SubmitIs(s: State, kind: Payload)
    ensures var s' := DoSubmit(s, kind);
            && s'.created == s.created + [s.clock] && s'.txs == s.txs + [Tx(0, None, [])]
            && s'.input == s.input + (if |s.input| < 100 then [|s.txs|] else [])
            && s'.gone == s.gone + (if |s.input| < 100 then [] else [Departure(|s.txs|, InputFull)])
            && s'.retry == s.retry && s'.list == s.list && s'.hands == s.hands && s'.phase == s.phase
            && s'.clock == s.clock
  {
    assert s.input + [] == s.input && s.gone + [] == s.gone;
  }

  /** A failed attempt is rescheduled by five seconds for each attempt so far, at most ninety. */
  lemma FailIs(s: State, w: nat, cfg: Config)
    requires Conserved(s) && Enabled(s, Fail(w))
    ensures var id := s.hands[w].id;
            var tries := TxAt(s.txs, id).nbTry;
            && id < |s.txs|
            && Apply(s, Fail(w), cfg).txs ==
                 s.txs[id := s.txs[id].(nextFlush := Some(s.clock + (if 5 * tries <= 90 then 5 * tries else 90) as real))]
  {
    hide Conserved;
    HeldExist(s, w, s.hands[w].id);
  }

  /** A transaction of the list is passed over exactly if its next flush is still to come; one at time zero does not
      count. */
  lemma LateIff(s: State, id: nat)
    requires Conserved(s) && Begins(s)
    ensures id in LateInList(s)
       <==> id in s.list && id < |s.txs| && s.txs[id].nextFlush.Some? && s.txs[id].nextFlush.value != 0.0
            && s.clock < s.txs[id].nextFlush.value
  {
    hide Conserved;
    if id in s.list {
      ListExists(s, id);
    }
  }

  lemma StepQueues(s: State, steps: seq<Step>, cfg: Config)
    requires Accounted(s) && Conserved(s) && IsRun(s, steps, cfg)
    ensures |After(s, steps, cfg).input| <= 100 && |After(s, steps, cfg).retry| <= 100
  {
    RunAccounts(s, steps, cfg);
  }

  // ---------- payload counters ----------

  function CountOf(c: Counters, kind: Payload): nat {
    match kind
    case Series => c.series
    case Intake => c.intake
    case ServiceCheck => c.checks
  }

  function Submissions(steps: seq<Step>, kind: Payload): nat
    decreases |steps|
  {
    if steps == [] then 0 else One(steps[0] == Submit(kind)) + Submissions(steps[1..], kind)
  }

  lemma StepCounts(s: State, step: Step, cfg: Config, kind: Payload)
    requires Enabled(s, step)
    ensures CountOf(Apply(s, step, cfg).stats, kind) == CountOf(s.stats, kind) + One(step == Submit(kind))
  {
  }

  /** Each payload counter is the number of submissions of its kind. */
  lemma {:induction false} SubmissionsAreCounted(s: State, steps: seq<Step>, cfg: Config, kind: Payload)
    requires IsRun(s, steps, cfg)
    ensures CountOf(After(s, steps, cfg).stats, kind) == CountOf(s.stats, kind) + Submissions(steps, kind)
    decreases |steps|
  {
    hide CountOf;
    if steps != [] {
      StepCounts(s, steps[0], cfg, kind);
      SubmissionsAreCounted(Apply(s, steps[0], cfg), steps[1..], cfg, kind);
    }
  }

  // ---------- one round of a worker, with nobody in between ----------

  lemma FirstOf(s: State, step: Step, rest: seq<Step>, cfg: Config)
    requires Enabled(s, step) && IsRun(Apply(s, step, cfg), rest, cfg)
    ensures IsRun(s, [step] + rest, cfg) && After(s, [step] + rest, cfg) == After(Apply(s, step, cfg), rest, cfg)
  {
    assert ([step] + rest)[1..] == rest;
  }

  /** The state once the worker has taken the oldest transaction and begun the POST. */
  function Attempting(s: State, w: nat): State
    requires w < |s.hands| && s.input != [] && s.input[0] < |s.txs|
  {
    var id := s.input[0];
    var t := s.txs[id];
    s.(input := s.input[1..], hands := s.hands[w := Processing(id)],
       txs := s.txs[id := Tx(t.nbTry + 1, t.nextFlush, t.attempts + [s.clock])])
  }

  lemma BeginsAttempt(s: State, w: nat, rest: seq<Step>, cfg: Config)
    requires Conserved(s) && w < |s.hands| && s.hands[w] == Free && s.input != []
    ensures s.input[0] < |s.txs|
    ensures IsRun(Attempting(s, w), rest, cfg) ==>
              IsRun(s, [Take(w), Begin(w)] + rest, cfg)
              && After(s, [Take(w), Begin(w)] + rest, cfg) == After(Attempting(s, w), rest, cfg)
  {
    hide Conserved, IsRun, After;
    var taken := Apply(s, Take(w), cfg);
    StepConserves(s, Take(w), cfg);
    HeldExist(taken, w, s.input[0]);
    assert Apply(taken, Begin(w), cfg) == Attempting(s, w) by {
      assert s.hands[w := Holding(s.input[0])][w := Processing(s.input[0])] == s.hands[w := Processing(s.input[0])];
    }
    if IsRun(Attempting(s, w), rest, cfg) {
      FirstOf(taken, Begin(w), rest, cfg);
      FirstOf(s, Take(w), [Begin(w)] + rest, cfg);
      assert [Take(w)] + ([Begin(w)] + rest) == [Take(w), Begin(w)] + rest;
    }
  }

  lemma LastTwo(s: State, a: Step, b: Step, cfg: Config)
    requires Enabled(s, a) && Enabled(Apply(s, a, cfg), b)
    ensures IsRun(s, [a, b], cfg) && After(s, [a, b], cfg) == Apply(Apply(s, a, cfg), b, cfg)
  {
    FirstOf(Apply(s, a, cfg), b, [], cfg);
    FirstOf(s, a, [b], cfg);
    assert [b] + [] == [b] && [a] + [b] == [a, b];
  }

  /** A success: one attempt more, the transaction is done, and the counter of successes goes up. */
  lemma SuccessfulRound(s: State, w: nat, cfg: Config)
    requires Conserved(s) && w < |s.hands| && s.hands[w] == Free && s.input != []
    ensures var steps := [Take(w), Begin(w)] + [Succeed(w), Count(w)];
            && s.input[0] < |s.txs| && IsRun(s, steps, cfg)
            && After(s, steps, cfg)
               == Attempting(s, w).(gone := s.gone + [Departure(s.input[0], Done)], hands := s.hands,
                                    stats := s.stats.(success := s.stats.success + 1))
  {
    hide Conserved, IsRun, After;
    BeginsAttempt(s, w, [Succeed(w), Count(w)], cfg);
    LastTwo(Attempting(s, w), Succeed(w), Count(w), cfg);
    assert s.hands[w := Processing(s.input[0])][w := Counting(TransactionsSuccess)][w := Free] == s.hands;
  }

  /** A failure: one attempt more, the next flush five seconds later for each attempt but at most ninety, and a place on
      the retry queue if fewer than a hundred are there; otherwise the transaction is dropped and counted as such. */
  lemma FailedRound(s: State, w: nat, cfg: Config)
    requires Conserved(s) && w < |s.hands| && s.hands[w] == Free && s.input != []
    ensures var steps := [Take(w), Begin(w)] + ([Fail(w)] + [PutRetry(w), Count(w)]);
            && s.input[0] < |s.txs| && IsRun(s, steps, cfg)
            && var id, room := s.input[0], |s.retry| < 100;
               var t := s.txs[id];
               var delay := if 5 * (t.nbTry + 1) <= 90 then 5 * (t.nbTry + 1) else 90;
               After(s, steps, cfg)
               == s.(input := s.input[1..],
                     txs := s.txs[id := Tx(t.nbTry + 1, Some(s.clock + delay as real), t.attempts + [s.clock])],
                     retry := s.retry + (if room then [id] else []),
                     gone := s.gone + (if room then [] else [Departure(id, RetryFull)]),
                     stats := if room then s.stats.(rescheduled := s.stats.rescheduled + 1)
                              else s.stats.(queueFull := s.stats.queueFull + 1))
  {
    hide Conserved, IsRun, After;
    BeginsAttempt(s, w, [Fail(w)] + [PutRetry(w), Count(w)], cfg);
    var s2, id := Attempting(s, w), s.input[0];
    var s3 := Apply(s2, Fail(w), cfg);
    LastTwo(s3, PutRetry(w), Count(w), cfg);
    FirstOf(s2, Fail(w), [PutRetry(w), Count(w)], cfg);
    var stat := if |s.retry| < 100 then TransactionsRescheduled else QueueFullErrors;
    assert s.hands[w := Processing(id)][w := Failed(id)][w := Counting(stat)][w := Free] == s.hands;
    assert s.retry + [] == s.retry && s.gone + [] == s.gone;
  }

  /** An unexpected exception: one attempt more, and the transaction is gone without any counter. */
  lemma CrashedRound(s: State, w: nat, cfg: Config)
    requires Conserved(s) && w < |s.hands| && s.hands[w] == Free && s.input != []
    ensures var steps := [Take(w), Begin(w)] + [Crash(w)];
            && s.input[0] < |s.txs| && IsRun(s, steps, cfg)
            && After(s, steps, cfg)
               == Attempting(s, w).(gone := s.gone + [Departure(s.input[0], Crashed)], hands := s.hands)
  {
    hide Conserved;
    BeginsAttempt(s, w, [Crash(w)], cfg);
    FirstOf(Attempting(s, w), Crash(w), [], cfg);
    assert [Crash(w)] + [] == [Crash(w)];
    assert s.hands[w := Processing(s.input[0])][w := Free] == s.hands;
  }

  // ---------- how often flushes come ----------

  lemma StepKeepsFlushTime(s: State, step: Step, cfg: Config, t: real)
    requires Enabled(s, step) && t <= s.clock && t + cfg.flushInterval <= s.flushTime
    ensures var s' := Apply(s, step, cfg); t <= s'.clock && t + cfg.flushInterval <= s'.flushTime
  {
  }

  lemma {:induction false} RunKeepsFlushTime(s: State, steps: seq<Step>, cfg: Config, t: real)
    requires IsRun(s, steps, cfg) && t <= s.clock && t + cfg.flushInterval <= s.flushTime
    ensures var s' := After(s, steps, cfg); t <= s'.clock && t + cfg.flushInterval <= s'.flushTime
    decreases |steps|
  {
    if steps != [] {
      StepKeepsFlushTime(s, steps[0], cfg, t);
      RunKeepsFlushTime(Apply(s, steps[0], cfg), steps[1..], cfg, t);
    }
  }

  /** A flush begins no sooner than the flush interval after the one before ended, or after the start. */
  lemma FlushesAreApart(s: State, steps: seq<Step>, cfg: Config)
    requires Enabled(s, RetryEnd) && IsRun(DoRetryEnd(s, cfg), steps, cfg)
    requires Begins(After(DoRetryEnd(s, cfg), steps, cfg))
    ensures After(DoRetryEnd(s, cfg), steps, cfg).clock >= s.clock + cfg.flushInterval
  {
    RunKeepsFlushTime(DoRetryEnd(s, cfg), steps, cfg, s.clock);
  }

  lemma FirstFlush(cfg: Config, start: real, steps: seq<Step>)
    requires IsRun(Init(cfg, start), steps, cfg) && Begins(After(Init(cfg, start), steps, cfg))
    ensures After(Init(cfg, start), steps, cfg).clock >= start + cfg.flushInterval
  {
    RunKeepsFlushTime(Init(cfg, start), steps, cfg, start);
  }
}
