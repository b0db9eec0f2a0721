// How long a transaction waits between attempts, in every interleaving.
module RetryBackoff {
  import opened Prelude
  import opened Newest
  import opened Workers
  import opened RetryProtocol
  import opened RetryConservation

  // ---------- one transaction ----------

  /** After the (k+1)-st failure the next attempt waits `min(5 * (k + 1), 90)` seconds. */
  ghost predicate Spaced(t: Tx) {
    && t.nbTry == |t.attempts|
    && forall k :: 0 <= k < |t.attempts| - 1 ==> t.attempts[k + 1] >= t.attempts[k] + RetryDelay(k + 1) as real
  }

  predicate LastBefore(t: Tx, clock: real) {
    t.attempts != [] ==> t.attempts[|t.attempts| - 1] <= clock
  }

  /** Its next flush is far enough from its last attempt. */
  predicate Waits(t: Tx) {
    t.attempts != [] ==>
      && t.nextFlush.Some?
      && t.nextFlush.value >= t.attempts[|t.attempts| - 1] + RetryDelay(|t.attempts|) as real
  }

  /** Its next flush has come. */
  predicate Ready(t: Tx, clock: real) {
    t.attempts != [] && t.nextFlush.Some? ==> t.nextFlush.value <= clock
  }

  lemma AttemptIsSpaced(t: Tx, clock: real)
    requires Spaced(t) && Waits(t) && Ready(t, clock)
    ensures Spaced(Attempted(t, clock))
  {
  }

  lemma RescheduledWaits(t: Tx, clock: real)
    requires Spaced(t) && LastBefore(t, clock)
    ensures Waits(Rescheduled(t, clock))
  {
  }

  // ---------- one transaction in the protocol ----------

  ghost predicate Timed(s: State) {
    s.clock >= 0.0 && (s.phase.Flushing? ==> s.phase.now <= s.clock)
  }

  /** A transaction that waits anywhere has its next flush set; in the input queue it has passed. */
  ghost predicate Backs(s: State, id: nat) {
    var t := TxAt(s.txs, id);
    && Spaced(t)
    && LastBefore(t, s.clock)
    && (id in s.input ==> Waits(t) && Ready(t, s.clock))
    && (id in s.retry ==> Waits(t))
    && (InList(s.list, s.phase, id) > 0 ==> Waits(t))
    && (forall w :: 0 <= w < |s.hands| && s.hands[w] == Holding(id) ==> Waits(t) && Ready(t, s.clock))
    && (forall w :: 0 <= w < |s.hands| && s.hands[w] == Failed(id) ==> Waits(t))
  }

  ghost predicate BacksOff(s: State) {
    Timed(s) && forall id: nat :: Backs(s, id)
  }

  lemma InitBacksOff(cfg: Config, start: real)
    requires start >= 0.0
    ensures BacksOff(Init(cfg, start))
  {
  }

  lemma StepTimed(s: State, step: Step, cfg: Config)
    requires Timed(s) && Enabled(s, step)
    ensures Timed(Apply(s, step, cfg))
  {
  }

  lemma SubmitBacks(s: State, kind: Payload, id: nat)
    requires Conserved(s) && Backs(s, id)
    ensures Backs(DoSubmit(s, kind), id)
  {
    if id == |s.txs| {
      assert TxAt(DoSubmit(s, kind).txs, id) == TxAt(s.txs, id);
    }
  }

  /** The transaction that a worker attempts or reschedules. */
  lemma OwnBacks(s: State, w: nat, h: Hand, t: Tx, id: nat)
    requires Conserved(s) && w < |s.hands| && Holds(s.hands[w], id) && id < |s.txs|
    requires Spaced(t) && LastBefore(t, s.clock) && (h == Processing(id) || (h == Failed(id) && Waits(t)))
    ensures Backs(s.(txs := s.txs[id := t], hands := s.hands[w := h]), id)
  {
    HeldExist(s, w, id);
    forall v | 0 <= v < |s.hands| && v != w ensures !Holds(s.hands[v], id) {
      if v < w {
        if Holds(s.hands[v], id) {
          NoTwoWorkers(s, v, w, id);
        }
      } else {
        NoTwoWorkers(s, w, v, id);
      }
    }
  }

  /** The other transactions. */
  lemma OtherBacks(s: State, w: nat, h: Hand, t: Tx, own: nat, id: nat)
    requires Backs(s, id) && w < |s.hands| && own < |s.txs| && id != own && !h.Holding? && h != Failed(id)
    ensures Backs(s.(txs := s.txs[own := t], hands := s.hands[w := h]), id)
  {
  }

  lemma BeginBacks(s: State, w: nat, cfg: Config, id: nat)
    requires Conserved(s) && Backs(s, id) && Enabled(s, Begin(w))
    ensures Backs(Apply(s, Begin(w), cfg), id)
  {
    var own := s.hands[w].id;
    HeldExist(s, w, own);
    var t := Attempted(s.txs[own], s.clock);
    if id == own {
      AttemptIsSpaced(s.txs[own], s.clock);
      OwnBacks(s, w, Processing(own), t, own);
    } else {
      OtherBacks(s, w, Processing(own), t, own, id);
    }
  }

  lemma FailBacks(s: State, w: nat, cfg: Config, id: nat)
    requires Conserved(s) && Backs(s, id) && Enabled(s, Fail(w))
    ensures Backs(Apply(s, Fail(w), cfg), id)
  {
    var own := s.hands[w].id;
    HeldExist(s, w, own);
    var t := Rescheduled(s.txs[own], s.clock);
    if id == own {
      RescheduledWaits(s.txs[own], s.clock);
      OwnBacks(s, w, Failed(own), t, own);
    } else {
      OtherBacks(s, w, Failed(own), t, own, id);
    }
  }

  lemma WorkerBacks(s: State, step: Step, cfg: Config, id: nat)
    requires Backs(s, id) && Enabled(s, step)
    requires step.Take? || step.Succeed? || step.Crash? || step.PutRetry? || step.Count?
    ensures Backs(Apply(s, step, cfg), id)
  {
  }

  lemma RetryGetBacks(s: State, id: nat)
    requires Backs(s, id) && Enabled(s, RetryGet)
    ensures Backs(DoRetryGet(s), id)
  {
    if s.retry != [] {
      TimesSnoc(s.list, s.retry[0], id);
    }
  }

  lemma RetryCheckBacks(s: State, cfg: Config, id: nat)
    requires Backs(s, id) && Enabled(s, RetryCheck)
    ensures Backs(DoRetryCheck(s, cfg), id)
  {
    RetryCheckPlaces(s, cfg, id);
  }

  lemma RetryOfferBacks(s: State, id: nat)
    requires Timed(s) && Backs(s, id) && Enabled(s, RetryOffer)
    ensures Backs(DoRetryOffer(s), id)
  {
    var x := s.phase.all[s.phase.i];
    TimesHead(s.phase.all, s.phase.i, id);
    if NotDue(TxAt(s.txs, x), s.phase.now) {
      TimesSnoc(s.phase.keep, x, id);
    } else if x == id {
      assert Ready(TxAt(s.txs, id), s.clock);
    }
  }

  lemma RetryEndBacks(s: State, cfg: Config, id: nat)
    requires Backs(s, id) && Enabled(s, RetryEnd)
    ensures Backs(DoRetryEnd(s, cfg), id)
  {
    var keep := s.phase.keep;
    TimesSplit(keep, |Prefix(keep, cfg.retryQueueMaxSize)|, id);
  }

  lemma StepBacks(s: State, step: Step, cfg: Config, id: nat)
    requires Conserved(s) && Timed(s) && Backs(s, id) && Enabled(s, step)
    ensures Backs(Apply(s, step, cfg), id)
  {
    match step
    case Tick(_) =>
    case Submit(kind) => SubmitBacks(s, kind, id);
    case Begin(w) => BeginBacks(s, w, cfg, id);
    case Fail(w) => FailBacks(s, w, cfg, id);
    case RetryGet => RetryGetBacks(s, id);
    case RetryCheck => RetryCheckBacks(s, cfg, id);
    case RetryOffer => RetryOfferBacks(s, id);
    case RetryEnd => RetryEndBacks(s, cfg, id);
    case _ => WorkerBacks(s, step, cfg, id);
  }

  lemma StepBacksOff(s: State, step: Step, cfg: Config)
    requires Conserved(s) && BacksOff(s) && Enabled(s, step)
    ensures BacksOff(Apply(s, step, cfg))
  {
    StepTimed(s, step, cfg);
    forall id: nat ensures Backs(Apply(s, step, cfg), id) {
      StepBacks(s, step, cfg, id);
    }
  }

  lemma {:induction false} RunBacksOff(s: State, steps: seq<Step>, cfg: Config)
    requires Conserved(s) && BacksOff(s) && IsRun(s, steps, cfg)
    ensures BacksOff(After(s, steps, cfg))
    decreases |steps|
  {
    if steps != [] {
      StepBacksOff(s, steps[0], cfg);
      StepConserves(s, steps[0], cfg);
      RunBacksOff(Apply(s, steps[0], cfg), steps[1..], cfg);
    }
  }

  // ---------- the bound ----------

  /** The waits after the first `n` failures. */
  function Backoff(n: nat): nat {
    if n == 0 then 0 else Backoff(n - 1) + RetryDelay(n)
  }

  lemma NextTriangle(n: nat)
    ensures 5 * (n + 1) * (n + 2) == 5 * n * (n + 1) + 10 * (n + 1)
  {
  }

  lemma {:induction false} BackoffClosedForm(n: nat)
    ensures n <= 18 ==> 2 * Backoff(n) == 5 * n * (n + 1)
    ensures n >= 18 ==> Backoff(n) == 855 + 90 * (n - 18)
  {
    if n > 0 {
      BackoffClosedForm(n - 1);
      NextTriangle(n - 1);
    }
  }

  lemma {:induction false} SpacedFromFirst(t: Tx, n: nat)
    requires Spaced(t) && n < |t.attempts|
    ensures t.attempts[n] >= t.attempts[0] + Backoff(n) as real
  {
    if n > 0 {
      SpacedFromFirst(t, n - 1);
      assert t.attempts[n - 1 + 1] >= t.attempts[n - 1] + RetryDelay(n - 1 + 1) as real;
    }
  }

  /** In every run, the attempt after `n` failures starts at least Backoff(n) seconds after the first one. */
  lemma AttemptsBackOff(cfg: Config, start: real, steps: seq<Step>, id: nat, n: nat)
    requires start >= 0.0 && IsRun(Init(cfg, start), steps, cfg)
    requires id < |After(Init(cfg, start), steps, cfg).txs|
    requires n < |After(Init(cfg, start), steps, cfg).txs[id].attempts|
    ensures var t := After(Init(cfg, start), steps, cfg).txs[id];
            t.nbTry == |t.attempts| && t.attempts[n] >= t.attempts[0] + Backoff(n) as real
  {
    InitConserved(cfg, start);
    InitBacksOff(cfg, start);
    RunBacksOff(Init(cfg, start), steps, cfg);
    var s := After(Init(cfg, start), steps, cfg);
    assert Backs(s, id);
    SpacedFromFirst(s.txs[id], n);
  }

  /** In every run, what is in the input queue again has waited for its next flush. */
  lemma InputIsDue(cfg: Config, start: real, steps: seq<Step>, id: nat)
    requires start >= 0.0 && IsRun(Init(cfg, start), steps, cfg)
    requires id in After(Init(cfg, start), steps, cfg).input
    ensures var s := After(Init(cfg, start), steps, cfg);
            id < |s.txs| && (s.txs[id].nbTry > 0 ==> s.txs[id].nextFlush.Some? && s.txs[id].nextFlush.value <= s.clock)
  {
    InitConserved(cfg, start);
    InitBacksOff(cfg, start);
    RunBacksOff(Init(cfg, start), steps, cfg);
    RunConserves(Init(cfg, start), steps, cfg);
    var s := After(Init(cfg, start), steps, cfg);
    TimesIn(s.input, id);
    OnlyPlace(s, id);
    assert Backs(s, id);
  }
}
