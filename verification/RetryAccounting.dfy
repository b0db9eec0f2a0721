// What the counters of the forwarder add up to, in every interleaving.
module RetryAccounting {
  import opened Prelude
  import opened Newest
  import opened Workers
  import opened RetryProtocol
  import opened RetryConservation

  function SumTries(txs: seq<Tx>): nat {
    if txs == [] then 0 else SumTries(txs[..|txs| - 1]) + txs[|txs| - 1].nbTry
  }

  /** The worker has made an attempt that no counter shows yet. */
  predicate InRound(h: Hand) {
    h.Processing? || h.Failed? || h.Counting?
  }

  function Rounds(hands: seq<Hand>): nat {
    if hands == [] then 0 else Rounds(hands[..|hands| - 1]) + One(InRound(hands[|hands| - 1]))
  }

  function AboutTo(hands: seq<Hand>, stat: Stat): nat {
    if hands == [] then 0 else AboutTo(hands[..|hands| - 1], stat) + One(hands[|hands| - 1] == Counting(stat))
  }

  function GoneFor(gone: seq<Departure>, reason: Reason): nat {
    if gone == [] then 0 else GoneFor(gone[..|gone| - 1], reason) + One(gone[|gone| - 1].reason == reason)
  }

  ghost predicate Accounted(s: State) {
    && SumTries(s.txs) == s.stats.success + s.stats.rescheduled + s.stats.queueFull + Rounds(s.hands)
                          + GoneFor(s.gone, Crashed)
    && s.stats.success + AboutTo(s.hands, TransactionsSuccess) == GoneFor(s.gone, Done)
    && s.stats.queueFull + AboutTo(s.hands, QueueFullErrors) == GoneFor(s.gone, RetryFull)
    && s.stats.series + s.stats.intake + s.stats.checks == |s.txs|
    && |s.input| <= QUEUES_SIZE
    && |s.retry| <= QUEUES_SIZE
  }

  lemma {:induction false} TriesChange(txs: seq<Tx>, id: nat, t: Tx)
    requires id < |txs|
    ensures SumTries(txs[id := t]) + txs[id].nbTry == SumTries(txs) + t.nbTry
  {
    var n := |txs| - 1;
    if id < n {
      TriesChange(txs[..n], id, t);
      assert txs[id := t][..n] == txs[..n][id := t];
    } else {
      assert txs[id := t][..n] == txs[..n];
    }
  }

  lemma TriesOneMore(txs: seq<Tx>, t: Tx)
    ensures SumTries(txs + [t]) == SumTries(txs) + t.nbTry
  {
    assert (txs + [t])[..|txs|] == txs;
  }

  lemma {:induction false} RoundsChange(hands: seq<Hand>, w: nat, h: Hand)
    requires w < |hands|
    ensures Rounds(hands[w := h]) + One(InRound(hands[w])) == Rounds(hands) + One(InRound(h))
  {
    var n := |hands| - 1;
    if w < n {
      RoundsChange(hands[..n], w, h);
      assert hands[w := h][..n] == hands[..n][w := h];
    } else {
      assert hands[w := h][..n] == hands[..n];
    }
  }

  lemma {:induction false} AboutToChange(hands: seq<Hand>, w: nat, h: Hand, stat: Stat)
    requires w < |hands|
    ensures AboutTo(hands[w := h], stat) + One(hands[w] == Counting(stat)) == AboutTo(hands, stat) + One(h == Counting(stat))
  {
    var n := |hands| - 1;
    if w < n {
      AboutToChange(hands[..n], w, h, stat);
      assert hands[w := h][..n] == hands[..n][w := h];
    } else {
      assert hands[w := h][..n] == hands[..n];
    }
  }

  lemma HandChange(hands: seq<Hand>, w: nat, h: Hand)
    requires w < |hands|
    ensures Rounds(hands[w := h]) + One(InRound(hands[w])) == Rounds(hands) + One(InRound(h))
    ensures AboutTo(hands[w := h], TransactionsSuccess) + One(hands[w] == Counting(TransactionsSuccess))
            == AboutTo(hands, TransactionsSuccess) + One(h == Counting(TransactionsSuccess))
    ensures AboutTo(hands[w := h], QueueFullErrors) + One(hands[w] == Counting(QueueFullErrors))
            == AboutTo(hands, QueueFullErrors) + One(h == Counting(QueueFullErrors))
  {
    RoundsChange(hands, w, h);
    AboutToChange(hands, w, h, TransactionsSuccess);
    AboutToChange(hands, w, h, QueueFullErrors);
  }

  lemma GoneOneMore(gone: seq<Departure>, d: Departure, reason: Reason)
    ensures GoneFor(gone + [d], reason) == GoneFor(gone, reason) + One(d.reason == reason)
  {
    assert (gone + [d])[..|gone|] == gone;
  }

  lemma GoneOne(gone: seq<Departure>, d: Departure)
    ensures GoneFor(gone + [d], Crashed) == GoneFor(gone, Crashed) + One(d.reason == Crashed)
    ensures GoneFor(gone + [d], Done) == GoneFor(gone, Done) + One(d.reason == Done)
    ensures GoneFor(gone + [d], RetryFull) == GoneFor(gone, RetryFull) + One(d.reason == RetryFull)
  {
    GoneOneMore(gone, d, Crashed);
    GoneOneMore(gone, d, Done);
    GoneOneMore(gone, d, RetryFull);
  }

  lemma {:induction false} GoneForOthers(gone: seq<Departure>, ids: seq<nat>, other: Reason, reason: Reason)
    requires other != reason
    ensures GoneFor(gone + Departures(ids, other), reason) == GoneFor(gone, reason)
  {
    if ids == [] {
      assert gone + [] == gone;
    } else {
      var n := |ids| - 1;
      var last := Departure(ids[n], other);
      var most := gone + Departures(ids[..n], other);
      GoneForOthers(gone, ids[..n], other, reason);
      GoneOneMore(most, last, reason);
      assert gone + Departures(ids, other) == most + [last];
    }
  }

  lemma {:induction false} IdleHands(hands: seq<Hand>)
    requires forall w :: 0 <= w < |hands| ==> !InRound(hands[w])
    ensures Rounds(hands) == 0 && forall stat :: AboutTo(hands, stat) == 0
  {
    if hands != [] {
      IdleHands(hands[..|hands| - 1]);
    }
  }

  lemma InitAccounted(cfg: Config, start: real)
    ensures Accounted(Init(cfg, start))
  {
    IdleHands(Init(cfg, start).hands);
  }

  lemma PayloadCounted(c: Counters, kind: Payload)
    ensures var c' := CountPayload(c, kind);
            && c'.series + c'.intake + c'.checks == c.series + c.intake + c.checks + 1
            && c'.success == c.success && c'.rescheduled == c.rescheduled && c'.queueFull == c.queueFull
  {
  }

  lemma SubmitAccounts(s: State, kind: Payload)
    requires Accounted(s)
    ensures Accounted(DoSubmit(s, kind))
  {
    TriesOneMore(s.txs, Tx(0, None, []));
    PayloadCounted(s.stats, kind);
    if |s.input| >= QUEUES_SIZE {
      GoneOne(s.gone, Departure(|s.txs|, InputFull));
    }
  }

  lemma BeginAccounts(s: State, w: nat, cfg: Config)
    requires Accounted(s) && Conserved(s) && Enabled(s, Begin(w))
    ensures Accounted(Apply(s, Begin(w), cfg))
  {
    var id := s.hands[w].id;
    HeldExist(s, w, id);
    TriesChange(s.txs, id, Attempted(s.txs[id], s.clock));
    HandChange(s.hands, w, Processing(id));
  }

  lemma FailAccounts(s: State, w: nat, cfg: Config)
    requires Accounted(s) && Conserved(s) && Enabled(s, Fail(w))
    ensures Accounted(Apply(s, Fail(w), cfg))
  {
    var id := s.hands[w].id;
    HeldExist(s, w, id);
    TriesChange(s.txs, id, Rescheduled(s.txs[id], s.clock));
    HandChange(s.hands, w, Failed(id));
  }

  lemma PutRetryAccounts(s: State, w: nat)
    requires Accounted(s) && Enabled(s, PutRetry(w))
    ensures Accounted(DoPutRetry(s, w))
  {
    if |s.retry| < QUEUES_SIZE {
      HandChange(s.hands, w, Counting(TransactionsRescheduled));
    } else {
      HandChange(s.hands, w, Counting(QueueFullErrors));
      GoneOne(s.gone, Departure(s.hands[w].id, RetryFull));
    }
  }

  lemma TakeAccounts(s: State, w: nat, cfg: Config)
    requires Accounted(s) && Enabled(s, Take(w))
    ensures Accounted(Apply(s, Take(w), cfg))
  {
    HandChange(s.hands, w, Holding(s.input[0]));
  }

  lemma SucceedAccounts(s: State, w: nat, cfg: Config)
    requires Accounted(s) && Enabled(s, Succeed(w))
    ensures Accounted(Apply(s, Succeed(w), cfg))
  {
    HandChange(s.hands, w, Counting(TransactionsSuccess));
    GoneOne(s.gone, Departure(s.hands[w].id, Done));
  }

  lemma CrashAccounts(s: State, w: nat, cfg: Config)
    requires Accounted(s) && Enabled(s, Crash(w))
    ensures Accounted(Apply(s, Crash(w), cfg))
  {
    HandChange(s.hands, w, Free);
    GoneOne(s.gone, Departure(s.hands[w].id, Crashed));
  }

  lemma CountAccounts(s: State, w: nat, cfg: Config)
    requires Accounted(s) && Enabled(s, Count(w))
    ensures Accounted(Apply(s, Count(w), cfg))
  {
    HandChange(s.hands, w, Free);
    StatCounted(s.stats, s.hands[w].stat);
  }

  lemma StatCounted(c: Counters, stat: Stat)
    ensures var c' := CountStat(c, stat);
            && c'.success == c.success + One(stat == TransactionsSuccess)
            && c'.rescheduled == c.rescheduled + One(stat == TransactionsRescheduled)
            && c'.queueFull == c.queueFull + One(stat == QueueFullErrors)
            && c'.series == c.series && c'.intake == c.intake && c'.checks == c.checks
  {
  }

  lemma RetryOfferAccounts(s: State)
    requires Accounted(s) && Enabled(s, RetryOffer)
    ensures Accounted(DoRetryOffer(s))
  {
    var x := s.phase.all[s.phase.i];
    if !NotDue(TxAt(s.txs, x), s.phase.now) && |s.input| >= QUEUES_SIZE {
      GoneOne(s.gone, Departure(x, InputFullAgain));
      assert DoRetryOffer(s).gone == s.gone + [Departure(x, InputFullAgain)];
    } else {
      assert DoRetryOffer(s).gone == s.gone;
    }
  }

  lemma RetryEndAccounts(s: State, cfg: Config)
    requires Accounted(s) && Enabled(s, RetryEnd)
    ensures Accounted(DoRetryEnd(s, cfg))
  {
    var kept := Prefix(s.phase.keep, cfg.retryQueueMaxSize);
    GoneForOthers(s.gone, s.phase.keep[|kept|..], Truncated, Crashed);
    GoneForOthers(s.gone, s.phase.keep[|kept|..], Truncated, Done);
    GoneForOthers(s.gone, s.phase.keep[|kept|..], Truncated, RetryFull);
  }

  lemma StepAccounts(s: State, step: Step, cfg: Config)
    requires Accounted(s) && Conserved(s) && Enabled(s, step)
    ensures Accounted(Apply(s, step, cfg))
  {
    hide Conserved, SumTries, Rounds, AboutTo, GoneFor, DoSubmit, DoPutRetry, DoRetryOffer, DoRetryEnd, NewestFirst;
    match step
    case Tick(_) =>
    case Submit(kind) => SubmitAccounts(s, kind);
    case Begin(w) => BeginAccounts(s, w, cfg);
    case Fail(w) => FailAccounts(s, w, cfg);
    case PutRetry(w) => PutRetryAccounts(s, w);
    case RetryGet =>
    case RetryCheck =>
    case RetryOffer => RetryOfferAccounts(s);
    case RetryEnd => RetryEndAccounts(s, cfg);
    case Take(w) => TakeAccounts(s, w, cfg);
    case Succeed(w) => SucceedAccounts(s, w, cfg);
    case Crash(w) => CrashAccounts(s, w, cfg);
    case Count(w) => CountAccounts(s, w, cfg);
  }

  lemma {:induction false} RunAccounts(s: State, steps: seq<Step>, cfg: Config)
    requires Accounted(s) && Conserved(s) && IsRun(s, steps, cfg)
    ensures Accounted(After(s, steps, cfg))
    decreases |steps|
  {
    if steps != [] {
      StepAccounts(s, steps[0], cfg);
      StepConserves(s, steps[0], cfg);
      RunAccounts(Apply(s, steps[0], cfg), steps[1..], cfg);
    }
  }

  /** Between rounds and without unexpected exceptions, every attempt is in one of the three counters,
      a success is a transaction that is done, and a full queue is one that was dropped for it. */
  lemma AttemptsAreCounted(cfg: Config, start: real, steps: seq<Step>)
    requires IsRun(Init(cfg, start), steps, cfg)
    ensures var s := After(Init(cfg, start), steps, cfg);
            && s.stats.series + s.stats.intake + s.stats.checks == |s.txs|
            && |s.input| <= QUEUES_SIZE && |s.retry| <= QUEUES_SIZE
            && ((forall w :: 0 <= w < |s.hands| ==> !InRound(s.hands[w])) ==>
                  && SumTries(s.txs) == s.stats.success + s.stats.rescheduled + s.stats.queueFull + GoneFor(s.gone, Crashed)
                  && s.stats.success == GoneFor(s.gone, Done)
                  && s.stats.queueFull == GoneFor(s.gone, RetryFull))
  {
    InitAccounted(cfg, start);
    InitConserved(cfg, start);
    RunAccounts(Init(cfg, start), steps, cfg);
    var s := After(Init(cfg, start), steps, cfg);
    if forall w :: 0 <= w < |s.hands| ==> !InRound(s.hands[w]) {
      IdleHands(s.hands);
    }
  }
}
