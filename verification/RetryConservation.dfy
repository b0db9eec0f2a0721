// Every transaction is always in exactly one place.
module RetryConservation {
  import opened Prelude
  import opened Newest
  import opened Workers
  import opened RetryProtocol

  // ---------- how often a transaction occurs ----------

  function One(b: bool): nat {
    if b then 1 else 0
  }

  function Times(ids: seq<nat>, id: nat): nat {
    if ids == [] then 0 else Times(ids[..|ids| - 1], id) + One(ids[|ids| - 1] == id)
  }

  predicate Holds(h: Hand, id: nat) {
    match h
    case Free => false
    case Holding(i) => i == id
    case Processing(i) => i == id
    case Failed(i) => i == id
    case Counting(_) => false
  }

  function InHands(hands: seq<Hand>, id: nat): nat {
    if hands == [] then 0 else InHands(hands[..|hands| - 1], id) + One(Holds(hands[|hands| - 1], id))
  }

  /** What has left the protocol. */
  function Left(gone: seq<Departure>, id: nat): nat {
    if gone == [] then 0 else Left(gone[..|gone| - 1], id) + One(gone[|gone| - 1].id == id)
  }

  /** What the retry worker has: its list, or what a flush has kept and what it has not looked at. */
  function InList(list: seq<nat>, phase: Phase, id: nat): nat {
    if phase.Flushing? then
      Times(phase.keep, id) + if phase.i <= |phase.all| then Times(phase.all[phase.i..], id) else 0
    else Times(list, id)
  }

  function Places(s: State, id: nat): nat {
    Times(s.input, id) + InHands(s.hands, id) + Times(s.retry, id) + InList(s.list, s.phase, id) + Left(s.gone, id)
  }

  /** Every transaction created is in one place, once; nothing else is anywhere. */
  ghost predicate Conserved(s: State) {
    |s.created| == |s.txs| && forall id: nat :: Places(s, id) == One(id < |s.txs|)
  }

  // ---------- changing one place ----------

  lemma TimesSnoc(ids: seq<nat>, x: nat, id: nat)
    ensures Times(ids + [x], id) == Times(ids, id) + One(x == id)
  {
    assert (ids + [x])[..|ids|] == ids;
  }

  lemma {:induction false} TimesSplit(ids: seq<nat>, n: nat, id: nat)
    requires n <= |ids|
    ensures Times(ids, id) == Times(ids[..n], id) + Times(ids[n..], id)
  {
    if n == |ids| {
      assert ids[..n] == ids;
    } else {
      var m := |ids| - 1;
      TimesSplit(ids[..m], n, id);
      assert ids[..m][..n] == ids[..n];
      assert ids[n..][..m - n] == ids[..m][n..];
    }
  }

  lemma TimesHead(ids: seq<nat>, n: nat, id: nat)
    requires n < |ids|
    ensures Times(ids[n..], id) == One(ids[n] == id) + Times(ids[n + 1..], id)
  {
    TimesSplit(ids[n..], 1, id);
    TimesSnoc([], ids[n], id);
    assert ids[n..][..1] == [] + [ids[n]];
    assert ids[n..][1..] == ids[n + 1..];
  }

  lemma {:induction false} TimesIsMultiplicity(ids: seq<nat>, id: nat)
    ensures Times(ids, id) == multiset(ids)[id]
  {
    if ids != [] {
      TimesIsMultiplicity(ids[..|ids| - 1], id);
      LastInBag(ids, |ids| - 1);
    }
  }

  lemma {:induction false} TimesIn(ids: seq<nat>, id: nat)
    ensures id in ids <==> Times(ids, id) > 0
  {
    TimesIsMultiplicity(ids, id);
    assert id in multiset(ids) <==> id in ids;
  }

  lemma {:induction false} HandChanges(hands: seq<Hand>, w: nat, h: Hand, id: nat)
    requires w < |hands|
    ensures InHands(hands[w := h], id) + One(Holds(hands[w], id)) == InHands(hands, id) + One(Holds(h, id))
  {
    var n := |hands| - 1;
    if w < n {
      HandChanges(hands[..n], w, h, id);
      assert hands[w := h][..n] == hands[..n][w := h];
    } else {
      assert hands[w := h][..n] == hands[..n];
    }
  }

  lemma {:induction false} HeldInHands(hands: seq<Hand>, w: nat, id: nat)
    requires w < |hands| && Holds(hands[w], id)
    ensures InHands(hands, id) >= 1
  {
    if w < |hands| - 1 {
      HeldInHands(hands[..|hands| - 1], w, id);
    }
  }

  lemma {:induction false} HeldTwice(hands: seq<Hand>, w: nat, v: nat, id: nat)
    requires w < v < |hands| && Holds(hands[w], id) && Holds(hands[v], id)
    ensures InHands(hands, id) >= 2
  {
    if v < |hands| - 1 {
      HeldTwice(hands[..|hands| - 1], w, v, id);
    } else {
      HeldInHands(hands[..v], w, id);
    }
  }

  lemma LeftOneMore(gone: seq<Departure>, d: Departure, id: nat)
    ensures Left(gone + [d], id) == Left(gone, id) + One(d.id == id)
  {
    assert (gone + [d])[..|gone|] == gone;
  }

  lemma {:induction false} LeftMore(gone: seq<Departure>, ids: seq<nat>, reason: Reason, id: nat)
    ensures Left(gone + Departures(ids, reason), id) == Left(gone, id) + Times(ids, id)
  {
    if ids == [] {
      assert gone + [] == gone;
    } else {
      var n := |ids| - 1;
      var last := Departure(ids[n], reason);
      var most := gone + Departures(ids[..n], reason);
      LeftMore(gone, ids[..n], reason, id);
      LeftOneMore(most, last, id);
      assert gone + Departures(ids, reason) == most + [last];
    }
  }

  lemma {:induction false} NoHands(hands: seq<Hand>, id: nat)
    requires forall i :: 0 <= i < |hands| ==> hands[i] == Free
    ensures InHands(hands, id) == 0
  {
    if hands != [] {
      NoHands(hands[..|hands| - 1], id);
    }
  }

  // ---------- every step keeps it ----------

  lemma InitConserved(cfg: Config, start: real)
    ensures Conserved(Init(cfg, start))
  {
    forall id: nat ensures Places(Init(cfg, start), id) == 0 {
      NoHands(Init(cfg, start).hands, id);
    }
  }

  lemma SubmitPlaces(s: State, kind: Payload, id: nat)
    ensures Places(DoSubmit(s, kind), id) == Places(s, id) + One(id == |s.txs|)
  {
    LeftOneMore(s.gone, Departure(|s.txs|, InputFull), id);
    TimesSnoc(s.input, |s.txs|, id);
  }

  lemma TakePlaces(s: State, w: nat, cfg: Config, id: nat)
    requires Enabled(s, Take(w))
    ensures Places(Apply(s, Take(w), cfg), id) == Places(s, id)
  {
    TimesHead(s.input, 0, id);
    assert s.input[0..] == s.input;
    HandChanges(s.hands, w, Holding(s.input[0]), id);
  }

  lemma DepartPlaces(s: State, w: nat, h: Hand, d: Departure, id: nat)
    requires w < |s.hands| && (Holds(s.hands[w], id) <==> d.id == id) && !Holds(h, id)
    ensures InHands(s.hands[w := h], id) + Left(s.gone + [d], id) == InHands(s.hands, id) + Left(s.gone, id)
  {
    HandChanges(s.hands, w, h, id);
    LeftOneMore(s.gone, d, id);
  }

  lemma PutRetryPlaces(s: State, w: nat, id: nat)
    requires Enabled(s, PutRetry(w))
    ensures Places(DoPutRetry(s, w), id) == Places(s, id)
  {
    if |s.retry| < QUEUES_SIZE {
      HandChanges(s.hands, w, Counting(TransactionsRescheduled), id);
      TimesSnoc(s.retry, s.hands[w].id, id);
    } else {
      DepartPlaces(s, w, Counting(QueueFullErrors), Departure(s.hands[w].id, RetryFull), id);
    }
  }

  lemma RetryGetPlaces(s: State, id: nat)
    requires Enabled(s, RetryGet)
    ensures Places(DoRetryGet(s), id) == Places(s, id)
  {
    if s.retry != [] {
      TimesHead(s.retry, 0, id);
      assert s.retry[0..] == s.retry;
      TimesSnoc(s.list, s.retry[0], id);
    }
  }

  lemma RetryCheckPlaces(s: State, cfg: Config, id: nat)
    requires Enabled(s, RetryCheck)
    ensures Places(DoRetryCheck(s, cfg), id) == Places(s, id)
  {
    var all := NewestFirst(AgeIn(s.created), s.list);
    NewestFirstSorts(AgeIn(s.created), s.list);
    TimesIsMultiplicity(s.list, id);
    TimesIsMultiplicity(all, id);
    assert all[0..] == all;
  }

  lemma RetryOfferPlaces(s: State, id: nat)
    requires Enabled(s, RetryOffer)
    ensures Places(DoRetryOffer(s), id) == Places(s, id)
  {
    hide Times, TxAt, NotDue;
    var x := s.phase.all[s.phase.i];
    TimesHead(s.phase.all, s.phase.i, id);
    if NotDue(TxAt(s.txs, x), s.phase.now) {
      TimesSnoc(s.phase.keep, x, id);
    } else if |s.input| < QUEUES_SIZE {
      TimesSnoc(s.input, x, id);
    } else {
      LeftOneMore(s.gone, Departure(x, InputFullAgain), id);
    }
  }

  lemma RetryEndPlaces(s: State, cfg: Config, id: nat)
    requires Enabled(s, RetryEnd)
    ensures Places(DoRetryEnd(s, cfg), id) == Places(s, id)
  {
    var keep := s.phase.keep;
    var kept := Prefix(keep, cfg.retryQueueMaxSize);
    TimesSplit(keep, |kept|, id);
    LeftMore(s.gone, keep[|kept|..], Truncated, id);
  }

  lemma StepPlaces(s: State, step: Step, cfg: Config, id: nat)
    requires Enabled(s, step)
    ensures Places(Apply(s, step, cfg), id) == Places(s, id) + One(step.Submit? && id == |s.txs|)
  {
    match step
    case Tick(_) =>
    case Submit(kind) => SubmitPlaces(s, kind, id);
    case Take(w) => TakePlaces(s, w, cfg, id);
    case Begin(w) => HandChanges(s.hands, w, Processing(s.hands[w].id), id);
    case Succeed(w) => DepartPlaces(s, w, Counting(TransactionsSuccess), Departure(s.hands[w].id, Done), id);
    case Fail(w) => HandChanges(s.hands, w, Failed(s.hands[w].id), id);
    case Crash(w) => DepartPlaces(s, w, Free, Departure(s.hands[w].id, Crashed), id);
    case PutRetry(w) => PutRetryPlaces(s, w, id);
    case Count(w) => HandChanges(s.hands, w, Free, id);
    case RetryGet => RetryGetPlaces(s, id);
    case RetryCheck => RetryCheckPlaces(s, cfg, id);
    case RetryOffer => RetryOfferPlaces(s, id);
    case RetryEnd => RetryEndPlaces(s, cfg, id);
  }

  lemma StepCreates(s: State, step: Step, cfg: Config)
    requires Enabled(s, step)
    ensures |Apply(s, step, cfg).txs| == |s.txs| + One(step.Submit?)
    ensures |Apply(s, step, cfg).created| == |s.created| + One(step.Submit?)
  {
  }

  lemma StepConserves(s: State, step: Step, cfg: Config)
    requires Conserved(s) && Enabled(s, step)
    ensures Conserved(Apply(s, step, cfg))
  {
    StepCreates(s, step, cfg);
    var s' := Apply(s, step, cfg);
    forall id: nat ensures Places(s', id) == One(id < |s'.txs|) {
      StepPlaces(s, step, cfg, id);
    }
  }

  /** In every interleaving nothing is lost and nothing is duplicated. */
  lemma {:induction false} RunConserves(s: State, steps: seq<Step>, cfg: Config)
    requires Conserved(s) && IsRun(s, steps, cfg)
    ensures Conserved(After(s, steps, cfg))
    decreases |steps|
  {
    if steps != [] {
      StepConserves(s, steps[0], cfg);
      RunConserves(Apply(s, steps[0], cfg), steps[1..], cfg);
    }
  }

  // ---------- what that means ----------

  lemma OnlyPlace(s: State, id: nat)
    requires Conserved(s)
    ensures Places(s, id) == One(id < |s.txs|)
  {
  }

  /** No two workers have the same transaction. */
  lemma NoTwoWorkers(s: State, w: nat, v: nat, id: nat)
    requires Conserved(s) && w < v < |s.hands| && Holds(s.hands[w], id)
    ensures !Holds(s.hands[v], id)
  {
    if Holds(s.hands[v], id) {
      HeldTwice(s.hands, w, v, id);
      OnlyPlace(s, id);
    }
  }

  lemma {:induction false} DepartedLeft(gone: seq<Departure>, d: Departure)
    requires d in gone
    ensures Left(gone, d.id) >= 1
  {
    if d != gone[|gone| - 1] {
      DepartedLeft(gone[..|gone| - 1], d);
    }
  }

  /** A worker's transaction exists, and is nowhere else. */
  lemma HeldExist(s: State, w: nat, id: nat)
    requires Conserved(s) && w < |s.hands| && Holds(s.hands[w], id)
    ensures id < |s.txs| && id !in s.input && id !in s.retry && InList(s.list, s.phase, id) == 0 && Left(s.gone, id) == 0
  {
    HeldInHands(s.hands, w, id);
    TimesIn(s.input, id);
    TimesIn(s.retry, id);
    OnlyPlace(s, id);
  }

  /** A transaction that left exists, and no worker has it. */
  lemma DepartedExist(s: State, d: Departure, w: nat)
    requires Conserved(s) && d in s.gone && w < |s.hands|
    ensures d.id < |s.txs| && !Holds(s.hands[w], d.id)
  {
    DepartedLeft(s.gone, d);
    OnlyPlace(s, d.id);
    if Holds(s.hands[w], d.id) {
      HeldInHands(s.hands, w, d.id);
    }
  }

  lemma StepKeepsGone(s: State, step: Step, cfg: Config)
    requires Enabled(s, step)
    ensures s.gone <= Apply(s, step, cfg).gone
  {
  }

  /** Only the worker that has a transaction changes it. */
  lemma StepChangesHeld(s: State, step: Step, cfg: Config, id: nat)
    requires Enabled(s, step) && id < |s.txs|
    requires (step.Begin? || step.Fail?) ==> !Holds(s.hands[step.w], id)
    ensures id < |Apply(s, step, cfg).txs| && Apply(s, step, cfg).txs[id] == s.txs[id]
  {
  }

  lemma StepKeepsDeparted(s: State, step: Step, cfg: Config, d: Departure)
    requires Conserved(s) && Enabled(s, step) && d in s.gone && d.id < |s.txs|
    ensures d in Apply(s, step, cfg).gone
    ensures d.id < |Apply(s, step, cfg).txs| && Apply(s, step, cfg).txs[d.id] == s.txs[d.id]
  {
    if step.Begin? || step.Fail? {
      DepartedExist(s, d, step.w);
    }
    StepKeepsGone(s, step, cfg);
    StepChangesHeld(s, step, cfg, d.id);
  }

  /** Once `process` returned True, or a transaction was dropped, it is never attempted or rescheduled again. */
  lemma {:induction false} DepartedForGood(s: State, steps: seq<Step>, cfg: Config, d: Departure)
    requires Conserved(s) && IsRun(s, steps, cfg) && d in s.gone && d.id < |s.txs|
    ensures d in After(s, steps, cfg).gone
    ensures d.id < |After(s, steps, cfg).txs| && After(s, steps, cfg).txs[d.id] == s.txs[d.id]
    decreases |steps|
  {
    if steps != [] {
      StepConserves(s, steps[0], cfg);
      StepKeepsDeparted(s, steps[0], cfg, d);
      DepartedForGood(Apply(s, steps[0], cfg), steps[1..], cfg, d);
    }
  }
}
