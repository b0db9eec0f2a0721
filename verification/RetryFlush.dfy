// The flush of the retry list while workers and the submitter go on.
module RetryFlush {
  import opened Prelude
  import opened Newest
  import opened Workers
  import opened RetryProtocol
  import opened RetryConservation

  /** What is left to look at is still due or not due as it was when the flush began. */
  ghost predicate MarkedFrom(ids: seq<nat>, i: nat, txs: seq<Tx>, now: real, late: set<nat>) {
    forall j :: i <= j < |ids| ==> (ids[j] in late <==> NotDue(TxAt(txs, ids[j]), now))
  }

  ghost predicate FlushFine(s: State) {
    s.phase.Flushing? ==>
      var f := s.phase;
      && f.i <= |f.all|
      && (forall j :: 0 <= j < |f.all| ==> f.all[j] < |s.created|)
      && IsNewestFirst(AgeIn(s.created), f.all)
      && f.keep == Waiting(f.all[..f.i], f.late)
      && MarkedFrom(f.all, f.i, s.txs, f.now, f.late)
  }

  lemma OlderKeepAge(ids: seq<nat>, created: seq<real>, more: real)
    requires IsNewestFirst(AgeIn(created), ids) && forall j :: 0 <= j < |ids| ==> ids[j] < |created|
    ensures IsNewestFirst(AgeIn(created + [more]), ids)
  {
    forall i, j | 0 <= i < j < |ids| ensures AgeIn(created + [more])(ids[i]) >= AgeIn(created + [more])(ids[j]) {
      assert AgeIn(created)(ids[i]) >= AgeIn(created)(ids[j]);
    }
  }

  lemma InRest(ids: seq<nat>, i: nat, j: nat)
    requires i <= j < |ids|
    ensures Times(ids[i..], ids[j]) > 0
  {
    assert ids[j] == ids[i..][j - i];
    TimesIn(ids[i..], ids[j]);
  }

  /** A worker never changes what the flush has not looked at. */
  lemma WorkerKeepsMarks(s: State, step: Step, cfg: Config, j: nat)
    requires Conserved(s) && Enabled(s, step) && (step.Begin? || step.Fail?)
    requires s.phase.Flushing? && s.phase.i <= j < |s.phase.all|
    ensures TxAt(Apply(s, step, cfg).txs, s.phase.all[j]) == TxAt(s.txs, s.phase.all[j])
  {
    InRest(s.phase.all, s.phase.i, j);
    HeldExist(s, step.w, s.hands[step.w].id);
  }

  lemma WorkerKeepsFlush(s: State, step: Step, cfg: Config)
    requires Conserved(s) && FlushFine(s) && Enabled(s, step) && (step.Begin? || step.Fail?)
    ensures FlushFine(Apply(s, step, cfg))
  {
    if s.phase.Flushing? {
      forall j | s.phase.i <= j < |s.phase.all|
        ensures TxAt(Apply(s, step, cfg).txs, s.phase.all[j]) == TxAt(s.txs, s.phase.all[j])
      {
        WorkerKeepsMarks(s, step, cfg, j);
      }
    }
  }

  lemma SubmitKeepsFlush(s: State, kind: Payload)
    requires Conserved(s) && FlushFine(s)
    ensures FlushFine(DoSubmit(s, kind))
  {
    if s.phase.Flushing? {
      OlderKeepAge(s.phase.all, s.created, s.clock);
    }
  }

  lemma ListExists(s: State, id: nat)
    requires Conserved(s) && !s.phase.Flushing? && id in s.list
    ensures id < |s.txs|
  {
    TimesIn(s.list, id);
    OnlyPlace(s, id);
  }

  lemma FlushStarts(s: State, cfg: Config)
    requires Conserved(s) && Enabled(s, RetryCheck)
    ensures FlushFine(DoRetryCheck(s, cfg))
  {
    var all := NewestFirst(AgeIn(s.created), s.list);
    var late := LateAmong(s.list, s.txs, s.clock);
    NewestFirstSorts(AgeIn(s.created), s.list);
    forall j | 0 <= j < |all|
      ensures all[j] < |s.created| && (all[j] in late <==> NotDue(TxAt(s.txs, all[j]), s.clock))
    {
      assert all[j] in multiset(all);
      ListExists(s, all[j]);
    }
    assert all[..0] == [];
  }

  lemma OfferKeepsFlush(s: State)
    requires FlushFine(s) && Enabled(s, RetryOffer)
    ensures FlushFine(DoRetryOffer(s))
  {
    WaitingNext(s.phase.all, s.phase.i, s.phase.late);
  }

  lemma StepKeepsFlush(s: State, step: Step, cfg: Config)
    requires Conserved(s) && FlushFine(s) && Enabled(s, step)
    ensures FlushFine(Apply(s, step, cfg))
  {
    match step
    case Submit(kind) => SubmitKeepsFlush(s, kind);
    case Begin(w) => WorkerKeepsFlush(s, step, cfg);
    case Fail(w) => WorkerKeepsFlush(s, step, cfg);
    case RetryCheck => FlushStarts(s, cfg);
    case RetryOffer => OfferKeepsFlush(s);
    case _ =>
  }

  // ---------- a flush among the steps of the others ----------

  /** The retry worker finds that a flush is due and that there is something in its list. */
  predicate Begins(s: State) {
    s.phase.Checking? && s.flushTime <= s.clock && s.list != []
  }

  ghost function Listed(s: State): set<nat> {
    set id | id in s.list
  }

  ghost function SortedList(s: State): seq<nat> {
    NewestFirst(AgeIn(s.created), s.list)
  }

  ghost function LateInList(s: State): set<nat> {
    LateAmong(s.list, s.txs, s.clock)
  }

  /** `s` is in the flush that began at `s0`, `i` transactions far. */
  ghost predicate InFlushOf(s0: State, s: State) {
    && s.phase.Flushing? && s.phase.all == SortedList(s0) && s.phase.late == LateInList(s0) && s.phase.i <= |s.phase.all|
    && Conserved(s) && FlushFine(s) && |s0.txs| <= |s.txs|
  }

  /** Nothing was taken from the input queue since the flush began: the due ones so far are there in their order, and
      only once it is full are they dropped. */
  ghost predicate InputHolds(input: seq<nat>, gone: seq<Departure>, due: seq<nat>, listed: set<nat>) {
    var accepted := Waiting(input, listed);
    && |accepted| <= |due| && accepted == due[..|accepted|]
    && (|accepted| < |due| ==> |input| >= QUEUES_SIZE)
    && forall j :: |accepted| <= j < |due| ==> Departure(due[j], InputFullAgain) in gone
  }

  lemma StepStaysInFlush(s0: State, s: State, step: Step, cfg: Config)
    requires InFlushOf(s0, s) && Enabled(s, step) && !step.RetryEnd?
    ensures InFlushOf(s0, Apply(s, step, cfg))
  {
    StepKeepsFlush(s, step, cfg);
    StepConserves(s, step, cfg);
    StepKeepsPhase(s, step, cfg);
  }

  lemma StepKeepsPhase(s: State, step: Step, cfg: Config)
    requires s.phase.Flushing? && s.phase.i <= |s.phase.all| && Enabled(s, step) && !step.RetryEnd?
    ensures var s' := Apply(s, step, cfg);
            && s'.phase.Flushing? && s'.phase.all == s.phase.all && s'.phase.late == s.phase.late
            && s'.phase.i == (if step.RetryOffer? then s.phase.i + 1 else s.phase.i) && |s.txs| <= |s'.txs|
  {
  }

  lemma WaitingSnoc(ids: seq<nat>, id: nat, among: set<nat>)
    ensures Waiting(ids + [id], among) == Waiting(ids, among) + if id in among then [id] else []
  {
    assert (ids + [id])[..|ids|] == ids;
  }

  /** Any other step but a Take leaves the input queue as it is, or adds a transaction that is new. */
  lemma StepKeepsInput(s: State, step: Step, cfg: Config, due: seq<nat>, listed: set<nat>)
    requires Enabled(s, step) && s.phase.Flushing? && !step.Take? && !step.RetryEnd? && !step.RetryOffer?
    requires InputHolds(s.input, s.gone, due, listed) && |s.txs| !in listed
    ensures InputHolds(Apply(s, step, cfg).input, Apply(s, step, cfg).gone, due, listed)
  {
    hide Waiting;
    var s' := Apply(s, step, cfg);
    assert forall d :: d in s.gone ==> d in s'.gone;
    if step.Submit? && |s.input| < QUEUES_SIZE {
      WaitingSnoc(s.input, |s.txs|, listed);
    }
  }

  lemma OfferHoldsInput(s: State, due: seq<nat>, listed: set<nat>)
    requires Enabled(s, RetryOffer) && s.phase.all[s.phase.i] in listed
    requires InputHolds(s.input, s.gone, due, listed)
    ensures var id := s.phase.all[s.phase.i];
            InputHolds(DoRetryOffer(s).input, DoRetryOffer(s).gone,
                       due + (if NotDue(TxAt(s.txs, id), s.phase.now) then [] else [id]), listed)
  {
    hide Waiting, NotDue, TxAt;
    var id := s.phase.all[s.phase.i];
    if NotDue(TxAt(s.txs, id), s.phase.now) {
      assert due + [] == due;
    } else {
      WaitingSnoc(s.input, id, listed);
    }
  }

  ghost predicate Untaken(s0: State, s: State) {
    InFlushOf(s0, s) && InputHolds(s.input, s.gone, Due(s.phase.all[..s.phase.i], s.phase.late), Listed(s0))
  }

  lemma SortedIsListed(s: State, i: nat)
    requires i < |SortedList(s)|
    ensures SortedList(s)[i] in Listed(s)
  {
    NewestFirstSorts(AgeIn(s.created), s.list);
    assert SortedList(s)[i] in multiset(SortedList(s));
  }

  lemma NewIsUnlisted(s0: State, s: State)
    requires Conserved(s0) && !s0.phase.Flushing? && InFlushOf(s0, s)
    ensures |s.txs| !in Listed(s0)
  {
    if |s.txs| in s0.list {
      ListExists(s0, |s.txs|);
    }
  }

  lemma StepStaysUntaken(s0: State, s: State, step: Step, cfg: Config)
    requires Conserved(s0) && !s0.phase.Flushing? && Untaken(s0, s) && Enabled(s, step) && !step.Take? && !step.RetryEnd?
    ensures Untaken(s0, Apply(s, step, cfg))
  {
    hide Conserved, FlushFine, InputHolds, Due, SortedList, LateInList, Listed;
    StepStaysInFlush(s0, s, step, cfg);
    StepKeepsPhase(s, step, cfg);
    if step.RetryOffer? {
      SortedIsListed(s0, s.phase.i);
      OfferPhase(s);
      OfferHoldsInput(s, Due(s.phase.all[..s.phase.i], s.phase.late), Listed(s0));
      WaitingNext(s.phase.all, s.phase.i, s.phase.late);
    } else {
      NewIsUnlisted(s0, s);
      StepKeepsInput(s, step, cfg, Due(s.phase.all[..s.phase.i], s.phase.late), Listed(s0));
    }
  }

  lemma {:induction false} RunStaysInFlush(s0: State, s: State, steps: seq<Step>, cfg: Config)
    requires Conserved(s0) && !s0.phase.Flushing? && InFlushOf(s0, s) && IsRun(s, steps, cfg) && RetryEnd !in steps
    ensures InFlushOf(s0, After(s, steps, cfg))
    ensures Untaken(s0, s) && (forall step :: step in steps ==> !step.Take?) ==> Untaken(s0, After(s, steps, cfg))
    decreases |steps|
  {
    hide InFlushOf, Untaken, Conserved;
    if steps != [] {
      assert steps[0] in steps;
      StepStaysInFlush(s0, s, steps[0], cfg);
      if Untaken(s0, s) && !steps[0].Take? {
        StepStaysUntaken(s0, s, steps[0], cfg);
      }
      RunStaysInFlush(s0, Apply(s, steps[0], cfg), steps[1..], cfg);
    }
  }

  /** In the input queue there is none of the list. */
  lemma {:induction false} NoneListed(ids: seq<nat>, listed: set<nat>)
    requires forall id :: id in ids ==> id !in listed
    ensures Waiting(ids, listed) == []
  {
    if ids != [] {
      NoneListed(ids[..|ids| - 1], listed);
    }
  }

  lemma FlushBegins(s: State, cfg: Config)
    requires Conserved(s) && Begins(s)
    ensures Enabled(s, RetryCheck) && Untaken(s, DoRetryCheck(s, cfg))
  {
    hide Conserved, FlushFine, NewestFirst, LateAmong;
    FlushStarts(s, cfg);
    StepConserves(s, RetryCheck, cfg);
    forall id | id in s.input ensures id !in Listed(s) {
      InputIsUnlisted(s, id);
    }
    NoneListed(s.input, Listed(s));
    assert SortedList(s)[..0] == [];
  }

  lemma InputIsUnlisted(s: State, id: nat)
    requires Conserved(s) && !s.phase.Flushing? && id in s.input
    ensures id !in s.list
  {
    TimesIn(s.input, id);
    TimesIn(s.list, id);
    OnlyPlace(s, id);
  }

  /** Whatever the others do during a flush, it ends with the newest of those that were not due when it began, at most
      the configured number; what it truncates is no newer.  If meanwhile nothing is taken from the input queue, then
      of those that were due the newest are put there, in that order, until it is full; the rest is dropped. */
  lemma FlushKeepsTheNewest(s0: State, steps: seq<Step>, cfg: Config, i: nat, j: nat)
    requires Conserved(s0) && Begins(s0)
    requires IsRun(DoRetryCheck(s0, cfg), steps, cfg) && RetryEnd !in steps
    requires Enabled(After(DoRetryCheck(s0, cfg), steps, cfg), RetryEnd)
    ensures var s := After(DoRetryCheck(s0, cfg), steps, cfg);
            var waiting := Waiting(SortedList(s0), LateInList(s0));
            var s' := DoRetryEnd(s, cfg);
            && s'.list == Prefix(waiting, cfg.retryQueueMaxSize)
            && |s'.list| <= cfg.retryQueueMaxSize
            && s'.gone == s.gone + Departures(waiting[|s'.list|..], Truncated)
            && (i < |s'.list| <= j < |waiting| ==> AgeIn(s0.created)(s'.list[i]) >= AgeIn(s0.created)(waiting[j]))
            && ((forall step :: step in steps ==> !step.Take?) ==>
                  InputHolds(s'.input, s'.gone, Due(SortedList(s0), LateInList(s0)), Listed(s0)))
  {
    hide Conserved, InFlushOf, InputHolds, NewestFirst, LateInList, SortedList;
    FlushBegins(s0, cfg);
    UntakenIsInFlush(s0, DoRetryCheck(s0, cfg));
    RunStaysInFlush(s0, DoRetryCheck(s0, cfg), steps, cfg);
    var s := After(DoRetryCheck(s0, cfg), steps, cfg);
    EndOfFlush(s0, s, cfg);
    ListIsSorted(s0);
    if i < |DoRetryEnd(s, cfg).list| <= j < |Waiting(SortedList(s0), LateInList(s0))| {
      PrefixIsNewest(AgeIn(s0.created), Waiting(SortedList(s0), LateInList(s0)), cfg.retryQueueMaxSize, i, j);
    }
  }

  lemma UntakenIsInFlush(s0: State, s: State)
    requires Untaken(s0, s)
    ensures InFlushOf(s0, s)
  {
  }

  lemma ListIsSorted(s: State)
    ensures IsNewestFirst(AgeIn(s.created), Waiting(SortedList(s), LateInList(s)))
  {
    NewestFirstSorts(AgeIn(s.created), s.list);
    WaitingKeepsOrder(AgeIn(s.created), SortedList(s), LateInList(s));
  }

  lemma EndOfFlush(s0: State, s: State, cfg: Config)
    requires InFlushOf(s0, s) && Enabled(s, RetryEnd)
    ensures var waiting := Waiting(SortedList(s0), LateInList(s0));
            var s' := DoRetryEnd(s, cfg);
            && s'.list == Prefix(waiting, cfg.retryQueueMaxSize)
            && s'.gone == s.gone + Departures(waiting[|s'.list|..], Truncated)
            && (Untaken(s0, s) ==> InputHolds(s'.input, s'.gone, Due(SortedList(s0), LateInList(s0)), Listed(s0)))
  {
    hide Conserved, NewestFirst, LateAmong, Waiting, Due, Departures;
    assert s.phase.all[..|s.phase.all|] == s.phase.all;
    assert forall d :: d in s.gone ==> d in DoRetryEnd(s, cfg).gone;
  }

  // ---------- a flush without interruption ----------

  function Offers(s: State, n: nat): State
    requires s.phase.Flushing? && s.phase.i + n <= |s.phase.all|
    decreases n
  {
    if n == 0 then s else Offers(DoRetryOffer(s), n - 1)
  }

  /** Turns of the loop from turn `i` on, when `input` holds what fits of the due ones so far. */
  lemma {:induction false} OffersInOrder(s: State, n: nat, before: seq<nat>)
    requires FlushFine(s) && s.phase.Flushing? && s.phase.i + n == |s.phase.all| && |before| <= QUEUES_SIZE
    requires s.input == before + Prefix(Due(s.phase.all[..s.phase.i], s.phase.late), QUEUES_SIZE - |before|)
    ensures var s' := Offers(s, n);
            && s'.phase == s.phase.(i := |s.phase.all|, keep := Waiting(s.phase.all, s.phase.late))
            && s'.input == before + Prefix(Due(s.phase.all, s.phase.late), QUEUES_SIZE - |before|)
    decreases n
  {
    hide DoRetryOffer, Due, Waiting, Prefix, NotDue, TxAt, IsNewestFirst, MarkedFrom;
    if n == 0 {
      assert s.phase.all[..s.phase.i] == s.phase.all;
    } else {
      OfferInOrder(s, before);
      OffersInOrder(DoRetryOffer(s), n - 1, before);
    }
  }

  lemma OfferInOrder(s: State, before: seq<nat>)
    requires FlushFine(s) && Enabled(s, RetryOffer) && |before| <= QUEUES_SIZE
    requires s.input == before + Prefix(Due(s.phase.all[..s.phase.i], s.phase.late), QUEUES_SIZE - |before|)
    ensures var s' := DoRetryOffer(s);
            && FlushFine(s')
            && s'.phase == s.phase.(i := s.phase.i + 1, keep := s'.phase.keep)
            && s'.input == before + Prefix(Due(s'.phase.all[..s'.phase.i], s.phase.late), QUEUES_SIZE - |before|)
  {
    WaitingNext(s.phase.all, s.phase.i, s.phase.late);
    OfferKeepsFlush(s);
    OfferPhase(s);
    OfferAddsNext(s, before, Due(s.phase.all[..s.phase.i], s.phase.late));
  }

  lemma OfferPhase(s: State)
    requires FlushFine(s) && Enabled(s, RetryOffer)
    ensures var f := DoRetryOffer(s).phase;
            && f.Flushing? && f.all == s.phase.all && f.now == s.phase.now && f.late == s.phase.late && f.i == s.phase.i + 1
    ensures NotDue(TxAt(s.txs, s.phase.all[s.phase.i]), s.phase.now) <==> s.phase.all[s.phase.i] in s.phase.late
  {
  }

  lemma OfferAddsNext(s: State, before: seq<nat>, due: seq<nat>)
    requires Enabled(s, RetryOffer) && |before| <= QUEUES_SIZE
    requires s.input == before + Prefix(due, QUEUES_SIZE - |before|)
    ensures var id := s.phase.all[s.phase.i];
            DoRetryOffer(s).input ==
              before + Prefix(due + (if NotDue(TxAt(s.txs, id), s.phase.now) then [] else [id]), QUEUES_SIZE - |before|)
  {
    var id := s.phase.all[s.phase.i];
    if NotDue(TxAt(s.txs, id), s.phase.now) {
      assert due + [] == due;
    } else if |s.input| < QUEUES_SIZE {
      assert before + (due + [id]) == (before + due) + [id];
    } else {
      assert Prefix(due + [id], QUEUES_SIZE - |before|) == Prefix(due, QUEUES_SIZE - |before|);
    }
  }

  lemma FlushBegun(s: State, cfg: Config)
    requires Conserved(s) && |s.input| <= QUEUES_SIZE
    requires s.phase.Checking? && s.flushTime <= s.clock && s.list != []
    ensures var s1 := DoRetryCheck(s, cfg);
            && FlushFine(s1) && s1.input == s.input && |NewestFirst(AgeIn(s.created), s.list)| == |s.list|
            && s1.phase
               == Flushing(NewestFirst(AgeIn(s.created), s.list), 0, [], s.clock, LateAmong(s.list, s.txs, s.clock))
            && s1.input == s.input + Prefix(Due(s1.phase.all[..0], s1.phase.late), QUEUES_SIZE - |s.input|)
  {
    hide Conserved, FlushFine, NotDue, TxAt, Waiting;
    var sorted := NewestFirst(AgeIn(s.created), s.list);
    NewestFirstSorts(AgeIn(s.created), s.list);
    assert |sorted| == |multiset(sorted)| == |multiset(s.list)|;
    FlushStarts(s, cfg);
    assert sorted[..0] == [];
    assert s.input + [] == s.input;
  }

  /** The protocol's flush, taken without interruption, does what RetryWorker.FlushTransactions promises when
      the other threads are still. */
  lemma UninterruptedFlush(s: State, cfg: Config)
    requires Conserved(s) && |s.input| <= QUEUES_SIZE
    requires s.phase.Checking? && s.flushTime <= s.clock && s.list != []
    ensures var sorted := NewestFirst(AgeIn(s.created), s.list);
            var late := LateAmong(s.list, s.txs, s.clock);
            var s1 := DoRetryCheck(s, cfg);
            && s1.phase.Flushing? && s1.phase.i == 0 && |s1.phase.all| == |s.list|
            && var s2 := Offers(s1, |s.list|);
               && Enabled(s2, RetryEnd)
               && var s3 := DoRetryEnd(s2, cfg);
                  && s3.list == Prefix(Waiting(sorted, late), cfg.retryQueueMaxSize)
                  && s3.input == s.input + Prefix(Due(sorted, late), QUEUES_SIZE - |s.input|)
  {
    hide Conserved, FlushFine, NotDue, TxAt, DoRetryOffer, DoRetryCheck, Prefix, LateAmong;
    FlushBegun(s, cfg);
    OffersInOrder(DoRetryCheck(s, cfg), |s.list|, s.input);
  }
}
