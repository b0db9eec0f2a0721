// The forwarder's transactions, bounded queues and workers, one call at a time.
module Workers {
  import opened Prelude
  import opened Newest

  const RETRY_INTERVAL := 5
  const MAX_RETRY_INTERVAL := 90
  const QUEUES_SIZE := 100

  // ---------- transactions ----------

  /** What the POST comes to: an exception that is caught around it, a status code, or an exception that gets out. */
  datatype Response = NetworkError | Status(code: int) | Unexpected

  /** The codes for which a payload is given up instead of being sent again. */
  predicate GivesUp(code: int) {
    code == 400 || code == 403 || code == 404 || code == 413
  }

  predicate AsksAgain(response: Response) {
    response.NetworkError? || (response.Status? && response.code >= 400 && !GivesUp(response.code))
  }

  /** `min(nb_try * 5, 90)` */
  function RetryDelay(tries: nat): nat {
    Min(tries * RETRY_INTERVAL, MAX_RETRY_INTERVAL)
  }

  /** `t.next_flush and t.next_flush > now` */
  predicate StillWaits(nextFlush: Option<real>, now: real) {
    nextFlush.Some? && nextFlush.value != 0.0 && nextFlush.value > now
  }

  class Transaction {
    const createdAt: real
    var nbTry: nat
    var nextFlush: Option<real>

    constructor (now: real)
      ensures createdAt == now && nbTry == 0 && nextFlush == None
    {
      createdAt := now;
      nbTry, nextFlush := 0, None;
    }

    /** One attempt; false asks for another one, and None stands for the exception. */
    method Process(response: Response) returns (success: Option<bool>)
      modifies this`nbTry
      ensures nbTry == old(nbTry) + 1
      ensures success == None <==> response.Unexpected?
      ensures success == Some(false)
         <==> response.NetworkError?
              || (response.Status? && response.code >= 400 && response.code !in {400, 403, 404, 413})
      ensures success == Some(false) <==> AsksAgain(response)
    {
      nbTry := nbTry + 1;
      match response
      case NetworkError =>
        return Some(false);
      case Status(code) =>
        if code == 400 || code == 404 || code == 413 {
        } else if code == 403 {
        } else if code >= 400 {
          return Some(false);
        }
        return Some(true);
      case Unexpected =>
        return None;
    }

    method Reschedule(now: real)
      modifies this`nextFlush
      ensures nextFlush == Some(now + (if 5 * nbTry <= 90 then 5 * nbTry else 90) as real)
      ensures nextFlush == Some(now + RetryDelay(nbTry) as real)
    {
      nextFlush := Some(now + RetryDelay(nbTry) as real);
    }

    predicate NotDue(now: real)
      reads this
    {
      StillWaits(nextFlush, now)
    }
  }

  // ---------- queues ----------

  class BoundedQueue {
    var items: seq<Transaction>

    ghost predicate Valid()
      reads this
    {
      |items| <= QUEUES_SIZE
    }

    constructor ()
      ensures Valid() && items == []
    {
      items := [];
    }

    /** `put_nowait`; false for `queue.Full`. */
    method PutNowait(t: Transaction) returns (ok: bool)
      requires Valid()
      modifies this
      ensures Valid() && ok == (|old(items)| < 100)
      ensures items == if ok then old(items) + [t] else old(items)
    {
      ok := |items| < QUEUES_SIZE;
      if ok {
        items := items + [t];
      }
    }

    /** `get`; None for `queue.Empty`. */
    method Get() returns (t: Option<Transaction>)
      requires Valid()
      modifies this
      ensures Valid()
      ensures old(items) == [] ==> t == None && items == []
      ensures old(items) != [] ==> t == Some(old(items)[0]) && items == old(items)[1..]
    {
      t := None;
      if items != [] {
        t := Some(items[0]);
        items := items[1..];
      }
    }
  }

  // ---------- one flush of the retry worker ----------

  /** The sort key. */
  function Created(t: Transaction): real {
    t.createdAt
  }

  /** The transactions not due at `now`. */
  ghost function NotDueAt(ts: seq<Transaction>, now: real): set<Transaction>
    reads ts
  {
    set t | t in ts && t.NotDue(now)
  }

  ghost predicate AreMarked(ts: seq<Transaction>, now: real, late: set<Transaction>)
    reads ts
  {
    forall t :: t in ts ==> (t.NotDue(now) <==> t in late)
  }

  lemma MarkedAfterSort(ts: seq<Transaction>, now: real)
    ensures AreMarked(NewestFirst(Created, ts), now, NotDueAt(ts, now))
  {
    NewestFirstSorts(Created, ts);
    forall t | t in NewestFirst(Created, ts) ensures t in ts {
      assert t in multiset(NewestFirst(Created, ts));
    }
  }

  /** What the other threads do to the input queue at one point: take that many from its front, and then put these. */
  datatype Others = Others(takes: nat, puts: seq<Transaction>)

  ghost predicate NobodyTakes(others: seq<Others>) {
    forall i :: 0 <= i < |others| ==> others[i].takes == 0
  }

  ghost predicate NobodyPuts(others: seq<Others>) {
    forall i :: 0 <= i < |others| ==> others[i].puts == []
  }

  /** An entry of the input queue, put there by the flush or by another thread. */
  datatype Put = Own(transaction: Transaction) | Other(transaction: Transaction)

  ghost function Transactions(puts: seq<Put>): seq<Transaction> {
    if puts == [] then [] else Transactions(puts[..|puts| - 1]) + [puts[|puts| - 1].transaction]
  }

  ghost function OwnOf(puts: seq<Put>): seq<Transaction> {
    if puts == [] then []
    else OwnOf(puts[..|puts| - 1]) + if puts[|puts| - 1].Own? then [puts[|puts| - 1].transaction] else []
  }

  lemma OnePutMore(puts: seq<Put>, more: Put)
    ensures Transactions(puts + [more]) == Transactions(puts) + [more.transaction]
    ensures OwnOf(puts + [more]) == OwnOf(puts) + if more.Own? then [more.transaction] else []
  {
    WithOneMore(puts, more);
  }

  ghost function AddOthers(puts: seq<Put>, ts: seq<Transaction>): (r: seq<Put>)
    ensures Transactions(r) == Transactions(puts) + ts && OwnOf(r) == OwnOf(puts)
  {
    if ts == [] then puts
    else
      var r := AddOthers(puts, ts[..|ts| - 1]) + [Other(ts[|ts| - 1])];
      OnePutMore(AddOthers(puts, ts[..|ts| - 1]), Other(ts[|ts| - 1]));
      r
  }

  /** What a flush makes of the list `ts` and the input queue `before`.  It keeps the newest of those not due, up to the
      maximum, and offers the due ones to the queue newest first; `puts` went into the queue meanwhile, its own and those
      of others, and `taken` left it.  While nobody takes, those it puts are the newest, and it drops only when the queue
      is full; while nobody puts either, the queue gets as many as fit. */
  ghost predicate Flushed(ts: seq<Transaction>, late: set<Transaction>, kept: seq<Transaction>, max: nat,
                          before: seq<Transaction>, queue: seq<Transaction>, taken: seq<Transaction>,
                          puts: seq<Put>, dropped: seq<Transaction>, untaken: bool, unput: bool)
    requires |before| <= QUEUES_SIZE
  {
    var sorted := NewestFirst(Created, ts);
    && kept == Prefix(Waiting(sorted, late), max)
    && Offered(Due(sorted, late), before, queue, taken, puts, dropped, untaken, unput)
    && (untaken && unput ==> queue == before + Prefix(Due(sorted, late), QUEUES_SIZE - |before|))
  }

  ghost predicate Offered(due: seq<Transaction>, before: seq<Transaction>, queue: seq<Transaction>, taken: seq<Transaction>,
                          puts: seq<Put>, dropped: seq<Transaction>, untaken: bool, unput: bool)
  {
    && multiset(due) == multiset(OwnOf(puts)) + multiset(dropped)
    && taken + queue == before + Transactions(puts)
    && (untaken ==> taken == [] && OwnOf(puts) <= due && (dropped != [] ==> |queue| >= QUEUES_SIZE))
    && (unput ==> Transactions(puts) == OwnOf(puts))
  }

  lemma NothingFlushed(late: set<Transaction>, max: nat, before: seq<Transaction>, untaken: bool, unput: bool)
    requires |before| <= QUEUES_SIZE
    ensures Flushed([], late, [], max, before, before, [], [], [], untaken, unput)
    ensures OwnOf([]) == []
  {
    assert before + [] == before && [] + before == before;
  }

  lemma OthersMoved(due: seq<Transaction>, start: seq<Transaction>, before: seq<Transaction>, queue: seq<Transaction>,
                    taken: seq<Transaction>, puts: seq<Put>, dropped: seq<Transaction>, untaken: bool, unput: bool,
                    gone: seq<Transaction>, more: seq<Transaction>)
    requires Offered(due, start, before, taken, puts, dropped, untaken, unput)
    requires gone + queue == before + more && (untaken ==> gone == []) && (unput ==> more == [])
    ensures Offered(due, start, queue, taken + gone, AddOthers(puts, more), dropped, untaken, unput)
  {
    hide Transactions, OwnOf, AddOthers;
    assert Transactions(puts) + [] == Transactions(puts);
    Associates(taken, gone, queue);
    Associates(taken, before, more);
    Associates(start, Transactions(puts), more);
    assert untaken ==> [] + queue == queue;
  }

  lemma OwnIsPut(due: seq<Transaction>, start: seq<Transaction>, before: seq<Transaction>, queue: seq<Transaction>,
                 taken: seq<Transaction>, puts: seq<Put>, dropped: seq<Transaction>, untaken: bool, unput: bool,
                 t: Transaction)
    requires Offered(due, start, before, taken, puts, dropped, untaken, unput)
    requires queue == before + [t] && |before| < QUEUES_SIZE
    ensures Offered(due + [t], start, queue, taken, puts + [Own(t)], dropped, untaken, unput)
  {
    hide Transactions, OwnOf;
    OnePutMore(puts, Own(t));
    Associates(taken, before, [t]);
    Associates(start, Transactions(puts), [t]);
    if untaken {
      assert |multiset(due)| == |multiset(OwnOf(puts))|;
    }
  }

  lemma OwnIsDropped(due: seq<Transaction>, start: seq<Transaction>, queue: seq<Transaction>, taken: seq<Transaction>,
                     puts: seq<Put>, dropped: seq<Transaction>, untaken: bool, unput: bool, t: Transaction)
    requires Offered(due, start, queue, taken, puts, dropped, untaken, unput) && |queue| >= QUEUES_SIZE
    ensures Offered(due + [t], start, queue, taken, puts, dropped + [t], untaken, unput)
  {
    hide Transactions, OwnOf;
  }

  lemma AloneFills(due: seq<Transaction>, start: seq<Transaction>, queue: seq<Transaction>, taken: seq<Transaction>,
                   puts: seq<Put>, dropped: seq<Transaction>)
    requires Offered(due, start, queue, taken, puts, dropped, true, true) && |start| <= QUEUES_SIZE && |queue| <= QUEUES_SIZE
    ensures queue == start + Prefix(due, QUEUES_SIZE - |start|)
  {
    hide Transactions, OwnOf;
    assert [] + queue == queue;
    assert |multiset(due)| == |multiset(OwnOf(puts))| + |multiset(dropped)|;
  }

  /** What a flush kept is still waiting, newest first, and what it put back or dropped is not; it truncates only what is
      no newer, and only at the maximum. */
  lemma FlushedByTime(ts: seq<Transaction>, now: real, kept: seq<Transaction>, max: nat, before: seq<Transaction>,
                      queue: seq<Transaction>, taken: seq<Transaction>, puts: seq<Put>, dropped: seq<Transaction>,
                      untaken: bool, unput: bool)
    requires |before| <= QUEUES_SIZE
    requires Flushed(ts, NotDueAt(ts, now), kept, max, before, queue, taken, puts, dropped, untaken, unput)
    ensures forall t :: t in kept ==> t in ts && t.nextFlush.Some? && t.nextFlush.value > now
    ensures forall t :: t in OwnOf(puts) || t in dropped ==>
              t in ts && (t.nextFlush.None? || t.nextFlush.value == 0.0 || t.nextFlush.value <= now)
    ensures |kept| <= max && forall i, j :: 0 <= i < j < |kept| ==> kept[i].createdAt >= kept[j].createdAt
    ensures forall t :: t in ts && t !in kept && t !in OwnOf(puts) && t !in dropped ==>
              |kept| == max && forall i :: 0 <= i < |kept| ==> kept[i].createdAt >= t.createdAt
  {
    hide OwnOf, Waiting, Due, NewestFirst, Transactions, Prefix, IsNewestFirst;
    var late := NotDueAt(ts, now);
    SplitMeans(Created, ts, late, max);
    InBoth(Due(NewestFirst(Created, ts), late), OwnOf(puts), dropped);
    OrderOf(kept);
  }

  lemma OrderOf(ts: seq<Transaction>)
    requires IsNewestFirst(Created, ts)
    ensures forall i, j :: 0 <= i < j < |ts| ==> ts[i].createdAt >= ts[j].createdAt
  {
    forall i, j | 0 <= i < j < |ts| ensures ts[i].createdAt >= ts[j].createdAt {
      assert Created(ts[i]) >= Created(ts[j]);
    }
  }

  lemma InBoth(all: seq<Transaction>, a: seq<Transaction>, b: seq<Transaction>)
    requires multiset(all) == multiset(a) + multiset(b)
    ensures forall t :: t in all <==> t in a || t in b
  {
    forall t ensures t in all <==> t in a || t in b {
      assert t in multiset(all) <==> t in multiset(a) || t in multiset(b);
    }
  }

  lemma NothingOffered(start: seq<Transaction>, untaken: bool, unput: bool)
    ensures Offered([], start, start, [], [], [], untaken, unput)
  {
  }

  class RetryWorker {
    const inputQueue: BoundedQueue
    const retryQueue: BoundedQueue
    const flushInterval: real
    const retryQueueMaxSize: nat
    var transactions: seq<Transaction>

    constructor (inputQueue: BoundedQueue, retryQueue: BoundedQueue, flushInterval: real, retryQueueMaxSize: nat)
      ensures this.inputQueue == inputQueue && this.retryQueue == retryQueue && this.flushInterval == flushInterval
      ensures this.retryQueueMaxSize == retryQueueMaxSize && transactions == []
    {
      this.inputQueue, this.retryQueue, this.flushInterval := inputQueue, retryQueue, flushInterval;
      this.retryQueueMaxSize := retryQueueMaxSize;
      transactions := [];
    }

    /** What the list holds once the oldest entry of the retry queue is appended. */
    ghost function WithNext(): seq<Transaction>
      reads this, retryQueue
    {
      transactions + if retryQueue.items == [] then [] else [retryQueue.items[0]]
    }

    method AppendNext()
      requires retryQueue.Valid()
      modifies this`transactions, retryQueue
      ensures retryQueue.Valid() && transactions == old(WithNext())
      ensures retryQueue.items == if old(retryQueue.items) == [] then [] else old(retryQueue.items)[1..]
    {
      var got := retryQueue.Get();
      if got.Some? {
        transactions := transactions + [got.value];
      } else {
        assert transactions + [] == transactions;
      }
    }

    /** One round; the clock reads `check`, then `now` inside the flush, then `after`. */
    method ProcessTransactions(flushTime: real, check: real, now: real, after: real, others: seq<Others>)
      returns (nextFlushTime: real, ghost taken: seq<Transaction>, ghost puts: seq<Put>, ghost dropped: seq<Transaction>)
      requires inputQueue.Valid() && retryQueue.Valid() && inputQueue != retryQueue && |others| == |WithNext()|
      modifies this`transactions, inputQueue, retryQueue
      ensures inputQueue.Valid() && retryQueue.Valid()
      ensures retryQueue.items == if old(retryQueue.items) == [] then [] else old(retryQueue.items)[1..]
      ensures check < flushTime ==>
                nextFlushTime == flushTime && transactions == old(WithNext()) && inputQueue.items == old(inputQueue.items)
      ensures flushTime <= check ==>
                && nextFlushTime == after + flushInterval
                && (forall t :: t in transactions ==> t.nextFlush.Some? && t.nextFlush.value > now)
                && (forall t :: t in OwnOf(puts) || t in dropped ==>
                      t.nextFlush.None? || t.nextFlush.value == 0.0 || t.nextFlush.value <= now)
                && Flushed(old(WithNext()), old(NotDueAt(WithNext(), now)), transactions, retryQueueMaxSize,
                           old(inputQueue.items), inputQueue.items, taken, puts, dropped, NobodyTakes(others),
                           NobodyPuts(others))
    {
      taken, puts, dropped := [], [], [];
      nextFlushTime := flushTime;
      ghost var wanted, late := WithNext(), NotDueAt(WithNext(), now);
      AppendNext();
      assert NotDueAt(transactions, now) == late;
      if flushTime <= check {
        taken, puts, dropped := FlushTransactions(now, others);
        nextFlushTime := after + flushInterval;
      }
    }

    /** The other threads have their turn: takes from the front, and puts as long as there is room. */
    method Interfere(others: Others) returns (ghost taken: seq<Transaction>, ghost put: seq<Transaction>)
      requires inputQueue.Valid()
      modifies inputQueue
      ensures inputQueue.Valid() && taken + inputQueue.items == old(inputQueue.items) + put
      ensures (others.takes == 0 ==> taken == []) && (others.puts == [] ==> put == [])
    {
      var m := Min(others.takes, |inputQueue.items|);
      taken := inputQueue.items[..m];
      var left := inputQueue.items[m..];
      put := Prefix(others.puts, QUEUES_SIZE - |left|);
      inputQueue.items := left + Prefix(others.puts, QUEUES_SIZE - |left|);
      Associates(taken, left, put);
    }

    /** `others[i]` is what the other threads do just before the i-th transaction is looked at.  The ghost results name
        what entered the queue and what left it on the way. */
    method FlushTransactions(now: real, others: seq<Others>)
      returns (ghost taken: seq<Transaction>, ghost puts: seq<Put>, ghost dropped: seq<Transaction>)
      requires inputQueue.Valid() && |others| == |transactions|
      modifies this`transactions, inputQueue
      ensures inputQueue.Valid()
      ensures forall t :: t in transactions ==> t.nextFlush.Some? && t.nextFlush.value > now
      ensures forall t :: t in OwnOf(puts) || t in dropped ==>
                t.nextFlush.None? || t.nextFlush.value == 0.0 || t.nextFlush.value <= now
      ensures Flushed(old(transactions), old(NotDueAt(transactions, now)), transactions, retryQueueMaxSize,
                      old(inputQueue.items), inputQueue.items, taken, puts, dropped, NobodyTakes(others), NobodyPuts(others))
    {
      hide Offered, Waiting, Due, NewestFirst, OwnOf, Transactions, StillWaits;
      ghost var list := transactions;
      SortedHasAll(transactions);
      taken, puts, dropped := [], [], [];
      NothingFlushed(NotDueAt([], now), retryQueueMaxSize, inputQueue.items, NobodyTakes(others), NobodyPuts(others));
      if transactions == [] {
        return;
      }
      ghost var late, start := NotDueAt(transactions, now), inputQueue.items;
      MarkedAfterSort(transactions, now);
      transactions := NewestFirst(Created, transactions);
      var sorted := transactions;
      var keep := [];
      keep, taken, puts, dropped := OfferAll(sorted, now, others, late);
      if NobodyTakes(others) && NobodyPuts(others) {
        AloneFills(Due(sorted, late), start, inputQueue.items, taken, puts, dropped);
      }
      transactions := Prefix(keep, retryQueueMaxSize);
      assert NotDueAt(list, now) == late;
      FlushedByTime(list, now, transactions, retryQueueMaxSize, start, inputQueue.items, taken, puts, dropped,
                    NobodyTakes(others), NobodyPuts(others));
    }

    method OfferAll(sorted: seq<Transaction>, now: real, others: seq<Others>, ghost late: set<Transaction>)
      returns (keep: seq<Transaction>, ghost taken: seq<Transaction>, ghost puts: seq<Put>, ghost dropped: seq<Transaction>)
      requires inputQueue.Valid() && |others| == |sorted| && AreMarked(sorted, now, late)
      modifies inputQueue
      ensures inputQueue.Valid() && keep == Waiting(sorted, late)
      ensures Offered(Due(sorted, late), old(inputQueue.items), inputQueue.items, taken, puts, dropped,
                      NobodyTakes(others), NobodyPuts(others))
    {
      hide Offered, Waiting, Due;
      keep, taken, puts, dropped := [], [], [], [];
      ghost var start, untaken, unput := inputQueue.items, NobodyTakes(others), NobodyPuts(others);
      NothingOffered(start, untaken, unput);
      SplitNothing(late);
      for i := 0 to |sorted|
        invariant inputQueue.Valid() && AreMarked(sorted, now, late)
        invariant keep == Waiting(sorted[..i], late)
        invariant Offered(Due(sorted[..i], late), start, inputQueue.items, taken, puts, dropped, untaken, unput)
      {
        WaitingNext(sorted, i, late);
        keep, taken, puts, dropped :=
          Offer(sorted[i], now, others[i], keep, Due(sorted[..i], late), start, taken, puts, dropped, untaken, unput);
      }
      assert sorted[..|sorted|] == sorted;
    }

    /** One turn of that loop, after the other threads had theirs. */
    method Offer(t: Transaction, now: real, others: Others, keep: seq<Transaction>, ghost due: seq<Transaction>,
                 ghost start: seq<Transaction>, ghost taken: seq<Transaction>, ghost puts: seq<Put>,
                 ghost dropped: seq<Transaction>, ghost untaken: bool, ghost unput: bool)
      returns (keep': seq<Transaction>, ghost taken': seq<Transaction>, ghost puts': seq<Put>,
               ghost dropped': seq<Transaction>)
      requires inputQueue.Valid() && (untaken ==> others.takes == 0) && (unput ==> others.puts == [])
      requires Offered(due, start, inputQueue.items, taken, puts, dropped, untaken, unput)
      modifies inputQueue
      ensures inputQueue.Valid() && keep' == keep + if t.NotDue(now) then [t] else []
      ensures Offered(due + (if t.NotDue(now) then [] else [t]), start, inputQueue.items, taken', puts', dropped',
                      untaken, unput)
    {
      hide Offered;
      ghost var before := inputQueue.items;
      ghost var gone, more;
      gone, more := Interfere(others);
      ghost var queue := inputQueue.items;
      OthersMoved(due, start, before, queue, taken, puts, dropped, untaken, unput, gone, more);
      keep', taken', puts', dropped' := keep, taken + gone, AddOthers(puts, more), dropped;
      if t.NotDue(now) {
        keep' := keep + [t];
        assert due + [] == due;
      } else {
        assert keep + [] == keep;
        var ok := inputQueue.PutNowait(t);
        if ok {
          OwnIsPut(due, start, queue, inputQueue.items, taken', puts', dropped, untaken, unput, t);
          puts' := puts' + [Own(t)];
        } else {
          OwnIsDropped(due, start, queue, taken', puts', dropped, untaken, unput, t);
          dropped' := dropped + [t];
        }
      }
    }
  }

  lemma SortedHasAll(ts: seq<Transaction>)
    ensures |NewestFirst(Created, ts)| == |ts|
  {
    NewestFirstSorts(Created, ts);
    assert |NewestFirst(Created, ts)| == |multiset(NewestFirst(Created, ts))| == |multiset(ts)|;
  }

  lemma SplitNothing(late: set<Transaction>)
    ensures Waiting([], late) == [] && Due([], late) == []
  {
  }

  // ---------- a forwarder worker ----------

  class Stats {
    var seriesPayloads: nat
    var intakePayloads: nat
    var serviceCheckPayloads: nat
    var success: nat
    var rescheduled: nat
    var queueFullErrors: nat

    constructor ()
      ensures seriesPayloads == intakePayloads == serviceCheckPayloads == 0
      ensures success == rescheduled == queueFullErrors == 0
    {
      seriesPayloads, intakePayloads, serviceCheckPayloads := 0, 0, 0;
      success, rescheduled, queueFullErrors := 0, 0, 0;
    }
  }

  // ---------- the submitter ----------

  class Forwarder {
    const inputQueue: BoundedQueue
    const retryQueue: BoundedQueue
    const stats: Stats

    constructor ()
      ensures inputQueue.Valid() && retryQueue.Valid() && inputQueue.items == retryQueue.items == []
      ensures inputQueue != retryQueue && fresh(inputQueue) && fresh(retryQueue) && fresh(stats)
    {
      inputQueue := new BoundedQueue();
      retryQueue := new BoundedQueue();
      stats := new Stats();
    }

    /** `t` is a new transaction; it is in the input queue if there was room for it. */
    twostate predicate Submitted(now: real, new t: Transaction, ok: bool)
      reads inputQueue, t
    {
      && inputQueue.Valid() && fresh(t) && t.createdAt == now && t.nbTry == 0 && t.nextFlush == None
      && ok == (|old(inputQueue.items)| < 100)
      && inputQueue.items == old(inputQueue.items) + if ok then [t] else []
    }

    /** A new transaction is queued, or dropped when the input queue is full. */
    method SubmitPayload(now: real) returns (t: Transaction, ok: bool)
      requires inputQueue.Valid()
      modifies inputQueue
      ensures Submitted(now, t, ok)
    {
      t := new Transaction(now);
      ok := inputQueue.PutNowait(t);
    }

    /** Every submission is counted, queued or not. */
    method SubmitV1Series(now: real) returns (t: Transaction, ok: bool)
      requires inputQueue.Valid()
      modifies inputQueue, stats`seriesPayloads
      ensures Submitted(now, t, ok) && stats.seriesPayloads == old(stats.seriesPayloads) + 1
    {
      stats.seriesPayloads := stats.seriesPayloads + 1;
      t, ok := SubmitPayload(now);
    }

    method SubmitV1Intake(now: real) returns (t: Transaction, ok: bool)
      requires inputQueue.Valid()
      modifies inputQueue, stats`intakePayloads
      ensures Submitted(now, t, ok) && stats.intakePayloads == old(stats.intakePayloads) + 1
    {
      stats.intakePayloads := stats.intakePayloads + 1;
      t, ok := SubmitPayload(now);
    }

    method SubmitV1ServiceChecks(now: real) returns (t: Transaction, ok: bool)
      requires inputQueue.Valid()
      modifies inputQueue, stats`serviceCheckPayloads
      ensures Submitted(now, t, ok) && stats.serviceCheckPayloads == old(stats.serviceCheckPayloads) + 1
    {
      stats.serviceCheckPayloads := stats.serviceCheckPayloads + 1;
      t, ok := SubmitPayload(now);
    }
  }

  class Worker {
    const inputQueue: BoundedQueue
    const retryQueue: BoundedQueue
    const stats: Stats

    constructor (inputQueue: BoundedQueue, retryQueue: BoundedQueue, stats: Stats)
      ensures this.inputQueue == inputQueue && this.retryQueue == retryQueue && this.stats == stats
    {
      this.inputQueue, this.retryQueue, this.stats := inputQueue, retryQueue, stats;
    }

    /** One round with the answer `response` to the POST and the clock at `now` when it is rescheduled.  After an
        unexpected exception the transaction is nowhere, and no counter tells. */
    method ProcessTransactions(response: Response, now: real)
      requires inputQueue.Valid() && retryQueue.Valid() && inputQueue != retryQueue
      modifies inputQueue, retryQueue, stats, inputQueue.items
      ensures inputQueue.Valid() && retryQueue.Valid()
      ensures old(inputQueue.items) == [] ==>
                inputQueue.items == [] && retryQueue.items == old(retryQueue.items)
                && stats.success == old(stats.success) && stats.rescheduled == old(stats.rescheduled)
                && stats.queueFullErrors == old(stats.queueFullErrors)
      ensures old(inputQueue.items) != [] ==>
                var t := old(inputQueue.items)[0];
                var again := response.NetworkError?
                             || (response.Status? && response.code >= 400 && response.code !in {400, 403, 404, 413});
                var room := |old(retryQueue.items)| < 100;
                && inputQueue.items == old(inputQueue.items)[1..]
                && retryQueue.items == old(retryQueue.items) + (if again && room then [t] else [])
                && t.nbTry == old(t.nbTry) + 1
                && t.nextFlush == (if again then Some(now + (if 5 * t.nbTry <= 90 then 5 * t.nbTry else 90) as real)
                                   else old(t.nextFlush))
                && stats.success == old(stats.success) + (if again || response.Unexpected? then 0 else 1)
                && stats.rescheduled == old(stats.rescheduled) + (if again && room then 1 else 0)
                && stats.queueFullErrors == old(stats.queueFullErrors) + (if again && !room then 1 else 0)
    {
      var got := inputQueue.Get();
      if got.None? {
        return;
      }
      var t := got.value;
      var success := t.Process(response);
      if success.None? {
        return;
      }
      if !success.value {
        t.Reschedule(now);
        var ok := retryQueue.PutNowait(t);
        if ok {
          stats.rescheduled := stats.rescheduled + 1;
        } else {
          stats.queueFullErrors := stats.queueFullErrors + 1;
        }
      } else {
        stats.success := stats.success + 1;
      }
    }
  }
}
