// The forwarder as a protocol: a submitter, any number of workers and one
// retry worker take turns, one queue or clock access at a time.  What a POST
// answers, and who moves next, is left open.
module RetryProtocol {
  import opened Prelude
  import opened Newest
  import opened Workers

  /** `attempts` is a record of when each attempt started; the program keeps only its length. */
  datatype Tx = Tx(nbTry: nat, nextFlush: Option<real>, attempts: seq<real>)

  /** The counters a worker updates at the end of a round. */
  datatype Stat = TransactionsSuccess | TransactionsRescheduled | QueueFullErrors

  datatype Hand =
    | Free
    | Holding(id: nat)     // taken from the input queue
    | Processing(id: nat)  // the POST is under way
    | Failed(id: nat)      // rescheduled, about to be put on the retry queue
    | Counting(stat: Stat)

  /** What the retry worker does next.  `late` is a record: what was not due when the flush began. */
  datatype Phase =
    | Getting
    | Checking
    | Flushing(all: seq<nat>, i: nat, keep: seq<nat>, now: real, late: set<nat>)

  datatype Reason =
    | Done
    | Crashed          // an unexpected exception
    | InputFull        // not submitted
    | RetryFull        // not put on the retry queue
    | InputFullAgain   // not put back by a flush
    | Truncated        // beyond the retry list's maximum

  datatype Departure = Departure(id: nat, reason: Reason)

  datatype Payload = Series | Intake | ServiceCheck

  datatype Counters = Counters(series: nat, intake: nat, checks: nat, success: nat, rescheduled: nat, queueFull: nat)

  /** Transactions are numbered in the order of their creation. */
  datatype State = State(
    clock: real,
    created: seq<real>,
    txs: seq<Tx>,
    input: seq<nat>,
    retry: seq<nat>,
    list: seq<nat>,
    hands: seq<Hand>,
    phase: Phase,
    flushTime: real,
    gone: seq<Departure>,
    stats: Counters)

  datatype Config = Config(workers: nat, flushInterval: real, retryQueueMaxSize: nat)

  datatype Step =
    | Tick(now: real)
    | Submit(kind: Payload)
    | Take(w: nat)
    | Begin(w: nat)
    | Succeed(w: nat)
    | Fail(w: nat)
    | Crash(w: nat)
    | PutRetry(w: nat)
    | Count(w: nat)
    | RetryGet
    | RetryCheck
    | RetryOffer
    | RetryEnd

  function Init(cfg: Config, start: real): State {
    State(start, [], [], [], [], [], seq(cfg.workers, _ => Free), Getting, start + cfg.flushInterval, [],
          Counters(0, 0, 0, 0, 0, 0))
  }

  // ---------- transactions ----------

  /** Only existing numbers are ever looked up: see HeldExist. */
  function TxAt(txs: seq<Tx>, id: nat): Tx {
    if id < |txs| then txs[id] else Tx(0, None, [])
  }

  function WithTx(txs: seq<Tx>, id: nat, t: Tx): seq<Tx> {
    if id < |txs| then txs[id := t] else txs
  }

  function AgeIn(created: seq<real>): nat -> real {
    (id: nat) => if id < |created| then created[id] else 0.0
  }

  function Attempted(t: Tx, clock: real): Tx {
    Tx(t.nbTry + 1, t.nextFlush, t.attempts + [clock])
  }

  function Rescheduled(t: Tx, clock: real): Tx {
    t.(nextFlush := Some(clock + RetryDelay(t.nbTry) as real))
  }

  predicate NotDue(t: Tx, now: real) {
    StillWaits(t.nextFlush, now)
  }

  // ---------- steps ----------

  function CountPayload(c: Counters, kind: Payload): Counters {
    match kind
    case Series => c.(series := c.series + 1)
    case Intake => c.(intake := c.intake + 1)
    case ServiceCheck => c.(checks := c.checks + 1)
  }

  function CountStat(c: Counters, stat: Stat): Counters {
    match stat
    case TransactionsSuccess => c.(success := c.success + 1)
    case TransactionsRescheduled => c.(rescheduled := c.rescheduled + 1)
    case QueueFullErrors => c.(queueFull := c.queueFull + 1)
  }

  function Departures(ids: seq<nat>, reason: Reason): seq<Departure> {
    if ids == [] then [] else Departures(ids[..|ids| - 1], reason) + [Departure(ids[|ids| - 1], reason)]
  }

  predicate Enabled(s: State, step: Step) {
    match step
    case Tick(now) => s.clock <= now
    case Submit(_) => true
    case Take(w) => w < |s.hands| && s.hands[w].Free? && s.input != []
    case Begin(w) => w < |s.hands| && s.hands[w].Holding?
    case Succeed(w) => w < |s.hands| && s.hands[w].Processing?
    case Fail(w) => w < |s.hands| && s.hands[w].Processing?
    case Crash(w) => w < |s.hands| && s.hands[w].Processing?
    case PutRetry(w) => w < |s.hands| && s.hands[w].Failed?
    case Count(w) => w < |s.hands| && s.hands[w].Counting?
    case RetryGet => s.phase.Getting?
    case RetryCheck => s.phase.Checking?
    case RetryOffer => s.phase.Flushing? && s.phase.i < |s.phase.all|
    case RetryEnd => s.phase.Flushing? && s.phase.i == |s.phase.all|
  }

  function DoSubmit(s: State, kind: Payload): State {
    var id := |s.txs|;
    var s' := s.(created := s.created + [s.clock], txs := s.txs + [Tx(0, None, [])], stats := CountPayload(s.stats, kind));
    if |s.input| < QUEUES_SIZE then s'.(input := s.input + [id])
    else s'.(gone := s.gone + [Departure(id, InputFull)])
  }

  function DoPutRetry(s: State, w: nat): State
    requires Enabled(s, PutRetry(w))
  {
    var id := s.hands[w].id;
    if |s.retry| < QUEUES_SIZE then
      s.(retry := s.retry + [id], hands := s.hands[w := Counting(TransactionsRescheduled)])
    else
      s.(gone := s.gone + [Departure(id, RetryFull)], hands := s.hands[w := Counting(QueueFullErrors)])
  }

  /** `retry_queue.get`, which may time out, and `append`. */
  function DoRetryGet(s: State): State {
    if s.retry == [] then s.(phase := Checking)
    else s.(list := s.list + [s.retry[0]], retry := s.retry[1..], phase := Checking)
  }

  /** Ids of `ids` that are not due. */
  function LateAmong(ids: seq<nat>, txs: seq<Tx>, now: real): set<nat> {
    set id | id in ids && NotDue(TxAt(txs, id), now)
  }

  function DoRetryCheck(s: State, cfg: Config): State {
    if s.flushTime > s.clock then s.(phase := Getting)
    else if s.list == [] then s.(phase := Getting, flushTime := s.clock + cfg.flushInterval)
    else
      s.(phase := Flushing(NewestFirst(AgeIn(s.created), s.list), 0, [], s.clock, LateAmong(s.list, s.txs, s.clock)))
  }

  /** One turn of the flush loop. */
  function DoRetryOffer(s: State): State
    requires Enabled(s, RetryOffer)
  {
    var f := s.phase;
    var id := f.all[f.i];
    if NotDue(TxAt(s.txs, id), f.now) then s.(phase := f.(i := f.i + 1, keep := f.keep + [id]))
    else if |s.input| < QUEUES_SIZE then s.(phase := f.(i := f.i + 1), input := s.input + [id])
    else s.(phase := f.(i := f.i + 1), gone := s.gone + [Departure(id, InputFullAgain)])
  }

  function DoRetryEnd(s: State, cfg: Config): State
    requires Enabled(s, RetryEnd)
  {
    var kept := Prefix(s.phase.keep, cfg.retryQueueMaxSize);
    s.(list := kept, gone := s.gone + Departures(s.phase.keep[|kept|..], Truncated),
       phase := Getting, flushTime := s.clock + cfg.flushInterval)
  }

  function Apply(s: State, step: Step, cfg: Config): State
    requires Enabled(s, step)
  {
    match step
    case Tick(now) => s.(clock := now)
    case Submit(kind) => DoSubmit(s, kind)
    case Take(w) => s.(input := s.input[1..], hands := s.hands[w := Holding(s.input[0])])
    case Begin(w) =>
      var id := s.hands[w].id;
      s.(txs := WithTx(s.txs, id, Attempted(TxAt(s.txs, id), s.clock)), hands := s.hands[w := Processing(id)])
    case Succeed(w) =>
      s.(gone := s.gone + [Departure(s.hands[w].id, Done)], hands := s.hands[w := Counting(TransactionsSuccess)])
    case Fail(w) =>
      var id := s.hands[w].id;
      s.(txs := WithTx(s.txs, id, Rescheduled(TxAt(s.txs, id), s.clock)), hands := s.hands[w := Failed(id)])
    case Crash(w) =>
      s.(gone := s.gone + [Departure(s.hands[w].id, Crashed)], hands := s.hands[w := Free])
    case PutRetry(w) => DoPutRetry(s, w)
    case Count(w) => s.(stats := CountStat(s.stats, s.hands[w].stat), hands := s.hands[w := Free])
    case RetryGet => DoRetryGet(s)
    case RetryCheck => DoRetryCheck(s, cfg)
    case RetryOffer => DoRetryOffer(s)
    case RetryEnd => DoRetryEnd(s, cfg)
  }

  // ---------- runs ----------

  /** Every step is possible where it is taken. */
  predicate IsRun(s: State, steps: seq<Step>, cfg: Config)
    decreases |steps|
  {
    steps == [] || (Enabled(s, steps[0]) && IsRun(Apply(s, steps[0], cfg), steps[1..], cfg))
  }

  function After(s: State, steps: seq<Step>, cfg: Config): State
    requires IsRun(s, steps, cfg)
    decreases |steps|
  {
    if steps == [] then s else After(Apply(s, steps[0], cfg), steps[1..], cfg)
  }
}
