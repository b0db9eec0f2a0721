# Verified model of the agent's aggregation, forwarding, parsing, configuration and scheduling

The project models five parts of the monitoring agent and proves what they promise.

**The dogstatsd bucket aggregator.** Submissions are grouped into time buckets and contexts; a flush closes the buckets
before its cutoff, reports them, fills in zeros for counters that were seen recently, and forgets the others. The class
`BucketAggregator.MetricsBucketAggregator` has the fields of the program, with the one-entry cache as a real alias of a
table (`Tables`). `Valid()` ties these fields to the log of all calls, and says that what the flushes returned is what
`BatchSpec` recomputes from that log, without tables, cache or last-sample map. The theorems over whole runs are about
that recomputation: windows of reports, no point twice, conservation of counter mass, the exact timing bound under which
nothing expires, zero-filling. `BucketReports` and `HistogramReports` say by value and name what gauges, sets and histograms report.

**The forwarder.** `Workers` has the objects of the program: transactions, bounded queues, workers, the retry worker's
flush loop. `RetryProtocol` is the same protocol as interleaved steps of a submitter, any number of workers and one retry
worker, where the clock, the outcome of a POST and the next to move are arbitrary. `RetryConservation`,
`RetryAccounting`, `RetryBackoff` and `RetryFlush` prove what holds in every interleaving; `RetrySteps` says what single
steps, and rounds that nobody interrupts, do; it and `UninterruptedFlush` connect the two forms. In the method form of a flush, what other threads do to the input queue before each of its turns is a
parameter. The flush keeps a record of what was not due when it began, and each transaction a record of when its attempts
started.

**The packet parsers.** `MetricPackets`, `EventPackets` and `ServiceCheckPackets` have the parsers as methods over
tokens, proved against functions on strings; each has a printer for what clients write, and an exact condition for the
round trip. How `int` and `float` read the numbers of metric packets is a parameter; the integers of the other formats
are read and printed in `Text`.

**Environment overrides.** `ConfigTree` resolves a flattened name to a path and says exactly when that is the path it was
flattened from. `ConfigLookup` says what every other lookup sees afterwards. `ConfigBinding` flattens declared defaults
into names and paths, shows that each scalar is then found at its path, and that binding and overriding are inverse.
`Configs` is the object that is changed in place.

**The check scheduler.** `Scheduler` has the arithmetic: how an interval is resolved, how many starts fit into a stretch
of time, the window of execution times. `Collectors` has the objects: checks registered once per signature, and rounds
that run the due ones. A round is described turn by turn as values (`RoundAfter`), the method is proved against that, and
lemmas say what it makes of each check's runs, statistics and errors.

Times, values, rates and percentiles are exact reals. Clock readings, outcomes of POSTs and of check runs are parameters.

## Findings

- A histogram percentile uses index -1, the maximum, exactly when p * length < 1/2 (`LowPercentileIsMaximum`).
- A sample rate of zero creates the metric object and then raises; if nothing else is sampled there, the branch marked
  as impossible drops the object (`FreshIff`). Otherwise the branch is dead exactly when the flush gap plus the interval
  is at most the expiry (`TimingBoundIsExact`).
- A packet with rate zero in a later bucket ends the zero-filling of a counter, however recently it was sampled: its
  object is found stale, and the counter is forgotten (`ZeroRateStopsZeros`; exactly when a counter is still known,
  `PriorFreshIff`).
- A sample rate of NaN passes the range test of the parser and is kept, as is zero (`OddRatesAreKept`). The sample then
  raises.
- A retry flush may truncate waiting transactions that are as new as the kept ones, never newer ones.
- `env_override` shows values of a default dictionary that no lookup saw before when it copies that dictionary below the
  second level (`SiblingAppears`; exactly when, `OverrideFrameIff`).
- A check that raises is reported with the result of the check before it (`RoundErrors`), and ends the round if it is the
  first to run (`RunChecks`). It is not counted as a start, and is due again at once (`DueAgainIff`).

## Model

| member | source | states |
|---|---|---|
| TimeBuckets.BucketBounds | aggregator/aggregator.py:445-446 | a time lies in the interval that its bucket starts |
| TimeBuckets.BucketGap | aggregator/aggregator.py:445-446 | different buckets are at least one interval apart |
| TimeBuckets.BucketIsMultiple | aggregator/aggregator.py:445-446 | and each starts at a whole multiple of the interval |
| MetricSpec.WeightIsWhole | aggregator/types.py:190 | a sample with rate r stands for the n with n * r <= 1 < (n + 1) * r |
| Metrics.BucketGauge.Sample | aggregator/types.py:56-59 | the last value and its time are kept, told on the fields |
| Metrics.BucketGauge.Flush | aggregator/types.py:85-99 | one gauge point with the value at the flush time if there is one, which is forgotten |
| Metrics.Counter.Sample | aggregator/types.py:189-191 | the total grows by value * n for the n with n * rate <= 1 < (n + 1) * rate, told on the fields; a zero rate raises and changes nothing |
| Metrics.Counter.Flush | aggregator/types.py:193-206 | always one point, the sum over the interval; the sum restarts at zero |
| Metrics.Histogram.Sample | aggregator/types.py:230-233 | appends the value and adds n to the count, for the n with n * rate <= 1 < (n + 1) * rate; a zero rate raises and changes nothing |
| Metrics.Histogram.Flush | aggregator/types.py:235-290 | the report that HistogramReports describes by names and values, then a reset; nothing when the count is zero |
| HistogramReports.AggregateReportedIff | aggregator/types.py:248-261 | an aggregate is reported exactly when it is wanted and one of the six names |
| HistogramReports.ReportedValues | aggregator/types.py:242-284 | under `min` stands a sample no larger than any, under `max` one no smaller, under `median` one of the middle rank; `avg` times the number of samples is their sum, `sum` is it, `count` times the interval is the count; only `count` is a rate; then one gauge per percentile in their order, named by int(100p) |
| HistogramReports.SumDependsOnBag | aggregator/types.py:245 | the sum does not depend on the order of the samples |
| HistogramReports.SumOfParts | aggregator/types.py:245 | and is the sum of the parts' sums, each single sample being its own |
| Metrics.MetricSet.Sample | aggregator/types.py:304-306 | adds a member |
| Metrics.MetricSet.Flush | aggregator/types.py:308-322 | one gauge point with the number of members if there are any, then none |
| Metrics.NewMetric | aggregator/aggregator.py:482-486 | a fresh object of the class of the type, as yet without samples |
| Tables.BucketTables.TableFor | aggregator/aggregator.py:471-480 | the table of a bucket, cached, found or new; afterwards the cache is the very table that a lookup finds |
| Tables.BucketTables.SampleAt | aggregator/aggregator.py:470-488 | only the entry of one bucket and context changes, to what one more sample makes of it |
| Tables.BucketTables.Drop | aggregator/aggregator.py:533 | a closed bucket is gone, the others are as they were |
| Tables.BucketTables.ResetCache | aggregator/aggregator.py:555-556 | the cache is empty and the tables untouched |
| BucketAggregator.MetricsBucketAggregator.constructor | aggregator/aggregator.py:424-443 | a valid aggregator with an empty log |
| BucketAggregator.MetricsBucketAggregator.SubmitMetric | aggregator/aggregator.py:448-489 | logs the submission under the context of name, distinct sorted tags and host; the batch recomputation still agrees |
| BucketAggregator.MetricsBucketAggregator.Submit | aggregator/aggregator.py:464-489 | one submission keeps the agreement of tables and log; false when the type is unknown or the rate zero |
| BucketAggregator.MetricsBucketAggregator.Flush | aggregator/aggregator.py:504-558 | what a flush returns is a report that the log determines, up to the order of contexts in a bucket |
| BucketAggregator.MetricsBucketAggregator.Report | aggregator/aggregator.py:505-539 | the report, and tables and last-sample map that fit the longer log |
| BucketAggregator.MetricsBucketAggregator.FlushIdle | aggregator/aggregator.py:534-539 | without buckets: zeros for the interval before the cutoff, if an interval has passed |
| BucketAggregator.MetricsBucketAggregator.FlushBuckets | aggregator/aggregator.py:511-533 | all buckets before the cutoff are reported in order and dropped |
| BucketAggregator.MetricsBucketAggregator.FlushBucket | aggregator/aggregator.py:515-533 | one bucket: fresh objects, then zeros, and the last-sample map after it |
| BucketAggregator.MetricsBucketAggregator.FlushTable | aggregator/aggregator.py:518-529 | every object of a bucket is reported or found stale |
| BucketAggregator.MetricsBucketAggregator.CreateEmptyMetrics | aggregator/aggregator.py:491-502 | one zero for each context given that is not expired; expired ones are forgotten |
| FlushHistory.ConsistentAfterBuckets | aggregator/aggregator.py:511-533 | closing the buckets one by one gives the report of the batch recomputation |
| FlushHistory.ConsistentAfterIdle | aggregator/aggregator.py:534-539 | so does the branch without buckets |
| TableHistory.ConsistentAfterSubmit | aggregator/aggregator.py:464-488 | one more sample in the tables is one more event in the log |
| RunTheorems.ReportWindow | aggregator/aggregator.py:504-558 | every point of a flush has a timestamp from the last cutoff up to this one |
| RunTheorems.ReportsDoNotOverlap | aggregator/aggregator.py:504-558 | timestamps of a later flush are later than those of an earlier one |
| RunTheorems.FlushSlotsAreDistinct | aggregator/types.py:248-284 | an object reports no slot twice, if and only if no two percentiles have the same name |
| RunTheorems.NoPointTwice | aggregator/aggregator.py:504-558 | over a whole run no context, slot and timestamp is reported twice |
| Freshness.FreshIff | aggregator/aggregator.py:519-526 | an object passes the stale test exactly when some successful sample of its bucket is recent enough |
| Freshness.TimelyFlushesExpireNothing | aggregator/aggregator.py:519-524 | with flushes at most a gap apart and gap + interval <= expiry, the branch marked as impossible is not taken for sampled objects |
| MassConservation.MassIsConserved | aggregator/aggregator.py:504-533 | reported value times interval, plus dropped, plus pending, is the sum of value * floor(1 / rate), for every run and context |
| TimingBound.TimelyFlushesDropNothing | aggregator/aggregator.py:506-524 | under the timing bound nothing is dropped |
| TimingBound.LateRunDrops | aggregator/aggregator.py:506-524 | a run with flushes any distance apart that loses its sample, when the last flush in the bucket of the sample comes too early for the next one |
| TimingBound.TimingBoundIsExact | aggregator/aggregator.py:506-524 | for any flush gap: nothing is ever dropped if and only if gap + interval <= expiry |
| ZeroFillTheorems.PriorFreshIff | aggregator/aggregator.py:519-528 | a counter is known as recently sampled before a bucket exactly when the latest earlier bucket it was submitted to has a sample there that succeeded and is recent |
| ZeroFillTheorems.ZeroFill | aggregator/aggregator.py:515-531 | in a closed bucket a counter gets its total if a sample there succeeded recently, one zero if nothing was submitted for it there and it is known as recently sampled, else nothing; any rates |
| ZeroFillTheorems.IdleFill | aggregator/aggregator.py:534-539 | a flush without buckets reports one zero for the interval before its cutoff, if an interval has passed since the last cutoff, for counters known as recently sampled, and nothing else |
| ZeroFillTheorems.OnlyClosedBuckets | aggregator/aggregator.py:511-516 | a flush with buckets has no point for a time that is not the start of one of them, or is not before its cutoff |
| ZeroFillTheorems.PendingIff | aggregator/aggregator.py:464-533 | a bucket is there exactly when something was submitted in it that no flush has reached |
| BucketReports.GaugeReport | aggregator/aggregator.py:518-529 | in a closed bucket a gauge reports the value of the last sample there, if that is recent |
| BucketReports.SetReport | aggregator/aggregator.py:518-529 | a set reports the number of different members submitted there, if the last one is recent |
| BucketReports.HistogramReport | aggregator/aggregator.py:518-529 | a histogram reports what HistogramReports says of the samples there that did not raise, if one of them is recent |
| ZeroFillTheorems.PriorLastNeverGoesBack | aggregator/aggregator.py:526-528 | later in a run and before a later bucket, a known last-sample time is no earlier |
| ZeroFillTheorems.MemoryNeverGoesBack | aggregator/aggregator.py:526-528 | an entry of the last-sample map that is there at two points of a run never decreases |
| ZeroFillTheorems.ZeroRateStopsZeros | aggregator/aggregator.py:519-524 | a sample and then, a bucket later, a packet with rate zero: the counter is no longer known, whatever the expiry, though without that packet it is |
| ZeroFillTheorems.OrderDoesNotMatter | aggregator/types.py:189-206 | what an object reports depends on the bag of its samples, not on their order |
| ZeroFillTheorems.SortedDependsOnBag | aggregator/types.py:239-274 | so percentiles, median and extremes depend on the bag of values only |
| ZeroFillTheorems.SameMembers | aggregator/types.py:304-322 | and so does the number of members of a set |
| HistogramTheorems.PercentileRank | aggregator/types.py:273-274 | for p * L >= 1/2 a percentile is a sample with at most k samples below it and at least k + 1 up to it, where k is its index and \|k + 1 - p * L\| <= 1/2 |
| HistogramTheorems.PercentileTie | aggregator/types.py:274 | where the bound leaves two indices, it is the even one |
| HistogramTheorems.RankErrorIff | aggregator/types.py:274 | the index k is in range with \|k + 1 - p * L\| <= 1/2 if and only if p * L >= 1/2; otherwise it is -1 |
| HistogramTheorems.LowPercentileIsMaximum | aggregator/types.py:274 | index -1 is the maximum |
| HistogramTheorems.PercentilesAreMonotone | aggregator/types.py:273-274 | a larger p gives no smaller percentile, unless the smaller one wraps around |
| HistogramTheorems.MedianRank | aggregator/types.py:244 | the median's index k has \|k + 1 - L / 2\| <= 1/2, and is even for an odd number of samples; at most k samples are below it, at least k + 1 up to it |
| HistogramTheorems.PercentileInBounds | aggregator/types.py:242-244 | min <= percentile <= max |
| HistogramTheorems.MedianInBounds | aggregator/types.py:242-244 | min <= median <= max |
| HistogramTheorems.AverageInBounds | aggregator/types.py:245-246 | min <= average <= max |
| Rounding.TieGoesToEven | aggregator/types.py:244 | half-even rounding is the only nearest integer, and the even one at a tie |
| MonotonicCounts.MonotonicCount.Sample | aggregator/types.py:145-157 | a rise since the reading before is added, a fall adds nothing; told on the fields |
| MonotonicCounts.MonotonicCount.Flush | aggregator/types.py:159-175 | reports the pending rises, and keeps the current reading as the previous one; without pending rises nothing changes |
| MonotonicCounts.Telescopes | aggregator/types.py:145-175 | in any interleaving, reported plus pending is the sum of the rises between consecutive readings |
| MonotonicCounts.RisesStep | aggregator/types.py:151-157 | one reading more adds what it is above the one before, and nothing if it is below |
| MonotonicCounts.TelescopesToDifference | aggregator/types.py:145-175 | which is last minus first when the readings never fall |
| Tags.DeduplicatedIsCanonical | aggregator/aggregator.py:76-77 | sorted(set(tags)) is strictly increasing and has the tags' members |
| Tags.SortedIsSortedPermutation | aggregator/aggregator.py:147 | sorted keeps the bag and orders it by code points |
| Tags.LeqAt | aggregator/aggregator.py:147 | that order: the first difference decides, and a prefix comes first |
| Tags.ContextParts | aggregator/aggregator.py:453-461 | a context has the name as it is, the caller's host or else the default one, and each tag once in ascending order |
| Tags.SameContextIff | aggregator/aggregator.py:453-461 | two submissions share a context exactly when name and host agree and the tags agree as sets |
| Tags.ExtractMagicTags | aggregator/aggregator.py:275-291 | the host is what follows `host:` in the last such tag, the other tags stay in order, and no tags left is none |
| Tags.LastHostTag | aggregator/aggregator.py:281-286 | that tag is the last one in the list that starts with `host:` |
| Tags.OtherTagsOfParts | aggregator/aggregator.py:284-290 | the tags kept keep their order |
| Tags.OtherTagsKeepMultiplicity | aggregator/aggregator.py:284-290 | no host tag remains, and every other tag keeps its multiplicity |
| Text.JoinSplit | aggregator/aggregator.py:96 | joining the pieces of a split gives the string back, and no piece has the separator |
| Text.SplitJoin | aggregator/aggregator.py:147 | splitting joined pieces gives the pieces back |
| Text.SplitLastAt | aggregator/aggregator.py:220 | a split at the last delimiter splits where no later one starts |
| Text.ReplaceFirst | aggregator/aggregator.py:156-160 | the first occurrence is replaced, and so on behind it |
| Text.ReplaceNone | aggregator/aggregator.py:156-160 | without an occurrence the string stays |
| Text.SliceIs | aggregator/aggregator.py:178-181 | bounds of a slice beyond an end are cut off, and negative ones count from the end |
| Text.IntTextReads | aggregator/aggregator.py:174-175 | reading a printed integer gives it back |
| Text.SignAndSpace | aggregator/aggregator.py:174-175 | as does reading it with a plus sign, or with white space before or behind it |
| Text.Underscores | aggregator/aggregator.py:174-175 | a single underscore may stand between digits; two may not, nor one at the end |
| MetricPackets.CutBody | aggregator/aggregator.py:96-108 | gluing tokens: joining the data gives the body, a '\|' is only in the first token of each datum, and in that of every later datum |
| MetricPackets.SegmentationIsUnique | aggregator/aggregator.py:97-108 | there is no other such cut |
| MetricPackets.SegmentsIff | aggregator/aggregator.py:97-108 | the cut exists for every body, and is the only one |
| MetricPackets.KeptApartIff | aggregator/aggregator.py:97-108 | joined data are cut into the same data exactly when they are well cut |
| MetricPackets.BarBehindColonCuts | aggregator/aggregator.py:105-107 | a '\|' behind a ':' starts a new datum, as with a rate behind a tag that has a colon |
| MetricPackets.ParseMetadata | aggregator/aggregator.py:137-150 | of rates and tag lists the last one counts; an empty field ends the loop and keeps what was read; a rate that does not read raises |
| MetricPackets.ParseMetricPacket | aggregator/aggregator.py:84-154 | the samples of all data in order, or the first error |
| MetricPackets.NoColonFails | aggregator/aggregator.py:90-93 | a packet without ':' is refused |
| MetricPackets.DatumOutcome | aggregator/aggregator.py:110-136 | which data are refused, which skipped, and what name, type and value the others give |
| MetricPackets.RateRead | aggregator/aggregator.py:138-146 | the last rate x counts: it is x for 0 <= x <= 1, else 1; an infinity gives 1, NaN stays NaN; without a rate it is 1 |
| MetricPackets.TagsRead | aggregator/aggregator.py:147-148 | the last list of tags counts, sorted; without one there are none |
| MetricPackets.SeveralValues | aggregator/aggregator.py:84-154 | parsing name:d1:...:dn is parsing each name:di and concatenating |
| MetricPackets.SamplesAreGood | aggregator/aggregator.py:120-152 | every sample has the packet's name, sorted tags, a type that is not ignored, and a rate in [0, 1] or NaN |
| MetricPackets.OddRatesAreKept | aggregator/aggregator.py:142-146 | the packets `1\|c\|@nan` and `1\|c\|@0` are read with the rates NaN and zero |
| MetricPackets.PrintedIsWhole | aggregator/aggregator.py:99-107 | a printed datum is kept together and starts a datum, whatever colons its tags hold |
| MetricPackets.MetricRoundTrip | aggregator/aggregator.py:84-154 | printing any number of values in one packet and parsing gives the values, types, sorted tags, and the rates, if they are from 0 to 1 or NaN, else 1 |
| Escapes.TextSurvivesIff | aggregator/aggregator.py:159-160 | an escaped event text is unescaped to itself exactly when it has no literal backslash-n |
| Escapes.ContentSurvivesIff | aggregator/aggregator.py:156-157 | an escaped message survives exactly when it has neither a literal backslash-n nor an escaped mark |
| Escapes.ContentHasNoMark | aggregator/aggregator.py:156-157 | an escaped message has no `m:` |
| EventPackets.ParseMeta | aggregator/aggregator.py:182-197 | of each letter the last field counts; an empty field or a date that is no integer refuses the packet |
| MetadataFields.LastWithIs | aggregator/aggregator.py:182-197 | the field that counts for a letter is the last one that starts with it |
| EventPackets.ParseEventPacket | aggregator/aggregator.py:162-199 | title and text by their lengths, as Python slices, then the metadata |
| EventPackets.HeaderRefused | aggregator/aggregator.py:164-175 | a packet is refused without a ':', or if the header is not two comma-separated integers behind three characters and before one |
| EventPackets.EventOutcome | aggregator/aggregator.py:172-199 | else exactly for an empty metadata field or a date that is no integer; title and text are cut by the lengths, and every backslash-n of the text is replaced |
| EventPackets.LengthsRead | aggregator/aggregator.py:172-175 | printed lengths are read back |
| EventPackets.PrintedEvent | aggregator/aggregator.py:162-197 | what comes back for any title and any text |
| EventPackets.EventRoundTripIff | aggregator/aggregator.py:162-197 | a printed event comes back with sorted distinct tags, exactly when its text has no literal backslash-n |
| EventPackets.FullEvent | aggregator/aggregator.py:162-197 | an event packet with all fields, written out letter by letter, gives these fields, each for its letter |
| ServiceCheckPackets.ParseMeta | aggregator/aggregator.py:229-235 | of each letter the last field counts; an empty field or a timestamp that is no number refuses the packet |
| ServiceCheckPackets.ParseServiceCheckPacket | aggregator/aggregator.py:201-240 | name, status, the message behind the last delimiter, then the metadata |
| ServiceCheckPackets.TooFewBars | aggregator/aggregator.py:203-213 | a packet with fewer than two bars is refused |
| ServiceCheckPackets.CheckOutcome | aggregator/aggregator.py:203-240 | else, without a message, exactly for a status that is no integer, an empty field or a timestamp that is no number |
| ServiceCheckPackets.MessageIs | aggregator/aggregator.py:156-157 | the message is what follows the last delimiter, with backslash-n and then the escaped mark replaced |
| ServiceCheckPackets.SplitsAtMessage | aggregator/aggregator.py:218-221 | the split at the last delimiter never lands inside an escaped message |
| ServiceCheckPackets.NoMessageInFields | aggregator/aggregator.py:218-223 | metadata without a message has no delimiter |
| ServiceCheckPackets.PrintedCheck | aggregator/aggregator.py:201-237 | what comes back for any message |
| ServiceCheckPackets.CheckRoundTripIff | aggregator/aggregator.py:201-237 | a printed check comes back with sorted distinct tags, exactly when its message has neither a literal backslash-n nor an escaped mark |
| ServiceCheckPackets.FullCheck | aggregator/aggregator.py:201-237 | a service check packet with all fields, written out letter by letter, gives these fields, each for its letter |
| Newest.NewestFirstSorts | forwarder/worker.py:68 | the sort is a permutation, newest first |
| Newest.NewestFirstIsStable | forwarder/worker.py:68 | transactions of the same time keep their order |
| Newest.WaitingAndDue | forwarder/worker.py:72-82 | waiting and due transactions split the list |
| Newest.KeepsTheNewest | forwarder/worker.py:82 | nothing truncated is newer than what is kept |
| Newest.AcceptsTheNewest | forwarder/worker.py:77-80 | of the due ones, those beyond the free capacity are no newer than those within |
| Newest.SplitMeans | forwarder/worker.py:68-82 | what is kept waits, newest first and at most the maximum; what is offered is all that does not wait; what is truncated waits too, and is no newer |
| Workers.Transaction.Process | forwarder/transaction.py:46-112 | counts the attempt; asks for another one after a network error or a code from 400 on other than 400, 403, 404 and 413, told by those numbers |
| Workers.Transaction.Reschedule | forwarder/transaction.py:117-120 | the next flush is min(5 * tries, 90) seconds away |
| Workers.BoundedQueue.PutNowait | forwarder/forwarder.py:33-34 | appends if there are fewer than 100 entries, else refuses and changes nothing |
| Workers.BoundedQueue.Get | forwarder/worker.py:30 | takes the oldest entry, if any |
| Workers.Forwarder.SubmitPayload | forwarder/forwarder.py:75-98 | a fresh transaction without attempts is queued, or dropped when the queue is full |
| Workers.Forwarder.SubmitV1Series | forwarder/forwarder.py:103-105 | every submission is counted, queued or not |
| Workers.Forwarder.SubmitV1Intake | forwarder/forwarder.py:107-109 | every submission is counted, queued or not |
| Workers.Forwarder.SubmitV1ServiceChecks | forwarder/forwarder.py:111-114 | every submission is counted, queued or not |
| Workers.Worker.ProcessTransactions | forwarder/worker.py:27-47 | one round takes the oldest transaction and attempts it; success, rescheduled or dropped, with exactly one counter incremented, or none and the transaction lost after an unexpected exception |
| Workers.RetryWorker.FlushTransactions | forwarder/worker.py:64-82 | every transaction kept has its next flush after now, every one it put back or dropped has none, or one at zero or not after now; it keeps the newest of the waiting, at most the maximum, and offers the due ones newest first, while others take and put; if nobody takes, the newest are accepted and the rest is dropped only when the queue is full |
| Workers.FlushedByTime | forwarder/worker.py:64-82 | the same told by times: kept, put and dropped by their next flush, kept and truncated by their creation |
| Workers.RetryWorker.ProcessTransactions | forwarder/worker.py:84-97 | one round: append the next rescheduled transaction, and flush if it is time; kept transactions have their next flush after now, those put back or dropped have not |
| RetryConservation.StepConserves | forwarder/worker.py:27-97 | every step of the protocol keeps each transaction in exactly one place |
| RetryConservation.RunConserves | forwarder/worker.py:27-97 | so does every interleaving: nothing is lost or duplicated |
| RetryConservation.NoTwoWorkers | forwarder/worker.py:28-36 | no two workers have the same transaction |
| RetryConservation.HeldExist | forwarder/worker.py:28-36 | what a worker has is in no queue, not in the retry list, and has not left |
| RetryConservation.DepartedForGood | forwarder/worker.py:34-47 | once done or dropped, a transaction is never attempted or rescheduled again |
| RetryAccounting.RunAccounts | forwarder/worker.py:34-47 | attempts, counters and departures stay in balance, and the queues within 100 |
| RetryAccounting.AttemptsAreCounted | forwarder/worker.py:34-47 | between rounds the attempts are the three counters plus unexpected exceptions; payload counters sum to the transactions created |
| RetryBackoff.StepBacksOff | forwarder/transaction.py:117-120 | every step keeps the attempts of every transaction far enough apart |
| RetryBackoff.AttemptsBackOff | forwarder/transaction.py:117-120 | in every run the attempt after n failures starts at least the sum of min(5i, 90), i = 1..n, after the first |
| RetryBackoff.BackoffClosedForm | forwarder/transaction.py:117-120 | that sum is 5n(n+1)/2 up to 18, and 855 + 90(n - 18) from there |
| RetryBackoff.InputIsDue | forwarder/worker.py:72-77 | what is in the input queue again has waited for its next flush |
| RetryFlush.StepKeepsFlush | forwarder/worker.py:71-80 | whatever the others do, the flush loop has kept exactly the waiting ones of those it has seen |
| RetryFlush.FlushKeepsTheNewest | forwarder/worker.py:64-82 | from the state in which a flush begins, in every interleaving: it ends with the newest of the list that were not due then, at most the maximum, and truncates none newer; if nothing is taken from the input queue meanwhile, the due ones are put there newest first until it is full, and the rest is dropped |
| RetryFlush.UninterruptedFlush | forwarder/worker.py:64-82 | without interruption the steps of a flush do what the method FlushTransactions promises |
| RetrySteps.SuccessfulRound | forwarder/worker.py:27-45 | a round of a worker that nobody interrupts, and that succeeds, is possible whenever the input queue has something; it takes the oldest transaction, attempts it once, and counts one success |
| RetrySteps.FailedRound | forwarder/worker.py:34-43 | a failed one sets its next flush min(5 * tries, 90) seconds ahead and puts it on the retry queue, or drops it if a hundred are there, and counts which |
| RetrySteps.CrashedRound | forwarder/worker.py:46-47 | after an unexpected exception it is gone, and nothing is counted |
| RetrySteps.SubmitIs | forwarder/forwarder.py:75-98 | a submission is stamped with the clock, and queued unless a hundred are waiting |
| RetrySteps.FailIs | forwarder/transaction.py:117-120 | whenever it comes, a failure reschedules by min(5 * tries, 90) seconds |
| RetrySteps.LateIff | forwarder/worker.py:73 | a flush passes over exactly those of the list whose next flush is still to come |
| RetrySteps.StepQueues | forwarder/forwarder.py:33-34 | in every run both queues stay within a hundred |
| RetrySteps.SubmissionsAreCounted | forwarder/forwarder.py:103-114 | in every run each payload counter is the number of submissions of its kind |
| RetrySteps.FlushesAreApart | forwarder/worker.py:92-97 | in every run a flush begins no sooner than the flush interval after the one before ended |
| RetrySteps.FirstFlush | forwarder/worker.py:99-100 | nor after the start |
| ConfigTree.RestIsShorter | config/config.py:146-187 | the measure of the recursion: a shorter name, or the same name one level down |
| ConfigTree.PassesIsChosen | config/config.py:169-175 | nothing comes before a path's own key when the name is no key and no shorter prefix is |
| ConfigTree.UnshadowedIsWritten | config/config.py:154-187 | the name of an unshadowed path resolves to that path |
| ConfigTree.WrittenIsUnshadowed | config/config.py:154-187 | and only then, for keys that are not empty |
| ConfigTree.ResolvesIff | config/config.py:154-187 | both directions |
| ConfigLookup.OverrideIsCopyAndWrite | config/config.py:169-180 | an override copies the first missing key of the path from the defaults, then writes one leaf |
| ConfigLookup.EffectiveAfterWrite | config/config.py:42-54 | the write changes the lookup of its path and no other |
| ConfigLookup.EffectiveAfterCopy | config/config.py:42-54 | the copy changes lookups only below the level where defaults are merged in |
| ConfigLookup.OverrideFrameIff | config/config.py:154-187 | an override sets its value, and leaves every other lookup alone exactly when it copies no dictionary with other values below the second level |
| ConfigLookup.OverrideKeepsValues | config/config.py:154-187 | for any name, resolved or not: the value is found at the path written, every other value of the data stays, and what appears is the default of its own path |
| ConfigExamples.SiblingAppears | config/config.py:171-172 | a configuration where an override makes another value visible |
| ConfigExamples.EmptyKeyCoincides | config/config.py:146-152 | with an empty key, a shadowed path is written by another reading of its name |
| ConfigBinding.NamesAreJoins | config/config.py:135-144 | every scalar is bound under the keys of its path joined by '_' |
| ConfigBinding.LookAfterSet | config/config.py:62-72 | a default is found at its path, and every lookup on a path apart from it is as before |
| ConfigBinding.LeavesAreApart | config/config.py:135-144 | no scalar of a declared value lies on the path of another, as no dictionary has a key twice |
| ConfigBinding.DeclaredIsFound | config/config.py:135-144 | every scalar of a declared value is found at its path afterwards |
| ConfigBinding.FreeIsUnshadowed | config/config.py:154-187 | a path that has a default is unshadowed exactly when no key comes before its keys and the data have no value on the way |
| ConfigBinding.BoundNameSets | config/config.py:135-187 | binding and overriding are inverse: after a declaration, and others at paths apart, the i-th variable bound sets the lookup of the i-th path, if nothing comes before its keys; and, for keys that are not empty, it resolves to that path only then |
| Configs.EnvVarNamespaces | config/config.py:146-152 | the whole name with no rest, then every cut at a '_' |
| Configs.Walk | config/config.py:156-165 | the walk along a path, which stops at an empty dictionary, finds the dictionary at the path |
| Configs.ScanFinds | config/config.py:169-175 | scanning the list finds the shortest existing first key |
| Configs.Config.SetDefault | config/config.py:62-72 | the default is found at its path, dictionaries on the way are made, and lookups on paths apart from it are as before |
| Configs.Config.BindEnvAndSetDefault | config/config.py:135-144 | every scalar is then found at its path, every flattened name is a binding, and nothing else |
| Configs.Config.EnvOverride | config/config.py:154-187 | the walking, copying and writing from the root does what the recursion on the dictionaries does |
| Scheduler.ResolveInterval | collector/collector.py:119-161 | the interval is that of Resolve, which IntervalChain describes case by case |
| Scheduler.ResolvedInterval | collector/collector.py:147-163 | an interval is at least one second and the global minimum; the instance's own value counts when it reads |
| Scheduler.IntervalChain | collector/collector.py:119-161 | every case: a truthy own value that reads counts; a falsy one gives way to a truthy one of init_config, that to the class default; a choice that does not read falls back to init_config, then the class default, then the global minimum; each clamped; an infinite value that is tried fails |
| Scheduler.TruncateIs | collector/collector.py:127 | int goes toward zero |
| Scheduler.ClampedIs | collector/collector.py:147 | the clamp is at least one, the global minimum and the value, and one of them |
| Collectors.UsableIff | collector/collector.py:115-183 | an instance is registered unless its check cannot be made, or a value that is tried is infinite |
| Collectors.Collector.Instantiate | collector/collector.py:108-183 | a new check is registered, with empty statistics, unless its signature is known or it cannot be made; runs, statistics and errors of all others stay |
| Collectors.Collector.InstantiateAll | collector/collector.py:108-183 | the checks registered are those of Registered, whatever is there before; the new ones have not run, and the others keep runs and statistics |
| Collectors.RegisteredOnce | collector/collector.py:109-113 | no signature is registered twice |
| Collectors.RegisteredLongEnough | collector/collector.py:147-163 | no new interval is below a second or the global minimum |
| Collectors.RegisteredIff | collector/collector.py:109-170 | a signature is registered exactly when it was known or some usable instance has it |
| Collectors.FirstInstanceCounts | collector/collector.py:109-170 | a new signature has the interval of the first usable instance that has it |
| Collectors.EnrolledAt | collector/collector.py:172-180 | only new signatures get statistics, empty ones |
| Scheduler.AtMostSoMany | collector/collector.py:193-201 | a closed window of length T has at most floor(T / interval) + 1 starts |
| Collectors.Check.StartsInWindow | collector/collector.py:191-212 | for the starts of any check that came back, over whole runs |
| Collectors.Check.CloseStarts | collector/collector.py:191-212 | the j-th start is at least j - i intervals after the i-th, so that at most floor(T / interval) more follow within a time T |
| Collectors.DueIff | collector/collector.py:193-201 | a check is due when an interval has passed since its last run that came back began, or since time zero if there is none |
| Collectors.Check.HasRun | collector/collector.py:211-212 | a run that comes back is recorded, and keeps the starts an interval apart |
| Scheduler.WindowSlides | collector/collector.py:228-234 | appending and popping keeps the last 100 execution times of the full history |
| Collectors.Collector.Record | collector/collector.py:217-234 | the statistics of one signature get one more run and its time, of which the last 100 stay; all others are as they were |
| Collectors.FitAt | collector/collector.py:217-234 | every check's counter is the number of its runs, and its execution times are the last 100 durations of all its runs, which the collector keeps true |
| Collectors.WindowAt | collector/collector.py:217-234 | entry by entry: the window has as many entries as there are runs but at most 100, and they are the durations of the last runs in order |
| Collectors.Collector.RunOne | collector/collector.py:190-242 | one check: skipped when not due, else run, recorded and perhaps reported, or the round ends; runs, statistics and errors are those of one more turn |
| Collectors.Collector.RunChecks | collector/collector.py:188-245 | a round goes through all checks, up to one that raises while no result is bound, and leaves runs, statistics and errors as its turns make them |
| Collectors.RoundRuns | collector/collector.py:189-212 | exactly the due checks that come back have one more run, with that start and duration |
| Collectors.RoundStats | collector/collector.py:217-234 | exactly for these the counter goes up by one and the duration is appended |
| Collectors.RoundKeepsOtherStats | collector/collector.py:217-234 | statistics of signatures without a check stay |
| Collectors.RoundErrors | collector/collector.py:239-242 | exactly the checks that are due while the last result is an error are added to the errors |
| Collectors.ResultIsLast | collector/collector.py:210-242 | the variable `result` is that of the last check that came back, across checks that are skipped or raise |
| Collectors.RoundIsBound | collector/collector.py:236-239 | no turn reads an unbound result exactly when no due check raises before any came back |
| Collectors.DueAgainIff | collector/collector.py:194-212 | a check that was due is due again exactly when an interval has passed or it raised |

## Left out

- The order of contexts inside one bucket of a report: a Python dictionary's insertion order, which no promise rests on.
- Caller-supplied timestamps and the discarding of old points: packets pass no timestamp, and re-created past buckets would break uniqueness of reports.
- A context that changes its metric type: the context has no type, and the run theorems ask for one type per context, as Counters alone leave the zero-fill set.
- Data races between submission and flush, which share no lock: both are atomic steps of the aggregator model. A submission still reads the clock twice.
- The classes Gauge, Count and Rate, and the aggregator for checks: simpler than the classes modelled, and without buckets.
- The counters of packets and metrics, and the log messages: display only.
- The dispatch of packet lines by prefix, and UTF-8 decoding: each parser is modelled on the packet it gets.
- Floating point: reals are exact; NaN and infinities appear only in the numbers that packets and configurations can hold.
- How Python reads numbers in metric packets is a parameter; in event and service check packets `int` is modelled for ASCII digits, signs, underscores and ASCII white space, without a limit on their number.
- BucketAggregator.MetricsBucketAggregator.Submit: asks for one metric type per context, as above, and for a rate in [0, 1]; a NaN rate raises at the same place as rate zero, and is to be submitted as that.
- BucketAggregator.MetricsBucketAggregator.SubmitMetric: asks for the same, and takes no timestamp from the caller, as above.
- HTTP requests, payload encoding, proxies and headers: the outcome of a POST is a value.
- Threads, blocking reads and their timeouts, and stopping: the protocol's steps are atomic, and a read that times out finds the queue empty.
- RetryBackoff.AttemptsBackOff: assumes a clock that never goes back and starts at zero or later; the program uses wall-clock time.
- ConfigTree.WrittenIsUnshadowed: asks for keys that are not empty, because ConfigExamples.EmptyKeyCoincides shows that it fails with one.
- An override that meets a value where it needs a dictionary: the program raises or returns false depending on the value's type; the model stops with Stuck.
- Configs.Config.SetDefault: the walk that makes dictionaries is the recursion of a function on values, so updates through other references to a nested dictionary are not modelled; the same holds for nested dictionaries of the data.
- Collectors.Check.StartsInWindow: counts the runs that came back, as the program does; a check that raises is due again at once, so its attempts have no such bound (Collectors.DueAgainIff).
- Configs.Config.BindEnvAndSetDefault: asks that no scalar stands where a dictionary is needed; there the program raises a TypeError.
- Collectors.Collector.RunChecks: the checks are one list, in the order of the program's lists by name; the text of errors and tracebacks is not kept, and that the round ends early is its result, where the program raises.
- YAML files, search paths, providers, check loading, metadata, the API, status display and all checks: file system and display code.
