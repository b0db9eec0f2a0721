// The tables of the bucket aggregator: for each time bucket a dictionary from
// contexts to metric objects, and a cached reference to the dictionary of the
// current bucket.
module Tables {
  import opened Prelude
  import opened MetricSpec
  import opened Metrics

  /** The inner dictionary of one bucket.  `contents` is what its objects hold. */
  class ContextTable {
    var metrics: map<Context, Metric>
    ghost var contents: map<Context, MetricState>
    ghost var Repr: set<object>

    ghost predicate Valid()
      reads this, Repr
    {
      && this in Repr
      && metrics.Keys == contents.Keys
      && forall c :: c in metrics ==>
           metrics[c].Obj() in Repr && metrics[c].Ctx() == c && metrics[c].State() == contents[c]
    }

    constructor ()
      ensures Valid() && fresh(Repr) && metrics == map[]
    {
      metrics, contents, Repr := map[], map[], {this};
    }

    /** `metric_by_context[context]`, created if missing, takes one sample. */
    method Sample(ctx: Context, reading: Reading, now: real) returns (ok: bool)
      requires Valid() && reading.Valid()
      requires ctx in contents ==> !reading.Unresolved?
      requires !reading.Unresolved? ==> KindOf(Entry(contents, ctx, reading), reading)
      modifies Repr
      ensures Valid() && fresh(Repr - old(Repr))
      ensures ok <==> reading.Succeeds()
      ensures contents == old(contents) + SampledEntry(old(contents), ctx, reading, now)
    {
      hide Valid, KindOf, SampleState, NewState, Reading.Valid;
      Keys();
      if ctx !in metrics {
        if reading.Unresolved? {
          return false;
        }
        Create(ctx, reading);
      }
      ok := SampleKnown(ctx, reading, now);
    }

    method Create(ctx: Context, reading: Reading)
      requires Valid() && ctx !in metrics && !reading.Unresolved?
      modifies this
      ensures Valid() && Repr >= old(Repr) && fresh(Repr - old(Repr))
      ensures contents == old(contents)[ctx := NewState(reading)]
    {
      hide Valid, HoldsBut, Metric.Obj, Metric.Ctx, Metric.State, NewState;
      Keys();
      var m := NewMetric(reading, ctx);
      metrics, contents, Repr := metrics[ctx := m], contents[ctx := NewState(reading)], Repr + {m.Obj()};
      NewOneAdded(ctx, m);
      Note(ctx);
    }

    twostate lemma NewOneAdded(ctx: Context, new m: Metric)
      requires old(Valid()) && m.Ctx() == ctx && fresh(m.Obj())
      requires metrics == old(metrics)[ctx := m] && Repr == old(Repr) + {m.Obj()}
      requires contents.Keys == old(contents).Keys + {ctx}
      requires forall c :: c in old(contents) && c != ctx ==> contents[c] == old(contents)[c]
      requires forall o :: o in old(Repr) && o != this ==> unchanged(o)
      ensures HoldsBut(ctx)
    {
      hide Metric.Obj, Metric.Ctx, Metric.State;
      forall c | c in metrics && c != ctx
        ensures metrics[c].Obj() in Repr && metrics[c].Ctx() == c && metrics[c].State() == contents[c]
      {
        NotATable(metrics[c]);
      }
    }

    lemma NotATable(m: Metric)
      ensures m.Obj() != this
    {
    }

    method SampleKnown(ctx: Context, reading: Reading, now: real) returns (ok: bool)
      requires Valid() && reading.Valid()
      requires ctx in contents && KindOf(contents[ctx], reading)
      modifies this`contents, Repr - {this}
      ensures Valid()
      ensures ok <==> reading.Succeeds()
      ensures contents == old(contents)[ctx := SampleState(old(contents[ctx]), reading, now)]
    {
      hide Valid, HoldsBut, SampleState, KindOf, Reading.Valid, Reading.Succeeds, Metric.State;
      HoldsState(ctx);
      ok := SampleMetric(metrics[ctx], reading, now);
      OthersKeepState(ctx);
      Note(ctx);
    }

    lemma Keys()
      requires Valid()
      ensures metrics.Keys == contents.Keys && this in Repr
    {
    }

    lemma HoldsState(ctx: Context)
      requires Valid() && ctx in contents
      ensures ctx in metrics && metrics[ctx].Obj() in Repr && metrics[ctx].Obj() != this && this in Repr
      ensures metrics[ctx].Ctx() == ctx && metrics[ctx].State() == contents[ctx]
    {
    }

    /** Records that the object of one context, and no other, has changed. */
    ghost method Note(ctx: Context)
      requires ctx in metrics && HoldsBut(ctx)
      modifies this`contents
      ensures Valid() && contents == old(contents)[ctx := metrics[ctx].State()]
    {
      contents := contents[ctx := metrics[ctx].State()];
    }

    ghost predicate HoldsBut(ctx: Context)
      reads this, Repr
    {
      && this in Repr
      && metrics.Keys == contents.Keys
      && forall c :: c in metrics ==>
           metrics[c].Obj() in Repr && metrics[c].Ctx() == c && (c != ctx ==> metrics[c].State() == contents[c])
    }

    twostate lemma OthersKeepState(ctx: Context)
      requires old(Valid()) && ctx in metrics && unchanged(this)
      requires forall o :: o in Repr && o != metrics[ctx].Obj() ==> unchanged(o)
      ensures HoldsBut(ctx)
    {
      hide Metric.State;
      forall c | c in metrics && c != ctx ensures metrics[c].Obj() != metrics[ctx].Obj() {
        ObjectHasOneContext(metrics[c], metrics[ctx]);
      }
    }

    function LastSampleTime(ctx: Context): Option<real>
      requires Valid() && ctx in metrics
      reads this, Repr
    {
      metrics[ctx].LastSampleTime()
    }

    /** `metric.flush(...)` on the object of one context. */
    method FlushOne(ctx: Context, hc: HistogramConfig, interval: real, ts: real) returns (points: seq<Point>)
      requires Valid() && ctx in metrics && Sane(contents[ctx])
      requires ValidHistogramConfig(hc) && interval > 0.0
      modifies this`contents, Repr - {this}
      ensures Valid()
      ensures points == FlushPoints(hc, interval, ctx, old(contents[ctx]), ts)
      ensures contents.Keys == old(contents.Keys)
      ensures forall c :: c in contents && c != ctx ==> contents[c] == old(contents[c])
    {
      hide Valid, HoldsBut, FlushPoints, ValidHistogramConfig, Sane, Metric.State;
      Keys();
      HoldsState(ctx);
      points := FlushMetric(metrics[ctx], hc, interval, ts);
      OthersKeepState(ctx);
      Note(ctx);
    }
  }

  function Entry(contents: map<Context, MetricState>, ctx: Context, reading: Reading): MetricState
    requires !reading.Unresolved?
  {
    if ctx in contents then contents[ctx] else NewState(reading)
  }

  /** The entry that one more sample leaves; none for an unknown type. */
  function SampledEntry(contents: map<Context, MetricState>, ctx: Context, reading: Reading, now: real): map<Context, MetricState>
    requires reading.Valid()
    requires !reading.Unresolved? ==> KindOf(Entry(contents, ctx, reading), reading)
  {
    if reading.Unresolved? then map[]
    else map[ctx := SampleState(Entry(contents, ctx, reading), reading, now)]
  }

  type Pending = map<real, map<Context, MetricState>>

  function TableAt(pending: Pending, b: real): map<Context, MetricState> {
    if b in pending then pending[b] else map[]
  }

  /** `metric_by_bucket`, `current_bucket` and `current_mbc`.  `contents` is what the tables hold. */
  class BucketTables {
    var metricByBucket: map<real, ContextTable>
    var currentBucket: Option<real>
    var currentMbc: ContextTable
    ghost var contents: Pending
    ghost var Repr: set<object>

    ghost predicate Valid()
      reads this, Repr
    {
      TablesValid({}) && (currentBucket.Some? ==> CacheAliases(currentBucket.value))
    }

    /** Every table but those in `skipped` is sound, and no two share an object. */
    ghost predicate TablesValid(skipped: set<real>)
      reads `metricByBucket, `contents, `Repr, Repr - {this}
    {
      && this in Repr
      && metricByBucket.Keys == contents.Keys
      && (forall b :: b in metricByBucket && b !in skipped ==> TableValid(b))
      && (forall b, d :: b in metricByBucket && d in metricByBucket && b != d && b !in skipped && d !in skipped ==> Apart(b, d))
    }

    ghost predicate TableValid(b: real)
      requires b in metricByBucket && b in contents
      reads `metricByBucket, `contents, `Repr, Repr - {this}
    {
      && metricByBucket[b] in Repr && metricByBucket[b].Repr <= Repr && this !in metricByBucket[b].Repr
      && metricByBucket[b].Valid() && metricByBucket[b].contents == contents[b]
    }

    /** Two tables share no object. */
    ghost predicate Apart(b: real, d: real)
      requires b in metricByBucket && d in metricByBucket
      reads `metricByBucket, metricByBucket[b], metricByBucket[d]
    {
      metricByBucket[b].Repr !! metricByBucket[d].Repr
    }

    /** The cached table is the very object that a lookup of the cached bucket finds. */
    ghost predicate CacheAliases(b: real)
      reads `metricByBucket, `currentMbc
    {
      b in metricByBucket && metricByBucket[b] == currentMbc
    }

    constructor ()
      ensures Valid() && fresh(Repr)
      ensures contents == map[] && currentBucket == None
    {
      metricByBucket, currentBucket := map[], None;
      contents, Repr := map[], {this};
      currentMbc := new ContextTable();
    }

    /** The table for bucket `b`: the cached one, an existing one or a new one. */
    method TableFor(b: real) returns (table: ContextTable)
      requires Valid()
      modifies this
      ensures Valid() && fresh(Repr - old(Repr))
      ensures contents == old(contents)[b := TableAt(old(contents), b)]
      ensures currentBucket == Some(b) && currentMbc == table && CacheAliases(b)
    {
      hide TablesValid;
      SameKeys();
      if currentBucket == Some(b) {
        table := currentMbc;
      } else {
        if b !in metricByBucket {
          AddTable(b);
        }
        table := metricByBucket[b];
        currentBucket := Some(b);
        currentMbc := table;
      }
    }

    lemma SameKeys()
      requires TablesValid({})
      ensures metricByBucket.Keys == contents.Keys && this in Repr
    {
    }

    lemma OwnsTable(b: real)
      requires TablesValid({}) && b in metricByBucket
      ensures b in contents && metricByBucket[b].contents == contents[b] && metricByBucket[b].Repr <= Repr
      ensures metricByBucket[b].Valid() && this !in metricByBucket[b].Repr
    {
      assert TableValid(b);
    }

    method AddTable(b: real)
      requires Valid() && b !in metricByBucket
      modifies this
      ensures Valid() && fresh(Repr - old(Repr))
      ensures contents == old(contents)[b := map[]] && b in metricByBucket
      ensures currentBucket == old(currentBucket)
    {
      hide TablesValid, Apart;
      SameKeys();
      var table := new ContextTable();
      assert table.contents == map[];
      metricByBucket := metricByBucket[b := table];
      contents := contents[b := map[]];
      Added(b, table);
      Grown(b, table);
    }

    /** A new table is apart from all others. */
    twostate lemma Added(b: real, new table: ContextTable)
      requires old(TablesValid({})) && old(b !in metricByBucket)
      requires metricByBucket == old(metricByBucket)[b := table]
      requires contents == old(contents)[b := map[]] && Repr == old(Repr)
      requires forall o :: o in old(Repr) && o != this ==> unchanged(o)
      requires fresh(table) && fresh(table.Repr)
      ensures TablesValid({b}) && this !in table.Repr && forall x :: x in metricByBucket && x != b ==> Apart(x, b)
    {
      hide ContextTable.Valid;
      forall x | x in metricByBucket && x != b ensures TableValid(x) && Apart(x, b) {
        assert old(TableValid(x));
      }
      forall x, y | x in metricByBucket && y in metricByBucket && x != y && x != b && y != b ensures Apart(x, y) {
        assert old(TableValid(x)) && old(TableValid(y)) && old(Apart(x, y));
      }
    }

    /** Lookup and sample: only the entry for (b, ctx) changes. */
    method SampleAt(b: real, ctx: Context, reading: Reading, now: real) returns (ok: bool)
      requires Valid() && reading.Valid()
      requires ctx in TableAt(contents, b) ==> !reading.Unresolved?
      requires !reading.Unresolved? ==> KindOf(Entry(TableAt(contents, b), ctx, reading), reading)
      modifies Repr
      ensures Valid() && fresh(Repr - old(Repr))
      ensures ok <==> reading.Succeeds()
      ensures contents == old(contents)[b := TableAt(old(contents), b)
                                             + SampledEntry(TableAt(old(contents), b), ctx, reading, now)]
    {
      hide TablesValid, Entry, SampledEntry, KindOf, Reading.Valid, Reading.Succeeds;
      SameKeys();
      var table := TableFor(b);
      OwnsTable(b);
      ok := SampleFound(b, table, ctx, reading, now);
    }

    method SampleFound(ghost b: real, table: ContextTable, ctx: Context, reading: Reading, now: real) returns (ok: bool)
      requires Valid() && b in metricByBucket && metricByBucket[b] == table && reading.Valid()
      requires ctx in contents[b] ==> !reading.Unresolved?
      requires !reading.Unresolved? ==> KindOf(Entry(contents[b], ctx, reading), reading)
      modifies this`contents, this`Repr, table.Repr
      ensures Valid() && fresh(Repr - old(Repr))
      ensures ok <==> reading.Succeeds()
      ensures contents == old(contents)[b := old(contents[b]) + SampledEntry(old(contents[b]), ctx, reading, now)]
    {
      assert TableValid(b);
      ok := table.Sample(ctx, reading, now);
      OnlyTableChanged(b);
      Grown(b, table);
    }

    /** Records that the table of `b` has changed, perhaps with new objects. */
    ghost method Grown(b: real, table: ContextTable)
      requires TablesValid({b}) && b in metricByBucket && metricByBucket[b] == table
      requires table.Valid() && this !in table.Repr
      requires forall x :: x in metricByBucket && x != b ==> Apart(x, b)
      modifies this`contents, this`Repr
      ensures TablesValid({}) && contents == old(contents)[b := table.contents] && Repr == old(Repr) + table.Repr
    {
      contents := contents[b := table.contents];
      Repr := Repr + table.Repr;
      forall x | x in metricByBucket && x != b ensures TableValid(x) {
        assert old(TableValid(x));
      }
    }

    /** Only the objects of one table changed. */
    twostate lemma OnlyTableChanged(b: real)
      requires old(TablesValid({})) && old(b in metricByBucket) && unchanged(this)
      requires forall o :: o in old(Repr) && o !in old(metricByBucket[b].Repr) ==> unchanged(o)
      ensures TablesValid({b})
    {
      forall x | x in metricByBucket && x != b ensures TableValid(x) {
        assert old(TableValid(x)) && old(Apart(x, b));
      }
      forall x, y | x in metricByBucket && y in metricByBucket && x != y && x != b && y != b ensures Apart(x, y) {
        assert old(TableValid(x)) && old(TableValid(y)) && old(Apart(x, y)) && old(Apart(x, b)) && old(Apart(y, b));
      }
    }

    /** `del metric_by_bucket[b]`; the cache may go on pointing to the deleted table until it is reset. */
    method Drop(b: real)
      requires TablesValid({b}) && b in metricByBucket
      modifies this`metricByBucket, this`contents
      ensures TablesValid({}) && metricByBucket == old(metricByBucket) - {b}
      ensures contents == old(contents) - {b}
    {
      metricByBucket := metricByBucket - {b};
      contents := contents - {b};
      forall x | x in metricByBucket ensures TableValid(x) {
        assert old(TableValid(x));
      }
      forall x, y | x in metricByBucket && y in metricByBucket && x != y ensures Apart(x, y) {
        assert old(Apart(x, y));
      }
    }

    method ResetCache()
      requires TablesValid({})
      modifies this`currentBucket, this`currentMbc, this`Repr
      ensures Valid() && fresh(Repr - old(Repr)) && currentBucket == None
    {
      currentBucket := None;
      currentMbc := new ContextTable();
      forall x | x in metricByBucket ensures TableValid(x) {
        assert old(TableValid(x));
      }
      forall x, y | x in metricByBucket && y in metricByBucket && x != y ensures Apart(x, y) {
        assert old(Apart(x, y));
      }
    }
  }
}
