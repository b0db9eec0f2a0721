// The count that is derived from a counter's raw readings.
module MonotonicCounts {
  import opened Prelude

  /** prev_counter, curr_counter and count. */
  datatype State = State(prev: Option<real>, curr: Option<real>, count: Option<real>)

  const INITIAL := State(None, None, None)

  function Increase(from: real, to: real): real {
    if from < to then to - from else 0.0
  }

  function OrZero(x: Option<real>): real {
    if x.Some? then x.value else 0.0
  }

  function Sampled(s: State, v: real): State {
    var prev := if s.curr.Some? then s.curr else s.prev;
    State(prev, Some(v), if prev.Some? then Some(OrZero(s.count) + Increase(prev.value, v)) else s.count)
  }

  /** A flush without a count changes nothing. */
  function Flushed(s: State): State {
    if s.count.None? then s else State(s.curr, None, None)
  }

  class MonotonicCount {
    var prevCounter: Option<real>
    var currCounter: Option<real>
    var count: Option<real>

    function Now(): State
      reads this
    {
      State(prevCounter, currCounter, count)
    }

    constructor ()
      ensures Now() == INITIAL
    {
      prevCounter, currCounter, count := None, None, None;
    }

    method Sample(v: real)
      modifies this
      ensures currCounter == Some(v)
      ensures prevCounter == if old(currCounter).Some? then old(currCounter) else old(prevCounter)
      ensures prevCounter.None? ==> count == old(count)
      ensures prevCounter.Some? ==> count == Some((if old(count).Some? then old(count).value else 0.0)
                                                  + (if prevCounter.value < v then v - prevCounter.value else 0.0))
      ensures Now() == Sampled(old(Now()), v)
    {
      if currCounter.None? {
        currCounter := Some(v);
      } else {
        prevCounter := currCounter;
        currCounter := Some(v);
      }
      if prevCounter.Some? && currCounter.Some? {
        var step := currCounter.value - prevCounter.value;
        count := Some(OrZero(count) + if step < 0.0 then 0.0 else step);
      }
    }

    /** Returns the reported value, if any. */
    method Flush() returns (reported: Option<real>)
      modifies this
      ensures reported == old(count)
      ensures old(count).None? ==> prevCounter == old(prevCounter) && currCounter == old(currCounter) && count == None
      ensures old(count).Some? ==> prevCounter == old(currCounter) && currCounter == None && count == None
      ensures Now() == Flushed(old(Now()))
    {
      if count.None? {
        return None;
      }
      reported := count;
      prevCounter := currCounter;
      currCounter := None;
      count := None;
    }
  }

  // ---------- runs ----------

  /** Samples and flushes in any order. */
  datatype Op = Sample(v: real) | Flush

  function After(ops: seq<Op>): State {
    if ops == [] then INITIAL
    else
      var s := After(ops[..|ops| - 1]);
      match ops[|ops| - 1]
      case Sample(v) => Sampled(s, v)
      case Flush => Flushed(s)
  }

  /** Sum of everything that the flushes reported. */
  function Reported(ops: seq<Op>): real {
    if ops == [] then 0.0
    else
      var before := ops[..|ops| - 1];
      Reported(before) + if ops[|ops| - 1].Flush? then OrZero(After(before).count) else 0.0
  }

  function Readings(ops: seq<Op>): seq<real> {
    if ops == [] then []
    else Readings(ops[..|ops| - 1]) + if ops[|ops| - 1].Sample? then [ops[|ops| - 1].v] else []
  }

  /** Sum of the positive steps between consecutive readings. */
  function Rises(vs: seq<real>): real {
    if |vs| < 2 then 0.0 else Rises(vs[..|vs| - 1]) + Increase(vs[|vs| - 2], vs[|vs| - 1])
  }

  /** Whatever the flushes in between: what was reported plus what is pending is the sum of the rises. */
  lemma {:induction false} Telescopes(ops: seq<Op>)
    ensures Reported(ops) + OrZero(After(ops).count) == Rises(Readings(ops))
    ensures var s := After(ops);
            var vs := Readings(ops);
            && (vs == [] <==> s.prev.None? && s.curr.None?)
            && (vs != [] ==> vs[|vs| - 1] == if s.curr.Some? then s.curr.value else OrZero(s.prev))
  {
    if ops != [] {
      var before := ops[..|ops| - 1];
      Telescopes(before);
      match ops[|ops| - 1]
      case Flush =>
        assert Readings(ops) == Readings(before);
      case Sample(v) =>
        assert Readings(ops) == Readings(before) + [v];
        RisesStep(Readings(before), v);
    }
  }

  /** One reading more adds what it is above the one before, and nothing if it is below. */
  lemma RisesStep(vs: seq<real>, v: real)
    ensures Rises([]) == 0.0
    ensures Rises(vs + [v]) == Rises(vs) + if vs != [] && vs[|vs| - 1] < v then v - vs[|vs| - 1] else 0.0
  {
    assert (vs + [v])[..|vs|] == vs;
  }

  /** For readings that never fall, reported plus pending is the last reading minus the first. */
  lemma {:induction false} NonDecreasingTelescopes(vs: seq<real>)
    requires vs != [] && forall i, j :: 0 <= i < j < |vs| ==> vs[i] <= vs[j]
    ensures Rises(vs) == vs[|vs| - 1] - vs[0]
  {
    if |vs| > 1 {
      NonDecreasingTelescopes(vs[..|vs| - 1]);
    }
  }

  lemma TelescopesToDifference(ops: seq<Op>)
    requires var vs := Readings(ops); vs != [] && forall i, j :: 0 <= i < j < |vs| ==> vs[i] <= vs[j]
    ensures var vs := Readings(ops); Reported(ops) + OrZero(After(ops).count) == vs[|vs| - 1] - vs[0]
  {
    Telescopes(ops);
    NonDecreasingTelescopes(Readings(ops));
  }
}
