// The keys of a dictionary in ascending order.
module Keys {
  import opened MetricSpec

  ghost predicate Ascending(s: seq<real>) {
    forall i, j :: 0 <= i < j < |s| ==> s[i] < s[j]
  }

  lemma {:induction false} InsertAscending(x: real, s: seq<real>)
    requires Ascending(s) && x !in s
    ensures Ascending(Insert(x, s))
    ensures forall y :: y in Insert(x, s) <==> y == x || y in s
  {
    if s != [] && s[0] < x {
      InsertAscending(x, s[1..]);
      var rest := Insert(x, s[1..]);
      forall k | 0 <= k < |rest| ensures s[0] < rest[k] {
        assert rest[k] in rest;
      }
      assert s == [s[0]] + s[1..];
    }
  }

  /** The elements of a set in some order. */
  method Elements<T(==)>(s: set<T>) returns (r: seq<T>)
    ensures forall x :: x in r <==> x in s
    ensures forall i, j :: 0 <= i < j < |r| ==> r[i] != r[j]
  {
    r := [];
    var left := s;
    while left != {}
      invariant left <= s
      invariant forall x :: x in r <==> x in s && x !in left
      invariant forall i, j :: 0 <= i < j < |r| ==> r[i] != r[j]
      decreases left
    {
      var x :| x in left;
      r, left := r + [x], left - {x};
    }
  }

  /** `sorted(keys)` */
  method SortedKeys(keys: set<real>) returns (order: seq<real>)
    ensures Ascending(order)
    ensures forall b :: b in order <==> b in keys
  {
    var all := Elements(keys);
    order := [];
    for i := 0 to |all|
      invariant Ascending(order)
      invariant forall b :: b in order <==> b in all[..i]
    {
      assert all[i] !in all[..i];
      assert all[..i + 1] == all[..i] + [all[i]];
      InsertAscending(all[i], order);
      order := Insert(all[i], order);
    }
    assert all[..|all|] == all;
  }

  // ---------- the same in proofs ----------

  lemma ElementsOf<T>(s: set<T>) returns (r: seq<T>)
    ensures forall x :: x in r <==> x in s
    ensures forall i, j :: 0 <= i < j < |r| ==> r[i] != r[j]
    decreases s
  {
    if s == {} {
      r := [];
    } else {
      var x :| x in s;
      var rest := ElementsOf(s - {x});
      r := rest + [x];
    }
  }

  lemma {:induction false} InsertAll(s: seq<real>) returns (order: seq<real>)
    requires forall i, j :: 0 <= i < j < |s| ==> s[i] != s[j]
    ensures Ascending(order)
    ensures forall x :: x in order <==> x in s
  {
    if s == [] {
      order := [];
    } else {
      var n := |s| - 1;
      var rest := InsertAll(s[..n]);
      assert s[n] !in s[..n];
      InsertAscending(s[n], rest);
      order := Insert(s[n], rest);
      assert s == s[..n] + [s[n]];
    }
  }
}
