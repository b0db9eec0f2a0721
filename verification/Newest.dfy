// Sorting by creation time, newest first, and splitting a sorted list into the
// elements that wait and those that are due.
module Newest {

  // ---------- newest first ----------

  /** `sort(key=created_at, reverse=True)`: newest first, equal ones in their old order. */
  function NewestFirst<T>(age: T -> real, ts: seq<T>): seq<T> {
    if ts == [] then [] else Place(age, ts[|ts| - 1], NewestFirst(age, ts[..|ts| - 1]))
  }

  /** Behind everything that is at least as new. */
  function Place<T>(age: T -> real, t: T, ts: seq<T>): seq<T> {
    if ts == [] then [t]
    else if age(ts[|ts| - 1]) >= age(t) then ts + [t]
    else Place(age, t, ts[..|ts| - 1]) + [ts[|ts| - 1]]
  }

  ghost predicate IsNewestFirst<T>(age: T -> real, ts: seq<T>) {
    forall i, j :: 0 <= i < j < |ts| ==> age(ts[i]) >= age(ts[j])
  }

  function SnocIf<T>(ts: seq<T>, t: T, wanted: bool): seq<T> {
    if wanted then ts + [t] else ts
  }

  /** The elements of one age, in the order they have in `ts`. */
  function CreatedAt<T>(age: T -> real, ts: seq<T>, x: real): seq<T> {
    if ts == [] then []
    else SnocIf(CreatedAt(age, ts[..|ts| - 1], x), ts[|ts| - 1], age(ts[|ts| - 1]) == x)
  }

  lemma {:induction false} PlaceAdds<T>(age: T -> real, t: T, ts: seq<T>)
    ensures multiset(Place(age, t, ts)) == multiset(ts) + multiset{t}
  {
    if ts != [] && age(ts[|ts| - 1]) < age(t) {
      PlaceAdds(age, t, ts[..|ts| - 1]);
      assert ts == ts[..|ts| - 1] + [ts[|ts| - 1]];
    }
  }

  lemma OldestBehind<T>(age: T -> real, ts: seq<T>, t: T)
    requires IsNewestFirst(age, ts) && (ts == [] || age(ts[|ts| - 1]) >= age(t))
    ensures IsNewestFirst(age, ts + [t])
  {
  }

  lemma InitIsNewestFirst<T>(age: T -> real, ts: seq<T>)
    requires IsNewestFirst(age, ts) && ts != []
    ensures IsNewestFirst(age, ts[..|ts| - 1]) && (|ts| > 1 ==> age(ts[|ts| - 2]) >= age(ts[|ts| - 1]))
  {
  }

  lemma {:induction false} PlaceKeepsOrder<T>(age: T -> real, t: T, ts: seq<T>)
    requires IsNewestFirst(age, ts)
    ensures IsNewestFirst(age, Place(age, t, ts))
  {
    hide IsNewestFirst;
    if ts == [] || age(ts[|ts| - 1]) >= age(t) {
      OldestBehind(age, ts, t);
      assert ts == [] ==> ts + [t] == [t];
    } else {
      InitIsNewestFirst(age, ts);
      PlaceKeepsOrder(age, t, ts[..|ts| - 1]);
      OldestBehind(age, Place(age, t, ts[..|ts| - 1]), ts[|ts| - 1]);
    }
  }

  lemma CreatedAtSnoc<T>(age: T -> real, ts: seq<T>, t: T, x: real)
    ensures CreatedAt(age, ts + [t], x) == SnocIf(CreatedAt(age, ts, x), t, age(t) == x)
  {
    assert (ts + [t])[..|ts|] == ts;
  }

  lemma {:induction false} PlaceIsStable<T>(age: T -> real, t: T, ts: seq<T>, x: real)
    ensures CreatedAt(age, Place(age, t, ts), x) == SnocIf(CreatedAt(age, ts, x), t, age(t) == x)
  {
    if ts == [] || age(ts[|ts| - 1]) >= age(t) {
      CreatedAtSnoc(age, ts, t, x);
      assert ts + [t] == Place(age, t, ts);
    } else {
      var n := |ts| - 1;
      var rest := Place(age, t, ts[..n]);
      PlaceIsStable(age, t, ts[..n], x);
      CreatedAtSnoc(age, rest, ts[n], x);
      assert Place(age, t, ts) == rest + [ts[n]];
    }
  }

  lemma LastInBag<T>(ts: seq<T>, n: nat)
    requires |ts| == n + 1
    ensures multiset(ts) == multiset(ts[..n]) + multiset{ts[n]}
  {
    assert ts == ts[..n] + [ts[n]];
  }

  lemma {:induction false} NewestFirstPermutes<T>(age: T -> real, ts: seq<T>)
    ensures multiset(NewestFirst(age, ts)) == multiset(ts)
  {
    if ts != [] {
      var n := |ts| - 1;
      NewestFirstPermutes(age, ts[..n]);
      PlaceAdds(age, ts[n], NewestFirst(age, ts[..n]));
      LastInBag(ts, n);
    }
  }

  lemma {:induction false} NewestFirstIsSorted<T>(age: T -> real, ts: seq<T>)
    ensures IsNewestFirst(age, NewestFirst(age, ts))
  {
    if ts != [] {
      NewestFirstIsSorted(age, ts[..|ts| - 1]);
      PlaceKeepsOrder(age, ts[|ts| - 1], NewestFirst(age, ts[..|ts| - 1]));
    }
  }

  /** A permutation, newest first. */
  lemma NewestFirstSorts<T>(age: T -> real, ts: seq<T>)
    ensures IsNewestFirst(age, NewestFirst(age, ts)) && multiset(NewestFirst(age, ts)) == multiset(ts)
  {
    NewestFirstPermutes(age, ts);
    NewestFirstIsSorted(age, ts);
  }

  /** Elements of the same age keep their order. */
  lemma {:induction false} NewestFirstIsStable<T>(age: T -> real, ts: seq<T>, x: real)
    ensures CreatedAt(age, NewestFirst(age, ts), x) == CreatedAt(age, ts, x)
  {
    if ts != [] {
      NewestFirstIsStable(age, ts[..|ts| - 1], x);
      PlaceIsStable(age, ts[|ts| - 1], NewestFirst(age, ts[..|ts| - 1]), x);
    }
  }

  /** The elements of `ts` that are in `late`, in order. */
  ghost function Waiting<T>(ts: seq<T>, late: set<T>): seq<T> {
    if ts == [] then []
    else Waiting(ts[..|ts| - 1], late) + if ts[|ts| - 1] in late then [ts[|ts| - 1]] else []
  }

  /** The others, in order. */
  ghost function Due<T>(ts: seq<T>, late: set<T>): seq<T> {
    if ts == [] then []
    else Due(ts[..|ts| - 1], late) + if ts[|ts| - 1] in late then [] else [ts[|ts| - 1]]
  }

  lemma WaitingNext<T>(ts: seq<T>, i: nat, late: set<T>)
    requires i < |ts|
    ensures Waiting(ts[..i + 1], late) == Waiting(ts[..i], late) + if ts[i] in late then [ts[i]] else []
    ensures Due(ts[..i + 1], late) == Due(ts[..i], late) + if ts[i] in late then [] else [ts[i]]
  {
    assert ts[..i + 1][..i] == ts[..i];
  }

  lemma SplitLast<T>(ts: seq<T>, late: set<T>)
    ensures ts == [] ==> Waiting(ts, late) == [] == Due(ts, late)
    ensures ts != [] ==>
              var n := |ts| - 1;
              && multiset(Waiting(ts, late)) ==
                 multiset(Waiting(ts[..n], late)) + (if ts[n] in late then multiset{ts[n]} else multiset{})
              && multiset(Due(ts, late)) ==
                 multiset(Due(ts[..n], late)) + (if ts[n] in late then multiset{} else multiset{ts[n]})
  {
  }

  /** Waiting and Due split the list. */
  lemma {:induction false} WaitingAndDue<T>(ts: seq<T>, late: set<T>)
    ensures multiset(Waiting(ts, late)) + multiset(Due(ts, late)) == multiset(ts)
  {
    hide Waiting, Due;
    SplitLast(ts, late);
    if ts != [] {
      WaitingAndDue(ts[..|ts| - 1], late);
      LastInBag(ts, |ts| - 1);
    }
  }

  lemma {:induction false} WaitingKeepsOrder<T>(age: T -> real, ts: seq<T>, late: set<T>)
    requires IsNewestFirst(age, ts)
    ensures IsNewestFirst(age, Waiting(ts, late)) && IsNewestFirst(age, Due(ts, late))
    ensures forall t :: t in Waiting(ts, late) ==> t in ts && t in late
    ensures forall t :: t in Due(ts, late) ==> t in ts && t !in late
  {
    if ts != [] {
      var n := |ts| - 1;
      var w, d := Waiting(ts[..n], late), Due(ts[..n], late);
      WaitingKeepsOrder(age, ts[..n], late);
      forall k | 0 <= k < |w| ensures age(w[k]) >= age(ts[n]) {
        assert w[k] in ts[..n];
      }
      forall k | 0 <= k < |d| ensures age(d[k]) >= age(ts[n]) {
        assert d[k] in ts[..n];
      }
    }
  }

  /** The first `n` elements, or all. */
  function Prefix<T>(s: seq<T>, n: nat): seq<T> {
    if |s| <= n then s else s[..n]
  }

  lemma PrefixIsNewest<T>(age: T -> real, ts: seq<T>, n: nat, i: nat, j: nat)
    requires IsNewestFirst(age, ts) && i < |Prefix(ts, n)| <= j < |ts|
    ensures |Prefix(ts, n)| == n && age(Prefix(ts, n)[i]) >= age(ts[j])
  {
  }

  /** Nothing that a flush truncates is newer than what it keeps. */
  lemma KeepsTheNewest<T>(age: T -> real, ts: seq<T>, late: set<T>, n: nat, i: nat, j: nat)
    requires i < |Prefix(Waiting(NewestFirst(age, ts), late), n)| <= j < |Waiting(NewestFirst(age, ts), late)|
    ensures age(Prefix(Waiting(NewestFirst(age, ts), late), n)[i]) >= age(Waiting(NewestFirst(age, ts), late)[j])
  {
    NewestFirstSorts(age, ts);
    WaitingKeepsOrder(age, NewestFirst(age, ts), late);
    PrefixIsNewest(age, Waiting(NewestFirst(age, ts), late), n, i, j);
  }

  /** Of the due ones, those beyond the free capacity are no newer than those within it. */
  lemma AcceptsTheNewest<T>(age: T -> real, ts: seq<T>, late: set<T>, n: nat, i: nat, j: nat)
    requires i < |Prefix(Due(NewestFirst(age, ts), late), n)| <= j < |Due(NewestFirst(age, ts), late)|
    ensures age(Prefix(Due(NewestFirst(age, ts), late), n)[i]) >= age(Due(NewestFirst(age, ts), late)[j])
  {
    NewestFirstSorts(age, ts);
    WaitingKeepsOrder(age, NewestFirst(age, ts), late);
    PrefixIsNewest(age, Due(NewestFirst(age, ts), late), n, i, j);
  }

  lemma InPermutation<T>(a: seq<T>, b: seq<T>, t: T)
    requires multiset(a) == multiset(b)
    ensures t in a <==> t in b
  {
    assert t in multiset(a) <==> t in multiset(b);
  }

  lemma InOnePart<T>(ts: seq<T>, late: set<T>, t: T)
    ensures t in ts <==> t in Waiting(ts, late) || t in Due(ts, late)
  {
    hide Waiting, Due;
    WaitingAndDue(ts, late);
    assert t in multiset(ts) <==> t in multiset(Waiting(ts, late)) || t in multiset(Due(ts, late));
  }

  lemma InPrefix<T>(ts: seq<T>, n: nat, j: nat)
    requires j < |ts|
    ensures j < n ==> ts[j] in Prefix(ts, n)
  {
    if j < n {
      assert Prefix(ts, n)[j] == ts[j];
    }
  }

  lemma BehindPrefix<T>(age: T -> real, ts: seq<T>, n: nat, t: T)
    requires IsNewestFirst(age, ts) && t in ts && t !in Prefix(ts, n)
    ensures |Prefix(ts, n)| == n && forall i :: 0 <= i < n ==> age(Prefix(ts, n)[i]) >= age(t)
  {
    var j :| 0 <= j < |ts| && ts[j] == t;
    InPrefix(ts, n, j);
    forall i | 0 <= i < n ensures age(Prefix(ts, n)[i]) >= age(t) {
      assert ts[i] == Prefix(ts, n)[i];
    }
  }

  /** What a flush keeps is late, newest first and at most so many; what it offers is all that is not late; and what it
      truncates is late, and no newer than anything kept. */
  lemma SplitMeans<T>(age: T -> real, ts: seq<T>, late: set<T>, max: nat)
    ensures var sorted := NewestFirst(age, ts);
            var kept, due := Prefix(Waiting(sorted, late), max), Due(sorted, late);
            && |kept| <= max && IsNewestFirst(age, kept)
            && (forall t :: t in kept ==> t in ts && t in late)
            && (forall t :: t in due <==> t in ts && t !in late)
            && (forall t :: t in ts && t in late && t !in kept ==>
                  |kept| == max && forall i :: 0 <= i < |kept| ==> age(kept[i]) >= age(t))
  {
    hide NewestFirst, Waiting, Due;
    var sorted := NewestFirst(age, ts);
    var waiting, due := Waiting(sorted, late), Due(sorted, late);
    NewestFirstSorts(age, ts);
    WaitingKeepsOrder(age, sorted, late);
    forall t ensures t in due <==> t in ts && t !in late {
      InPermutation(sorted, ts, t);
      InOnePart(sorted, late, t);
    }
    forall t | t in Prefix(waiting, max) ensures t in ts && t in late {
      InPermutation(sorted, ts, t);
    }
    forall t | t in ts && t in late && t !in Prefix(waiting, max)
      ensures |Prefix(waiting, max)| == max && forall i :: 0 <= i < max ==> age(Prefix(waiting, max)[i]) >= age(t)
    {
      InPermutation(sorted, ts, t);
      InOnePart(sorted, late, t);
      BehindPrefix(age, waiting, max, t);
    }
  }
}
