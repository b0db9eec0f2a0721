// Flattening nested defaults into the names of environment variables.
module ConfigBinding {
  import opened Prelude
  import opened Text
  import opened ConfigTree
  import opened ConfigLookup

  /** A default as it is declared: dictionaries keep their order. */
  datatype Value = Scalar(value: string) | Nested(items: seq<Item>)

  datatype Item = Item(key: string, value: Value)

  type Leaf = (seq<string>, string)

  /** The paths to the scalars of a value declared at `path`, in order. */
  function Leaves(path: seq<string>, value: Value): seq<Leaf>
    decreases value
  {
    match value
    case Scalar(v) => [(path, v)]
    case Nested(items) => LeavesOfAll(path, items)
  }

  function LeavesOfAll(path: seq<string>, items: seq<Item>): seq<Leaf>
    decreases items
  {
    if items == [] then []
    else Leaves(path + [items[0].key], items[0].value) + LeavesOfAll(path, items[1..])
  }

  /** As in any dictionary, no key is there twice. */
  predicate DistinctKeys(value: Value)
    decreases value
  {
    value.Nested? ==> DistinctItems(value.items)
  }

  predicate DistinctItems(items: seq<Item>)
    decreases items
  {
    items == [] ||
    (DistinctKeys(items[0].value) && DistinctItems(items[1..])
     && forall j :: 0 < j < |items| ==> items[j].key != items[0].key)
  }

  /** The names bound for a value declared under the name `key`. */
  function Names(key: string, value: Value): seq<string>
    decreases value
  {
    match value
    case Scalar(_) => [key]
    case Nested(items) => NamesOfAll(key, items)
  }

  function NamesOfAll(key: string, items: seq<Item>): seq<string>
    decreases items
  {
    if items == [] then []
    else Names(key + "_" + items[0].key, items[0].value) + NamesOfAll(key, items[1..])
  }

  /** No value stands where the path needs a dictionary. */
  predicate Clear(d: Dict, path: seq<string>)
    decreases |path|
  {
    |path| > 1 && path[0] in d ==> d[path[0]].Branch? && Clear(d[path[0]].entries, path[1..])
  }

  function SetPath(d: Dict, path: seq<string>, value: string): Dict
    decreases |path|
  {
    if path == [] then d
    else if |path| == 1 then d[path[0] := Node.Leaf(value)]
    else d[path[0] := Branch(SetPath(Sub(d, path[0]), path[1..], value))]
  }

  function SetAll(d: Dict, leaves: seq<Leaf>): Dict
    decreases |leaves|
  {
    if leaves == [] then d else SetAll(SetPath(d, leaves[0].0, leaves[0].1), leaves[1..])
  }

  predicate ClearAll(d: Dict, leaves: seq<Leaf>)
    decreases |leaves|
  {
    leaves == [] || (Clear(d, leaves[0].0) && ClearAll(SetPath(d, leaves[0].0, leaves[0].1), leaves[1..]))
  }

  lemma {:induction false} SetAllConcat(d: Dict, a: seq<Leaf>, b: seq<Leaf>)
    ensures SetAll(d, a + b) == SetAll(SetAll(d, a), b)
    ensures ClearAll(d, a + b) <==> ClearAll(d, a) && ClearAll(SetAll(d, a), b)
    decreases |a|
  {
    if a == [] {
      EmptyConcat(b);
    } else {
      SetAllConcat(SetPath(d, a[0].0, a[0].1), a[1..], b);
      TailOfConcat(a, b);
    }
  }

  lemma EmptyConcat<T>(b: seq<T>)
    ensures [] + b == b && b + [] == b
  {
  }

  lemma TailOfConcat<T>(a: seq<T>, b: seq<T>)
    requires a != []
    ensures (a + b)[0] == a[0] && (a + b)[1..] == a[1..] + b
  {
  }

  /** The leaves and names of one more item. */
  lemma NextItem(key: string, path: seq<string>, items: seq<Item>, i: nat)
    requires i < |items|
    ensures LeavesOfAll(path, items[i..]) == Leaves(path + [items[i].key], items[i].value) + LeavesOfAll(path, items[i + 1..])
    ensures NamesOfAll(key, items[i..]) == Names(key + "_" + items[i].key, items[i].value) + NamesOfAll(key, items[i + 1..])
  {
    assert items[i..][0] == items[i] && items[i..][1..] == items[i + 1..];
  }

  /** Every scalar is bound under the keys of its path joined by '_'. */
  lemma {:induction false} NamesAreJoins(path: seq<string>, value: Value)
    requires path != []
    ensures var names, leaves := Names(Join(path, '_'), value), Leaves(path, value);
            |names| == |leaves| && forall i :: 0 <= i < |names| ==> names[i] == Join(leaves[i].0, '_')
    decreases value
  {
    if value.Nested? {
      AllNamesAreJoins(path, value.items);
    }
  }

  lemma {:induction false} AllNamesAreJoins(path: seq<string>, items: seq<Item>)
    requires path != []
    ensures var names, leaves := NamesOfAll(Join(path, '_'), items), LeavesOfAll(path, items);
            |names| == |leaves| && forall i :: 0 <= i < |names| ==> names[i] == Join(leaves[i].0, '_')
    decreases items
  {
    if items != [] {
      JoinSnoc(path, items[0].key, '_');
      NamesAreJoins(path + [items[0].key], items[0].value);
      AllNamesAreJoins(path, items[1..]);
    }
  }

  // ---------- what defaults hold ----------

  /** Neither path leads through the other. */
  predicate Apart(p: seq<string>, q: seq<string>) {
    !(p <= q) && !(q <= p)
  }

  lemma TailsOfPaths(p: seq<string>, q: seq<string>)
    requires p != [] && q != [] && p[0] == q[0]
    ensures p == q <==> p[1..] == q[1..]
    ensures Apart(p, q) ==> Apart(p[1..], q[1..]) && p[1..] != [] && q[1..] != []
  {
    HeadAndTail(p);
    HeadAndTail(q);
    if p[1..] <= q[1..] {
      assert q == [q[0]] + p[1..] + q[1..][|p| - 1..];
    }
    if q[1..] <= p[1..] {
      assert p == [p[0]] + q[1..] + p[1..][|q| - 1..];
    }
  }

  /** A default is found at its path, and what lies apart from it stays. */
  lemma {:induction false} LookAfterSet(d: Dict, path: seq<string>, value: string, q: seq<string>)
    requires path != []
    ensures q == path ==> Look(Branch(SetPath(d, path, value)), q) == Some(value)
    ensures Apart(path, q) ==> Look(Branch(SetPath(d, path, value)), q) == Look(Branch(d), q)
    decreases |path|
  {
    if q != [] && q[0] == path[0] {
      TailsOfPaths(path, q);
      if |path| > 1 {
        LookAfterSet(Sub(d, path[0]), path[1..], value, q[1..]);
      }
    }
  }

  ghost predicate AllApart(leaves: seq<Leaf>) {
    forall i, j :: 0 <= i < j < |leaves| ==> Apart(leaves[i].0, leaves[j].0)
  }

  ghost predicate ApartFrom(leaves: seq<Leaf>, q: seq<string>) {
    forall i :: 0 <= i < |leaves| ==> leaves[i].0 != [] && Apart(leaves[i].0, q)
  }

  lemma {:induction false} SetAllKeepsOthers(d: Dict, leaves: seq<Leaf>, q: seq<string>)
    requires ApartFrom(leaves, q)
    ensures Look(Branch(SetAll(d, leaves)), q) == Look(Branch(d), q)
    decreases |leaves|
  {
    if leaves != [] {
      LookAfterSet(d, leaves[0].0, leaves[0].1, q);
      SetAllKeepsOthers(SetPath(d, leaves[0].0, leaves[0].1), leaves[1..], q);
    }
  }

  lemma {:induction false} SetAllHolds(d: Dict, leaves: seq<Leaf>, i: nat)
    requires AllApart(leaves) && i < |leaves| && forall j :: 0 <= j < |leaves| ==> leaves[j].0 != []
    ensures Look(Branch(SetAll(d, leaves)), leaves[i].0) == Some(leaves[i].1)
    decreases |leaves|
  {
    var d' := SetPath(d, leaves[0].0, leaves[0].1);
    if i == 0 {
      LookAfterSet(d, leaves[0].0, leaves[0].1, leaves[0].0);
      forall j | 0 <= j < |leaves[1..]| ensures leaves[1..][j].0 != [] && Apart(leaves[1..][j].0, leaves[0].0) {
        assert Apart(leaves[0].0, leaves[j + 1].0);
      }
      SetAllKeepsOthers(d', leaves[1..], leaves[0].0);
    } else {
      SetAllHolds(d', leaves[1..], i - 1);
    }
  }

  // ---------- the leaves of one declaration lie apart ----------

  lemma KeysPart(path: seq<string>, k: string, l: string, p: seq<string>, q: seq<string>)
    requires path + [k] <= p && path + [l] <= q && k != l
    ensures Apart(p, q)
  {
    assert p[|path|] == (path + [k])[|path|] == k && q[|path|] == (path + [l])[|path|] == l;
  }

  lemma Extends(p: seq<string>, k: string, q: seq<string>)
    requires p + [k] <= q
    ensures p <= q
  {
    assert p == (p + [k])[..|p|] == q[..|p|];
  }

  lemma {:induction false} LeafIsBelow(path: seq<string>, value: Value, i: nat)
    requires i < |Leaves(path, value)|
    ensures path <= Leaves(path, value)[i].0
    decreases value
  {
    if value.Nested? {
      var j := LeafIsBelowItem(path, value.items, i);
      Extends(path, value.items[j].key, Leaves(path, value)[i].0);
    }
  }

  lemma {:induction false} LeafIsBelowItem(path: seq<string>, items: seq<Item>, i: nat) returns (j: nat)
    requires i < |LeavesOfAll(path, items)|
    ensures j < |items| && path + [items[j].key] <= LeavesOfAll(path, items)[i].0
    decreases items
  {
    var first := Leaves(path + [items[0].key], items[0].value);
    if i < |first| {
      j := 0;
      LeafIsBelow(path + [items[0].key], items[0].value, i);
    } else {
      j := LeafIsBelowItem(path, items[1..], i - |first|);
      j := j + 1;
    }
  }

  lemma ApartConcat(a: seq<Leaf>, b: seq<Leaf>)
    requires AllApart(a) && AllApart(b)
    requires forall i, j :: 0 <= i < |a| && 0 <= j < |b| ==> Apart(a[i].0, b[j].0)
    ensures AllApart(a + b)
  {
    forall i, j | 0 <= i < j < |a + b| ensures Apart((a + b)[i].0, (a + b)[j].0) {
      if i < |a| <= j {
        assert Apart(a[i].0, b[j - |a|].0);
      }
    }
  }

  lemma {:induction false} LeavesAreApart(path: seq<string>, value: Value)
    requires DistinctKeys(value)
    ensures AllApart(Leaves(path, value))
    decreases value
  {
    if value.Nested? {
      ItemsAreApart(path, value.items);
    }
  }

  lemma {:induction false} ItemsAreApart(path: seq<string>, items: seq<Item>)
    requires DistinctItems(items)
    ensures AllApart(LeavesOfAll(path, items))
    decreases items
  {
    if items != [] {
      var key := items[0].key;
      var first, rest := Leaves(path + [key], items[0].value), LeavesOfAll(path, items[1..]);
      LeavesAreApart(path + [key], items[0].value);
      ItemsAreApart(path, items[1..]);
      forall i, j | 0 <= i < |first| && 0 <= j < |rest| ensures Apart(first[i].0, rest[j].0) {
        LeafIsBelow(path + [key], items[0].value, i);
        var m := LeafIsBelowItem(path, items[1..], j);
        KeysPart(path, key, items[1..][m].key, first[i].0, rest[j].0);
      }
      ApartConcat(first, rest);
    }
  }

  ghost predicate Holds(d: Dict, leaves: seq<Leaf>) {
    forall i :: 0 <= i < |leaves| ==> Look(Branch(d), leaves[i].0) == Some(leaves[i].1)
  }

  lemma DeclaredAreFound(d: Dict, path: seq<string>, value: Value)
    requires path != []
    ensures DistinctKeys(value) ==> Holds(SetAll(d, Leaves(path, value)), Leaves(path, value))
  {
    if DistinctKeys(value) {
      forall i | 0 <= i < |Leaves(path, value)|
        ensures Look(Branch(SetAll(d, Leaves(path, value))), Leaves(path, value)[i].0) == Some(Leaves(path, value)[i].1)
      {
        DeclaredIsFound(d, path, value, i);
      }
    }
  }

  /** Every scalar of a declared value is found at its path afterwards. */
  lemma DeclaredIsFound(d: Dict, path: seq<string>, value: Value, i: nat)
    requires path != [] && DistinctKeys(value) && i < |Leaves(path, value)|
    ensures Leaves(path, value)[i].0 != []
    ensures Look(Branch(SetAll(d, Leaves(path, value))), Leaves(path, value)[i].0) == Some(Leaves(path, value)[i].1)
  {
    LeavesAreApart(path, value);
    forall j | 0 <= j < |Leaves(path, value)| ensures Leaves(path, value)[j].0 != [] {
      LeafIsBelow(path, value, j);
    }
    SetAllHolds(d, Leaves(path, value), i);
  }

  // ---------- binding and overriding ----------

  /** No key comes before those of the path, and the data have no value where the path needs a dictionary. */
  ghost predicate Free(data: Dict, defaults: Dict, path: seq<string>)
    requires path != []
    decreases |path|
  {
    |path| > 1 ==>
      && NothingBefore(data, defaults, path)
      && !(path[0] in data && data[path[0]].Leaf?)
      && Free(if path[0] in data then Sub(data, path[0]) else Sub(defaults, path[0]), Sub(defaults, path[0]), path[1..])
  }

  /** For a path that has a default, being unshadowed is a matter of keys alone. */
  lemma {:induction false} FreeIsUnshadowed(data: Dict, defaults: Dict, path: seq<string>)
    requires path != [] && Look(Branch(defaults), path).Some?
    ensures Unshadowed(data, defaults, path) <==> Free(data, defaults, path)
    decreases |path|
  {
    hide NothingBefore;
    if |path| > 1 {
      var theirs := Sub(defaults, path[0]);
      FreeIsUnshadowed(if path[0] in data then Sub(data, path[0]) else theirs, theirs, path[1..]);
    }
  }

  /** Binding and overriding are inverse.  Once a value is declared, each of its scalars is found at its path, whatever
      else is declared before it, or later at other paths; and the variable bound for the scalar sets that scalar, unless
      another key comes before. */
  lemma BoundNameSets(d: Dict, key: string, value: Value, later: seq<Leaf>, data: Dict, i: nat, text: string)
    requires DistinctKeys(value) && i < |Leaves([key], value)| && ApartFrom(later, Leaves([key], value)[i].0)
    ensures var defaults, (path, scalar) := SetAll(SetAll(d, Leaves([key], value)), later), Leaves([key], value)[i];
            && path != [] && Look(Branch(defaults), path) == Some(scalar)
            && i < |Names(key, value)|
            && var (outcome, data') := Override(data, defaults, Names(key, value)[i], text);
               && (Free(data, defaults, path) ==> outcome == Written(path) && Effective(data', defaults, path) == Some(text))
               && ((forall k :: 0 <= k < |path| ==> path[k] != "") && outcome == Written(path) ==> Free(data, defaults, path))
  {
    var first, path := SetAll(d, Leaves([key], value)), Leaves([key], value)[i].0;
    DeclaredIsFound(d, [key], value, i);
    SetAllKeepsOthers(first, later, path);
    assert Join([key], '_') == key;
    NamesAreJoins([key], value);
    FreePathIsSet(data, SetAll(first, later), path, text);
  }

  lemma FreePathIsSet(data: Dict, defaults: Dict, path: seq<string>, text: string)
    requires path != [] && Look(Branch(defaults), path).Some?
    ensures var (outcome, data') := Override(data, defaults, Join(path, '_'), text);
            && (Free(data, defaults, path) ==> outcome == Written(path) && Effective(data', defaults, path) == Some(text))
            && ((forall k :: 0 <= k < |path| ==> path[k] != "") && outcome == Written(path) ==> Free(data, defaults, path))
  {
    hide Free, Unshadowed, Override, CopyMissing, WriteLeaf, Effective;
    FreeIsUnshadowed(data, defaults, path);
    if Free(data, defaults, path) {
      UnshadowedIsWritten(data, defaults, path, text);
      OverrideIsCopyAndWrite(data, defaults, path, text);
      WriteIsSeen(CopyMissing(data, defaults, path), defaults, path, text);
    }
    if (forall k :: 0 <= k < |path| ==> path[k] != "") && Override(data, defaults, Join(path, '_'), text).0 == Written(path) {
      WrittenIsUnshadowed(data, defaults, path, text);
    }
  }
}
