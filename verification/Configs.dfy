// The configuration object: nested dictionaries that calls change in place.
module Configs {
  import opened Prelude
  import opened Text
  import opened ConfigTree
  import opened ConfigLookup
  import opened ConfigBinding

  // ---------- dictionaries at a path ----------

  function SubAt(d: Dict, path: seq<string>): Dict
    decreases |path|
  {
    if path == [] then d else SubAt(Sub(d, path[0]), path[1..])
  }

  function PutAt(d: Dict, path: seq<string>, sub: Dict): Dict
    decreases |path|
  {
    if path == [] then sub else d[path[0] := Branch(PutAt(Sub(d, path[0]), path[1..], sub))]
  }

  /** Every key of the path is there, with a dictionary. */
  predicate OnPath(d: Dict, path: seq<string>)
    decreases |path|
  {
    path != [] ==> path[0] in d && d[path[0]].Branch? && OnPath(d[path[0]].entries, path[1..])
  }

  /** No value stands on the path. */
  predicate NoLeafOn(d: Dict, path: seq<string>)
    decreases |path|
  {
    path != [] && path[0] in d ==> d[path[0]].Branch? && NoLeafOn(d[path[0]].entries, path[1..])
  }

  lemma {:induction false} PutSame(d: Dict, path: seq<string>)
    requires OnPath(d, path)
    ensures PutAt(d, path, SubAt(d, path)) == d
    decreases |path|
  {
    if path != [] {
      PutSame(d[path[0]].entries, path[1..]);
      assert d[path[0] := d[path[0]]] == d;
    }
  }

  lemma {:induction false} PutThere(d: Dict, path: seq<string>, sub: Dict)
    requires OnPath(d, path)
    ensures SubAt(PutAt(d, path, sub), path) == sub && OnPath(PutAt(d, path, sub), path)
    decreases |path|
  {
    if path != [] {
      PutThere(d[path[0]].entries, path[1..], sub);
    }
  }

  lemma {:induction false} PutAgain(d: Dict, path: seq<string>, sub: Dict, sub': Dict)
    requires OnPath(d, path)
    ensures PutAt(PutAt(d, path, sub), path, sub') == PutAt(d, path, sub')
    decreases |path|
  {
    if path != [] {
      PutAgain(d[path[0]].entries, path[1..], sub, sub');
    }
  }

  /** One key further down. */
  lemma {:induction false} OneDown(d: Dict, path: seq<string>, key: string, sub: Dict)
    requires OnPath(d, path) && key in SubAt(d, path) && SubAt(d, path)[key].Branch?
    ensures OnPath(d, path + [key]) && SubAt(d, path + [key]) == SubAt(d, path)[key].entries
    ensures PutAt(d, path + [key], sub) == PutAt(d, path, SubAt(d, path)[key := Branch(sub)])
    decreases |path|
  {
    if path == [] {
      Singleton(path + [key]);
    } else {
      OneDown(d[path[0]].entries, path[1..], key, sub);
      assert (path + [key])[1..] == path[1..] + [key];
    }
  }

  lemma {:induction false} SubOneDown(d: Dict, path: seq<string>, key: string)
    ensures SubAt(d, path + [key]) == Sub(SubAt(d, path), key)
    ensures NoLeafOn(d, path) && !(key in SubAt(d, path) && SubAt(d, path)[key].Leaf?) ==> NoLeafOn(d, path + [key])
    decreases |path|
  {
    if path == [] {
      Singleton(path + [key]);
    } else {
      SubOneDown(Sub(d, path[0]), path[1..], key);
      assert (path + [key])[1..] == path[1..] + [key];
    }
  }

  function Below(path: seq<string>, o: Outcome): Outcome {
    if o.Written? then Written(path + o.path) else o
  }

  /** The list of namespaces, as `env_var_namespaces` gives it. */
  ghost predicate AreNamespaces(name: string, ns: seq<(string, string)>) {
    var pieces := Split(name, '_');
    && |ns| == |pieces| + 1
    && ns[0] == (name, "")
    && forall i :: 0 <= i < |pieces| ==> ns[i + 1] == Cut(pieces, i)
  }

  /** Scanning the list finds what Chosen says. */
  lemma ScanFinds(name: string, ns: seq<(string, string)>, data: Dict, defaults: Dict, k: nat)
    requires AreNamespaces(name, ns) && k <= |ns|
    requires forall j :: 0 <= j < k ==> !Known(data, defaults, ns[j].0)
    ensures k < |ns| && Known(data, defaults, ns[k].0) ==> Chosen(name, data, defaults) == Some(ns[k])
    ensures k == |ns| ==> Chosen(name, data, defaults) == None
  {
    var pieces := Split(name, '_');
    forall j | 0 <= j < k - 1 ensures !Known(data, defaults, Cut(pieces, j).0) {
      assert ns[j + 1] == Cut(pieces, j);
    }
    if k > 0 {
      assert k < |ns| ==> ns[k] == Cut(pieces, k - 1);
      if k < |ns| && Known(data, defaults, ns[k].0) {
        CutIs(pieces, data, defaults, 0, k - 1);
      }
    }
  }

  method EnvVarNamespaces(name: string) returns (ns: seq<(string, string)>)
    ensures AreNamespaces(name, ns)
  {
    ns := [(name, "")];
    var split := Split(name, '_');
    for i := 0 to |split|
      invariant |ns| == i + 1 && ns[0] == (name, "")
      invariant forall j :: 0 <= j < i ==> ns[j + 1] == Cut(split, j)
    {
      ns := ns + [(Join(split[..i], '_'), Join(split[i..], '_'))];
    }
  }

  /** The dictionary a walk along the path ends in; it stops early at an empty one. */
  method Walk(d: Dict, path: seq<string>) returns (sub: Dict)
    ensures sub == SubAt(d, path)
  {
    sub := d;
    var i := 0;
    while i < |path|
      invariant i <= |path| && SubAt(sub, path[i..]) == SubAt(d, path)
    {
      assert path[i..][0] == path[i] && path[i..][1..] == path[i + 1..];
      sub := Sub(sub, path[i]);
      i := i + 1;
      if sub == map[] {
        NothingBelow(path[i..]);
        return;
      }
    }
    assert path[|path|..] == [];
  }

  lemma {:induction false} NothingBelow(path: seq<string>)
    ensures SubAt(map[], path) == map[]
    decreases |path|
  {
    if path != [] {
      NothingBelow(path[1..]);
    }
  }

  class Config {
    var data: Dict
    var defaults: Dict
    var envBindings: set<string>

    constructor ()
      ensures data == map[] && defaults == map[] && envBindings == {}
    {
      data, defaults, envBindings := map[], map[], {};
    }

    /** The default is found at its path, and every default apart from the path stays. */
    method SetDefault(path: seq<string>, value: string)
      requires path != [] && Clear(defaults, path)
      modifies this`defaults
      ensures Look(Branch(defaults), path) == Some(value)
      ensures forall q :: Apart(path, q) ==> Look(Branch(defaults), q) == Look(Branch(old(defaults)), q)
      ensures defaults == SetPath(old(defaults), path, value)
    {
      hide *;
      ghost var before := defaults;
      defaults := SetPath(defaults, path, value);
      LookAfterSet(before, path, value, path);
      forall q | Apart(path, q) ensures Look(Branch(defaults), q) == Look(Branch(before), q) {
        LookAfterSet(before, path, value, q);
      }
    }

    /** Every scalar of the value becomes a default, and its flattened name a bound variable. */
    method BindEnvAndSetDefault(key: string, path: seq<string>, value: Value)
      requires path != [] && ClearAll(defaults, Leaves(path, value))
      modifies this`defaults, this`envBindings
      ensures defaults == SetAll(old(defaults), Leaves(path, value))
      ensures DistinctKeys(value) ==> Holds(defaults, Leaves(path, value))
      ensures forall n :: n in envBindings <==> n in old(envBindings) || n in Names(key, value)
      decreases value
    {
      hide DistinctKeys, Holds;
      DeclaredAreFound(defaults, path, value);
      match value
      case Scalar(v) =>
        envBindings := envBindings + {key};
        SetDefault(path, v);
      case Nested(items) =>
        ghost var wanted, bound := SetAll(defaults, LeavesOfAll(path, items)), envBindings;
        assert items[0..] == items;
        for i := 0 to |items|
          invariant ClearAll(defaults, LeavesOfAll(path, items[i..]))
          invariant SetAll(defaults, LeavesOfAll(path, items[i..])) == wanted
          invariant forall n :: n in envBindings || n in NamesOfAll(key, items[i..]) <==> n in bound || n in NamesOfAll(key, items)
        {
          var Item(k, v) := items[i];
          NextItem(key, path, items, i);
          SetAllConcat(defaults, Leaves(path + [k], v), LeavesOfAll(path, items[i + 1..]));
          BindEnvAndSetDefault(key + "_" + k, path + [k], v);
        }
    }

    /** The override of a variable with the given text, from the dictionary at `path` on. */
    method EnvOverride(text: string, name: string, path: seq<string>) returns (r: Outcome)
      requires OnPath(data, path) && NoLeafOn(defaults, path)
      modifies this`data
      ensures var (outcome, sub) := Override(old(SubAt(data, path)), SubAt(defaults, path), name, text);
              r == Below(path, outcome) && data == PutAt(old(data), path, sub)
      decreases |name|, SubAt(defaults, path) != map[], Branch(SubAt(defaults, path)), Branch(SubAt(data, path)), 0
    {
      ghost var before := data;
      var here := Walk(data, path);
      var theirs := Walk(defaults, path);
      PutSame(data, path);
      if here == map[] && theirs == map[] {
        return NotFound;
      }
      var ns := EnvVarNamespaces(name);
      for i := 0 to |ns|
        invariant data == before
        invariant forall j :: 0 <= j < i ==> !Known(here, theirs, ns[j].0)
      {
        var (prefix, suffix) := ns[i];
        if prefix in here || prefix in theirs {
          ScanFinds(name, ns, here, theirs, i);
          RestIsShorter(name, here, theirs);
          var filled := here;
          if prefix !in here {
            filled := here[prefix := theirs[prefix]];
            data := PutAt(data, path, filled);
          }
          PutThere(before, path, filled);
          assert data == PutAt(before, path, filled);
          if suffix == "" {
            data := PutAt(data, path, filled[prefix := Node.Leaf(text)]);
            PutAgain(before, path, filled, filled[prefix := Node.Leaf(text)]);
            return Written(path + [prefix]);
          }
          if filled[prefix].Leaf? || (prefix in theirs && theirs[prefix].Leaf?) {
            return Stuck;
          }
          r := Descend(text, suffix, path, prefix, before, here, theirs, filled);
          OverrideStep(here, theirs, name, text, prefix, suffix);
          return;
        }
      }
      ScanFinds(name, ns, here, theirs, |ns|);
      r := NotFound;
    }

    /** The call one level down, seen from the level above. */
    method Descend(text: string, suffix: string, path: seq<string>, prefix: string, ghost before: Dict,
                   ghost here: Dict, ghost theirs: Dict, ghost filled: Dict)
      returns (r: Outcome)
      requires OnPath(before, path) && NoLeafOn(defaults, path) && theirs == SubAt(defaults, path)
      requires OnPath(data, path) && SubAt(data, path) == filled && data == PutAt(before, path, filled)
      requires prefix in filled && filled[prefix].Branch? && !(prefix in theirs && theirs[prefix].Leaf?)
      modifies this`data
      ensures var (outcome, sub) := Override(filled[prefix].entries, Sub(theirs, prefix), suffix, text);
              r == Below(path, Under(prefix, outcome)) && data == PutAt(before, path, filled[prefix := Branch(sub)])
      decreases |suffix|, Sub(theirs, prefix) != map[], Branch(Sub(theirs, prefix)), Branch(filled[prefix].entries), 1
    {
      ghost var sub := Override(filled[prefix].entries, Sub(theirs, prefix), suffix, text).1;
      SubOneDown(defaults, path, prefix);
      OneDown(data, path, prefix, sub);
      r := EnvOverride(text, suffix, path + [prefix]);
      PutAgain(before, path, filled, filled[prefix := Branch(sub)]);
      if r.Written? {
        Associates(path, [prefix], Override(filled[prefix].entries, Sub(theirs, prefix), suffix, text).0.path);
      }
    }
  }
}
