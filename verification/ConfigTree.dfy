// Nested configuration: which entry an environment variable's name resolves
// to, and what a lookup sees afterwards.
module ConfigTree {
  import opened Prelude
  import opened Text

  datatype Node = Leaf(value: string) | Branch(entries: Dict)

  type Dict = map<string, Node>

  /** `Stuck`: the walk met a value that is no dictionary. */
  datatype Outcome = Written(path: seq<string>) | NotFound | Stuck

  // ---------- resolving a name ----------

  predicate Known(data: Dict, defaults: Dict, key: string) {
    key in data || key in defaults
  }

  function Cut(pieces: seq<string>, i: nat): (string, string)
    requires i <= |pieces|
  {
    (Join(pieces[..i], '_'), Join(pieces[i..], '_'))
  }

  /** The first cut, from the i-th on, whose first part is a key. */
  function FirstCut(pieces: seq<string>, data: Dict, defaults: Dict, i: nat): (k: nat)
    requires i <= |pieces|
    ensures i <= k <= |pieces| && forall j :: i <= j < k ==> !Known(data, defaults, Cut(pieces, j).0)
    ensures k < |pieces| ==> Known(data, defaults, Cut(pieces, k).0)
    decreases |pieces| - i
  {
    if i == |pieces| || Known(data, defaults, Cut(pieces, i).0) then i else FirstCut(pieces, data, defaults, i + 1)
  }

  /** A name is one key, or else a first key, as short as possible, and a rest. */
  function Chosen(name: string, data: Dict, defaults: Dict): Option<(string, string)> {
    if Known(data, defaults, name) then Some((name, ""))
    else
      var pieces := Split(name, '_');
      var k := FirstCut(pieces, data, defaults, 0);
      if k == |pieces| then None else Some(Cut(pieces, k))
  }

  function Sub(d: Dict, key: string): Dict {
    if key in d && d[key].Branch? then d[key].entries else map[]
  }

  /** With the default of a missing key copied. */
  function Filled(data: Dict, defaults: Dict, key: string): Dict
    requires Known(data, defaults, key)
  {
    if key in data then data else data[key := defaults[key]]
  }

  predicate LeafOnWay(data: Dict, defaults: Dict, key: string)
    requires Known(data, defaults, key)
  {
    Filled(data, defaults, key)[key].Leaf? || (key in defaults && defaults[key].Leaf?)
  }

  lemma {:induction false} JoinCut(pieces: seq<string>, i: nat)
    requires 0 < i < |pieces|
    ensures Join(pieces, '_') == Join(pieces[..i], '_') + "_" + Join(pieces[i..], '_')
  {
    if i == 1 {
      assert pieces[..1] == [pieces[0]];
    } else {
      JoinCut(pieces[1..], i - 1);
      assert pieces[1..][..i - 1] == pieces[..i][1..];
      assert pieces[1..][i - 1..] == pieces[i..];
      assert pieces[..i][0] == pieces[0];
    }
  }

  /** Reading on is on a shorter name, or on the same name one level down. */
  lemma RestIsShorter(name: string, data: Dict, defaults: Dict)
    requires Chosen(name, data, defaults).Some?
    ensures var (key, rest) := Chosen(name, data, defaults).value;
            Known(data, defaults, key) && (rest == "" || |rest| < |name| || (key == "" && rest == name))
  {
    var pieces := Split(name, '_');
    JoinSplit(name, '_');
    var k := FirstCut(pieces, data, defaults, 0);
    if !Known(data, defaults, name) {
      if k == 0 {
        assert pieces[0..] == pieces && pieces[..0] == [];
      } else {
        JoinCut(pieces, k);
      }
    }
  }

  /** What `env_override` does to a dictionary, given its defaults. */
  function Override(data: Dict, defaults: Dict, name: string, value: string): (Outcome, Dict)
    decreases |name|, defaults != map[], Branch(defaults), Branch(data)
  {
    if Chosen(name, data, defaults).None? then (NotFound, data)
    else
      RestIsShorter(name, data, defaults);
      var (key, rest) := Chosen(name, data, defaults).value;
      var filled := Filled(data, defaults, key);
      if rest == "" then (Written([key]), filled[key := Leaf(value)])
      else if LeafOnWay(data, defaults, key) then (Stuck, filled)
      else
        var (outcome, sub) := Override(filled[key].entries, Sub(defaults, key), rest, value);
        (Under(key, outcome), filled[key := Branch(sub)])
  }

  function Under(key: string, o: Outcome): Outcome {
    if o.Written? then Written([key] + o.path) else o
  }

  // ---------- paths that are found ----------

  /** At this node nothing comes before the path's own key: neither its whole name nor a shorter prefix. */
  ghost predicate NothingBefore(data: Dict, defaults: Dict, path: seq<string>)
    requires |path| > 1
  {
    var own := Split(path[0], '_');
    && Join(path[1..], '_') != ""
    && !Known(data, defaults, Join(path, '_'))
    && forall i :: 0 <= i < |own| ==> !Known(data, defaults, Join(own[..i], '_'))
  }

  ghost predicate Passes(data: Dict, defaults: Dict, path: seq<string>)
    requires |path| > 1
  {
    Known(data, defaults, path[0]) && NothingBefore(data, defaults, path)
  }

  /** The path exists, and no node on it shadows it. */
  ghost predicate Unshadowed(data: Dict, defaults: Dict, path: seq<string>)
    requires path != []
    decreases |path|
  {
    && Known(data, defaults, path[0])
    && (|path| > 1 ==>
          && Passes(data, defaults, path)
          && !LeafOnWay(data, defaults, path[0])
          && Unshadowed(Filled(data, defaults, path[0])[path[0]].entries, Sub(defaults, path[0]), path[1..]))
  }

  /** The cut after the path's first key, and the cuts inside that key. */
  lemma OwnCut(path: seq<string>, i: nat)
    requires |path| > 1 && i <= |Split(path[0], '_')|
    ensures var own, pieces := Split(path[0], '_'), Split(Join(path, '_'), '_');
            && |own| < |pieces|
            && Cut(pieces, |own|) == (path[0], Join(path[1..], '_'))
            && Cut(pieces, i).0 == Join(own[..i], '_')
  {
    var own, rest := Split(path[0], '_'), Split(Join(path[1..], '_'), '_');
    SplitConcat(path[0], Join(path[1..], '_'), '_');
    CutOfConcat(own, rest, i);
    CutOfConcat(own, rest, |own|);
    JoinSplit(path[0], '_');
    JoinSplit(Join(path[1..], '_'), '_');
  }

  lemma CutOfConcat<T>(a: seq<T>, b: seq<T>, i: nat)
    requires i <= |a|
    ensures (a + b)[..i] == a[..i] && (a + b)[|a|..] == b && a[..|a|] == a
  {
  }

  lemma CutIs(pieces: seq<string>, data: Dict, defaults: Dict, i: nat, k: nat)
    requires i <= k < |pieces| && Known(data, defaults, Cut(pieces, k).0)
    requires forall j :: i <= j < k ==> !Known(data, defaults, Cut(pieces, j).0)
    ensures FirstCut(pieces, data, defaults, i) == k
    decreases k - i
  {
  }

  lemma JoinGrows(pieces: seq<string>, i: nat, j: nat)
    requires i < j <= |pieces| && (i == 0 ==> Join(pieces[..j], '_') != "")
    ensures |Join(pieces[..i], '_')| < |Join(pieces[..j], '_')|
  {
    if i > 0 {
      JoinCut(pieces[..j], i);
      assert pieces[..j][..i] == pieces[..i];
    }
  }

  lemma PassesIsChosen(data: Dict, defaults: Dict, path: seq<string>)
    requires |path| > 1 && Passes(data, defaults, path)
    ensures Chosen(Join(path, '_'), data, defaults) == Some((path[0], Join(path[1..], '_')))
  {
    var own, pieces := Split(path[0], '_'), Split(Join(path, '_'), '_');
    OwnCut(path, 0);
    forall j | 0 <= j < |own| ensures !Known(data, defaults, Cut(pieces, j).0) {
      OwnCut(path, j);
    }
    CutIs(pieces, data, defaults, 0, |own|);
  }

  /** Only the cut after the path's first key gives that key. */
  lemma OwnCutIsOnly(path: seq<string>, k: nat)
    requires |path| > 1 && path[0] != "" && k < |Split(Join(path, '_'), '_')|
    requires Cut(Split(Join(path, '_'), '_'), k).0 == path[0]
    ensures k == |Split(path[0], '_')|
  {
    var own, pieces := Split(path[0], '_'), Split(Join(path, '_'), '_');
    OwnCut(path, 0);
    if k < |own| {
      JoinGrows(pieces, k, |own|);
    } else if k > |own| {
      JoinGrows(pieces, |own|, k);
    }
  }

  /** The resolver takes a path's first key exactly when nothing comes before it. */
  lemma ChosenPasses(data: Dict, defaults: Dict, path: seq<string>)
    requires |path| > 1 && path[0] != "" && Join(path[1..], '_') != ""
    requires Chosen(Join(path, '_'), data, defaults).Some?
    requires Chosen(Join(path, '_'), data, defaults).value.0 == path[0]
    ensures Passes(data, defaults, path)
  {
    var own, pieces := Split(path[0], '_'), Split(Join(path, '_'), '_');
    var k := FirstCut(pieces, data, defaults, 0);
    OwnCutIsOnly(path, k);
    forall i | 0 <= i < |own| ensures !Known(data, defaults, Join(own[..i], '_')) {
      OwnCut(path, i);
    }
  }

  lemma OverrideStep(data: Dict, defaults: Dict, name: string, value: string, key: string, rest: string)
    requires Chosen(name, data, defaults) == Some((key, rest)) && rest != ""
    requires Known(data, defaults, key) && !LeafOnWay(data, defaults, key)
    ensures var (outcome, sub) := Override(Filled(data, defaults, key)[key].entries, Sub(defaults, key), rest, value);
            Override(data, defaults, name, value)
            == (Under(key, outcome), Filled(data, defaults, key)[key := Branch(sub)])
  {
  }

  /** The resolver undoes the flattening of an unshadowed path. */
  lemma {:induction false} UnshadowedIsWritten(data: Dict, defaults: Dict, path: seq<string>, value: string)
    requires path != [] && Unshadowed(data, defaults, path)
    ensures Override(data, defaults, Join(path, '_'), value).0 == Written(path)
    decreases |path|
  {
    if |path| == 1 {
      Singleton(path);
    } else {
      PassesIsChosen(data, defaults, path);
      OverrideStep(data, defaults, Join(path, '_'), value, path[0], Join(path[1..], '_'));
      UnshadowedIsWritten(Filled(data, defaults, path[0])[path[0]].entries, Sub(defaults, path[0]), path[1..], value);
      HeadAndTail(path);
    }
  }

  /** What a written outcome says about the first choice. */
  lemma WrittenFirst(data: Dict, defaults: Dict, name: string, value: string)
    requires Override(data, defaults, name, value).0.Written?
    ensures Chosen(name, data, defaults).Some?
    ensures var (key, rest) := Chosen(name, data, defaults).value;
            var path := Override(data, defaults, name, value).0.path;
            && Known(data, defaults, key) && path != [] && path[0] == key
            && (rest == "" ==> |path| == 1)
            && (rest != "" ==> |path| > 1 && !LeafOnWay(data, defaults, key)
                               && Override(Filled(data, defaults, key)[key].entries, Sub(defaults, key), rest, value).0
                                  == Written(path[1..]))
    decreases |name|, defaults != map[], Branch(defaults), Branch(data)
  {
    RestIsShorter(name, data, defaults);
    var (key, rest) := Chosen(name, data, defaults).value;
    if rest != "" {
      OverrideStep(data, defaults, name, value, key, rest);
      WrittenFirst(Filled(data, defaults, key)[key].entries, Sub(defaults, key), rest, value);
    }
  }

  lemma {:induction false} WrittenIsUnshadowed(data: Dict, defaults: Dict, path: seq<string>, value: string)
    requires path != [] && forall k :: 0 <= k < |path| ==> path[k] != ""
    requires Override(data, defaults, Join(path, '_'), value).0 == Written(path)
    ensures Unshadowed(data, defaults, path)
    decreases |path|
  {
    WrittenFirst(data, defaults, Join(path, '_'), value);
    if |path| > 1 {
      JoinIsSomething(path[1..]);
      ChosenPasses(data, defaults, path);
      PassesIsChosen(data, defaults, path);
      WrittenIsUnshadowed(Filled(data, defaults, path[0])[path[0]].entries, Sub(defaults, path[0]), path[1..], value);
    }
  }

  lemma JoinIsSomething(path: seq<string>)
    requires path != [] && path[0] != ""
    ensures Join(path, '_') != ""
  {
  }

  /** For keys that are not empty: the name of a path resolves to that path exactly when nothing shadows it. */
  lemma ResolvesIff(data: Dict, defaults: Dict, path: seq<string>, value: string)
    requires path != [] && forall k :: 0 <= k < |path| ==> path[k] != ""
    ensures Override(data, defaults, Join(path, '_'), value).0 == Written(path) <==> Unshadowed(data, defaults, path)
  {
    if Unshadowed(data, defaults, path) {
      UnshadowedIsWritten(data, defaults, path, value);
    }
    if Override(data, defaults, Join(path, '_'), value).0 == Written(path) {
      WrittenIsUnshadowed(data, defaults, path, value);
    }
  }
}
