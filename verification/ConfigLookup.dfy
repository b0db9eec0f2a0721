// What lookups see after an override: the leaf it names, and whatever a copy
// of missing defaults brings with it.
module ConfigLookup {
  import opened Prelude
  import opened Text
  import opened ConfigTree

  // ---------- lookups ----------

  /** `config[key]`: a dictionary over its default, one level deep. */
  function GetItem(data: Dict, defaults: Dict, key: string): Option<Node> {
    if key in data then
      if data[key].Branch? && key in defaults && defaults[key].Branch? then
        Some(Branch(defaults[key].entries + data[key].entries))
      else Some(data[key])
    else if key in defaults then Some(defaults[key])
    else None
  }

  /** The value at a path below a node. */
  function Look(n: Node, path: seq<string>): Option<string>
    decreases |path|
  {
    match n
    case Leaf(value) => if path == [] then Some(value) else None
    case Branch(entries) =>
      if path != [] && path[0] in entries then Look(entries[path[0]], path[1..]) else None
  }

  /** `config[k1][k2]...`; None for a KeyError or a dictionary. */
  function Effective(data: Dict, defaults: Dict, path: seq<string>): Option<string>
    requires path != []
  {
    match GetItem(data, defaults, path[0])
    case None => None
    case Some(n) => Look(n, path[1..])
  }

  // ---------- an override as a copy and a write ----------

  /** The data with the first missing key on the path copied from the defaults. */
  function CopyMissing(data: Dict, defaults: Dict, path: seq<string>): Dict
    decreases |path|
  {
    if path == [] then data
    else if path[0] !in data then
      if path[0] in defaults then data[path[0] := defaults[path[0]]] else data
    else if data[path[0]].Leaf? then data
    else data[path[0] := Branch(CopyMissing(data[path[0]].entries, Sub(defaults, path[0]), path[1..]))]
  }

  function WriteLeaf(d: Dict, path: seq<string>, value: string): Dict
    requires path != []
    decreases |path|
  {
    if |path| == 1 then d[path[0] := Leaf(value)]
    else d[path[0] := Branch(WriteLeaf(Sub(d, path[0]), path[1..], value))]
  }

  /** Nothing is missing on a path that the data have. */
  lemma {:induction false} NothingToCopy(d: Dict, path: seq<string>)
    requires path != [] && Unshadowed(d, d, path)
    ensures CopyMissing(d, d, path) == d
    decreases |path|
  {
    if |path| > 1 {
      NothingToCopy(d[path[0]].entries, path[1..]);
      assert d[path[0] := d[path[0]]] == d;
    } else if d[path[0]].Branch? {
      assert CopyMissing(d[path[0]].entries, Sub(d, path[0]), path[1..]) == d[path[0]].entries;
      assert d[path[0] := d[path[0]]] == d;
    }
  }

  lemma {:induction false} OverrideIsCopyAndWrite(data: Dict, defaults: Dict, path: seq<string>, value: string)
    requires path != [] && Unshadowed(data, defaults, path)
    ensures Override(data, defaults, Join(path, '_'), value).1 == WriteLeaf(CopyMissing(data, defaults, path), path, value)
    decreases |path|
  {
    var key := path[0];
    if |path| == 1 {
      Singleton(path);
      assert WriteLeaf(CopyMissing(data, defaults, path), path, value) == Filled(data, defaults, key)[key := Leaf(value)];
    } else {
      var filled := Filled(data, defaults, key);
      var copied := CopyMissing(filled[key].entries, Sub(defaults, key), path[1..]);
      PassesIsChosen(data, defaults, path);
      OverrideStep(data, defaults, Join(path, '_'), value, key, Join(path[1..], '_'));
      OverrideIsCopyAndWrite(filled[key].entries, Sub(defaults, key), path[1..], value);
      if key !in data {
        NothingToCopy(filled[key].entries, path[1..]);
      }
      assert Sub(CopyMissing(data, defaults, path), key) == copied;
      assert CopyMissing(data, defaults, path)[key := Branch(WriteLeaf(copied, path[1..], value))]
          == filled[key := Branch(WriteLeaf(copied, path[1..], value))];
    }
  }

  // ---------- the write ----------

  predicate HasLeaf(d: Dict, path: seq<string>)
    requires path != []
    decreases |path|
  {
    && path[0] in d
    && if |path| == 1 then d[path[0]].Leaf? else d[path[0]].Branch? && HasLeaf(d[path[0]].entries, path[1..])
  }

  /** The write is seen, whatever was there before. */
  lemma {:induction false} WriteIsThere(d: Dict, path: seq<string>, value: string)
    requires path != []
    ensures Look(Branch(WriteLeaf(d, path, value)), path) == Some(value)
    decreases |path|
  {
    if |path| > 1 {
      WriteIsThere(Sub(d, path[0]), path[1..], value);
    }
  }

  lemma WriteIsSeen(data: Dict, defaults: Dict, path: seq<string>, value: string)
    requires path != []
    ensures Effective(WriteLeaf(data, path, value), defaults, path) == Some(value)
  {
    if |path| > 1 {
      WriteIsThere(Sub(data, path[0]), path[1..], value);
    }
  }

  /** Below one dictionary a write changes what is at its path and nothing else. */
  lemma {:induction false} LookAfterWrite(d: Dict, path: seq<string>, value: string, q: seq<string>)
    requires path != [] && HasLeaf(d, path)
    ensures Look(Branch(WriteLeaf(d, path, value)), q) == if q == path then Some(value) else Look(Branch(d), q)
    decreases |path|
  {
    if q != [] && q[0] == path[0] {
      HeadAndTail(q);
      HeadAndTail(path);
      if |path| == 1 {
        Singleton(path);
      } else {
        LookAfterWrite(d[path[0]].entries, path[1..], value, q[1..]);
      }
    }
  }

  lemma EffectiveAfterWrite(data: Dict, defaults: Dict, path: seq<string>, value: string, q: seq<string>)
    requires path != [] && HasLeaf(data, path) && q != []
    ensures Effective(WriteLeaf(data, path, value), defaults, q)
            == if q == path then Some(value) else Effective(data, defaults, q)
  {
    var key := path[0];
    HeadAndTail(q);
    HeadAndTail(path);
    if q[0] == key {
      if |path| == 1 {
        Singleton(path);
      } else {
        LookAfterWrite(data[key].entries, path[1..], value, q[1..]);
        if key in defaults && defaults[key].Branch? {
          MergedLook(defaults[key].entries, data[key].entries, WriteLeaf(data[key].entries, path[1..], value), q[1..]);
        }
      }
    }
  }

  /** Merging both over the same defaults, when only values of existing keys differ. */
  lemma MergedLook(base: Dict, before: Dict, after: Dict, q: seq<string>)
    requires before.Keys == after.Keys
    ensures q != [] && q[0] in before ==> Look(Branch(base + after), q) == Look(Branch(after), q)
    ensures q != [] && q[0] in before ==> Look(Branch(base + before), q) == Look(Branch(before), q)
    ensures q == [] || q[0] !in before ==> Look(Branch(base + after), q) == Look(Branch(base + before), q)
  {
  }

  // ---------- the copy ----------

  /** The position on the path of the first key the data lack; the path's length if they lack none. */
  function FirstMissing(data: Dict, path: seq<string>): (i: nat)
    ensures i <= |path|
    decreases |path|
  {
    if path == [] || path[0] !in data then 0
    else 1 + FirstMissing(Sub(data, path[0]), path[1..])
  }

  function NodeAt(d: Dict, path: seq<string>): Option<Node>
    requires path != []
    decreases |path|
  {
    if path[0] !in d then None
    else if |path| == 1 then Some(d[path[0]])
    else NodeAt(Sub(d, path[0]), path[1..])
  }

  /** A default that is copied has a value other than the one at the path. */
  ghost predicate CopiesMore(data: Dict, defaults: Dict, path: seq<string>) {
    var i := FirstMissing(data, path);
    i < |path| &&
    var n := NodeAt(defaults, path[..i + 1]);
    n.Some? && exists t :: t != path[i + 1..] && Look(n.value, t).Some?
  }

  /** The copy happens below the second level, where lookups do not merge defaults, and brings other values along. */
  ghost predicate Reveals(data: Dict, defaults: Dict, path: seq<string>) {
    FirstMissing(data, path) >= 2 && CopiesMore(data, defaults, path)
  }

  /** Below one dictionary: what was missing appears, the rest stays. */
  lemma {:induction false} LookAfterCopy(data: Dict, defaults: Dict, path: seq<string>, q: seq<string>)
    requires path != [] && Unshadowed(data, defaults, path)
    ensures var i := FirstMissing(data, path);
            if i < |path| && path[..i + 1] <= q
            then Look(Branch(data), q) == None
                 && NodeAt(defaults, path[..i + 1]).Some?
                 && Look(Branch(CopyMissing(data, defaults, path)), q) == Look(NodeAt(defaults, path[..i + 1]).value, q[i + 1..])
            else Look(Branch(CopyMissing(data, defaults, path)), q) == Look(Branch(data), q)
    decreases |path|
  {
    var key := path[0];
    var i := FirstMissing(data, path);
    if key !in data {
      Singleton(path[..1]);
      if q != [] && q[0] == key {
        assert path[..1] <= q;
      }
    } else if |path| == 1 {
      OneKeyCopy(data, defaults, path);
    } else {
      LookAfterCopy(data[key].entries, Sub(defaults, key), path[1..], if q == [] then [] else q[1..]);
      PrefixStep(path, q, i);
    }
  }

  lemma OneKeyCopy(data: Dict, defaults: Dict, path: seq<string>)
    requires |path| == 1 && path[0] in data
    ensures CopyMissing(data, defaults, path) == data && FirstMissing(data, path) == 1
  {
    if data[path[0]].Branch? {
      assert data[path[0] := data[path[0]]] == data;
    }
  }

  lemma PrefixStep(path: seq<string>, q: seq<string>, i: nat)
    requires 0 < i <= |path|
    ensures i < |path| ==> path[..i + 1][1..] == path[1..][..i] && path[..i + 1][0] == path[0]
    ensures i < |path| && q != [] ==> (path[..i + 1] <= q <==> q[0] == path[0] && path[1..][..i] <= q[1..])
    ensures i < |path| && q != [] && i < |q| ==> q[1..][i..] == q[i + 1..]
  {
    if i < |path| && q != [] {
      if path[..i + 1] <= q {
        assert q[0] == path[..i + 1][0];
        assert q[1..][..i] == q[..i + 1][1..];
      }
    }
  }

  /** The default that a copy brings to the second level was visible before. */
  lemma CopyBelowMerge(data: Dict, defaults: Dict, path: seq<string>)
    requires |path| > 1 && Unshadowed(data, defaults, path) && FirstMissing(data, path) <= 1
    ensures GetItem(CopyMissing(data, defaults, path), defaults, path[0]) == GetItem(data, defaults, path[0])
  {
    var key := path[0];
    if key !in data {
      assert defaults[key].entries + defaults[key].entries == defaults[key].entries;
    } else {
      var base, own := defaults[key].entries, data[key].entries;
      assert base + own[path[1] := base[path[1]]] == base + own;
    }
  }

  lemma CopyKeepsKeys(data: Dict, defaults: Dict, path: seq<string>)
    requires path != [] && path[0] in data
    ensures CopyMissing(data, defaults, path).Keys == data.Keys
  {
  }

  /** Lookups change only where a copy happens below the merged level. */
  lemma EffectiveAfterCopy(data: Dict, defaults: Dict, path: seq<string>, q: seq<string>)
    requires path != [] && Unshadowed(data, defaults, path) && q != []
    ensures var i := FirstMissing(data, path);
            var copied := CopyMissing(data, defaults, path);
            if 2 <= i < |path| && path[..i + 1] <= q
            then Effective(data, defaults, q) == None
                 && NodeAt(defaults, path[..i + 1]).Some?
                 && Effective(copied, defaults, q) == Look(NodeAt(defaults, path[..i + 1]).value, q[i + 1..])
            else Effective(copied, defaults, q) == Effective(data, defaults, q)
  {
    var key := path[0];
    var i := FirstMissing(data, path);
    if |path| == 1 {
      if key in data {
        OneKeyCopy(data, defaults, path);
      } else if defaults[key].Branch? {
        assert defaults[key].entries + defaults[key].entries == defaults[key].entries;
      }
    } else if i <= 1 {
      CopyBelowMerge(data, defaults, path);
    } else {
      DeepCopy(data, defaults, path, q);
    }
  }

  lemma DeepCopy(data: Dict, defaults: Dict, path: seq<string>, q: seq<string>)
    requires |path| > 1 && Unshadowed(data, defaults, path) && q != [] && FirstMissing(data, path) > 1
    ensures var i := FirstMissing(data, path);
            var copied := CopyMissing(data, defaults, path);
            if i < |path| && path[..i + 1] <= q
            then Effective(data, defaults, q) == None
                 && NodeAt(defaults, path[..i + 1]).Some?
                 && Effective(copied, defaults, q) == Look(NodeAt(defaults, path[..i + 1]).value, q[i + 1..])
            else Effective(copied, defaults, q) == Effective(data, defaults, q)
  {
    var key, i := path[0], FirstMissing(data, path);
    PrefixStep(path, q, i);
    if q[0] == key {
      var own := data[key].entries;
      var after := CopyMissing(own, Sub(defaults, key), path[1..]);
      LookAfterCopy(own, Sub(defaults, key), path[1..], q[1..]);
      CopyKeepsKeys(own, Sub(defaults, key), path[1..]);
      if key in defaults {
        MergedLook(defaults[key].entries, own, after, q[1..]);
      }
    }
  }

  // ---------- both together ----------

  /** The path names a value, in the data or in the defaults that will be copied. */
  predicate NamesLeaf(data: Dict, defaults: Dict, path: seq<string>)
    requires path != []
  {
    if FirstMissing(data, path) < |path| then HasLeaf(defaults, path) else HasLeaf(data, path)
  }

  lemma {:induction false} CopyHasLeaf(data: Dict, defaults: Dict, path: seq<string>)
    requires path != [] && Unshadowed(data, defaults, path) && NamesLeaf(data, defaults, path)
    ensures HasLeaf(CopyMissing(data, defaults, path), path)
    decreases |path|
  {
    var key := path[0];
    if key in data {
      if |path| == 1 {
        OneKeyCopy(data, defaults, path);
      } else {
        CopyHasLeaf(data[key].entries, Sub(defaults, key), path[1..]);
      }
    } else {
      SameLeaf(CopyMissing(data, defaults, path), defaults, path);
    }
  }

  lemma SameLeaf(a: Dict, b: Dict, path: seq<string>)
    requires path != [] && path[0] in a && path[0] in b && a[path[0]] == b[path[0]]
    ensures HasLeaf(a, path) == HasLeaf(b, path)
  {
  }

  /** Every lookup but the one of the path gives what it gave. */
  ghost predicate OthersUnchanged(before: Dict, after: Dict, defaults: Dict, path: seq<string>) {
    forall q :: q != [] && q != path ==> Effective(after, defaults, q) == Effective(before, defaults, q)
  }

  lemma OneUnchanged(data: Dict, defaults: Dict, path: seq<string>, q: seq<string>)
    requires path != [] && Unshadowed(data, defaults, path) && q != [] && q != path && !Reveals(data, defaults, path)
    ensures Effective(CopyMissing(data, defaults, path), defaults, q) == Effective(data, defaults, q)
  {
    EffectiveAfterCopy(data, defaults, path, q);
    var i := FirstMissing(data, path);
    if 2 <= i < |path| && path[..i + 1] <= q {
      PrefixRest(path, q, i + 1);
    }
  }

  lemma PrefixRest(path: seq<string>, q: seq<string>, n: nat)
    requires n <= |path| && path[..n] <= q && q != path
    ensures q[n..] != path[n..]
  {
    assert q == path[..n] + q[n..] && path == path[..n] + path[n..];
  }

  lemma SiblingRevealed(data: Dict, defaults: Dict, path: seq<string>) returns (q: seq<string>)
    requires path != [] && Unshadowed(data, defaults, path) && Reveals(data, defaults, path)
    ensures q != [] && q != path
    ensures Effective(CopyMissing(data, defaults, path), defaults, q).Some? && Effective(data, defaults, q).None?
  {
    var i := FirstMissing(data, path);
    var n := NodeAt(defaults, path[..i + 1]).value;
    var t :| t != path[i + 1..] && Look(n, t).Some?;
    q := path[..i + 1] + t;
    assert q[i + 1..] == t;
    EffectiveAfterCopy(data, defaults, path, q);
  }

  /** For an unshadowed path to a value: the override sets that value, and changes no other lookup exactly when it
      does not copy a default dictionary below the second level that holds other values. */
  lemma OverrideFrameIff(data: Dict, defaults: Dict, path: seq<string>, value: string)
    requires path != [] && Unshadowed(data, defaults, path) && NamesLeaf(data, defaults, path)
    ensures var (outcome, after) := Override(data, defaults, Join(path, '_'), value);
            && outcome == Written(path)
            && Effective(after, defaults, path) == Some(value)
            && (OthersUnchanged(data, after, defaults, path) <==> !Reveals(data, defaults, path))
  {
    var copied := CopyMissing(data, defaults, path);
    var after := Override(data, defaults, Join(path, '_'), value).1;
    UnshadowedIsWritten(data, defaults, path, value);
    OverrideIsCopyAndWrite(data, defaults, path, value);
    CopyHasLeaf(data, defaults, path);
    EffectiveAfterWrite(copied, defaults, path, value, path);
    if Reveals(data, defaults, path) {
      var q := SiblingRevealed(data, defaults, path);
      EffectiveAfterWrite(copied, defaults, path, value, q);
    } else {
      forall q | q != [] && q != path ensures Effective(after, defaults, q) == Effective(data, defaults, q) {
        EffectiveAfterWrite(copied, defaults, path, value, q);
        OneUnchanged(data, defaults, path, q);
      }
    }
  }

  // ---------- any override at all ----------

  lemma LookInto(d: Dict, key: string, n: Node, q: seq<string>)
    ensures Look(Branch(d[key := n]), q) == if q != [] && q[0] == key then Look(n, q[1..]) else Look(Branch(d), q)
  {
  }

  lemma LookSub(d: Dict, q: seq<string>)
    requires q != []
    ensures q[0] !in d ==> Look(Branch(d), q) == None
    ensures q[0] in d ==> Look(Branch(d), q) == Look(d[q[0]], q[1..])
    ensures q[0] in d && d[q[0]].Branch? ==> Look(Branch(d), q) == Look(Branch(Sub(d, q[0])), q[1..])
    ensures q[0] !in d || d[q[0]].Leaf? ==> Look(Branch(Sub(d, q[0])), q[1..]) == None
  {
  }

  /** Whatever a name resolves to, even if it does not resolve at all: the value is set where it was written, every other
      value of the data stays, and what appears is the default of its own path. */
  lemma {:induction false} OverrideKeepsValues(data: Dict, defaults: Dict, name: string, value: string, q: seq<string>)
    ensures var (o, data') := Override(data, defaults, name, value);
            && (o.Written? ==> o.path != [] && Look(Branch(data'), o.path) == Some(value))
            && ((o.Written? && o.path <= q)
                || Look(Branch(data'), q) == Look(Branch(data), q)
                || (Look(Branch(data), q) == None && Look(Branch(data'), q) == Look(Branch(defaults), q)))
    decreases |name|, defaults != map[], Branch(defaults), Branch(data)
  {
    hide Look, Chosen, LeafOnWay;
    if Chosen(name, data, defaults).Some? {
      RestIsShorter(name, data, defaults);
      var (key, rest) := Chosen(name, data, defaults).value;
      var filled := Filled(data, defaults, key);
      FilledLook(data, defaults, key, q);
      if rest == "" {
        LookInto(filled, key, Leaf(value), [key]);
        LookInto(filled, key, Leaf(value), q);
        LookLeaf(value);
        FirstKey(key, q);
      } else if !LeafOnWay(data, defaults, key) {
        LeafOnWayIs(data, defaults, key);
        OverrideStep(data, defaults, name, value, key, rest);
        var below := Override(filled[key].entries, Sub(defaults, key), rest, value);
        var tail := if q == [] then [] else q[1..];
        OverrideKeepsValues(filled[key].entries, Sub(defaults, key), rest, value, tail);
        LookInto(filled, key, Branch(below.1), q);
        if below.0.Written? {
          LookInto(filled, key, Branch(below.1), [key] + below.0.path);
          PrefixUnder(key, below.0.path, q);
        }
        if q != [] && q[0] == key {
          LookSub(filled, q);
          LookSub(defaults, q);
        }
      }
    }
  }

  lemma LeafOnWayIs(data: Dict, defaults: Dict, key: string)
    requires Known(data, defaults, key)
    ensures !LeafOnWay(data, defaults, key) ==>
              Filled(data, defaults, key)[key].Branch? && !(key in defaults && defaults[key].Leaf?)
  {
  }

  lemma LookLeaf(value: string)
    ensures Look(Leaf(value), []) == Some(value)
  {
  }

  lemma FirstKey(key: string, q: seq<string>)
    ensures q != [] && q[0] == key ==> [key] <= q
    ensures [key][1..] == []
  {
  }

  lemma PrefixUnder(key: string, path: seq<string>, q: seq<string>)
    ensures q != [] && q[0] == key && path <= q[1..] ==> [key] + path <= q
    ensures ([key] + path)[1..] == path && ([key] + path)[0] == key
  {
    if q != [] && q[0] == key && path <= q[1..] {
      HeadAndTail(q);
    }
  }

  lemma FilledLook(data: Dict, defaults: Dict, key: string, q: seq<string>)
    requires Known(data, defaults, key)
    ensures var filled := Filled(data, defaults, key);
            && (Look(Branch(filled), q) == Look(Branch(data), q)
                || (Look(Branch(data), q) == None && Look(Branch(filled), q) == Look(Branch(defaults), q)))
            && (q != [] && q[0] == key && key !in data ==>
                  Look(Branch(data), q) == None && Look(Branch(filled), q) == Look(Branch(defaults), q))
  {
  }
}
