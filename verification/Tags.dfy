// Tag lists: Python's order on strings, `sorted`, `sorted(set(...))`, and the
// extraction of the magic `host:` tag.
module Tags {
  import opened Prelude
  import opened MetricSpec

  // ---------- order on strings ----------

  /** Python's `<=` on strings: lexicographic by code point. */
  predicate Leq(a: string, b: string) {
    a == "" || (b != "" && (a[0] < b[0] || (a[0] == b[0] && Leq(a[1..], b[1..]))))
  }

  predicate Less(a: string, b: string) {
    Leq(a, b) && a != b
  }

  /** At the first place where the strings differ, the smaller code point is on the left; or the left one ends first. */
  lemma {:induction false} LeqAt(a: string, b: string, k: nat)
    requires k <= |a| && k <= |b| && a[..k] == b[..k]
    ensures k == |a| ==> Leq(a, b)
    ensures k < |a| && k < |b| && a[k] != b[k] ==> (Leq(a, b) <==> a[k] < b[k])
    ensures k < |a| && k == |b| ==> !Leq(a, b)
  {
    if k > 0 {
      assert a[0] == a[..k][0] == b[..k][0] == b[0];
      assert a[1..][..k - 1] == a[..k][1..] == b[1..][..k - 1];
      LeqAt(a[1..], b[1..], k - 1);
    }
  }

  lemma {:induction false} LeqIsReflexive(a: string)
    ensures Leq(a, a)
  {
    if a != "" {
      LeqIsReflexive(a[1..]);
    }
  }

  lemma {:induction false} LeqIsTotal(a: string, b: string)
    ensures Leq(a, b) || Leq(b, a)
  {
    if a != "" && b != "" {
      LeqIsTotal(a[1..], b[1..]);
    }
  }

  lemma {:induction false} LeqIsAntisymmetric(a: string, b: string)
    requires Leq(a, b) && Leq(b, a)
    ensures a == b
  {
    if a != "" && b != "" {
      LeqIsAntisymmetric(a[1..], b[1..]);
      assert a == [a[0]] + a[1..] && b == [b[0]] + b[1..];
    }
  }

  lemma {:induction false} LeqIsTransitive(a: string, b: string, c: string)
    requires Leq(a, b) && Leq(b, c)
    ensures Leq(a, c)
  {
    if a != "" && a[0] == b[0] && b[0] == c[0] {
      LeqIsTransitive(a[1..], b[1..], c[1..]);
    }
  }

  // ---------- sorted ----------

  ghost predicate IsSorted(s: seq<string>) {
    forall i, j :: 0 <= i < j < |s| ==> Leq(s[i], s[j])
  }

  function Insert(x: string, s: seq<string>): seq<string> {
    if s == [] then [x]
    else if Leq(x, s[0]) then [x] + s
    else [s[0]] + Insert(x, s[1..])
  }

  /** `sorted(tags)` */
  function Sorted(s: seq<string>): seq<string> {
    if s == [] then [] else Insert(s[0], Sorted(s[1..]))
  }

  lemma {:induction false} InsertAdds(x: string, s: seq<string>)
    ensures multiset(Insert(x, s)) == multiset(s) + multiset{x}
  {
    if s != [] && !Leq(x, s[0]) {
      InsertAdds(x, s[1..]);
      assert s == [s[0]] + s[1..];
    }
  }

  lemma {:induction false} InsertKeepsOrder(x: string, s: seq<string>)
    requires IsSorted(s)
    ensures IsSorted(Insert(x, s))
  {
    if s == [] {
    } else if Leq(x, s[0]) {
      forall j | 0 <= j < |s| ensures Leq(x, s[j]) {
        if j > 0 {
          LeqIsTransitive(x, s[0], s[j]);
        }
      }
    } else {
      var rest := Insert(x, s[1..]);
      InsertKeepsOrder(x, s[1..]);
      InsertAdds(x, s[1..]);
      LeqIsTotal(x, s[0]);
      forall k | 0 <= k < |rest| ensures Leq(s[0], rest[k]) {
        assert rest[k] in multiset(rest);
        assert rest[k] == x || rest[k] in s[1..];
      }
    }
  }

  lemma {:induction false} SortedIsSortedPermutation(s: seq<string>)
    ensures IsSorted(Sorted(s)) && multiset(Sorted(s)) == multiset(s)
  {
    if s != [] {
      SortedIsSortedPermutation(s[1..]);
      InsertKeepsOrder(s[0], Sorted(s[1..]));
      InsertAdds(s[0], Sorted(s[1..]));
      assert s == [s[0]] + s[1..];
    }
  }

  // ---------- sorted(set(...)) ----------

  ghost predicate StrictlyIncreasing(s: seq<string>) {
    forall i, j :: 0 <= i < j < |s| ==> Less(s[i], s[j])
  }

  function ToSet(s: seq<string>): set<string> {
    set x | x in s
  }

  /** `sorted(set(tags))` */
  function Deduplicated(tags: seq<string>): seq<string> {
    if tags == [] then []
    else
      var rest := Deduplicated(tags[1..]);
      if tags[0] in rest then rest else Insert(tags[0], rest)
  }

  lemma {:induction false} InsertKeepsStrictness(x: string, s: seq<string>)
    requires StrictlyIncreasing(s) && x !in s
    ensures StrictlyIncreasing(Insert(x, s))
  {
    assert IsSorted(s);
    var r := Insert(x, s);
    InsertKeepsOrder(x, s);
    InsertAdds(x, s);
    forall i, j | 0 <= i < j < |r| ensures r[i] != r[j] {
      if r[i] == r[j] {
        TwiceInMultiset(r, i, j);
        assert multiset(s)[r[i]] >= 1;
        assert r[i] in s;
        StrictHasNoRepeats(s, r[i]);
      }
    }
  }

  lemma TwiceInMultiset(r: seq<string>, i: nat, j: nat)
    requires i < j < |r| && r[i] == r[j]
    ensures multiset(r)[r[i]] >= 2
  {
    assert r == r[..j] + [r[j]] + r[j + 1..];
    assert r[i] in r[..j];
  }

  lemma {:induction false} StrictHasNoRepeats(s: seq<string>, x: string)
    requires StrictlyIncreasing(s)
    ensures multiset(s)[x] <= 1
  {
    if s != [] {
      assert s == [s[0]] + s[1..];
      StrictHasNoRepeats(s[1..], x);
      if x == s[0] {
        assert x !in s[1..];
      }
    }
  }

  lemma {:induction false} DeduplicatedIsCanonical(tags: seq<string>)
    ensures StrictlyIncreasing(Deduplicated(tags))
    ensures ToSet(Deduplicated(tags)) == ToSet(tags)
  {
    if tags != [] {
      var rest := Deduplicated(tags[1..]);
      DeduplicatedIsCanonical(tags[1..]);
      assert forall x :: x in tags[1..] <==> x in ToSet(tags[1..]);
      assert forall x :: x in rest <==> x in ToSet(rest);
      assert forall x :: x in tags <==> x == tags[0] || x in tags[1..];
      if tags[0] !in rest {
        InsertKeepsStrictness(tags[0], rest);
        InsertAdds(tags[0], rest);
        var r := Insert(tags[0], rest);
        assert forall x :: x in r <==> x in multiset(r);
      }
    }
  }

  lemma {:induction false} StrictListsOfSameSet(a: seq<string>, b: seq<string>)
    requires StrictlyIncreasing(a) && StrictlyIncreasing(b)
    requires ToSet(a) == ToSet(b)
    ensures a == b
  {
    assert forall x :: x in a <==> x in ToSet(a);
    assert forall x :: x in b <==> x in ToSet(b);
    assert a != [] ==> a[0] in ToSet(b);
    assert b != [] ==> b[0] in ToSet(a);
    if a != [] && b != [] {
      assert a[0] in b && b[0] in a;
      LeqIsReflexive(a[0]);
      assert Leq(a[0], b[0]) && Leq(b[0], a[0]);
      LeqIsAntisymmetric(a[0], b[0]);
      forall x | x in ToSet(a[1..]) ensures x in ToSet(b[1..]) {
        assert x in ToSet(a) && x != a[0];
        assert x in b;
      }
      forall x | x in ToSet(b[1..]) ensures x in ToSet(a[1..]) {
        assert x in ToSet(b) && x != b[0];
        assert x in a;
      }
      StrictListsOfSameSet(a[1..], b[1..]);
      assert a == [a[0]] + a[1..] && b == [b[0]] + b[1..];
    }
  }

  /** Two tag lists give the same key exactly when they are equal as sets. */
  lemma SameTagsSameKey(a: seq<string>, b: seq<string>)
    ensures Deduplicated(a) == Deduplicated(b) <==> ToSet(a) == ToSet(b)
  {
    DeduplicatedIsCanonical(a);
    DeduplicatedIsCanonical(b);
    if ToSet(a) == ToSet(b) {
      StrictListsOfSameSet(Deduplicated(a), Deduplicated(b));
    }
  }

  // ---------- contexts ----------

  /** The key under which a submission is aggregated. */
  function MakeContext(name: string, tags: Option<seq<string>>, host: Option<string>, defaultHost: string): Context {
    Context(name, if tags.Some? then Deduplicated(tags.value) else [], if host.Some? then host.value else defaultHost)
  }

  function TagSet(tags: Option<seq<string>>): set<string> {
    if tags.Some? then ToSet(tags.value) else {}
  }

  /** The key has the name and the host as they are, and each tag once, in order. */
  lemma ContextParts(name: string, tags: Option<seq<string>>, host: Option<string>, defaultHost: string)
    ensures var c := MakeContext(name, tags, host, defaultHost);
            && c.name == name
            && StrictlyIncreasing(c.tags) && (forall x :: x in c.tags <==> tags.Some? && x in tags.value)
            && c.host == if host.Some? then host.value else defaultHost
  {
    if tags.Some? {
      DeduplicatedIsCanonical(tags.value);
      var c := MakeContext(name, tags, host, defaultHost);
      forall x ensures x in c.tags <==> x in tags.value {
        assert x in c.tags <==> x in ToSet(c.tags);
      }
    }
  }

  /** Two submissions go to the same object exactly when name, host and set of tags agree; an empty host
      name is not the default one. */
  lemma SameContextIff(name: string, tags: Option<seq<string>>, host: Option<string>, defaultHost: string,
                       name': string, tags': Option<seq<string>>, host': Option<string>)
    ensures MakeContext(name, tags, host, defaultHost) == MakeContext(name', tags', host', defaultHost)
       <==> name == name' && TagSet(tags) == TagSet(tags')
            && (if host.Some? then host.value else defaultHost) == (if host'.Some? then host'.value else defaultHost)
  {
    var a := if tags.Some? then tags.value else [];
    var b := if tags'.Some? then tags'.value else [];
    SameTagsSameKey(a, b);
    assert TagSet(tags) == ToSet(a) && TagSet(tags') == ToSet(b);
  }

  // ---------- magic tags ----------

  const HOST_PREFIX := "host:"

  predicate IsHostTag(tag: string) {
    HOST_PREFIX <= tag
  }

  function HostTags(tags: seq<string>): (hosts: seq<string>)
    ensures forall k :: 0 <= k < |hosts| ==> IsHostTag(hosts[k])
  {
    if tags == [] then []
    else (if IsHostTag(tags[0]) then [tags[0]] else []) + HostTags(tags[1..])
  }

  function OtherTags(tags: seq<string>): seq<string> {
    if tags == [] then []
    else (if IsHostTag(tags[0]) then [] else [tags[0]]) + OtherTags(tags[1..])
  }

  /** `list.remove`: drops the first occurrence. */
  function RemoveFirst(tags: seq<string>, tag: string): seq<string>
    requires tag in tags
  {
    if tags[0] == tag then tags[1..] else [tags[0]] + RemoveFirst(tags[1..], tag)
  }

  lemma RemovingFirstHostTag(tags: seq<string>)
    requires HostTags(tags) != []
    ensures HostTags(tags)[0] in tags
    ensures HostTags(RemoveFirst(tags, HostTags(tags)[0])) == HostTags(tags)[1..]
    ensures OtherTags(RemoveFirst(tags, HostTags(tags)[0])) == OtherTags(tags)
  {
    if !IsHostTag(tags[0]) {
      RemovingFirstHostTag(tags[1..]);
      HostTagsAreHostTags(tags[1..], 0);
    }
  }

  lemma {:induction false} HostTagsAreHostTags(tags: seq<string>, k: nat)
    requires k < |HostTags(tags)|
    ensures IsHostTag(HostTags(tags)[k]) && HostTags(tags)[k] in tags
  {
    if IsHostTag(tags[0]) && k == 0 {
    } else {
      HostTagsAreHostTags(tags[1..], if IsHostTag(tags[0]) then k - 1 else k);
    }
  }

  lemma {:induction false} NoHostTagsLeft(tags: seq<string>)
    requires HostTags(tags) == []
    ensures OtherTags(tags) == tags
  {
    if tags != [] {
      NoHostTagsLeft(tags[1..]);
      assert tags == [tags[0]] + tags[1..];
    }
  }

  lemma {:induction false} HostTagsConcat(a: seq<string>, b: seq<string>)
    ensures HostTags(a + b) == HostTags(a) + HostTags(b)
  {
    if a == [] {
      assert a + b == b;
    } else {
      assert (a + b)[1..] == a[1..] + b;
      HostTagsConcat(a[1..], b);
    }
  }

  /** A `host:` tag with no other behind it: it names the host. */
  ghost predicate IsLastHost(tags: seq<string>, k: int)
    requires 0 <= k < |tags|
  {
    "host:" <= tags[k] && forall j :: k < j < |tags| ==> !("host:" <= tags[j])
  }

  lemma {:induction false} LastMarked(tags: seq<string>) returns (k: int)
    ensures HostTags(tags) == [] <==> forall j :: 0 <= j < |tags| ==> !IsHostTag(tags[j])
    ensures var hosts := HostTags(tags);
            hosts != [] ==>
              0 <= k < |tags| && IsHostTag(tags[k]) && (forall j :: k < j < |tags| ==> !IsHostTag(tags[j]))
              && tags[k] == hosts[|hosts| - 1]
  {
    hide IsHostTag;
    k := 0;
    if tags != [] {
      var i := LastMarked(tags[1..]);
      if HostTags(tags[1..]) != [] {
        k := i + 1;
      }
      assert forall j :: 0 < j < |tags| ==> tags[j] == tags[1..][j - 1];
    }
  }

  lemma LastHostTag(tags: seq<string>) returns (k: int)
    ensures HostTags(tags) == [] <==> forall j :: 0 <= j < |tags| ==> !("host:" <= tags[j])
    ensures var hosts := HostTags(tags);
            hosts != [] ==> 0 <= k < |tags| && IsLastHost(tags, k) && tags[k] == hosts[|hosts| - 1]
  {
    hide HostTags;
    k := LastMarked(tags);
  }

  lemma HostNamed(tag: string)
    requires IsHostTag(tag)
    ensures |tag| >= 5 && "host:" + tag[5..] == tag
  {
    assert tag == tag[..5] + tag[5..];
  }

  lemma NextTag(tags: seq<string>, i: nat)
    requires i < |tags|
    ensures HostTags(tags[..i + 1]) == HostTags(tags[..i]) + if IsHostTag(tags[i]) then [tags[i]] else []
  {
    assert tags[..i + 1] == tags[..i] + [tags[i]];
    HostTagsConcat(tags[..i], [tags[i]]);
  }

  lemma NoTagYet(tags: seq<string>)
    ensures HostTags(tags[..0]) == [] && tags[..|tags|] == tags
    ensures HostTags([]) == [] && OtherTags([]) == []
  {
  }

  /** After extraction no `host:` tag remains, the other tags keep order and multiplicity, and the last
      `host:` tag names the host.  An emptied tag list becomes `None`; no tags stay what they were. */
  method ExtractMagicTags(tags: Option<seq<string>>) returns (host: Option<string>, rest: Option<seq<string>>)
    ensures tags == None ==> host == None && rest == None
    ensures tags.Some? ==>
              var hosts := HostTags(tags.value);
              if hosts == [] then host == None && rest == tags
              else host.Some? && "host:" + host.value == hosts[|hosts| - 1]
                   && rest == if OtherTags(tags.value) == [] then None else Some(OtherTags(tags.value))
  {
    hide *;
    host, rest := None, tags;
    NoTagYet(if tags.Some? then tags.value else []);
    if tags.Some? && tags.value != [] {
      var all := tags.value;
      var toRemove := [];
      for i := 0 to |all|
        invariant toRemove == HostTags(all[..i])
        invariant toRemove == [] ==> host == None
        invariant toRemove != [] ==> host.Some? && "host:" + host.value == toRemove[|toRemove| - 1]
      {
        NextTag(all, i);
        if IsHostTag(all[i]) {
          HostNamed(all[i]);
          host := Some(all[i][5..]);
          toRemove := toRemove + [all[i]];
        }
      }
      if toRemove != [] {
        var left := all;
        for i := 0 to |toRemove|
          invariant HostTags(left) == toRemove[i..]
          invariant OtherTags(left) == OtherTags(all)
        {
          RemovingFirstHostTag(left);
          left := RemoveFirst(left, toRemove[i]);
        }
        NoHostTagsLeft(left);
        rest := if left == [] then None else Some(left);
      }
    }
  }

  /** The tags kept keep their order: of a list of parts, the parts' ones follow each other. */
  lemma {:induction false} OtherTagsOfParts(a: seq<string>, b: seq<string>)
    ensures OtherTags(a + b) == OtherTags(a) + OtherTags(b)
    ensures |a| == 1 ==> OtherTags(a) == if "host:" <= a[0] then [] else a
  {
    if a == [] {
      assert a + b == b;
    } else {
      assert (a + b)[1..] == a[1..] + b;
      OtherTagsOfParts(a[1..], b);
    }
  }

  /** The tags kept are exactly the ones that are no `host:` tags, each as often as before. */
  lemma {:induction false} OtherTagsKeepMultiplicity(tags: seq<string>, tag: string)
    ensures multiset(OtherTags(tags))[tag] == if "host:" <= tag then 0 else multiset(tags)[tag]
  {
    if tags != [] {
      OtherTagsKeepMultiplicity(tags[1..], tag);
      assert tags == [tags[0]] + tags[1..];
    }
  }
}
