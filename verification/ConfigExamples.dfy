// Concrete configurations at the edges of the theorems on overrides.
module ConfigExamples {
  import opened Prelude
  import opened Text
  import opened ConfigTree
  import opened ConfigLookup

  function Nest(key: string, n: Node): Dict {
    map[key := n]
  }

  function TwoValues(): Dict {
    map["x" := Leaf("0"), "y" := Leaf("0")]
  }

  /** a.b has a value of its own in the data, and a default dictionary c with two values. */
  function Data(): Dict {
    Nest("a", Branch(Nest("b", Branch(Nest("z", Leaf("1"))))))
  }

  function Defaults(): Dict {
    Nest("a", Branch(Nest("b", Branch(Nest("c", Branch(TwoValues()))))))
  }

  lemma OneLetterPasses(data: Dict, defaults: Dict, path: seq<string>)
    requires |path| > 1 && |path[0]| == 1 && '_' !in path[0] && Join(path[1..], '_') != ""
    requires Known(data, defaults, path[0]) && !Known(data, defaults, "") && !Known(data, defaults, Join(path, '_'))
    ensures Passes(data, defaults, path)
  {
    SplitWhole(path[0], '_');
    assert [path[0]][..0] == [];
  }

  lemma PathIsUnshadowed()
    ensures Unshadowed(Data(), Defaults(), ["a", "b", "c", "x"])
  {
    var path := ["a", "b", "c", "x"];
    var da, db := Data()["a"].entries, Data()["a"].entries["b"].entries;
    var fa, fb, fc := Defaults()["a"].entries, Nest("c", Branch(TwoValues())), TwoValues();
    assert path[1..] == ["b", "c", "x"] && path[1..][1..] == ["c", "x"] && path[1..][1..][1..] == ["x"];
    OneLetterPasses(Data(), Defaults(), path);
    OneLetterPasses(da, fa, path[1..]);
    OneLetterPasses(db, fb, path[1..][1..]);
    assert Unshadowed(fc, fc, path[1..][1..][1..]);
    assert Unshadowed(db, fb, path[1..][1..]);
    assert Unshadowed(da, fa, path[1..]);
  }

  lemma CopyIsDeep()
    ensures FirstMissing(Data(), ["a", "b", "c", "x"]) == 2
    ensures NodeAt(Defaults(), ["a", "b", "c"]) == Some(Branch(TwoValues()))
  {
    var path, short := ["a", "b", "c", "x"], ["a", "b", "c"];
    var da, db := Data()["a"].entries, Data()["a"].entries["b"].entries;
    var fa, fb := Defaults()["a"].entries, Nest("c", Branch(TwoValues()));
    assert path[1..] == ["b", "c", "x"] && path[1..][1..] == ["c", "x"];
    assert FirstMissing(db, path[1..][1..]) == 0;
    assert FirstMissing(da, path[1..]) == 1;
    assert short[1..] == ["b", "c"] && short[1..][1..] == ["c"];
    assert NodeAt(fb, short[1..][1..]) == Some(Branch(TwoValues()));
    assert NodeAt(fa, short[1..]) == Some(Branch(TwoValues()));
  }

  lemma PathNamesLeaf()
    ensures NamesLeaf(Data(), Defaults(), ["a", "b", "c", "x"])
  {
    var path := ["a", "b", "c", "x"];
    var fa, fb := Defaults()["a"].entries, Nest("c", Branch(TwoValues()));
    CopyIsDeep();
    assert path[1..] == ["b", "c", "x"] && path[1..][1..] == ["c", "x"] && path[1..][1..][1..] == ["x"];
    assert HasLeaf(TwoValues(), path[1..][1..][1..]);
    assert HasLeaf(fb, path[1..][1..]);
    assert HasLeaf(fa, path[1..]);
  }

  /** Overriding a.b.c.x makes a.b.c.y visible, which no lookup saw before. */
  lemma SiblingAppears(value: string)
    ensures var path := ["a", "b", "c", "x"];
            && Unshadowed(Data(), Defaults(), path) && NamesLeaf(Data(), Defaults(), path)
            && !OthersUnchanged(Data(), Override(Data(), Defaults(), Join(path, '_'), value).1, Defaults(), path)
  {
    var path := ["a", "b", "c", "x"];
    PathIsUnshadowed();
    PathNamesLeaf();
    CopyIsDeep();
    assert path[..3] == ["a", "b", "c"] && path[3..] == ["x"];
    assert Look(Branch(TwoValues()), ["y"]) == Some("0");
    assert ["y"][0] != path[3..][0];
    assert Reveals(Data(), Defaults(), path);
    OverrideFrameIff(Data(), Defaults(), path, value);
  }

  /** With an empty key two readings of "__" meet: the path is written although the empty key shadows it. */
  lemma EmptyKeyCoincides(value: string)
    ensures var d, path := Nest("", Branch(Nest("_", Leaf("0")))), ["", "_"];
            Override(d, map[], Join(path, '_'), value).0 == Written(path) && !Unshadowed(d, map[], path)
  {
    var inner := Nest("_", Leaf("0"));
    var d, path := Nest("", Branch(inner)), ["", "_"];
    assert path[1..] == ["_"];
    assert Join(path, '_') == "__";
    assert Split("__", '_') == ["", "", ""] by {
      SplitWhole("", '_');
      SplitConcat("", "", '_');
      SplitConcat("", "_", '_');
      assert "" + "_" + "" == "_" && "" + "_" + "_" == "__";
    }
    var pieces := Split("__", '_');
    assert pieces[..0] == [] && pieces[..1] == [""] && pieces[..2] == ["", ""] && pieces[2..] == [""] && pieces[0..] == pieces;
    assert Cut(pieces, 0) == ("", "__") by {
      JoinSplit("__", '_');
    }
    assert Chosen("__", d, map[]) == Some(("", "__"));
    assert Cut(pieces, 1).0 == "";
    assert Join(["", ""], '_') == "_" by {
      assert ["", ""][1..] == [""];
    }
    assert Cut(pieces, 2) == ("_", "");
    CutIs(pieces, inner, map[], 0, 2);
    assert Chosen("__", inner, map[]) == Some(("_", ""));
    OverrideStep(d, map[], "__", value, "", "__");
    SplitWhole("", '_');
    assert Split(path[0], '_')[..0] == [];
    assert Known(d, map[], Join(Split(path[0], '_')[..0], '_'));
  }
}
