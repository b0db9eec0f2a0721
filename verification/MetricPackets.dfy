// The metric packets of the statsd protocol: several values in one packet,
// `name:value|type|@rate|#tag,tag:value|type...`.
module MetricPackets {
  import opened Prelude
  import opened Text
  import opened MetadataFields
  import Tags

  // ---------- cutting the body into data ----------

  /** One value with its metadata: a '|' occurs in no ':'-token but the first. */
  predicate Whole(datum: string) {
    forall i :: 1 <= i < |Split(datum, ':')| ==> '|' !in Split(datum, ':')[i]
  }

  predicate StartsDatum(datum: string) {
    '|' in Split(datum, ':')[0]
  }

  /** Every datum is whole, and every one but the first starts with a token that has a '|'. */
  predicate WellCut(data: seq<string>) {
    && (forall k :: 0 <= k < |data| ==> Whole(data[k]))
    && (forall k :: 1 <= k < |data| ==> StartsDatum(data[k]))
  }

  predicate IsSegmentation(body: string, data: seq<string>) {
    data != [] && Join(data, ':') == body && WellCut(data)
  }

  /** The tokens of the data, one after the other. */
  function Tokens(data: seq<string>): seq<string> {
    if data == [] then [] else Tokens(data[..|data| - 1]) + Split(data[|data| - 1], ':')
  }

  lemma {:induction false} TokensOfJoin(data: seq<string>)
    requires data != []
    ensures Split(Join(data, ':'), ':') == Tokens(data)
  {
    var n := |data| - 1;
    if n == 0 {
      assert data[..0] == [];
      assert [] + Split(data[0], ':') == Split(data[0], ':');
    } else {
      TokensOfJoin(data[..n]);
      JoinSnoc(data[..n], data[n], ':');
      assert data[..n] + [data[n]] == data;
      SplitConcat(Join(data[..n], ':'), data[n], ':');
    }
  }

  lemma SameAt(before: seq<string>, last: seq<string>, before': seq<string>, last': seq<string>)
    requires before + last == before' + last' && last != [] && |last| <= |last'|
    ensures last[0] == last'[|last'| - |last|]
  {
    assert (before + last)[|before|] == (before' + last')[|before|];
  }

  /** The last data of two cuts of the same tokens are equal. */
  lemma LastDatum(before: seq<string>, last: seq<string>, before': seq<string>, last': seq<string>)
    requires before + last == before' + last' && last != [] && last' != []
    requires forall i :: 1 <= i < |last| ==> '|' !in last[i]
    requires forall i :: 1 <= i < |last'| ==> '|' !in last'[i]
    requires before == [] || '|' in last[0]
    requires before' == [] || '|' in last'[0]
    ensures before == before' && last == last'
  {
    var all := before + last;
    if |last| < |last'| {
      SameAt(before, last, before', last');
    } else if |last| > |last'| {
      SameAt(before', last', before, last);
    }
    assert |last| == |last'|;
    assert before == all[..|before|] && before' == all[..|before'|];
    assert last == all[|before|..] && last' == all[|before'|..];
  }

  lemma LastIsWellCut(a: seq<string>, n: nat)
    requires WellCut(a) && |a| == n + 1
    ensures WellCut(a[..n]) && Whole(a[n]) && (a[..n] == [] || StartsDatum(a[n]))
  {
  }

  lemma LastsAgree(a: seq<string>, n: nat, b: seq<string>, m: nat)
    requires WellCut(a) && WellCut(b) && Tokens(a) == Tokens(b) && |a| == n + 1 && |b| == m + 1
    ensures Tokens(a[..n]) == Tokens(b[..m]) && a[n] == b[m]
  {
    LastIsWellCut(a, n);
    LastIsWellCut(b, m);
    NoTokens(a[..n]);
    NoTokens(b[..m]);
    LastDatum(Tokens(a[..n]), Split(a[n], ':'), Tokens(b[..m]), Split(b[m], ':'));
    JoinSplit(a[n], ':');
    JoinSplit(b[m], ':');
  }

  lemma {:induction false} SameTokensSameData(a: seq<string>, b: seq<string>)
    requires WellCut(a) && WellCut(b) && Tokens(a) == Tokens(b)
    ensures a == b
  {
    if a != [] && b != [] {
      var n, m := |a| - 1, |b| - 1;
      LastsAgree(a, n, b, m);
      LastIsWellCut(a, n);
      LastIsWellCut(b, m);
      SameTokensSameData(a[..n], b[..m]);
      InitAndLast(a, n);
      InitAndLast(b, m);
    }
  }

  lemma NoTokens(data: seq<string>)
    ensures Tokens(data) == [] <==> data == []
  {
  }

  /** There is at most one way to cut a body. */
  lemma SegmentationIsUnique(body: string, a: seq<string>, b: seq<string>)
    requires IsSegmentation(body, a) && IsSegmentation(body, b)
    ensures a == b
  {
    TokensOfJoin(a);
    TokensOfJoin(b);
    SameTokensSameData(a, b);
  }

  function Lengthened(data: seq<string>, token: string): seq<string>
    requires data != []
  {
    data[..|data| - 1] + [data[|data| - 1] + ":" + token]
  }

  lemma LongerDatum(datum: string, token: string)
    requires ':' !in token
    ensures Split(datum + ":" + token, ':') == Split(datum, ':') + [token]
    ensures '|' !in token && Whole(datum) ==> Whole(datum + ":" + token)
    ensures StartsDatum(datum) ==> StartsDatum(datum + ":" + token)
  {
    SplitConcat(datum, token, ':');
    SplitWhole(token, ':');
    assert Split(datum + ":" + token, ':') == Split(datum, ':') + [token];
  }

  lemma GluedTokens(data: seq<string>, token: string)
    requires data != [] && ':' !in token
    ensures Tokens(Lengthened(data, token)) == Tokens(data) + [token]
  {
    var m := |data| - 1;
    LongerDatum(data[m], token);
    assert Lengthened(data, token)[..m] == data[..m];
    assert Tokens(data[..m]) + (Split(data[m], ':') + [token]) == (Tokens(data[..m]) + Split(data[m], ':')) + [token];
  }

  lemma GlueToken(data: seq<string>, token: string)
    requires data != [] && WellCut(data) && ':' !in token && '|' !in token
    ensures WellCut(Lengthened(data, token)) && Tokens(Lengthened(data, token)) == Tokens(data) + [token]
  {
    LongerDatum(data[|data| - 1], token);
    GluedTokens(data, token);
  }

  lemma NextToken(data: seq<string>, token: string)
    requires WellCut(data) && ':' !in token && (data == [] || '|' in token)
    ensures WellCut(data + [token])
    ensures Tokens(data + [token]) == Tokens(data) + [token]
  {
    SplitWhole(token, ':');
    assert (data + [token])[..|data|] == data;
  }

  /** Gluing the tokens that the split at ':' broke. */
  method CutBody(body: string) returns (data: seq<string>)
    ensures IsSegmentation(body, data)
  {
    var tokens := Split(body, ':');
    JoinSplit(body, ':');
    data := [];
    var partial: Option<string> := None;
    for i := 0 to |tokens|
      invariant partial.None? <==> i == 0
      invariant i == 0 ==> data == []
      invariant i > 0 ==> WellCut(data + [partial.value]) && Tokens(data + [partial.value]) == tokens[..i]
    {
      var token := tokens[i];
      assert tokens[..i + 1] == tokens[..i] + [token];
      if partial.None? {
        NextToken([], token);
        assert [] + [token] == [token];
        partial := Some(token);
      } else if '|' !in token {
        GlueToken(data + [partial.value], token);
        assert Lengthened(data + [partial.value], token) == data + [partial.value + ":" + token];
        partial := Some(partial.value + ":" + token);
      } else {
        NextToken(data + [partial.value], token);
        data := data + [partial.value];
        partial := Some(token);
      }
    }
    data := data + [partial.value];
    TokensOfJoin(data);
    assert tokens[..|tokens|] == tokens;
    JoinSplit(Join(data, ':'), ':');
  }

  /** The cut with one more token. */
  function Extended(data: seq<string>, token: string): (r: seq<string>)
    requires data != []
    ensures r != []
  {
    if '|' in token then data + [token] else Lengthened(data, token)
  }

  lemma ExtendedIsWellCut(data: seq<string>, token: string)
    requires data != [] && WellCut(data) && ':' !in token
    ensures WellCut(Extended(data, token)) && Tokens(Extended(data, token)) == Tokens(data) + [token]
  {
    if '|' in token {
      NextToken(data, token);
    } else {
      GlueToken(data, token);
    }
  }

  /** The same cut as a value. */
  function Glued(tokens: seq<string>): (data: seq<string>)
    requires tokens != []
    ensures data != []
  {
    if |tokens| == 1 then tokens else Extended(Glued(tokens[..|tokens| - 1]), tokens[|tokens| - 1])
  }

  lemma OneToken(tokens: seq<string>)
    requires |tokens| == 1 && ':' !in tokens[0]
    ensures WellCut(tokens) && Tokens(tokens) == tokens
  {
    SplitWhole(tokens[0], ':');
    Singleton(tokens);
  }

  lemma {:induction false} GluedIsWellCut(tokens: seq<string>)
    requires tokens != [] && Pieces(tokens, ':')
    ensures WellCut(Glued(tokens)) && Tokens(Glued(tokens)) == tokens
  {
    var n := |tokens| - 1;
    if n == 0 {
      OneToken(tokens);
    } else {
      GluedIsWellCut(tokens[..n]);
      ExtendedIsWellCut(Glued(tokens[..n]), tokens[n]);
      InitAndLast(tokens, n);
    }
  }

  function Segments(body: string): seq<string> {
    Glued(Split(body, ':'))
  }

  /** The cut exists and is the only one. */
  lemma SegmentsIff(body: string, data: seq<string>)
    ensures IsSegmentation(body, data) <==> data == Segments(body)
  {
    JoinSplit(body, ':');
    var it := Segments(body);
    GluedIsWellCut(Split(body, ':'));
    TokensOfJoin(it);
    JoinSplit(Join(it, ':'), ':');
    if IsSegmentation(body, data) {
      SegmentationIsUnique(body, data, it);
    }
  }

  /** Data come out of the cut as they went in exactly when they are cut well. */
  lemma KeptApartIff(data: seq<string>)
    requires data != []
    ensures Segments(Join(data, ':')) == data <==> WellCut(data)
  {
    SegmentsIff(Join(data, ':'), data);
  }

  /** A '|' behind a ':' starts a datum of its own: `1|c|#a:b|@0.5` is `1|c|#a` and `b|@0.5`. */
  lemma BarBehindColonCuts(before: string, behind: string)
    requires ':' !in before && ':' !in behind && '|' in behind
    ensures Segments(before + ":" + behind) == [before, behind]
  {
    var data := [before, behind];
    SplitWhole(before, ':');
    SplitWhole(behind, ':');
    assert Split(data[0], ':') == [before] && Split(data[1], ':') == [behind];
    assert data[1..] == [behind];
    assert WellCut(data);
    assert Join([behind], ':') == behind;
    assert Join(data, ':') == before + ":" + behind;
    SegmentsIff(before + ":" + behind, data);
  }

  // ---------- one datum ----------

  /** What `float` and `int` can give. */
  datatype Number = Finite(x: real) | Infinite(positive: bool) | NaN

  datatype Value = Raw(text: string) | Num(number: Number)

  datatype Sample = Sample(name: string, value: Value, mtype: string, tags: Option<seq<string>>, rate: Number)

  datatype Error = NoColon | NoType | ValueIsNoNumber | RateIsNoNumber

  /** How a number is read; None for a ValueError. */
  type Reader = string -> Option<Number>

  /** `1 if rate < 0 or rate > 1 else rate`; no comparison with NaN holds. */
  function Normal(rate: Number): Number {
    match rate
    case Finite(x) => if x < 0.0 || x > 1.0 then Finite(1.0) else rate
    case Infinite(_) => Finite(1.0)
    case NaN => NaN
  }

  /** The metadata before the first empty one: an empty one ends the loop. */
  function Usable(ms: seq<string>): (r: seq<string>)
    ensures forall k :: 0 <= k < |r| ==> r[k] != ""
    ensures r <= ms && (|r| < |ms| ==> ms[|r|] == "")
  {
    if ms == [] || ms[0] == "" then [] else [ms[0]] + Usable(ms[1..])
  }

  predicate RatesRead(ms: seq<string>, read: Reader) {
    forall k :: 0 <= k < |ms| && ms[k] != "" && ms[k][0] == '@' ==> read(ms[k][1..]).Some?
  }

  function TagsOf(ms: seq<string>): Option<seq<string>> {
    match LastWith(ms, '#')
    case None => None
    case Some(list) => Some(Tags.Sorted(Split(list, ',')))
  }

  function RateOf(ms: seq<string>, read: Reader): Number {
    match LastWith(ms, '@')
    case None => Finite(1.0)
    case Some(text) => if read(text).Some? then Normal(read(text).value) else Finite(1.0)
  }

  lemma {:induction false} UsableAt(ms: seq<string>, i: nat)
    requires i <= |ms| && (forall k :: 0 <= k < i ==> ms[k] != "") && (i < |ms| ==> ms[i] == "")
    ensures Usable(ms) == ms[..i]
  {
    if i > 0 {
      UsableAt(ms[1..], i - 1);
      assert ms[..i] == [ms[0]] + ms[1..][..i - 1];
    }
  }

  /** Of each kind the last field before an empty one counts. */
  method ParseMetadata(ms: seq<string>, read: Reader) returns (r: Result<(Option<seq<string>>, Number), Error>)
    ensures r == if RatesRead(Usable(ms), read) then Success((TagsOf(Usable(ms)), RateOf(Usable(ms), read)))
                 else Failure(RateIsNoNumber)
  {
    var tags, rate: Number := None, Finite(1.0);
    var i := 0;
    while i < |ms| && ms[i] != ""
      invariant i <= |ms| && forall k :: 0 <= k < i ==> ms[k] != ""
      invariant RatesRead(ms[..i], read) && tags == TagsOf(ms[..i]) && rate == RateOf(ms[..i], read)
    {
      var m := ms[i];
      assert ms[..i + 1] == ms[..i] + [m];
      LastWithSnoc(ms[..i], m, '@');
      LastWithSnoc(ms[..i], m, '#');
      if m[0] == '@' {
        var x := read(m[1..]);
        if x.None? {
          RateMissing(ms, i, read);
          return Failure(RateIsNoNumber);
        }
        rate := Normal(x.value);
      } else if m[0] == '#' {
        tags := Some(Tags.Sorted(Split(m[1..], ',')));
      }
      i := i + 1;
    }
    UsableAt(ms, i);
    r := Success((tags, rate));
  }

  lemma {:induction false} RateMissing(ms: seq<string>, i: nat, read: Reader)
    requires i < |ms| && forall k :: 0 <= k <= i ==> ms[k] != ""
    requires ms[i][0] == '@' && read(ms[i][1..]).None?
    ensures !RatesRead(Usable(ms), read)
  {
    var u := Usable(ms);
    assert |u| > i;
    assert u[i] == ms[i];
  }

  /** None for a type that is skipped. */
  function ParseDatum(name: string, datum: string, read: Reader): Result<Option<Sample>, Error> {
    var fields := Split(datum, '|');
    if |fields| < 2 then Failure(NoType)
    else
      var raw, mtype, ms := fields[0], fields[1], Usable(fields[2..]);
      if mtype != "s" && mtype != "" && mtype[0] == 'd' then Success(None)
      else if mtype != "s" && read(raw).None? then Failure(ValueIsNoNumber)
      else if !RatesRead(ms, read) then Failure(RateIsNoNumber)
      else
        var value := if mtype == "s" then Raw(raw) else Num(read(raw).value);
        Success(Some(Sample(name, value, mtype, TagsOf(ms), RateOf(ms, read))))
  }

  // ---------- whole packets ----------

  function AndThen(a: Result<seq<Sample>, Error>, b: Result<seq<Sample>, Error>): Result<seq<Sample>, Error> {
    if a.Failure? then a else if b.Failure? then b else Success(a.value + b.value)
  }

  function AsList(r: Result<Option<Sample>, Error>): Result<seq<Sample>, Error> {
    match r
    case Failure(e) => Failure(e)
    case Success(None) => Success([])
    case Success(Some(s)) => Success([s])
  }

  /** The samples of the data in order, or the first error. */
  function ParseData(name: string, data: seq<string>, read: Reader): Result<seq<Sample>, Error> {
    if data == [] then Success([])
    else AndThen(AsList(ParseDatum(name, data[0], read)), ParseData(name, data[1..], read))
  }

  function ParsePacket(packet: string, read: Reader): Result<seq<Sample>, Error> {
    match SplitOnce(packet, ':')
    case None => Failure(NoColon)
    case Some((name, body)) => ParseData(name, Segments(body), read)
  }

  lemma AndThenAssociates(a: Result<seq<Sample>, Error>, b: Result<seq<Sample>, Error>, c: Result<seq<Sample>, Error>)
    ensures AndThen(AndThen(a, b), c) == AndThen(a, AndThen(b, c))
  {
    if a.Success? && b.Success? && c.Success? {
      assert (a.value + b.value) + c.value == a.value + (b.value + c.value);
    }
  }

  method ParseOne(name: string, datum: string, read: Reader) returns (r: Result<Option<Sample>, Error>)
    ensures r == ParseDatum(name, datum, read)
  {
    var fields := Split(datum, '|');
    if |fields| < 2 {
      return Failure(NoType);
    }
    var raw, mtype := fields[0], fields[1];
    var value;
    if mtype == "s" {
      value := Raw(raw);
    } else if |mtype| > 0 && mtype[0] == 'd' {
      return Success(None);
    } else {
      var x := read(raw);
      if x.None? {
        return Failure(ValueIsNoNumber);
      }
      value := Num(x.value);
    }
    var metadata := ParseMetadata(fields[2..], read);
    if metadata.Failure? {
      return Failure(metadata.error);
    }
    var (tags, rate) := metadata.value;
    r := Success(Some(Sample(name, value, mtype, tags, rate)));
  }

  method ParseMetricPacket(packet: string, read: Reader) returns (r: Result<seq<Sample>, Error>)
    ensures r == ParsePacket(packet, read)
  {
    var parts := SplitOnce(packet, ':');
    if parts.None? {
      return Failure(NoColon);
    }
    var (name, body) := parts.value;
    var data := CutBody(body);
    SegmentsIff(body, data);
    var parsed: seq<Sample> := [];
    ghost var all := ParseData(name, data, read);
    assert data[0..] == data && all == AndThen(Success(parsed), all) by {
      if all.Success? {
        assert parsed + all.value == all.value;
      }
    }
    for i := 0 to |data|
      invariant ParseData(name, data, read) == AndThen(Success(parsed), ParseData(name, data[i..], read))
    {
      var one := ParseOne(name, data[i], read);
      assert data[i..][0] == data[i] && data[i..][1..] == data[i + 1..];
      AndThenAssociates(Success(parsed), AsList(one), ParseData(name, data[i + 1..], read));
      match one
      case Failure(e) =>
        return Failure(e);
      case Success(None) =>
        assert parsed + [] == parsed;
      case Success(Some(s)) =>
        parsed := parsed + [s];
    }
    assert parsed + [] == parsed;
    r := Success(parsed);
  }

  /** The parses of `name:d` for each datum on its own, one after the other. */
  function ParseEach(name: string, data: seq<string>, read: Reader): Result<seq<Sample>, Error> {
    if data == [] then Success([])
    else AndThen(ParsePacket(name + ":" + data[0], read), ParseEach(name, data[1..], read))
  }

  lemma SingleValue(name: string, datum: string, read: Reader)
    requires ':' !in name && Whole(datum)
    ensures ParsePacket(name + ":" + datum, read) == AsList(ParseDatum(name, datum, read))
  {
    SplitOnceAt(name, datum, ':');
    SegmentsIff(datum, [datum]);
    var one := AsList(ParseDatum(name, datum, read));
    assert ParseData(name, [datum], read) == AndThen(one, Success([]));
    if one.Success? {
      assert one.value + [] == one.value;
    }
  }

  lemma {:induction false} EachIsData(name: string, data: seq<string>, read: Reader)
    requires ':' !in name && forall k :: 0 <= k < |data| ==> Whole(data[k])
    ensures ParseEach(name, data, read) == ParseData(name, data, read)
  {
    if data != [] {
      SingleValue(name, data[0], read);
      EachIsData(name, data[1..], read);
    }
  }

  /** A packet with several values means what its values mean in packets of their own. */
  lemma SeveralValues(name: string, data: seq<string>, read: Reader)
    requires ':' !in name && data != [] && WellCut(data)
    ensures ParsePacket(name + ":" + Join(data, ':'), read) == ParseEach(name, data, read)
  {
    SplitOnceAt(name, Join(data, ':'), ':');
    SegmentsIff(Join(data, ':'), data);
    EachIsData(name, data, read);
  }

  // ---------- what comes out ----------

  /** The rate of every sample is in [0, 1], or is NaN because the packet said so. */
  predicate UnitRate(rate: Number) {
    rate.NaN? || (rate.Finite? && 0.0 <= rate.x <= 1.0)
  }

  predicate GoodSample(name: string, s: Sample) {
    s.name == name && UnitRate(s.rate) && (s.mtype == "s" <==> s.value.Raw?)
    && !(s.mtype != "" && s.mtype[0] == 'd')
  }

  lemma RateIsUnit(ms: seq<string>, read: Reader)
    ensures UnitRate(RateOf(ms, read))
  {
  }

  lemma DatumIsGood(name: string, datum: string, read: Reader)
    requires ParseDatum(name, datum, read).Success? && ParseDatum(name, datum, read).value.Some?
    ensures var s := ParseDatum(name, datum, read).value.value;
            GoodSample(name, s) && (s.tags.Some? ==> Tags.IsSorted(s.tags.value))
  {
    var ms := Usable(Split(datum, '|')[2..]);
    RateIsUnit(ms, read);
    if LastWith(ms, '#').Some? {
      Tags.SortedIsSortedPermutation(Split(LastWith(ms, '#').value, ','));
    }
  }

  lemma ParsedParts(name: string, data: seq<string>, read: Reader)
    requires ParseData(name, data, read).Success? && data != []
    ensures ParseDatum(name, data[0], read).Success? && ParseData(name, data[1..], read).Success?
    ensures ParseData(name, data, read).value
            == AsList(ParseDatum(name, data[0], read)).value + ParseData(name, data[1..], read).value
  {
  }

  lemma {:induction false} SamplesAreGood(name: string, data: seq<string>, read: Reader, k: nat)
    requires ParseData(name, data, read).Success? && k < |ParseData(name, data, read).value|
    ensures var s := ParseData(name, data, read).value[k];
            GoodSample(name, s) && (s.tags.Some? ==> Tags.IsSorted(s.tags.value))
  {
    ParsedParts(name, data, read);
    var first := AsList(ParseDatum(name, data[0], read)).value;
    if k < |first| {
      DatumIsGood(name, data[0], read);
    } else {
      SamplesAreGood(name, data[1..], read, k - |first|);
    }
  }

  // ---------- what a parsed datum says ----------

  lemma NoColonFails(packet: string, read: Reader)
    requires ':' !in packet
    ensures ParsePacket(packet, read) == Failure(NoColon)
  {
    NoSplit(packet, ':');
  }

  /** The metadata fields of a datum up to the first empty one. */
  function FieldsRead(datum: string): (r: seq<string>)
    requires |Split(datum, '|')| >= 2
    ensures r <= Split(datum, '|')[2..] && (forall k :: 0 <= k < |r| ==> r[k] != "")
    ensures |r| < |Split(datum, '|')| - 2 ==> Split(datum, '|')[2 + |r|] == ""
  {
    Usable(Split(datum, '|')[2..])
  }

  /** When a datum is refused, when it is skipped, and what name, value and type it has otherwise. */
  lemma DatumOutcome(name: string, datum: string, read: Reader)
    ensures var fields := Split(datum, '|');
            var r := ParseDatum(name, datum, read);
            if |fields| < 2 then r.Failure?
            else if fields[1] != "" && fields[1][0] == 'd' then r == Success(None)
            else if fields[1] != "s" && read(fields[0]).None? then r.Failure?
            else if exists k :: 0 <= k < |FieldsRead(datum)| && FieldsRead(datum)[k][0] == '@'
                                && read(FieldsRead(datum)[k][1..]).None? then r.Failure?
            else r.Success? && r.value.Some? && r.value.value.name == name && r.value.value.mtype == fields[1]
                 && r.value.value.value == if fields[1] == "s" then Raw(fields[0]) else Num(read(fields[0]).value)
  {
    hide Split, Usable, TagsOf, RateOf;
    var fields := Split(datum, '|');
    if |fields| >= 2 {
      assert fields[1] == "s" ==> fields[1][0] == 's';
      assert FieldsRead(datum) == Usable(fields[2..]);
    }
  }

  /** Of the rates the last one counts, if it is from 0 to 1; a datum without any has rate 1. */
  lemma RateRead(name: string, datum: string, read: Reader, k: int)
    requires ParseDatum(name, datum, read).Success? && ParseDatum(name, datum, read).value.Some?
    requires |Split(datum, '|')| >= 2 && -1 <= k < |FieldsRead(datum)| && (k >= 0 ==> FieldsRead(datum)[k][0] == '@')
    requires forall j :: k < j < |FieldsRead(datum)| ==> FieldsRead(datum)[j][0] != '@'
    ensures var rate := ParseDatum(name, datum, read).value.value.rate;
            if k < 0 then rate == Finite(1.0)
            else
              read(FieldsRead(datum)[k][1..]).Some?
              && match read(FieldsRead(datum)[k][1..]).value
                 case Finite(x) => rate == Finite(if 0.0 <= x <= 1.0 then x else 1.0)
                 case Infinite(_) => rate == Finite(1.0)
                 case NaN => rate == NaN
  {
    hide Split, Usable, TagsOf, LastWith;
    LastWithIs(FieldsRead(datum), '@', k);
  }

  /** Of the tag lists the last one counts, sorted; a datum without any has none. */
  lemma TagsRead(name: string, datum: string, read: Reader, k: int)
    requires ParseDatum(name, datum, read).Success? && ParseDatum(name, datum, read).value.Some?
    requires |Split(datum, '|')| >= 2 && -1 <= k < |FieldsRead(datum)| && (k >= 0 ==> FieldsRead(datum)[k][0] == '#')
    requires forall j :: k < j < |FieldsRead(datum)| ==> FieldsRead(datum)[j][0] != '#'
    ensures var tags := ParseDatum(name, datum, read).value.value.tags;
            if k < 0 then tags == None
            else
              && tags.Some? && Tags.IsSorted(tags.value)
              && multiset(tags.value) == multiset(Split(FieldsRead(datum)[k][1..], ','))
  {
    hide Split, Usable, RateOf, LastWith, Tags.IsSorted, Tags.Sorted;
    LastWithIs(FieldsRead(datum), '#', k);
    if k >= 0 {
      Tags.SortedIsSortedPermutation(Split(FieldsRead(datum)[k][1..], ','));
    }
  }

  // ---------- printing ----------

  /** What a client writes for one value. */
  datatype Written = Written(value: string, mtype: string, rate: Option<string>, tags: Option<seq<string>>)

  function TagField(tags: Option<seq<string>>): seq<string> {
    if tags.Some? then ["#" + Join(tags.value, ',')] else []
  }

  function RateField(rate: Option<string>): seq<string> {
    if rate.Some? then ["@" + rate.value] else []
  }

  /** The rate comes before the tags: a tag may hold a ':', and nothing with a '|' may follow it. */
  function Print(w: Written): string {
    Join([w.value, w.mtype] + RateField(w.rate) + TagField(w.tags), '|')
  }

  predicate Plain(s: string) {
    '|' !in s && ':' !in s
  }

  predicate Printable(w: Written, read: Reader) {
    && Plain(w.value) && Plain(w.mtype)
    && (w.mtype == "s" || ((w.mtype == "" || w.mtype[0] != 'd') && read(w.value).Some?))
    && (w.rate.Some? ==> Plain(w.rate.value) && read(w.rate.value).Some?)
    && (w.tags.Some? ==> w.tags.value != [] && forall k :: 0 <= k < |w.tags.value| ==> '|' !in w.tags.value[k] && ',' !in w.tags.value[k])
  }

  function Meant(name: string, w: Written, read: Reader): Sample
    requires Printable(w, read)
  {
    Sample(name, if w.mtype == "s" then Raw(w.value) else Num(read(w.value).value), w.mtype,
           if w.tags.Some? then Some(Tags.Sorted(w.tags.value)) else None,
           if w.rate.Some? then Bounded(read(w.rate.value).value) else Finite(1.0))
  }

  /** Rates from 0 to 1 stay, as does NaN; all others become 1. */
  function Bounded(rate: Number): Number {
    if rate.NaN? || (rate.Finite? && 0.0 <= rate.x <= 1.0) then rate else Finite(1.0)
  }

  /** What stands before the first separator goes to the first piece. */
  lemma {:induction false} SplitAfter(a: string, b: string, c: char)
    requires c !in a
    ensures |Split(a + b, c)| == |Split(b, c)| && Split(a + b, c)[0] == a + Split(b, c)[0]
    ensures Split(a + b, c)[1..] == Split(b, c)[1..]
  {
    if a == "" {
      assert a + b == b;
    } else {
      SplitAfter(a[1..], b, c);
      assert (a + b)[1..] == a[1..] + b;
      Associates([a[0]], a[1..], Split(b, c)[0]);
      assert [a[0]] + a[1..] == a;
    }
  }

  lemma FieldsSplit(w: Written, read: Reader)
    requires Printable(w, read)
    ensures Split(Print(w), '|') == [w.value, w.mtype] + RateField(w.rate) + TagField(w.tags)
  {
    if w.tags.Some? {
      JoinAvoids(w.tags.value, ',', '|');
    }
    SplitJoin([w.value, w.mtype] + RateField(w.rate) + TagField(w.tags), '|');
  }

  /** A printed datum is one that the cut keeps together, and that starts a new datum. */
  lemma PrintedIsWhole(w: Written, read: Reader)
    requires Printable(w, read)
    ensures Whole(Print(w)) && StartsDatum(Print(w))
  {
    var head := [w.value, w.mtype] + RateField(w.rate);
    JoinAvoids(head, '|', ':');
    if w.tags.Some? {
      var list := Join(w.tags.value, ',');
      JoinAvoids(w.tags.value, ',', '|');
      JoinSnoc(head, "#" + list, '|');
      var front := Join(head, '|') + "|#";
      assert Print(w) == front + list;
      SplitAfter(front, list, ':');
      SplitAvoids(list, ':', '|');
      assert front[|front| - 2] == '|';
      forall i | 1 <= i < |Split(Print(w), ':')| ensures '|' !in Split(Print(w), ':')[i] {
        assert Split(Print(w), ':')[i] == Split(Print(w), ':')[1..][i - 1];
      }
    } else {
      assert Print(w) == Join(head, '|') by {
        assert head + [] == head;
      }
      SplitWhole(Print(w), ':');
      assert Print(w)[|w.value|] == '|';
    }
  }

  lemma MetadataReads(w: Written, read: Reader)
    requires Printable(w, read)
    ensures var ms := RateField(w.rate) + TagField(w.tags);
            && Usable(ms) == ms && RatesRead(ms, read)
            && TagsOf(ms) == (if w.tags.Some? then Some(Tags.Sorted(w.tags.value)) else None)
            && RateOf(ms, read) == if w.rate.Some? then Bounded(read(w.rate.value).value) else Finite(1.0)
  {
    var rates := RateField(w.rate);
    var ms := rates + TagField(w.tags);
    UsableAt(ms, |ms|);
    if w.rate.Some? {
      LastWithSnoc([], rates[0], '@');
      LastWithSnoc([], rates[0], '#');
      assert [] + [rates[0]] == rates;
    }
    if w.tags.Some? {
      LastWithSnoc(rates, TagField(w.tags)[0], '@');
      LastWithSnoc(rates, TagField(w.tags)[0], '#');
      SplitJoin(w.tags.value, ',');
    } else {
      assert ms == rates;
    }
  }

  lemma TwoAndRest<T>(a: T, b: T, r: seq<T>, t: seq<T>)
    ensures var s := [a, b] + r + t; |s| >= 2 && s[0] == a && s[1] == b && s[2..] == r + t
  {
  }

  lemma PrintedReads(name: string, w: Written, read: Reader)
    requires Printable(w, read)
    ensures ParseDatum(name, Print(w), read) == Success(Some(Meant(name, w, read)))
  {
    hide Split, Print, RateField, TagField, Usable, RatesRead, TagsOf, RateOf;
    FieldsSplit(w, read);
    MetadataReads(w, read);
    TwoAndRest(w.value, w.mtype, RateField(w.rate), TagField(w.tags));
  }

  /** Rates that the aggregator cannot divide by get through: a NaN, and zero. */
  lemma OddRatesAreKept(name: string, read: Reader)
    requires read("1") == Some(Finite(1.0)) && read("nan") == Some(NaN) && read("0") == Some(Finite(0.0))
    ensures ParseDatum(name, "1|c|@nan", read) == Success(Some(Sample(name, Num(Finite(1.0)), "c", None, NaN)))
    ensures ParseDatum(name, "1|c|@0", read) == Success(Some(Sample(name, Num(Finite(1.0)), "c", None, Finite(0.0))))
  {
    hide ParseDatum, Print;
    CountAtRate(name, "nan", read);
    CountAtRate(name, "0", read);
    assert "1|c|@" + "nan" == "1|c|@nan" && "1|c|@" + "0" == "1|c|@0";
  }

  lemma CountAtRate(name: string, rate: string, read: Reader)
    requires read("1") == Some(Finite(1.0)) && read(rate).Some? && Plain(rate)
    ensures ParseDatum(name, "1|c|@" + rate, read)
            == Success(Some(Sample(name, Num(Finite(1.0)), "c", None, Bounded(read(rate).value))))
  {
    hide ParseDatum, Print;
    PrintedRate(rate);
    PrintedReads(name, Written("1", "c", Some(rate), None), read);
  }

  lemma PrintedRate(rate: string)
    ensures Print(Written("1", "c", Some(rate), None)) == "1|c|@" + rate
  {
    var last := "@" + rate;
    assert ["1", "c"] + [last] + [] == ["1", "c", last];
    assert ["1", "c", last][1..] == ["c", last] && ["c", last][1..] == [last];
    assert Join([last], '|') == last;
    assert Join(["c", last], '|') == "c" + ['|'] + last;
    assert Join(["1", "c", last], '|') == "1" + ['|'] + ("c" + ['|'] + last);
    assert "1" + ['|'] + ("c" + ['|'] + last) == "1|c|@" + rate;
  }

  function PrintAll(ws: seq<Written>): (r: seq<string>)
    ensures |r| == |ws| && forall k :: 0 <= k < |ws| ==> r[k] == Print(ws[k])
  {
    if ws == [] then [] else [Print(ws[0])] + PrintAll(ws[1..])
  }

  function MeantAll(name: string, ws: seq<Written>, read: Reader): (r: seq<Sample>)
    requires forall k :: 0 <= k < |ws| ==> Printable(ws[k], read)
    ensures |r| == |ws| && forall k :: 0 <= k < |ws| ==> r[k] == Meant(name, ws[k], read)
  {
    if ws == [] then [] else [Meant(name, ws[0], read)] + MeantAll(name, ws[1..], read)
  }

  lemma {:induction false} DataRead(name: string, ws: seq<Written>, read: Reader)
    requires forall k :: 0 <= k < |ws| ==> Printable(ws[k], read)
    ensures ParseData(name, PrintAll(ws), read) == Success(MeantAll(name, ws, read))
  {
    if ws != [] {
      PrintedReads(name, ws[0], read);
      DataRead(name, ws[1..], read);
      assert PrintAll(ws)[1..] == PrintAll(ws[1..]);
    }
  }

  /** Printing any number of values in one packet and parsing it. */
  lemma MetricRoundTrip(name: string, ws: seq<Written>, read: Reader)
    requires ':' !in name && ws != [] && forall k :: 0 <= k < |ws| ==> Printable(ws[k], read)
    ensures ParsePacket(name + ":" + Join(PrintAll(ws), ':'), read) == Success(MeantAll(name, ws, read))
  {
    var data := PrintAll(ws);
    forall k | 0 <= k < |data| ensures Whole(data[k]) && StartsDatum(data[k]) {
      PrintedIsWhole(ws[k], read);
    }
    SplitOnceAt(name, Join(data, ':'), ':');
    SegmentsIff(Join(data, ':'), data);
    DataRead(name, ws, read);
  }
}
