// The string operations the packet parsers use, as Python defines them.
module Text {
  import opened Prelude

  // ---------- split and join ----------

  function Longer(x: char, parts: seq<string>): seq<string>
    requires |parts| >= 1
  {
    [[x] + parts[0]] + parts[1..]
  }

  /** `s.split(c)` */
  function Split(s: string, c: char): (r: seq<string>)
    ensures |r| >= 1
  {
    if s == "" then [""]
    else if s[0] == c then [""] + Split(s[1..], c)
    else Longer(s[0], Split(s[1..], c))
  }

  /** `c.join(parts)` */
  function Join(parts: seq<string>, c: char): string {
    if parts == [] then ""
    else if |parts| == 1 then parts[0]
    else parts[0] + [c] + Join(parts[1..], c)
  }

  /** None of the pieces has the separator in it. */
  ghost predicate Pieces(parts: seq<string>, c: char) {
    forall k :: 0 <= k < |parts| ==> c !in parts[k]
  }

  lemma {:induction false} JoinSplit(s: string, c: char)
    ensures Join(Split(s, c), c) == s && Pieces(Split(s, c), c)
  {
    if s != "" {
      var rest := Split(s[1..], c);
      JoinSplit(s[1..], c);
      assert s == [s[0]] + s[1..];
      if s[0] == c {
        assert Split(s, c)[1..] == rest;
      } else if |rest| > 1 {
        assert Split(s, c)[1..] == rest[1..];
        assert ([s[0]] + rest[0]) + [c] + Join(rest[1..], c) == [s[0]] + (rest[0] + [c] + Join(rest[1..], c));
      }
    }
  }

  lemma {:induction false} SplitWhole(s: string, c: char)
    requires c !in s
    ensures Split(s, c) == [s]
  {
    if s != "" {
      SplitWhole(s[1..], c);
      assert [s[0]] + s[1..] == s;
    }
  }

  lemma LongerConcat(x: char, p: seq<string>, q: seq<string>)
    requires |p| >= 1
    ensures Longer(x, p + q) == Longer(x, p) + q
  {
    TailConcat([x] + p[0], p, q);
  }

  lemma {:induction false} SplitConcat(a: string, b: string, c: char)
    ensures Split(a + [c] + b, c) == Split(a, c) + Split(b, c)
  {
    var s := a + [c] + b;
    if a == "" {
      assert s[1..] == b;
    } else {
      SplitConcat(a[1..], b, c);
      assert s[1..] == a[1..] + [c] + b;
      if a[0] == c {
        Associates([""], Split(a[1..], c), Split(b, c));
      } else {
        LongerConcat(a[0], Split(a[1..], c), Split(b, c));
      }
    }
  }

  lemma {:induction false} SplitJoin(parts: seq<string>, c: char)
    requires parts != [] && Pieces(parts, c)
    ensures Split(Join(parts, c), c) == parts
  {
    SplitWhole(parts[0], c);
    if |parts| > 1 {
      SplitConcat(parts[0], Join(parts[1..], c), c);
      SplitJoin(parts[1..], c);
    }
  }

  lemma {:induction false} JoinSnoc(parts: seq<string>, p: string, c: char)
    requires parts != []
    ensures Join(parts + [p], c) == Join(parts, c) + [c] + p
  {
    if |parts| > 1 {
      JoinSnoc(parts[1..], p, c);
      assert (parts + [p])[1..] == parts[1..] + [p];
      assert parts[0] + [c] + (Join(parts[1..], c) + [c] + p) == (parts[0] + [c] + Join(parts[1..], c)) + [c] + p;
    }
  }

  lemma {:induction false} JoinAvoids(parts: seq<string>, c: char, x: char)
    requires c != x && forall k :: 0 <= k < |parts| ==> x !in parts[k]
    ensures x !in Join(parts, c)
  {
    if |parts| > 1 {
      JoinAvoids(parts[1..], c, x);
    }
  }

  lemma {:induction false} SplitAvoids(s: string, c: char, x: char)
    requires x !in s
    ensures forall k :: 0 <= k < |Split(s, c)| ==> x !in Split(s, c)[k]
  {
    if s != "" {
      SplitAvoids(s[1..], c, x);
    }
  }

  /** Where `c` first occurs, or the end. */
  function Find(s: string, c: char): (i: nat)
    ensures i <= |s| && c !in s[..i] && (i < |s| ==> s[i] == c)
  {
    if s == "" || s[0] == c then 0 else 1 + Find(s[1..], c)
  }

  /** `s.split(c, 1)` when it gives two parts. */
  function SplitOnce(s: string, c: char): Option<(string, string)> {
    var i := Find(s, c);
    if i < |s| then Some((s[..i], s[i + 1..])) else None
  }

  lemma {:induction false} FindAt(s: string, c: char, n: nat)
    requires n < |s| && c !in s[..n] && s[n] == c
    ensures Find(s, c) == n
  {
    if n > 0 {
      assert s[0] in s[..n];
      FindAt(s[1..], c, n - 1);
    }
  }

  lemma NoSplit(s: string, c: char)
    requires c !in s
    ensures SplitOnce(s, c) == None
  {
    FindNone(s, c);
  }

  lemma {:induction false} FindNone(s: string, c: char)
    requires c !in s
    ensures Find(s, c) == |s|
  {
    if s != "" {
      FindNone(s[1..], c);
    }
  }

  lemma SplitOnceAt(a: string, b: string, c: char)
    requires c !in a
    ensures SplitOnce(a + [c] + b, c) == Some((a, b))
  {
    var s := a + [c] + b;
    assert s[..|a|] == a && s[|a| + 1..] == b;
    FindAt(s, c, |a|);
  }

  // ---------- replace ----------

  predicate StartsWith(s: string, p: string) {
    |p| <= |s| && s[..|p|] == p
  }

  /** `s.replace(old, new)`: leftmost occurrences, left to right. */
  function Replace(s: string, pat: string, rep: string): string
    requires pat != ""
  {
    if s == "" then ""
    else if StartsWith(s, pat) then rep + Replace(s[|pat|..], pat, rep)
    else [s[0]] + Replace(s[1..], pat, rep)
  }

  predicate OccursAt(s: string, p: string, i: nat) {
    i + |p| <= |s| && s[i..i + |p|] == p
  }

  lemma OccursInTail(s: string, p: string, j: nat)
    requires s != ""
    ensures OccursAt(s[1..], p, j) <==> OccursAt(s, p, j + 1)
    ensures OccursAt(s, p, 0) <==> StartsWith(s, p)
  {
    if j + 1 + |p| <= |s| {
      assert s[1..][j..j + |p|] == s[j + 1..j + 1 + |p|];
    }
  }

  lemma {:induction false} ReplaceNone(s: string, pat: string, rep: string)
    requires pat != "" && forall j: nat :: !OccursAt(s, pat, j)
    ensures Replace(s, pat, rep) == s
  {
    if s != "" {
      forall j: nat ensures !OccursAt(s[1..], pat, j) {
        OccursInTail(s, pat, j);
      }
      OccursInTail(s, pat, 0);
      ReplaceNone(s[1..], pat, rep);
      HeadAndTail(s);
    }
  }

  /** The first occurrence is replaced, and so on behind it. */
  lemma {:induction false} ReplaceFirst(a: string, b: string, pat: string, rep: string)
    requires pat != "" && forall j: nat :: j < |a| ==> !OccursAt(a + pat + b, pat, j)
    ensures Replace(a + pat + b, pat, rep) == a + rep + Replace(b, pat, rep)
  {
    var s := a + pat + b;
    if a == "" {
      assert s == pat + b && s[..|pat|] == pat && s[|pat|..] == b;
      assert a + rep + Replace(b, pat, rep) == rep + Replace(b, pat, rep);
    } else {
      assert s[1..] == a[1..] + pat + b;
      forall j: nat | j < |a| - 1 ensures !OccursAt(a[1..] + pat + b, pat, j) {
        OccursInTail(s, pat, j);
      }
      OccursInTail(s, pat, 0);
      ReplaceFirst(a[1..], b, pat, rep);
      assert [a[0]] + (a[1..] + rep + Replace(b, pat, rep)) == a + rep + Replace(b, pat, rep);
    }
  }

  ghost predicate Occurs(s: string, p: string) {
    exists i: nat :: OccursAt(s, p, i)
  }

  lemma OccursLater(s: string, p: string, k: nat)
    requires k <= |s| && Occurs(s[k..], p)
    ensures Occurs(s, p)
  {
    var i: nat :| OccursAt(s[k..], p, i);
    assert s[k..][i..i + |p|] == s[k + i..k + i + |p|];
    assert OccursAt(s, p, k + i);
  }

  lemma OccursHere(s: string, p: string)
    ensures Occurs(s, p) <==> StartsWith(s, p) || (s != "" && Occurs(s[1..], p))
  {
    if StartsWith(s, p) {
      assert OccursAt(s, p, 0);
    }
    if s != "" && Occurs(s[1..], p) {
      OccursLater(s, p, 1);
    }
    if Occurs(s, p) && !StartsWith(s, p) {
      var i: nat :| OccursAt(s, p, i);
      assert i > 0;
      assert s[1..][i - 1..i - 1 + |p|] == s[i..i + |p|];
      assert OccursAt(s[1..], p, i - 1);
    }
  }

  /** A replacement by something shorter changes a string exactly when the pattern occurs. */
  lemma {:induction false} ReplaceShortens(s: string, pat: string, rep: string)
    requires |rep| < |pat|
    ensures |Replace(s, pat, rep)| <= |s|
    ensures !Occurs(s, pat) ==> Replace(s, pat, rep) == s
    ensures Occurs(s, pat) ==> |Replace(s, pat, rep)| < |s|
  {
    OccursHere(s, pat);
    if s == "" {
    } else if StartsWith(s, pat) {
      ReplaceShortens(s[|pat|..], pat, rep);
    } else {
      ReplaceShortens(s[1..], pat, rep);
      assert [s[0]] + s[1..] == s;
    }
  }

  // ---------- last occurrence ----------

  /** The last place at or before `k` where `p` occurs. */
  function LastAt(s: string, p: string, k: nat): (i: Option<nat>)
    ensures i.Some? ==> i.value <= k && OccursAt(s, p, i.value) && forall j: nat :: i.value < j <= k ==> !OccursAt(s, p, j)
    ensures i.None? ==> forall j: nat :: j <= k ==> !OccursAt(s, p, j)
  {
    if OccursAt(s, p, k) then Some(k) else if k == 0 then None else LastAt(s, p, k - 1)
  }

  /** `s.rsplit(p, 1)` when it gives two parts. */
  function SplitLast(s: string, p: string): Option<(string, string)> {
    var i := LastAt(s, p, |s|);
    if i.Some? then Some((s[..i.value], s[i.value + |p|..])) else None
  }

  lemma SplitLastNone(s: string, p: string)
    ensures SplitLast(s, p).None? <==> !Occurs(s, p)
  {
    if Occurs(s, p) {
      var i: nat :| OccursAt(s, p, i);
      assert i <= |s|;
    }
  }

  /** The last occurrence is the one before `b` when none starts later. */
  lemma SplitLastAt(a: string, p: string, b: string)
    requires forall j: nat :: j > |a| ==> !OccursAt(a + p + b, p, j)
    ensures SplitLast(a + p + b, p) == Some((a, b))
  {
    var s := a + p + b;
    assert s[|a|..|a| + |p|] == p;
    assert OccursAt(s, p, |a|);
    assert s[..|a|] == a && s[|a| + |p|..] == b;
  }

  // ---------- slices ----------

  function SliceBound(i: int, n: nat): nat {
    if i < 0 then Max(0, i + n) else Min(i, n)
  }

  /** `s[i:j]` */
  function Slice(s: string, i: int, j: int): string {
    var lo, hi := SliceBound(i, |s|), SliceBound(j, |s|);
    if lo <= hi then s[lo..hi] else ""
  }

  /** `s[i:]` */
  function From(s: string, i: int): string {
    s[SliceBound(i, |s|)..]
  }

  /** Bounds beyond an end are cut off, and negative ones count from the end. */
  lemma SliceIs(s: string, i: int, j: int)
    requires 0 <= i && 0 <= j
    ensures Slice(s, i, j) == if i <= j && i <= |s| then s[i..if j <= |s| then j else |s|] else ""
    ensures From(s, i) == if i <= |s| then s[i..] else ""
    ensures 0 < j <= |s| ==> Slice(s, i, -j) == Slice(s, i, |s| - j) && From(s, -j) == s[|s| - j..]
    ensures j > |s| ==> Slice(s, i, -j) == "" && From(s, -j) == s
  {
  }

  // ---------- integers ----------

  predicate IsSpace(c: char) {
    c in " \t\n\r" || 0xb as char <= c <= 0xc as char || 0x1c as char <= c <= 0x1f as char
  }

  predicate IsDigit(c: char) {
    '0' <= c <= '9'
  }

  function Strip(s: string): string {
    if s != "" && IsSpace(s[0]) then Strip(s[1..])
    else if s != "" && IsSpace(s[|s| - 1]) then Strip(s[..|s| - 1])
    else s
  }

  /** Digits, with single underscores between them. */
  predicate Numeral(s: string) {
    && s != ""
    && IsDigit(s[|s| - 1])
    && (|s| == 1 || Numeral(s[..|s| - 1]) || (s[|s| - 2] == '_' && Numeral(s[..|s| - 2])))
  }

  function NumeralValue(s: string): nat
    requires Numeral(s)
  {
    var last := (s[|s| - 1] - '0') as nat;
    if |s| == 1 then last
    else if Numeral(s[..|s| - 1]) then 10 * NumeralValue(s[..|s| - 1]) + last
    else 10 * NumeralValue(s[..|s| - 2]) + last
  }

  /** `int(s)`; None for a ValueError. */
  function ParseInt(s: string): Option<int> {
    var t := Strip(s);
    if t == "" then None
    else if t[0] == '-' || t[0] == '+' then
      if Numeral(t[1..]) then Some((if t[0] == '-' then -1 else 1) * NumeralValue(t[1..])) else None
    else if Numeral(t) then Some(NumeralValue(t))
    else None
  }

  function Digit(d: nat): char
    requires d < 10
  {
    '0' + d as char
  }

  function Decimal(n: nat): string {
    if n < 10 then [Digit(n)] else Decimal(n / 10) + [Digit(n % 10)]
  }

  /** `str(n)` */
  function IntText(n: int): string {
    if n < 0 then "-" + Decimal(-n) else Decimal(n)
  }

  lemma {:induction false} DecimalReads(n: nat)
    ensures Numeral(Decimal(n)) && NumeralValue(Decimal(n)) == n
    ensures forall k :: 0 <= k < |Decimal(n)| ==> IsDigit(Decimal(n)[k])
  {
    if n >= 10 {
      DecimalReads(n / 10);
      assert Decimal(n)[..|Decimal(n)| - 1] == Decimal(n / 10);
    }
  }

  lemma DecimalHead(n: nat)
    ensures IsDigit(Decimal(n)[0]) && IsDigit(Decimal(n)[|Decimal(n)| - 1])
  {
    DecimalReads(n);
  }

  lemma ParseNumeral(t: string)
    requires Numeral(t) && IsDigit(t[0])
    ensures ParseInt(t) == Some(NumeralValue(t))
  {
  }

  lemma ParseNegative(t: string)
    requires Numeral(t)
    ensures ParseInt("-" + t) == Some(-1 * NumeralValue(t))
  {
    hide NumeralValue;
    assert Strip("-" + t) == "-" + t;
    assert ("-" + t)[1..] == t;
  }

  /** Printing and reading an integer. */
  lemma IntTextReads(n: int)
    ensures ParseInt(IntText(n)) == Some(n)
  {
    DecimalReads(if n < 0 then -n else n);
    if n < 0 {
      ParseNegative(Decimal(-n));
    } else {
      DecimalHead(n);
      ParseNumeral(Decimal(n));
    }
  }

  lemma ParsePlus(t: string)
    requires Numeral(t)
    ensures ParseInt("+" + t) == Some(NumeralValue(t))
  {
    hide NumeralValue;
    assert Strip("+" + t) == "+" + t;
    assert ("+" + t)[1..] == t;
  }

  lemma StripOne(t: string, c: char)
    requires IsSpace(c) && t != "" && !IsSpace(t[0])
    ensures Strip([c] + t) == Strip(t) && Strip(t + [c]) == Strip(t)
  {
    assert ([c] + t)[1..] == t;
    assert (t + [c])[..|t|] == t && (t + [c])[0] == t[0];
  }

  /** A plus sign and white space around an integer do not matter. */
  lemma SignAndSpace(n: nat, c: char)
    requires c in " \t\n\r" || c as int in {0x0b, 0x0c, 0x1c, 0x1d, 0x1e, 0x1f}
    ensures ParseInt("+" + Decimal(n)) == Some(n)
    ensures ParseInt([c] + Decimal(n)) == Some(n) && ParseInt(Decimal(n) + [c]) == Some(n)
  {
    hide Strip, Numeral, NumeralValue, Decimal;
    DecimalReads(n);
    DecimalHead(n);
    ParsePlus(Decimal(n));
    StripOne(Decimal(n), c);
    ParseNumeral(Decimal(n));
  }

  lemma StripDigits(t: string)
    requires t != "" && !IsSpace(t[0]) && !IsSpace(t[|t| - 1])
    ensures Strip(t) == t
  {
  }

  lemma OneUnderscore(t: string, d: nat)
    requires Numeral(t) && d < 10
    ensures var s := t + ['_', Digit(d)]; Numeral(s) && NumeralValue(s) == 10 * NumeralValue(t) + d
    ensures !Numeral(t + ['_'])
  {
    var s := t + ['_', Digit(d)];
    assert s[..|s| - 2] == t && s[..|s| - 1] == t + ['_'];
    assert !Numeral(t + ['_']);
  }

  lemma TwoUnderscores(t: string, d: nat)
    requires Numeral(t) && d < 10
    ensures !Numeral(t + ['_', '_', Digit(d)])
  {
    var s := t + ['_', '_', Digit(d)];
    assert s[..|s| - 1] == t + ['_', '_'] && s[..|s| - 2] == t + ['_'];
    OneUnderscore(t, d);
    assert !Numeral(t + ['_', '_']);
  }

  /** A single underscore may stand between digits; two may not, nor one at the end. */
  lemma Underscores(m: nat, d: nat)
    requires d < 10
    ensures ParseInt(Decimal(m) + ['_', Digit(d)]) == Some(10 * m + d)
    ensures ParseInt(Decimal(m) + ['_', '_', Digit(d)]) == None && ParseInt(Decimal(m) + ['_']) == None
  {
    hide Strip, Numeral, NumeralValue, Decimal;
    DecimalReads(m);
    DecimalHead(m);
    OneUnderscore(Decimal(m), d);
    TwoUnderscores(Decimal(m), d);
    StripDigits(Decimal(m) + ['_', Digit(d)]);
    StripDigits(Decimal(m) + ['_', '_', Digit(d)]);
    StripDigits(Decimal(m) + ['_']);
  }
}
