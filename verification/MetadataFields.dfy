// The '|'-separated metadata of a packet: fields that start with a letter, of
// which the last of each letter counts.
module MetadataFields {
  import opened Prelude
  import opened Text
  import Tags

  // ---------- reading ----------

  /** The last of the fields that start with `c`, without that character. */
  function LastWith(ms: seq<string>, c: char): Option<string> {
    if ms == [] then None
    else if ms[|ms| - 1] != "" && ms[|ms| - 1][0] == c then Some(ms[|ms| - 1][1..])
    else LastWith(ms[..|ms| - 1], c)
  }

  lemma {:induction false} LastWithSnoc(ms: seq<string>, m: string, c: char)
    ensures LastWith(ms + [m], c) == if m != "" && m[0] == c then Some(m[1..]) else LastWith(ms, c)
  {
    assert (ms + [m])[..|ms|] == ms;
  }

  predicate StartsLike(m: string, c: char) {
    m != "" && m[0] == c
  }

  /** The last field with the letter is found, and none if there is none. */
  lemma {:induction false} LastWithIs(ms: seq<string>, c: char, k: int)
    requires -1 <= k < |ms| && (k >= 0 ==> StartsLike(ms[k], c))
    requires forall j :: k < j < |ms| ==> !StartsLike(ms[j], c)
    ensures LastWith(ms, c) == if k < 0 then None else Some(ms[k][1..])
  {
    if k < |ms| - 1 {
      LastWithIs(ms[..|ms| - 1], c, k);
    }
  }

  /** `m[2:]`, for what follows the letter of `m`. */
  function BehindColon(rest: string): string {
    if rest == "" then "" else rest[1..]
  }

  function TextAt(ms: seq<string>, c: char): Option<string> {
    match LastWith(ms, c)
    case None => None
    case Some(rest) => Some(BehindColon(rest))
  }

  function TagsAt(ms: seq<string>): Option<seq<string>> {
    match LastWith(ms, '#')
    case None => None
    case Some(list) => Some(Tags.Deduplicated(Split(list, ',')))
  }

  // ---------- writing ----------

  /** A client writes some letters with a text, and leaves out others. */
  type Lettered = seq<(char, Option<string>)>

  function FieldsOf(ls: Lettered): seq<string> {
    if ls == [] then []
    else
      var (c, text) := ls[|ls| - 1];
      var before := FieldsOf(ls[..|ls| - 1]);
      if text.Some? then before + [[c] + text.value] else before
  }

  lemma {:induction false} AllWritten(ls: Lettered, fields: seq<string>)
    requires |ls| == |fields| && forall i :: 0 <= i < |ls| ==> ls[i].1.Some? && fields[i] == [ls[i].0] + ls[i].1.value
    ensures FieldsOf(ls) == fields
  {
    if ls != [] {
      var n := |ls| - 1;
      AllWritten(ls[..n], fields[..n]);
      InitAndLast(fields, n);
    }
  }

  ghost predicate DistinctLetters(ls: Lettered) {
    forall i, j :: 0 <= i < j < |ls| ==> ls[i].0 != ls[j].0
  }

  lemma {:induction false} NoSuchLetter(ls: Lettered, c: char)
    requires forall i :: 0 <= i < |ls| ==> ls[i].0 != c
    ensures LastWith(FieldsOf(ls), c) == None
  {
    if ls != [] {
      var n := |ls| - 1;
      NoSuchLetter(ls[..n], c);
      if ls[n].1.Some? {
        LastWithSnoc(FieldsOf(ls[..n]), [ls[n].0] + ls[n].1.value, c);
      }
    }
  }

  /** Each letter is found with its text. */
  lemma {:induction false} LetterFound(ls: Lettered, k: nat)
    requires DistinctLetters(ls) && k < |ls|
    ensures LastWith(FieldsOf(ls), ls[k].0) == ls[k].1
  {
    var n := |ls| - 1;
    var c := ls[k].0;
    if k < n {
      LetterFound(ls[..n], k);
    } else {
      NoSuchLetter(ls[..n], c);
    }
    if ls[n].1.Some? {
      LastWithSnoc(FieldsOf(ls[..n]), [ls[n].0] + ls[n].1.value, c);
      assert ([ls[n].0] + ls[n].1.value)[1..] == ls[n].1.value;
    }
  }

  /** Every field written has a letter, and a '|' only if its text has one. */
  lemma {:induction false} FieldsAreLettered(ls: Lettered, k: nat)
    requires k < |FieldsOf(ls)|
    ensures exists i :: 0 <= i < |ls| && ls[i].1.Some? && FieldsOf(ls)[k] == [ls[i].0] + ls[i].1.value
  {
    var n := |ls| - 1;
    if k < |FieldsOf(ls[..n])| {
      FieldsAreLettered(ls[..n], k);
      var i :| 0 <= i < n && ls[..n][i].1.Some? && FieldsOf(ls[..n])[k] == [ls[..n][i].0] + ls[..n][i].1.value;
      assert ls[i] == ls[..n][i];
    }
  }

  function Colon(text: Option<string>): Option<string> {
    if text.Some? then Some(":" + text.value) else None
  }

  lemma LetterFirst(c: char, text: string)
    ensures [c] + (":" + text) == [c, ':'] + text
  {
  }

  predicate NoBar(text: Option<string>) {
    text.Some? ==> '|' !in text.value
  }

  lemma ColonReads(ms: seq<string>, c: char, text: Option<string>)
    requires LastWith(ms, c) == Colon(text)
    ensures TextAt(ms, c) == text
  {
    if text.Some? {
      assert (":" + text.value)[1..] == text.value;
    }
  }

  lemma IntTextHasNoBar(n: int)
    ensures '|' !in IntText(n)
  {
    DecimalReads(if n < 0 then -n else n);
  }
}
