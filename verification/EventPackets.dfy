// The length-prefixed event packets, `_e{5,4}:title|text|t:alert|#tag,tag`.
module EventPackets {
  import opened Prelude
  import opened Text
  import opened Escapes
  import opened MetadataFields
  import Tags

  datatype EventFields = EventFields(
    title: string,
    text: string,
    alertType: Option<string>,
    aggregationKey: Option<string>,
    sourceTypeName: Option<string>,
    dateHappened: Option<int>,
    priority: Option<string>,
    hostname: Option<string>,
    tags: Option<seq<string>>)

  // ---------- parsing ----------

  function DateAt(ms: seq<string>): Option<int> {
    match LastWith(ms, 'd')
    case None => None
    case Some(rest) => ParseInt(BehindColon(rest))
  }

  /** Of each letter the last field counts. */
  function WithMeta(title: string, text: string, ms: seq<string>): EventFields {
    EventFields(title, text, TextAt(ms, 't'), TextAt(ms, 'k'), TextAt(ms, 's'), DateAt(ms), TextAt(ms, 'p'),
                TextAt(ms, 'h'), TagsAt(ms))
  }

  /** No field is empty, and the dates are integers. */
  predicate MetaReads(ms: seq<string>) {
    forall k :: 0 <= k < |ms| ==> ms[k] != "" && (ms[k][0] == 'd' ==> ParseInt(BehindColon(ms[k][1..])).Some?)
  }

  /** The two lengths in `_e{5,4}`. */
  function Lengths(name: string): Option<(int, int)> {
    var parts := Split(name, ',');
    if |parts| != 2 then None
    else
      var title, text := ParseInt(From(parts[0], 3)), ParseInt(Slice(parts[1], 0, -1));
      if title.Some? && text.Some? then Some((title.value, text.value)) else None
  }

  /** Title and text have `a` and `b` characters. */
  function ParseBody(metadata: string, a: int, b: int): Option<EventFields> {
    var ms := Split(From(metadata, a + b + 1), '|')[1..];
    if !MetaReads(ms) then None
    else Some(WithMeta(Slice(metadata, 0, a), UnescapeEventText(Slice(metadata, a + 1, a + b + 1)), ms))
  }

  /** None for a packet that is refused. */
  function ParseEvent(packet: string): Option<EventFields> {
    match SplitOnce(packet, ':')
    case None => None
    case Some((name, metadata)) =>
      match Lengths(name)
      case None => None
      case Some((a, b)) => ParseBody(metadata, a, b)
  }

  /** A header must be two comma-separated integers, behind three characters and before one. */
  lemma HeaderRefused(name: string, metadata: string)
    requires ':' !in name
    ensures ParseEvent(name) == None
    ensures var parts := Split(name, ',');
            |parts| != 2 || ParseInt(From(parts[0], 3)).None? || ParseInt(Slice(parts[1], 0, -1)).None? ==>
              ParseEvent(name + ":" + metadata) == None
  {
    hide Split, ParseInt, Slice, From, ParseBody, SplitOnce;
    SplitOnceAt(name, metadata, ':');
    NoSplit(name, ':');
  }

  /** With such a header a packet is refused for an empty metadata field or a date that is no integer, and for nothing
      else; title and text are cut by the lengths. */
  lemma EventOutcome(name: string, metadata: string, a: int, b: int, ms: seq<string>)
    requires ':' !in name && |Split(name, ',')| == 2 && ms == Split(From(metadata, a + b + 1), '|')[1..]
    requires ParseInt(From(Split(name, ',')[0], 3)) == Some(a) && ParseInt(Slice(Split(name, ',')[1], 0, -1)) == Some(b)
    ensures var r := ParseEvent(name + ":" + metadata);
            if exists k :: 0 <= k < |ms| && (ms[k] == "" || (ms[k][0] == 'd' && ParseInt(BehindColon(ms[k][1..])).None?)) then
              r == None
            else
              && r.Some? && r.value.title == Slice(metadata, 0, a)
              && r.value.text == Replace(Slice(metadata, a + 1, a + b + 1), "\\n", "\n")
  {
    hide ParseInt, Slice, From, BehindColon, TextAt, TagsAt, DateAt, SplitOnce;
    SplitOnceAt(name, metadata, ':');
  }

  lemma MetaSnoc(ms: seq<string>, m: string)
    ensures MetaReads(ms + [m]) <==> MetaReads(ms) && m != "" && (m[0] == 'd' ==> ParseInt(BehindColon(m[1..])).Some?)
  {
    assert forall k :: 0 <= k < |ms| ==> (ms + [m])[k] == ms[k];
    assert (ms + [m])[|ms|] == m;
  }

  lemma LastFields(ms: seq<string>, m: string)
    requires m != ""
    ensures forall c | c in "tksdph#" :: LastWith(ms + [m], c) == if m[0] == c then Some(m[1..]) else LastWith(ms, c)
  {
    forall c | c in "tksdph#" ensures LastWith(ms + [m], c) == if m[0] == c then Some(m[1..]) else LastWith(ms, c) {
      LastWithSnoc(ms, m, c);
    }
  }

  method ParseMeta(title: string, text: string, ms: seq<string>) returns (r: Option<EventFields>)
    ensures r == if MetaReads(ms) then Some(WithMeta(title, text, ms)) else None
  {
    var event := EventFields(title, text, None, None, None, None, None, None, None);
    for i := 0 to |ms|
      invariant MetaReads(ms[..i]) && event == WithMeta(title, text, ms[..i])
    {
      var m := ms[i];
      assert ms[..i + 1] == ms[..i] + [m];
      MetaSnoc(ms[..i], m);
      if m == "" {
        return None;
      }
      LastFields(ms[..i], m);
      var rest := BehindColon(m[1..]);
      if m[0] == 't' {
        event := event.(alertType := Some(rest));
      } else if m[0] == 'k' {
        event := event.(aggregationKey := Some(rest));
      } else if m[0] == 's' {
        event := event.(sourceTypeName := Some(rest));
      } else if m[0] == 'd' {
        var date := ParseInt(rest);
        if date.None? {
          return None;
        }
        event := event.(dateHappened := date);
      } else if m[0] == 'p' {
        event := event.(priority := Some(rest));
      } else if m[0] == 'h' {
        event := event.(hostname := Some(rest));
      } else if m[0] == '#' {
        event := event.(tags := Some(Tags.Deduplicated(Split(m[1..], ','))));
      }
    }
    assert ms[..|ms|] == ms;
    r := Some(event);
  }

  method ParseEventPacket(packet: string) returns (r: Option<EventFields>)
    ensures r == ParseEvent(packet)
  {
    var parts := SplitOnce(packet, ':');
    if parts.None? {
      return None;
    }
    var (name, metadata) := parts.value;
    var lengths := Lengths(name);
    if lengths.None? {
      return None;
    }
    var (a, b) := lengths.value;
    var title, text := Slice(metadata, 0, a), UnescapeEventText(Slice(metadata, a + 1, a + b + 1));
    var meta := From(metadata, a + b + 1);
    r := ParseMeta(title, text, Split(meta, '|')[1..]);
  }

  // ---------- printing ----------

  function Letters(e: EventFields): (ls: Lettered)
    ensures DistinctLetters(ls)
  {
    [('d', Colon(if e.dateHappened.Some? then Some(IntText(e.dateHappened.value)) else None)),
     ('h', Colon(e.hostname)), ('k', Colon(e.aggregationKey)), ('p', Colon(e.priority)),
     ('s', Colon(e.sourceTypeName)), ('t', Colon(e.alertType)),
     ('#', if e.tags.Some? then Some(Join(e.tags.value, ',')) else None)]
  }

  function Header(a: nat, b: nat): string {
    "_e{" + Decimal(a) + "," + Decimal(b) + "}"
  }

  function Body(e: EventFields): string {
    e.title + "|" + EscapeNewlines(e.text) + Join([""] + FieldsOf(Letters(e)), '|')
  }

  function Print(e: EventFields): string {
    Header(|e.title|, |EscapeNewlines(e.text)|) + ":" + Body(e)
  }

  /** A client's fields: no '|' in the metadata, and a list of tags without ','. */
  predicate Writable(e: EventFields) {
    && NoBar(e.alertType) && NoBar(e.aggregationKey) && NoBar(e.sourceTypeName) && NoBar(e.priority) && NoBar(e.hostname)
    && (e.tags.Some? ==> e.tags.value != [] && forall k :: 0 <= k < |e.tags.value| ==> '|' !in e.tags.value[k] && ',' !in e.tags.value[k])
  }

  function Canonical(e: EventFields): EventFields {
    e.(tags := if e.tags.Some? then Some(Tags.Deduplicated(e.tags.value)) else None)
  }

  lemma DigitsAreNot(n: nat, c: char)
    requires !IsDigit(c)
    ensures c !in Decimal(n)
  {
    DecimalReads(n);
  }

  /** Printing and reading the lengths. */
  lemma LengthsRead(a: nat, b: nat)
    ensures ':' !in Header(a, b) && Lengths(Header(a, b)) == Some((a, b))
  {
    hide Decimal, ParseInt, Split;
    DigitsAreNot(a, ',');
    DigitsAreNot(b, ',');
    DigitsAreNot(a, ':');
    DigitsAreNot(b, ':');
    var left, right := "_e{" + Decimal(a), Decimal(b) + "}";
    assert Header(a, b) == left + "," + right;
    SplitConcat(left, right, ',');
    SplitWhole(left, ',');
    SplitWhole(right, ',');
    assert From(left, 3) == Decimal(a);
    assert Slice(right, 0, -1) == Decimal(b);
    IntTextReads(a);
    IntTextReads(b);
  }

  lemma CutAtLengths(title: string, text: string, meta: string)
    ensures var s := title + "|" + text + meta;
            && Slice(s, 0, |title|) == title
            && Slice(s, |title| + 1, |title| + |text| + 1) == text
            && From(s, |title| + |text| + 1) == meta
  {
  }

  lemma LettersHaveNoBar(e: EventFields)
    requires Writable(e)
    ensures forall i :: 0 <= i < |Letters(e)| ==> Letters(e)[i].0 != '|' && NoBar(Letters(e)[i].1)
  {
    if e.dateHappened.Some? {
      IntTextHasNoBar(e.dateHappened.value);
    }
    if e.tags.Some? {
      JoinAvoids(e.tags.value, ',', '|');
    }
  }

  lemma FieldsHaveNoBar(e: EventFields, k: nat)
    requires Writable(e) && k < |FieldsOf(Letters(e))|
    ensures '|' !in FieldsOf(Letters(e))[k]
  {
    LettersHaveNoBar(e);
    FieldsAreLettered(Letters(e), k);
  }

  lemma MetaSplits(e: EventFields)
    requires Writable(e)
    ensures Split(Join([""] + FieldsOf(Letters(e)), '|'), '|')[1..] == FieldsOf(Letters(e))
  {
    var parts := [""] + FieldsOf(Letters(e));
    forall k | 0 <= k < |parts| ensures '|' !in parts[k] {
      if k > 0 {
        FieldsHaveNoBar(e, k - 1);
      }
    }
    SplitJoin(parts, '|');
  }

  lemma DateReads(e: EventFields)
    ensures e.dateHappened.Some? ==> Letters(e)[0].1.Some? && ParseInt(BehindColon(Letters(e)[0].1.value)) == e.dateHappened
  {
    if e.dateHappened.Some? {
      IntTextReads(e.dateHappened.value);
      assert (":" + IntText(e.dateHappened.value))[1..] == IntText(e.dateHappened.value);
    }
  }

  lemma FieldsRead(e: EventFields)
    ensures MetaReads(FieldsOf(Letters(e)))
  {
    var ms := FieldsOf(Letters(e));
    forall k | 0 <= k < |ms|
      ensures ms[k] != "" && (ms[k][0] == 'd' ==> ParseInt(BehindColon(ms[k][1..])).Some?)
    {
      FieldsAreLettered(Letters(e), k);
      var i :| 0 <= i < |Letters(e)| && Letters(e)[i].1.Some? && ms[k] == [Letters(e)[i].0] + Letters(e)[i].1.value;
      assert ms[k][1..] == Letters(e)[i].1.value;
      DateReads(e);
    }
  }

  lemma TagsRead(e: EventFields)
    requires Writable(e)
    ensures TagsAt(FieldsOf(Letters(e))) == Canonical(e).tags
  {
    LetterFound(Letters(e), 6);
    if e.tags.Some? {
      SplitJoin(e.tags.value, ',');
    }
  }

  lemma DateIsRead(e: EventFields)
    ensures DateAt(FieldsOf(Letters(e))) == e.dateHappened
  {
    LetterFound(Letters(e), 0);
    DateReads(e);
  }

  lemma MetaIsRead(e: EventFields, text: string)
    requires Writable(e)
    ensures WithMeta(e.title, text, FieldsOf(Letters(e))) == Canonical(e).(text := text)
  {
    var ls := Letters(e);
    LetterFound(ls, 1);
    LetterFound(ls, 2);
    LetterFound(ls, 3);
    LetterFound(ls, 4);
    LetterFound(ls, 5);
    ColonReads(FieldsOf(ls), 'h', e.hostname);
    ColonReads(FieldsOf(ls), 'k', e.aggregationKey);
    ColonReads(FieldsOf(ls), 'p', e.priority);
    ColonReads(FieldsOf(ls), 's', e.sourceTypeName);
    ColonReads(FieldsOf(ls), 't', e.alertType);
    TagsRead(e);
    DateIsRead(e);
  }

  lemma BodyRead(e: EventFields)
    requires Writable(e)
    ensures ParseBody(Body(e), |e.title|, |EscapeNewlines(e.text)|)
            == Some(Canonical(e).(text := UnescapeEventText(EscapeNewlines(e.text))))
  {
    CutAtLengths(e.title, EscapeNewlines(e.text), Join([""] + FieldsOf(Letters(e)), '|'));
    MetaSplits(e);
    FieldsRead(e);
    MetaIsRead(e, UnescapeEventText(EscapeNewlines(e.text)));
  }

  /** What comes back for any title and any text. */
  lemma PrintedEvent(e: EventFields)
    requires Writable(e)
    ensures ParseEvent(Print(e)) == Some(Canonical(e).(text := UnescapeEventText(EscapeNewlines(e.text))))
  {
    LengthsRead(|e.title|, |EscapeNewlines(e.text)|);
    SplitOnceAt(Header(|e.title|, |EscapeNewlines(e.text)|), Body(e), ':');
    BodyRead(e);
  }

  /** The round trip holds exactly for texts without a literal backslash-n; tags come back sorted and distinct. */
  lemma EventRoundTripIff(e: EventFields)
    requires Writable(e)
    ensures ParseEvent(Print(e)) == Some(Canonical(e)) <==> !Occurs(e.text, BACKSLASH_N)
  {
    PrintedEvent(e);
    TextSurvivesIff(e.text);
  }

  /** The letters, for an event that has every field. */
  lemma FullFields(title: string, text: string, alert: string, key: string, source: string, date: int, priority: string,
                   host: string, tags: seq<string>)
    ensures var e := EventFields(title, text, Some(alert), Some(key), Some(source), Some(date), Some(priority), Some(host),
                                     Some(tags));
            FieldsOf(Letters(e)) ==
              ["d:" + IntText(date), "h:" + host, "k:" + key, "p:" + priority, "s:" + source, "t:" + alert,
               "#" + Join(tags, ',')]
  {
    hide IntText, Join;
    var e := EventFields(title, text, Some(alert), Some(key), Some(source), Some(date), Some(priority), Some(host),
                             Some(tags));
    var fields :=
      ["d:" + IntText(date), "h:" + host, "k:" + key, "p:" + priority, "s:" + source, "t:" + alert,
       "#" + Join(tags, ',')];
    var ls := Letters(e);
    assert |ls| == 7;
    LetterFirst('d', IntText(date));
    LetterFirst('h', host);
    LetterFirst('k', key);
    LetterFirst('p', priority);
    LetterFirst('s', source);
    LetterFirst('t', alert);
    AllWritten(ls, fields);
  }

  /** A packet with every field: each letter stands for its own, a line break is written as a backslash and an n, and the
      tags come back sorted and distinct. */
  lemma FullEvent(title: string, text: string, alert: string, key: string, source: string, date: int, priority: string,
                  host: string, tags: seq<string>)
    requires '|' !in alert && '|' !in key && '|' !in source && '|' !in priority && '|' !in host
    requires tags != [] && forall k :: 0 <= k < |tags| ==> '|' !in tags[k] && ',' !in tags[k]
    requires !Occurs(text, "\\n")
    ensures var escaped := Replace(text, "\n", "\\n");
            var fields := ["", "d:" + IntText(date), "h:" + host, "k:" + key, "p:" + priority, "s:" + source, "t:" + alert,
                           "#" + Join(tags, ',')];
            ParseEvent("_e{" + Decimal(|title|) + "," + Decimal(|escaped|) + "}" + ":"
                       + (title + "|" + escaped + Join(fields, '|')))
            == Some(EventFields(title, text, Some(alert), Some(key), Some(source), Some(date), Some(priority), Some(host),
                                Some(Tags.Deduplicated(tags))))
  {
    hide IntText, Join, Decimal, Replace, ParseEvent, Occurs;
    var e := EventFields(title, text, Some(alert), Some(key), Some(source), Some(date), Some(priority), Some(host),
                             Some(tags));
    FullFields(title, text, alert, key, source, date, priority, host, tags);
    EventRoundTripIff(e);
    assert [""] + FieldsOf(Letters(e)) ==
      ["", "d:" + IntText(date), "h:" + host, "k:" + key, "p:" + priority, "s:" + source, "t:" + alert,
       "#" + Join(tags, ',')];
  }
}
