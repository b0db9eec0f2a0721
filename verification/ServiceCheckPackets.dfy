// The service check packets, `_sc|name|status|h:host|#tag,tag|m:message`.
module ServiceCheckPackets {
  import opened Prelude
  import opened Text
  import opened Escapes
  import opened MetadataFields
  import MetricPackets
  import Tags

  type Number = MetricPackets.Number
  type Reader = MetricPackets.Reader

  datatype ServiceCheck = ServiceCheck(
    checkName: string,
    status: int,
    timestamp: Option<Number>,
    hostname: Option<string>,
    tags: Option<seq<string>>,
    message: Option<string>)

  // ---------- parsing ----------

  function TimeAt(ms: seq<string>, read: Reader): Option<Number> {
    match LastWith(ms, 'd')
    case None => None
    case Some(rest) => read(BehindColon(rest))
  }

  /** No field is empty, and the timestamps are numbers. */
  predicate MetaReads(ms: seq<string>, read: Reader) {
    forall k :: 0 <= k < |ms| ==> ms[k] != "" && (ms[k][0] == 'd' ==> read(BehindColon(ms[k][1..])).Some?)
  }

  /** `s.split('|')` when it gives two parts, else `s.split('|', 2)`. */
  function NameStatusMeta(s: string): Option<(string, string, string)> {
    match SplitOnce(s, '|')
    case None => None
    case Some((name, rest)) =>
      match SplitOnce(rest, '|')
      case None => Some((name, rest, ""))
      case Some((status, meta)) => Some((name, status, meta))
  }

  /** The metadata before the message, and the message. */
  function CutMessage(metadata: string): (string, Option<string>) {
    match SplitLast(metadata, if StartsWith(metadata, "m:") then "m:" else "|m:")
    case None => (metadata, None)
    case Some((meta, message)) => (meta, Some(UnescapeContent(message)))
  }

  function MetaFields(meta: string): seq<string> {
    if meta == "" then [] else Split(meta, '|')
  }

  /** None for a packet that is refused. */
  function ParseCheck(packet: string, read: Reader): Option<ServiceCheck> {
    match SplitOnce(packet, '|')
    case None => None
    case Some((_, data)) =>
      match NameStatusMeta(data)
      case None => None
      case Some((name, status, metadata)) =>
        var (meta, message) := CutMessage(metadata);
        var ms := MetaFields(meta);
        if ParseInt(status).None? || !MetaReads(ms, read) then None
        else Some(ServiceCheck(name, ParseInt(status).value, TimeAt(ms, read), TextAt(ms, 'h'), TagsAt(ms), message))
  }

  lemma TooFewBars(prefix: string, name: string, read: Reader)
    requires '|' !in prefix && '|' !in name
    ensures ParseCheck(prefix, read) == None && ParseCheck(prefix + "|" + name, read) == None
  {
    hide SplitOnce, CutMessage, MetaFields, MetaReads;
    NoSplit(prefix, '|');
    NoSplit(name, '|');
    SplitOnceAt(prefix, name, '|');
  }

  lemma NoMessage(metadata: string)
    requires !Occurs(metadata, "|m:") && !StartsWith(metadata, "m:")
    ensures CutMessage(metadata) == (metadata, None)
  {
    hide SplitLast, StartsWith, Occurs;
    SplitLastNone(metadata, "|m:");
  }

  /** With a status, and without a message, a packet is refused for a status that is no integer, an empty metadata field
      or a timestamp that is no number, and for nothing else. */
  lemma CheckOutcome(prefix: string, name: string, status: string, meta: string, ms: seq<string>, read: Reader)
    requires '|' !in prefix && '|' !in name && '|' !in status && !Occurs(meta, "|m:") && !StartsWith(meta, "m:")
    requires ms == if meta == "" then [] else Split(meta, '|')
    ensures var r := ParseCheck(prefix + "|" + (name + "|" + (status + "|" + meta)), read);
            if ParseInt(status).None?
               || exists k :: 0 <= k < |ms| && (ms[k] == "" || (ms[k][0] == 'd' && read(BehindColon(ms[k][1..])).None?)) then r == None
            else
              && r.Some? && r.value.checkName == name && Some(r.value.status) == ParseInt(status)
              && r.value.message == None
  {
    hide ParseInt, BehindColon, TimeAt, TextAt, TagsAt, CutMessage, StartsWith, Occurs, SplitOnce;
    SplitOnceAt(prefix, name + "|" + (status + "|" + meta), '|');
    SplitOnceAt(name, status + "|" + meta, '|');
    SplitOnceAt(status, meta, '|');
    NoMessage(meta);
  }

  lemma MetaSnoc(ms: seq<string>, m: string, read: Reader)
    ensures MetaReads(ms + [m], read)
            <==> MetaReads(ms, read) && m != "" && (m[0] == 'd' ==> read(BehindColon(m[1..])).Some?)
  {
    assert forall k :: 0 <= k < |ms| ==> (ms + [m])[k] == ms[k];
    assert (ms + [m])[|ms|] == m;
  }

  method ParseMeta(check: ServiceCheck, ms: seq<string>, read: Reader) returns (r: Option<ServiceCheck>)
    requires check.timestamp == None && check.hostname == None && check.tags == None
    ensures r == if MetaReads(ms, read)
                 then Some(check.(timestamp := TimeAt(ms, read), hostname := TextAt(ms, 'h'), tags := TagsAt(ms)))
                 else None
  {
    var filled := check;
    for i := 0 to |ms|
      invariant MetaReads(ms[..i], read)
      invariant filled == check.(timestamp := TimeAt(ms[..i], read), hostname := TextAt(ms[..i], 'h'), tags := TagsAt(ms[..i]))
    {
      var m := ms[i];
      assert ms[..i + 1] == ms[..i] + [m];
      MetaSnoc(ms[..i], m, read);
      if m == "" {
        return None;
      }
      LastWithSnoc(ms[..i], m, 'd');
      LastWithSnoc(ms[..i], m, 'h');
      LastWithSnoc(ms[..i], m, '#');
      if m[0] == 'd' {
        var time := read(BehindColon(m[1..]));
        if time.None? {
          return None;
        }
        filled := filled.(timestamp := time);
      } else if m[0] == 'h' {
        filled := filled.(hostname := Some(BehindColon(m[1..])));
      } else if m[0] == '#' {
        filled := filled.(tags := Some(Tags.Deduplicated(Split(m[1..], ','))));
      }
    }
    assert ms[..|ms|] == ms;
    r := Some(filled);
  }

  method ParseServiceCheckPacket(packet: string, read: Reader) returns (r: Option<ServiceCheck>)
    ensures r == ParseCheck(packet, read)
  {
    var parts := SplitOnce(packet, '|');
    if parts.None? {
      return None;
    }
    var (_, data) := parts.value;
    var three := NameStatusMeta(data);
    if three.None? {
      return None;
    }
    var (name, status, metadata) := three.value;
    var n := ParseInt(status);
    if n.None? {
      return None;
    }
    var (meta, message) := CutMessage(metadata);
    var check := ServiceCheck(name, n.value, None, None, None, message);
    if meta == "" {
      return Some(check);
    }
    r := ParseMeta(check, Split(meta, '|'), read);
  }

  // ---------- printing ----------

  function TimeText(c: ServiceCheck, show: Number -> string): Option<string> {
    if c.timestamp.Some? then Some(show(c.timestamp.value)) else None
  }

  function Letters(c: ServiceCheck, show: Number -> string): (ls: Lettered)
    ensures DistinctLetters(ls)
  {
    [('d', Colon(TimeText(c, show))), ('h', Colon(c.hostname)),
     ('#', if c.tags.Some? then Some(Join(c.tags.value, ',')) else None)]
  }

  function Fields(c: ServiceCheck, show: Number -> string): seq<string> {
    FieldsOf(Letters(c, show))
  }

  function Metadata(c: ServiceCheck, show: Number -> string): string {
    var front := Join(Fields(c, show), '|');
    match c.message
    case None => front
    case Some(text) => front + (if Fields(c, show) == [] then "m:" else "|m:") + EscapeContent(text)
  }

  function Print(c: ServiceCheck, show: Number -> string): string {
    var head := c.checkName + "|" + IntText(c.status);
    "_sc|" + if Metadata(c, show) == "" then head else head + "|" + Metadata(c, show)
  }

  /** What a client may write: no '|' but in the message, no ',' in a tag. */
  predicate Writable(c: ServiceCheck, show: Number -> string, read: Reader) {
    && '|' !in c.checkName
    && NoBar(TimeText(c, show))
    && (c.timestamp.Some? ==> read(show(c.timestamp.value)) == c.timestamp)
    && NoBar(c.hostname)
    && (c.tags.Some? ==> c.tags.value != [] && forall k :: 0 <= k < |c.tags.value| ==> '|' !in c.tags.value[k] && ',' !in c.tags.value[k])
  }

  function Canonical(c: ServiceCheck): ServiceCheck {
    c.(tags := if c.tags.Some? then Some(Tags.Deduplicated(c.tags.value)) else None)
  }

  // ---------- the fields ----------

  lemma FieldShape(c: ServiceCheck, show: Number -> string, read: Reader, k: nat)
    requires Writable(c, show, read) && k < |Fields(c, show)|
    ensures var f := Fields(c, show)[k];
            f != "" && f[0] in "dh#" && '|' !in f && (f[0] == 'd' ==> read(BehindColon(f[1..])).Some?)
  {
    var ls := Letters(c, show);
    if c.tags.Some? {
      JoinAvoids(c.tags.value, ',', '|');
    }
    FieldsAreLettered(ls, k);
    var i :| 0 <= i < |ls| && ls[i].1.Some? && Fields(c, show)[k] == [ls[i].0] + ls[i].1.value;
    assert Fields(c, show)[k][1..] == ls[i].1.value;
    if c.timestamp.Some? {
      assert (":" + show(c.timestamp.value))[1..] == show(c.timestamp.value);
    }
  }

  lemma FieldsRead(c: ServiceCheck, show: Number -> string, read: Reader)
    requires Writable(c, show, read)
    ensures var ms := Fields(c, show);
            && MetaReads(ms, read) && TimeAt(ms, read) == c.timestamp && TextAt(ms, 'h') == c.hostname
            && TagsAt(ms) == Canonical(c).tags
  {
    var ls := Letters(c, show);
    forall k | 0 <= k < |Fields(c, show)|
      ensures Fields(c, show)[k] != ""
      ensures Fields(c, show)[k][0] == 'd' ==> read(BehindColon(Fields(c, show)[k][1..])).Some?
    {
      FieldShape(c, show, read, k);
    }
    LetterFound(ls, 0);
    LetterFound(ls, 1);
    LetterFound(ls, 2);
    if c.timestamp.Some? {
      assert (":" + show(c.timestamp.value))[1..] == show(c.timestamp.value);
    }
    if c.hostname.Some? {
      assert (":" + c.hostname.value)[1..] == c.hostname.value;
    }
    if c.tags.Some? {
      SplitJoin(c.tags.value, ',');
    }
  }

  // ---------- where the message starts ----------

  /** Fields that a '|' can precede without starting a message. */
  predicate FieldLike(fields: seq<string>) {
    forall k :: 0 <= k < |fields| ==> fields[k] != "" && fields[k][0] != 'm' && '|' !in fields[k]
  }

  /** No '|' of the joined fields is followed by an 'm'. */
  lemma {:induction false} BarNotBeforeM(fields: seq<string>, i: nat)
    requires FieldLike(fields) && i + 1 < |Join(fields, '|')| && Join(fields, '|')[i] == '|'
    ensures Join(fields, '|')[i + 1] != 'm'
  {
    if |fields| > 1 {
      var n := |fields[0]|;
      var rest := Join(fields[1..], '|');
      assert Join(fields, '|') == fields[0] + "|" + rest;
      JoinHead(fields[1..]);
      if i > n {
        BarNotBeforeM(fields[1..], i - n - 1);
      }
    }
  }

  lemma JoinHead(fields: seq<string>)
    requires fields != [] && FieldLike(fields)
    ensures Join(fields, '|') != "" && Join(fields, '|')[0] == fields[0][0]
  {
  }

  lemma PatternAt(s: string, p: string, i: nat, k: nat)
    requires OccursAt(s, p, i) && k < |p|
    ensures s[i + k] == p[k]
  {
    assert s[i..i + |p|][k] == p[k];
  }

  lemma NoMessageInFields(fields: seq<string>)
    requires FieldLike(fields)
    ensures !Occurs(Join(fields, '|'), "|m:")
  {
    forall i: nat | OccursAt(Join(fields, '|'), "|m:", i) ensures false {
      PatternAt(Join(fields, '|'), "|m:", i, 0);
      PatternAt(Join(fields, '|'), "|m:", i, 1);
      BarNotBeforeM(fields, i);
    }
  }

  lemma MarkInside(a: string, b: string, p: string, j: nat)
    requires j >= |a| && OccursAt(a + b, p, j)
    ensures OccursAt(b, p, j - |a|)
  {
    assert (a + b)[j..j + |p|] == b[j - |a|..j - |a| + |p|];
  }

  /** The last delimiter is the one the client wrote, wherever '|', ':' and 'm' occur in the message. */
  lemma NoLaterDelimiter(front: string, delimiter: string, text: string, j: nat)
    requires delimiter == "m:" || delimiter == "|m:"
    requires j > |front|
    ensures !OccursAt(front + delimiter + EscapeContent(text), delimiter, j)
  {
    var s := front + delimiter + EscapeContent(text);
    ContentHasNoMark(text);
    if OccursAt(s, delimiter, j) {
      PatternAt(s, delimiter, j, 0);
      if j >= |front + delimiter| {
        MarkInside(front + delimiter, EscapeContent(text), delimiter, j);
        MarkInDelimiter(EscapeContent(text), delimiter, j - |front + delimiter|);
      }
    }
  }

  lemma MarkInDelimiter(e: string, delimiter: string, i: nat)
    requires (delimiter == "m:" || delimiter == "|m:") && OccursAt(e, delimiter, i)
    ensures Occurs(e, "m:")
  {
    if delimiter == "|m:" {
      PatternAt(e, delimiter, i, 1);
      PatternAt(e, delimiter, i, 2);
      assert e[i + 1..i + 3] == "m:";
      assert OccursAt(e, "m:", i + 1);
    }
  }

  lemma SplitsAtMessage(front: string, delimiter: string, text: string)
    requires delimiter == "m:" || delimiter == "|m:"
    ensures SplitLast(front + delimiter + EscapeContent(text), delimiter) == Some((front, EscapeContent(text)))
  {
    forall j: nat | j > |front| ensures !OccursAt(front + delimiter + EscapeContent(text), delimiter, j) {
      NoLaterDelimiter(front, delimiter, text, j);
    }
    SplitLastAt(front, delimiter, EscapeContent(text));
  }

  lemma FieldsAreFieldLike(c: ServiceCheck, show: Number -> string, read: Reader)
    requires Writable(c, show, read)
    ensures FieldLike(Fields(c, show))
  {
    forall k | 0 <= k < |Fields(c, show)|
      ensures Fields(c, show)[k] != "" && Fields(c, show)[k][0] != 'm' && '|' !in Fields(c, show)[k]
    {
      FieldShape(c, show, read, k);
    }
  }

  function Unescaped(message: Option<string>): Option<string> {
    if message.Some? then Some(UnescapeContent(EscapeContent(message.value))) else None
  }

  lemma MessageIsCut(c: ServiceCheck, show: Number -> string, read: Reader)
    requires Writable(c, show, read)
    ensures CutMessage(Metadata(c, show)) == (Join(Fields(c, show), '|'), Unescaped(c.message))
  {
    var fields := Fields(c, show);
    var front := Join(fields, '|');
    FieldsAreFieldLike(c, show, read);
    if fields == [] {
      if c.message.Some? {
        SplitsAtMessage("", "m:", c.message.value);
        Starts2(Metadata(c, show), 'm', ':');
      } else {
        SplitLastNone("", "|m:");
      }
    } else {
      JoinHead(fields);
      Starts2(Metadata(c, show), 'm', ':');
      if c.message.Some? {
        SplitsAtMessage(front, "|m:", c.message.value);
      } else {
        NoMessageInFields(fields);
        SplitLastNone(front, "|m:");
      }
    }
  }

  lemma FieldsSplit(c: ServiceCheck, show: Number -> string, read: Reader)
    requires Writable(c, show, read)
    ensures MetaFields(Join(Fields(c, show), '|')) == Fields(c, show)
  {
    FieldsAreFieldLike(c, show, read);
    if Fields(c, show) != [] {
      JoinHead(Fields(c, show));
      SplitJoin(Fields(c, show), '|');
    }
  }

  lemma HeadOnly(name: string, number: string)
    requires '|' !in name && '|' !in number
    ensures NameStatusMeta(name + "|" + number) == Some((name, number, ""))
  {
    SplitOnceAt(name, number, '|');
    assert Find(number, '|') == |number|;
  }

  lemma HeadAndMeta(name: string, number: string, metadata: string)
    requires '|' !in name && '|' !in number
    ensures NameStatusMeta(name + "|" + number + "|" + metadata) == Some((name, number, metadata))
  {
    SplitOnceAt(name, number + "|" + metadata, '|');
    SplitOnceAt(number, metadata, '|');
    Associates(name + "|", number, "|" + metadata);
    Associates(name + "|" + number, "|", metadata);
    Associates(number, "|", metadata);
  }

  lemma HeadIsCut(name: string, status: int, metadata: string)
    requires '|' !in name
    ensures var head := name + "|" + IntText(status);
            var data := if metadata == "" then head else head + "|" + metadata;
            NameStatusMeta(data) == Some((name, IntText(status), metadata))
  {
    IntTextHasNoBar(status);
    if metadata == "" {
      HeadOnly(name, IntText(status));
    } else {
      HeadAndMeta(name, IntText(status), metadata);
    }
  }

  /** What comes back for any message. */
  lemma PrintedCheck(c: ServiceCheck, show: Number -> string, read: Reader)
    requires Writable(c, show, read)
    ensures ParseCheck(Print(c, show), read) == Some(Canonical(c).(message := Unescaped(c.message)))
  {
    var head := c.checkName + "|" + IntText(c.status);
    var data := if Metadata(c, show) == "" then head else head + "|" + Metadata(c, show);
    SplitOnceAt("_sc", data, '|');
    assert Print(c, show) == "_sc" + "|" + data;
    HeadIsCut(c.checkName, c.status, Metadata(c, show));
    IntTextReads(c.status);
    MessageIsCut(c, show, read);
    FieldsSplit(c, show, read);
    FieldsRead(c, show, read);
  }

  /** The round trip holds exactly for messages with neither a literal backslash-n nor an escaped mark. */
  lemma CheckRoundTripIff(c: ServiceCheck, show: Number -> string, read: Reader)
    requires Writable(c, show, read)
    ensures ParseCheck(Print(c, show), read) == Some(Canonical(c))
            <==> (c.message.Some? ==> !Occurs(c.message.value, BACKSLASH_N) && !Occurs(c.message.value, ESCAPED_MARK))
  {
    PrintedCheck(c, show, read);
    if c.message.Some? {
      ContentSurvivesIff(c.message.value);
    }
  }

  /** The message stands behind the last delimiter, with its line breaks and marks unescaped. */
  lemma MessageIs(front: string, raw: string)
    requires var s := front + "|m:" + raw; !StartsWith(s, "m:") && forall j: nat :: j > |front| ==> !OccursAt(s, "|m:", j)
    ensures CutMessage(front + "|m:" + raw) == (front, Some(Replace(Replace(raw, "\\n", "\n"), "m\\:", "m:")))
  {
    hide Replace, StartsWith, LastAt, OccursAt;
    SplitLastAt(front, "|m:", raw);
  }

  /** A packet with every field and a message. */
  lemma FullCheck(name: string, status: int, time: Number, host: string, tags: seq<string>, message: string,
                  show: Number -> string, read: Reader)
    requires '|' !in name && '|' !in host && '|' !in show(time) && read(show(time)) == Some(time)
    requires tags != [] && forall k :: 0 <= k < |tags| ==> '|' !in tags[k] && ',' !in tags[k]
    requires !Occurs(message, "\\n") && !Occurs(message, "m\\:")
    ensures var fields := ["d:" + show(time), "h:" + host, "#" + Join(tags, ',')];
            var escaped := Replace(Replace(message, "m:", "m\\:"), "\n", "\\n");
            ParseCheck("_sc|" + (name + "|" + IntText(status) + "|" + (Join(fields, '|') + "|m:" + escaped)), read)
            == Some(ServiceCheck(name, status, Some(time), Some(host), Some(Tags.Deduplicated(tags)), Some(message)))
  {
    hide IntText, Join, Replace, ParseCheck, Occurs;
    var c := ServiceCheck(name, status, Some(time), Some(host), Some(tags), Some(message));
    var fields := ["d:" + show(time), "h:" + host, "#" + Join(tags, ',')];
    assert Letters(c, show) == [('d', Some(":" + show(time))), ('h', Some(":" + host)), ('#', Some(Join(tags, ',')))];
    LetterFirst('d', show(time));
    LetterFirst('h', host);
    AllWritten(Letters(c, show), fields);
    CheckRoundTripIff(c, show, read);
  }
}
