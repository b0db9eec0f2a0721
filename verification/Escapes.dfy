// The escapes of event texts and service check messages.  The program has
// the unescaping; the escaping is what its clients do.
module Escapes {
  import opened Prelude
  import opened Text

  const NEWLINE := "\n"
  const BACKSLASH_N := "\\n"
  const MARK := "m:"
  const ESCAPED_MARK := "m\\:"

  function UnescapeNewlines(s: string): string {
    Replace(s, BACKSLASH_N, NEWLINE)
  }

  function EscapeNewlines(s: string): string {
    Replace(s, NEWLINE, BACKSLASH_N)
  }

  function UnescapeMarks(s: string): string {
    Replace(s, ESCAPED_MARK, MARK)
  }

  function EscapeMarks(s: string): string {
    Replace(s, MARK, ESCAPED_MARK)
  }

  /** `_unescape_event_text` */
  function UnescapeEventText(s: string): string {
    UnescapeNewlines(s)
  }

  /** `_unescape_sc_content` */
  function UnescapeContent(s: string): string {
    UnescapeMarks(UnescapeNewlines(s))
  }

  function EscapeContent(s: string): string {
    EscapeNewlines(EscapeMarks(s))
  }

  // ---------- patterns letter by letter ----------

  lemma Starts1(s: string, a: char)
    ensures StartsWith(s, [a]) <==> s != "" && s[0] == a
  {
    if s != "" {
      assert s[..1] == [s[0]];
    }
  }

  lemma Starts2(s: string, a: char, b: char)
    ensures StartsWith(s, [a, b]) <==> |s| >= 2 && s[0] == a && s[1] == b
  {
    if |s| >= 2 {
      assert s[..2] == [s[0], s[1]];
    }
  }

  lemma Starts3(s: string, a: char, b: char, c: char)
    ensures StartsWith(s, [a, b, c]) <==> |s| >= 3 && s[0] == a && s[1] == b && s[2] == c
  {
    if |s| >= 3 {
      assert s[..3] == [s[0], s[1], s[2]];
    }
  }

  lemma NewlineStep(s: string)
    requires s != ""
    ensures EscapeNewlines(s) == (if s[0] == '\n' then "\\n" else [s[0]]) + EscapeNewlines(s[1..])
  {
    Starts1(s, '\n');
  }

  lemma BackslashStep(s: string)
    requires s != ""
    ensures UnescapeNewlines(s) == if |s| >= 2 && s[0] == '\\' && s[1] == 'n' then "\n" + UnescapeNewlines(s[2..])
                                   else [s[0]] + UnescapeNewlines(s[1..])
  {
    Starts2(s, '\\', 'n');
  }

  lemma MarkStep(s: string)
    requires s != ""
    ensures EscapeMarks(s) == if |s| >= 2 && s[0] == 'm' && s[1] == ':' then "m\\:" + EscapeMarks(s[2..])
                              else [s[0]] + EscapeMarks(s[1..])
  {
    Starts2(s, 'm', ':');
  }

  lemma EscapedMarkStep(s: string)
    requires s != ""
    ensures UnescapeMarks(s) == if |s| >= 3 && s[0] == 'm' && s[1] == '\\' && s[2] == ':' then "m:" + UnescapeMarks(s[3..])
                                else [s[0]] + UnescapeMarks(s[1..])
  {
    Starts3(s, 'm', '\\', ':');
  }

  lemma EscapeMarksHead(s: string)
    ensures EscapeMarks(s) == "" <==> s == ""
    ensures s != "" ==> EscapeMarks(s)[0] == s[0]
  {
    if s != "" {
      MarkStep(s);
    }
  }

  // ---------- newlines ----------

  /** Escaping newlines first changes nothing. */
  lemma {:induction false} UnescapeAfterEscape(t: string)
    ensures UnescapeNewlines(EscapeNewlines(t)) == UnescapeNewlines(t)
  {
    if t != "" {
      var e := EscapeNewlines(t);
      NewlineStep(t);
      BackslashStep(t);
      UnescapeAfterEscape(t[1..]);
      BackslashStep(e);
      if t[0] == '\n' {
        assert e[2..] == EscapeNewlines(t[1..]);
      } else {
        assert e[1..] == EscapeNewlines(t[1..]);
        if |t| >= 2 {
          NewlineStep(t[1..]);
          if t[0] == '\\' && t[1] == 'n' {
            UnescapeAfterEscape(t[2..]);
            assert t[1..][1..] == t[2..];
            assert e[2..] == EscapeNewlines(t[2..]);
          }
        }
      }
    }
  }

  /** An event text survives exactly when it has no literal backslash-n. */
  lemma TextSurvivesIff(t: string)
    ensures UnescapeEventText(EscapeNewlines(t)) == t <==> !Occurs(t, BACKSLASH_N)
  {
    UnescapeAfterEscape(t);
    ReplaceShortens(t, BACKSLASH_N, NEWLINE);
  }

  // ---------- marks ----------

  lemma {:induction false} UnescapeMarksAfterEscape(t: string)
    ensures UnescapeMarks(EscapeMarks(t)) == UnescapeMarks(t)
  {
    if t != "" {
      var e := EscapeMarks(t);
      MarkStep(t);
      EscapedMarkStep(t);
      EscapedMarkStep(e);
      if |t| >= 2 && t[0] == 'm' && t[1] == ':' {
        UnescapeMarksAfterEscape(t[2..]);
        assert e[3..] == EscapeMarks(t[2..]);
        EscapedMarkStep(t[1..]);
        assert t[1..][1..] == t[2..];
      } else {
        UnescapeMarksAfterEscape(t[1..]);
        assert e[1..] == EscapeMarks(t[1..]);
        MarksBehind(t, e);
        if |t| >= 3 && t[0] == 'm' && t[1] == '\\' && t[2] == ':' {
          UnescapeMarksAfterEscape(t[3..]);
        }
      }
    }
  }

  /** Where an escaped mark starts in the escaped text, one starts in the text. */
  lemma MarksBehind(t: string, e: string)
    requires t != "" && e == [t[0]] + EscapeMarks(t[1..])
    ensures StartsWith(e, ESCAPED_MARK) <==> StartsWith(t, ESCAPED_MARK)
    ensures StartsWith(t, ESCAPED_MARK) ==> e[3..] == EscapeMarks(t[3..])
  {
    Starts3(e, 'm', '\\', ':');
    Starts3(t, 'm', '\\', ':');
    var r := EscapeMarks(t[1..]);
    EscapeMarksHead(t[1..]);
    if |t| >= 2 && t[1] == '\\' {
      MarkStep(t[1..]);
      assert t[1..][1..] == t[2..];
      assert r == ['\\'] + EscapeMarks(t[2..]);
      EscapeMarksHead(t[2..]);
      if |t| >= 3 && t[2] == ':' {
        MarkStep(t[2..]);
        assert t[2..][1..] == t[3..];
        assert r == ['\\'] + ([':'] + EscapeMarks(t[3..]));
        assert e[3..] == EscapeMarks(t[3..]);
      }
    }
  }

  // ---------- message content ----------

  function Newlines(s: string): nat {
    if s == "" then 0 else (if s[0] == '\n' then 1 else 0) + Newlines(s[1..])
  }

  lemma {:induction false} UnescapeAddsNewlines(s: string)
    ensures Newlines(UnescapeNewlines(s)) >= Newlines(s)
    ensures Occurs(s, BACKSLASH_N) ==> Newlines(UnescapeNewlines(s)) > Newlines(s)
  {
    OccursHere(s, BACKSLASH_N);
    if s != "" {
      var u := UnescapeNewlines(s);
      Starts2(s, '\\', 'n');
      BackslashStep(s);
      if |s| >= 2 && s[0] == '\\' && s[1] == 'n' {
        UnescapeAddsNewlines(s[2..]);
        assert s[1..][1..] == s[2..];
        assert u[1..] == UnescapeNewlines(s[2..]);
      } else {
        UnescapeAddsNewlines(s[1..]);
        assert u[1..] == UnescapeNewlines(s[1..]);
      }
    }
  }

  lemma NewlinesFrom(s: string, k: nat)
    requires k <= |s| && forall i :: 0 <= i < k ==> s[i] != '\n'
    ensures Newlines(s) == Newlines(s[k..])
  {
    if k > 0 {
      NewlinesFrom(s[1..], k - 1);
      assert s[1..][k - 1..] == s[k..];
    } else {
      assert s[0..] == s;
    }
  }

  lemma {:induction false} MarksKeepNewlines(s: string)
    ensures Newlines(EscapeMarks(s)) == Newlines(s)
  {
    if s != "" {
      var e := EscapeMarks(s);
      MarkStep(s);
      if |s| >= 2 && s[0] == 'm' && s[1] == ':' {
        MarksKeepNewlines(s[2..]);
        NewlinesFrom(s, 2);
        NewlinesFrom(e, 3);
        assert e[3..] == EscapeMarks(s[2..]);
      } else {
        MarksKeepNewlines(s[1..]);
        assert e[1..] == EscapeMarks(s[1..]);
      }
    }
  }

  lemma {:induction false} UnescapedMarksKeepNewlines(s: string)
    ensures Newlines(UnescapeMarks(s)) == Newlines(s)
  {
    if s != "" {
      var u := UnescapeMarks(s);
      EscapedMarkStep(s);
      if |s| >= 3 && s[0] == 'm' && s[1] == '\\' && s[2] == ':' {
        UnescapedMarksKeepNewlines(s[3..]);
        NewlinesFrom(s, 3);
        NewlinesFrom(u, 2);
        assert u[2..] == UnescapeMarks(s[3..]);
      } else {
        UnescapedMarksKeepNewlines(s[1..]);
        assert u[1..] == UnescapeMarks(s[1..]);
      }
    }
  }

  lemma OccursTail(s: string, p: string, k: nat)
    requires k <= |s| && p != "" && forall i :: 0 <= i < k ==> !StartsWith(s[i..], p)
    ensures Occurs(s, p) <==> Occurs(s[k..], p)
  {
    if k > 0 {
      assert s[0..] == s;
      OccursHere(s, p);
      forall i | 0 <= i < k - 1 ensures !StartsWith(s[1..][i..], p) {
        assert s[1..][i..] == s[i + 1..];
      }
      OccursTail(s[1..], p, k - 1);
      assert s[1..][k - 1..] == s[k..];
    } else {
      assert s[0..] == s;
    }
  }

  /** Escaping marks neither adds nor removes a literal backslash-n. */
  lemma {:induction false} MarksKeepBackslashes(t: string)
    ensures Occurs(EscapeMarks(t), BACKSLASH_N) <==> Occurs(t, BACKSLASH_N)
  {
    if t != "" {
      var e := EscapeMarks(t);
      MarkStep(t);
      if |t| >= 2 && t[0] == 'm' && t[1] == ':' {
        MarksKeepBackslashes(t[2..]);
        forall i | 0 <= i < 3 ensures !StartsWith(e[i..], BACKSLASH_N) {
          Starts2(e[i..], '\\', 'n');
        }
        forall i | 0 <= i < 2 ensures !StartsWith(t[i..], BACKSLASH_N) {
          Starts2(t[i..], '\\', 'n');
        }
        OccursTail(e, BACKSLASH_N, 3);
        OccursTail(t, BACKSLASH_N, 2);
        assert e[3..] == EscapeMarks(t[2..]);
      } else {
        MarksKeepBackslashes(t[1..]);
        assert e[1..] == EscapeMarks(t[1..]);
        OccursHere(e, BACKSLASH_N);
        OccursHere(t, BACKSLASH_N);
        Starts2(e, '\\', 'n');
        Starts2(t, '\\', 'n');
        EscapeMarksHead(t[1..]);
      }
    }
  }

  /** A message survives exactly when it has neither a literal backslash-n nor an escaped mark. */
  lemma ContentSurvivesIff(t: string)
    ensures UnescapeContent(EscapeContent(t)) == t <==> !Occurs(t, BACKSLASH_N) && !Occurs(t, ESCAPED_MARK)
  {
    var e := EscapeMarks(t);
    UnescapeAfterEscape(e);
    MarksKeepBackslashes(t);
    if Occurs(t, BACKSLASH_N) {
      UnescapeAddsNewlines(e);
      MarksKeepNewlines(t);
      UnescapedMarksKeepNewlines(UnescapeNewlines(e));
    } else {
      ReplaceShortens(e, BACKSLASH_N, NEWLINE);
      UnescapeMarksAfterEscape(t);
      ReplaceShortens(t, ESCAPED_MARK, MARK);
    }
  }

  // ---------- no mark is left ----------

  lemma {:induction false} EscapedHasNoMark(t: string)
    ensures !Occurs(EscapeMarks(t), MARK)
  {
    var e := EscapeMarks(t);
    OccursHere(e, MARK);
    Starts2(e, 'm', ':');
    if t != "" {
      MarkStep(t);
      if |t| >= 2 && t[0] == 'm' && t[1] == ':' {
        EscapedHasNoMark(t[2..]);
        forall i | 0 <= i < 3 ensures !StartsWith(e[i..], MARK) {
          Starts2(e[i..], 'm', ':');
        }
        OccursTail(e, MARK, 3);
        assert e[3..] == EscapeMarks(t[2..]);
      } else {
        EscapedHasNoMark(t[1..]);
        assert e[1..] == EscapeMarks(t[1..]);
        EscapeMarksHead(t[1..]);
      }
    }
  }

  lemma {:induction false} NewlinesAddNoMark(s: string)
    requires !Occurs(s, MARK)
    ensures !Occurs(EscapeNewlines(s), MARK)
  {
    var e := EscapeNewlines(s);
    OccursHere(s, MARK);
    OccursHere(e, MARK);
    Starts2(s, 'm', ':');
    Starts2(e, 'm', ':');
    if s != "" {
      NewlineStep(s);
      NewlinesAddNoMark(s[1..]);
      if s[0] == '\n' {
        forall i | 0 <= i < 2 ensures !StartsWith(e[i..], MARK) {
          Starts2(e[i..], 'm', ':');
        }
        OccursTail(e, MARK, 2);
        assert e[2..] == EscapeNewlines(s[1..]);
      } else {
        assert e[1..] == EscapeNewlines(s[1..]);
        if |s| >= 2 {
          NewlineStep(s[1..]);
        }
      }
    }
  }

  lemma ContentHasNoMark(t: string)
    ensures !Occurs(EscapeContent(t), MARK)
  {
    EscapedHasNoMark(t);
    NewlinesAddNoMark(EscapeMarks(t));
  }
}
