/** Endpoint search: a query with `*` as wildcard, translated into an SQL `LIKE` pattern. */
module LikePattern {
  import opened Text

  // --- The two languages -----------------------------------------------------------------

  /** `LIKE` with `\` as the escape character; a dangling escape matches nothing. */
  predicate Like(pattern: string, text: string)
    decreases |pattern|, |text|
  {
    if pattern == "" then text == ""
    else if pattern[0] == '%' then Like(pattern[1..], text) || (text != "" && Like(pattern, text[1..]))
    else if text == "" then false
    else if pattern[0] == '_' then Like(pattern[1..], text[1..])
    else if pattern[0] == '\\' then |pattern| >= 2 && text[0] == pattern[1] && Like(pattern[2..], text[1..])
    else text[0] == pattern[0] && Like(pattern[1..], text[1..])
  }

  /** The query read literally, with `*` as the only wildcard. */
  predicate Matches(query: string, text: string)
    decreases |query|, |text|
  {
    if query == "" then text == ""
    else if query[0] == '*' then Matches(query[1..], text) || (text != "" && Matches(query, text[1..]))
    else text != "" && text[0] == query[0] && Matches(query[1..], text[1..])
  }

  // --- The translation -------------------------------------------------------------------------

  predicate IsMeta(c: char) {
    c == '%' || c == '_' || c == '\\'
  }

  function TranslateChar(c: char): string {
    if c == '*' then "%" else if IsMeta(c) then ['\\', c] else [c]
  }

  function Translate(query: string): string {
    if query == "" then "" else TranslateChar(query[0]) + Translate(query[1..])
  }

  /** Lower-casing is the caller's: every result holds whatever it does to a string. */
  function PatternOf(lower: string -> string, query: string): string {
    "%" + Translate(lower(Trim(query))) + "%"
  }

  lemma {:induction false} TranslateAppend(a: string, c: char)
    ensures Translate(a + [c]) == Translate(a) + TranslateChar(c)
  {
    if a == "" {
      assert a + [c] == [c];
      assert Translate([c]) == TranslateChar(c) + Translate("");
    } else {
      assert (a + [c])[1..] == a[1..] + [c];
      TranslateAppend(a[1..], c);
    }
  }

  /** The source's loop, pushing characters. */
  method BuildPattern(lower: string -> string, query: string) returns (pattern: string)
    ensures pattern == PatternOf(lower, query)
  {
    var lowered := lower(Trim(query));
    pattern := "%";
    for i := 0 to |lowered|
      invariant pattern == "%" + Translate(lowered[..i])
    {
      var c := lowered[i];
      TranslateAppend(lowered[..i], c);
      assert lowered[..i] + [c] == lowered[..i + 1];
      if c == '*' {
        pattern := pattern + ['%'];
      } else if IsMeta(c) {
        pattern := pattern + ['\\'];
        pattern := pattern + [c];
      } else {
        pattern := pattern + [c];
      }
    }
    assert lowered[..|lowered|] == lowered;
    pattern := pattern + ['%'];
  }

  // --- Meaning is preserved ------------------------------------------------------------------------

  /** A leading `%` skips a prefix of the text. */
  lemma {:induction false} LeadingPercent(pattern: string, text: string)
    ensures Like("%" + pattern, text) <==> exists i :: 0 <= i <= |text| && Like(pattern, text[i..])
    decreases |text|
  {
    assert ("%" + pattern)[1..] == pattern;
    assert text[0..] == text;
    if text != "" {
      LeadingPercent(pattern, text[1..]);
      forall i | 0 <= i <= |text| - 1 ensures text[1..][i..] == text[i + 1..] {}
      if i :| 0 <= i <= |text| && Like(pattern, text[i..]) && i > 0 {
        assert text[1..][i - 1..] == text[i..];
      }
    }
  }

  ghost predicate SomePrefix(query: string, text: string) {
    exists j :: 0 <= j <= |text| && Matches(query, text[..j])
  }

  lemma PrefixOfLiteral(query: string, text: string)
    requires query != "" && query[0] != '*'
    ensures SomePrefix(query, text) <==> text != "" && text[0] == query[0] && SomePrefix(query[1..], text[1..])
  {
    if SomePrefix(query, text) {
      var j :| 0 <= j <= |text| && Matches(query, text[..j]);
      assert text[..j][1..] == text[1..][..j - 1];
    }
    if text != "" && text[0] == query[0] && SomePrefix(query[1..], text[1..]) {
      var j :| 0 <= j <= |text[1..]| && Matches(query[1..], text[1..][..j]);
      assert text[..j + 1][1..] == text[1..][..j];
      assert Matches(query, text[..j + 1]);
    }
  }

  lemma PrefixOfStar(query: string, text: string)
    requires query != "" && query[0] == '*'
    ensures SomePrefix(query, text) <==> SomePrefix(query[1..], text) || (text != "" && SomePrefix(query, text[1..]))
  {
    if SomePrefix(query, text) {
      var j :| 0 <= j <= |text| && Matches(query, text[..j]);
      if !Matches(query[1..], text[..j]) {
        assert text[..j][1..] == text[1..][..j - 1];
      }
    }
    if SomePrefix(query[1..], text) {
      var j :| 0 <= j <= |text| && Matches(query[1..], text[..j]);
      assert Matches(query, text[..j]);
    }
    if text != "" && SomePrefix(query, text[1..]) {
      var j :| 0 <= j <= |text[1..]| && Matches(query, text[1..][..j]);
      assert text[..j + 1][1..] == text[1..][..j];
      assert Matches(query, text[..j + 1]);
    }
  }

  /** With a trailing `%` the translated query matches a prefix of the text. */
  lemma {:induction false} TranslatedPrefix(query: string, text: string)
    ensures Like(Translate(query) + "%", text) <==> SomePrefix(query, text)
    decreases |query|, |text|
  {
    if query == "" {
      assert Translate(query) + "%" == "%" + "";
      LeadingPercent("", text);
      assert text[|text|..] == "" && Like("", text[|text|..]);
      assert text[..0] == "" && Matches(query, text[..0]);
    } else {
      var rest := Translate(query[1..]) + "%";
      assert Translate(query) + "%" == TranslateChar(query[0]) + rest;
      if query[0] == '*' {
        TranslatedPrefix(query[1..], text);
        PrefixOfStar(query, text);
        assert (TranslateChar(query[0]) + rest)[1..] == rest;
        if text != "" {
          TranslatedPrefix(query, text[1..]);
        }
      } else {
        PrefixOfLiteral(query, text);
        assert (TranslateChar(query[0]) + rest)[|TranslateChar(query[0])|..] == rest;
        if text != "" {
          TranslatedPrefix(query[1..], text[1..]);
        }
      }
    }
  }

  /** For every query and text: the built pattern accepts the text exactly when some substring of it
      matches the trimmed, lower-cased query with `*` as the only wildcard. */
  lemma PatternMeansSubstring(lower: string -> string, query: string, text: string)
    ensures Like(PatternOf(lower, query), text) <==>
            exists i, j :: 0 <= i <= j <= |text| && Matches(lower(Trim(query)), text[i..j])
  {
    var q := lower(Trim(query));
    assert PatternOf(lower, query) == "%" + (Translate(q) + "%");
    LeadingPercent(Translate(q) + "%", text);
    forall i | 0 <= i <= |text| ensures Like(Translate(q) + "%", text[i..]) <==> SomePrefix(q, text[i..]) {
      TranslatedPrefix(q, text[i..]);
    }
    if i, j :| 0 <= i <= j <= |text| && Matches(q, text[i..j]) {
      assert text[i..][..j - i] == text[i..j];
      assert SomePrefix(q, text[i..]);
    }
    if i :| 0 <= i <= |text| && SomePrefix(q, text[i..]) {
      var j :| 0 <= j <= |text[i..]| && Matches(q, text[i..][..j]);
      assert text[i..][..j] == text[i..i + j];
    }
  }

  /** Every escape is followed by the metacharacter it escapes. */
  predicate EscapesComplete(pattern: string) {
    if pattern == "" then true
    else if pattern[0] == '\\' then |pattern| >= 2 && IsMeta(pattern[1]) && EscapesComplete(pattern[2..])
    else EscapesComplete(pattern[1..])
  }

  lemma {:induction false} NoDanglingEscape(query: string, tail: string)
    requires EscapesComplete(tail)
    ensures EscapesComplete(Translate(query) + tail)
  {
    if query == "" {
      assert Translate(query) + tail == tail;
    } else {
      NoDanglingEscape(query[1..], tail);
      var rest := Translate(query[1..]) + tail;
      assert Translate(query) + tail == TranslateChar(query[0]) + rest;
      assert (TranslateChar(query[0]) + rest)[|TranslateChar(query[0])|..] == rest;
    }
  }

  lemma PatternEscapesComplete(lower: string -> string, query: string)
    ensures EscapesComplete(PatternOf(lower, query))
  {
    var q := lower(Trim(query));
    NoDanglingEscape(q, "%");
    assert PatternOf(lower, query) == "%" + (Translate(q) + "%");
    assert PatternOf(lower, query)[1..] == Translate(q) + "%";
  }
}
