/** Normalised OpenAPI paths: one slash between segments, blank variables, no trailing slash. */
module PathNormal {
  import opened Text

  function Collapse(s: string): string {
    if |s| < 2 then s
    else if s[0] == '/' && s[1] == '/' then Collapse(s[1..])
    else [s[0]] + Collapse(s[1..])
  }

  /** Where `c` first stands, or the length. */
  function IndexOf(s: string, c: char): (i: nat)
    ensures i <= |s| && c !in s[..i] && (i < |s| ==> s[i] == c)
  {
    if s == "" || s[0] == c then 0
    else
      var i := 1 + IndexOf(s[1..], c);
      assert s[..i] == [s[0]] + s[1..][..i - 1];
      i
  }

  /** A variable has at least one character between its braces; a bare or unclosed brace is kept. */
  function Blank(s: string): string {
    if s == "" then ""
    else if s[0] != '{' then [s[0]] + Blank(s[1..])
    else
      var end := IndexOf(s[1..], '}');
      if 0 < end < |s| - 1 then "{}" + Blank(s[end + 2..]) else "{" + Blank(s[1..])
  }

  predicate EndsWithSlash(s: string) {
    s != "" && s[|s| - 1] == '/'
  }

  function DropSlash(s: string): string {
    if |s| > 1 && EndsWithSlash(s) then s[..|s| - 1] else s
  }

  function Normalize(path: string): string {
    DropSlash(Blank(Collapse(Trim(path))))
  }

  // --- The scanners -----------------------------------------------------------------------

  lemma {:induction false} CollapseAppend(s: string, c: char)
    ensures Collapse(s + [c]) == if c == '/' && EndsWithSlash(s) then Collapse(s) else Collapse(s) + [c]
  {
    if |s| >= 2 {
      assert (s + [c])[1..] == s[1..] + [c];
      CollapseAppend(s[1..], c);
    }
  }

  method CollapseSlashes(path: string) returns (collapsed: string)
    ensures collapsed == Collapse(path)
  {
    collapsed := "";
    var previousWasSlash := false;
    for i := 0 to |path|
      invariant collapsed == Collapse(path[..i]) && previousWasSlash == EndsWithSlash(path[..i])
    {
      var c := path[i];
      CollapseAppend(path[..i], c);
      assert path[..i] + [c] == path[..i + 1];
      if c == '/' {
        if !previousWasSlash {
          collapsed := collapsed + ['/'];
        }
        previousWasSlash := true;
      } else {
        collapsed := collapsed + [c];
        previousWasSlash := false;
      }
    }
    assert path[..|path|] == path;
  }

  lemma {:induction false} BlankBeforeBrace(before: string, rest: string)
    requires '{' !in before
    ensures Blank(before + rest) == before + Blank(rest)
  {
    if before == "" {
      assert before + rest == rest;
    } else {
      assert (before + rest)[1..] == before[1..] + rest;
      BlankBeforeBrace(before[1..], rest);
    }
  }

  /** One turn of the source's loop: the text before the first brace, the placeholder or the brace, and
      what is left to scan. */
  lemma BlankOneVariable(rest: string, open: nat)
    requires open == IndexOf(rest, '{') && open < |rest|
    ensures var afterOpen := rest[open + 1..];
            var close := IndexOf(afterOpen, '}');
            Blank(rest) == rest[..open] +
              (if 0 < close < |afterOpen| then "{}" + Blank(afterOpen[close + 1..]) else "{" + Blank(afterOpen))
  {
    var tail, afterOpen := rest[open..], rest[open + 1..];
    assert rest == rest[..open] + tail;
    BlankBeforeBrace(rest[..open], tail);
    assert tail[1..] == afterOpen;
    var close := IndexOf(afterOpen, '}');
    if 0 < close < |afterOpen| {
      assert tail[close + 2..] == afterOpen[close + 1..];
    }
  }

  lemma Regroup(a: string, b: string, c: string, d: string)
    ensures a + (b + (c + d)) == (a + b + c) + d
  {}

  /** The source's loop over `split_once`. */
  method BlankPathVariables(path: string) returns (blanked: string)
    ensures blanked == Blank(path)
  {
    blanked := "";
    var rest := path;
    var open := IndexOf(rest, '{');
    while open < |rest|
      invariant open == IndexOf(rest, '{')
      invariant Blank(path) == blanked + Blank(rest)
      decreases |rest|
    {
      BlankOneVariable(rest, open);
      var before, afterOpen := rest[..open], rest[open + 1..];
      var close := IndexOf(afterOpen, '}');
      ghost var done := blanked;
      if 0 < close < |afterOpen| {
        blanked := blanked + before + "{}";
        rest := afterOpen[close + 1..];
        Regroup(done, before, "{}", Blank(rest));
      } else {
        blanked := blanked + before + "{";
        rest := afterOpen;
        Regroup(done, before, "{", Blank(rest));
      }
      open := IndexOf(rest, '{');
    }
    assert rest[..open] == rest;
    BlankBeforeBrace(rest, "");
    assert rest + "" == rest;
    blanked := blanked + rest;
  }

  method NormalizePath(path: string) returns (normal: string)
    ensures normal == Normalize(path)
  {
    normal := CollapseSlashes(Trim(path));
    normal := BlankPathVariables(normal);
    if |normal| > 1 && EndsWithSlash(normal) {
      normal := normal[..|normal| - 1];
    }
  }

  // --- What each pass leaves -------------------------------------------------------------------

  predicate NoDoubleSlash(s: string) {
    forall i :: 0 < i < |s| && s[i] == '/' ==> s[i - 1] != '/'
  }

  /** Every opening brace is closed at once, or never. */
  predicate Settled(s: string) {
    if s == "" then true
    else (s[0] == '{' ==> (|s| > 1 && s[1] == '}') || '}' !in s[1..]) && Settled(s[1..])
  }

  lemma {:induction false} CollapseLeaves(s: string)
    ensures NoDoubleSlash(Collapse(s)) && |Collapse(s)| <= |s|
    ensures s != "" ==> Collapse(s) != "" && Collapse(s)[0] == s[0] && Collapse(s)[|Collapse(s)| - 1] == s[|s| - 1]
  {
    if |s| >= 2 {
      CollapseLeaves(s[1..]);
    }
  }

  lemma {:induction false} CollapseFixed(s: string)
    requires NoDoubleSlash(s)
    ensures Collapse(s) == s
  {
    if |s| >= 2 {
      assert s[1] == '/' ==> s[0] != '/';
      SuffixKeepsSingle(s, 1);
      CollapseFixed(s[1..]);
    }
  }

  lemma {:induction false} BlankLeaves(s: string)
    ensures |Blank(s)| <= |s|
    ensures s != "" ==> Blank(s) != "" && Blank(s)[0] == s[0]
    ensures '}' !in s ==> '}' !in Blank(s)
    decreases |s|
  {
    if s != "" {
      var end := if s[0] == '{' then IndexOf(s[1..], '}') else 0;
      if s[0] == '{' && 0 < end < |s| - 1 {
        BlankLeaves(s[end + 2..]);
        assert s[1..][end] == '}';
      } else {
        BlankLeaves(s[1..]);
      }
    }
  }

  lemma {:induction false} BlankSettles(s: string)
    ensures Settled(Blank(s))
    decreases |s|
  {
    if s != "" {
      var end := if s[0] == '{' then IndexOf(s[1..], '}') else 0;
      if s[0] == '{' && 0 < end < |s| - 1 {
        var rest := Blank(s[end + 2..]);
        BlankSettles(s[end + 2..]);
        assert ("{}" + rest)[1..] == "}" + rest && ("}" + rest)[1..] == rest;
      } else {
        BlankSettles(s[1..]);
        BlankLeaves(s[1..]);
        assert ([s[0]] + Blank(s[1..]))[1..] == Blank(s[1..]);
        if s[0] == '{' {
          assert s[1..][..|s| - 1] == s[1..];
        }
      }
    }
  }

  lemma SuffixKeepsSingle(s: string, n: nat)
    requires n <= |s| && NoDoubleSlash(s)
    ensures NoDoubleSlash(s[n..])
  {
    forall i | 0 < i < |s[n..]| && s[n..][i] == '/' ensures s[n..][i - 1] != '/' {
      assert s[n + i] == '/';
    }
  }

  /** Blanking brings no two slashes together. */
  lemma {:induction false} BlankKeepsSingle(s: string)
    requires NoDoubleSlash(s)
    ensures NoDoubleSlash(Blank(s))
    decreases |s|
  {
    if s != "" {
      var end := if s[0] == '{' then IndexOf(s[1..], '}') else 0;
      if s[0] == '{' && 0 < end < |s| - 1 {
        SuffixKeepsSingle(s, end + 2);
        BlankKeepsSingle(s[end + 2..]);
      } else {
        SuffixKeepsSingle(s, 1);
        BlankKeepsSingle(s[1..]);
        BlankLeaves(s[1..]);
      }
    }
  }

  lemma {:induction false} BlankFixed(s: string)
    requires Settled(s)
    ensures Blank(s) == s
  {
    if s != "" {
      BlankFixed(s[1..]);
      if s[0] == '{' && '}' in s[1..] {
        assert s[1..][0] == '}';
      }
    }
  }

  lemma {:induction false} SettledDropSlash(s: string)
    requires Settled(s + "/")
    ensures Settled(s)
  {
    if s != "" {
      assert (s + "/")[1..] == s[1..] + "/";
      SettledDropSlash(s[1..]);
    }
  }

  // --- Idempotence -------------------------------------------------------------------------------

  /** White space just before the trailing slash: what dropping the slash lays bare. */
  predicate SpaceBeforeFinalSlash(path: string) {
    var s := Collapse(Trim(path));
    |s| > 1 && EndsWithSlash(s) && IsSpace(s[|s| - 2])
  }

  predicate Trimmed(s: string) {
    s == "" || (!IsSpace(s[0]) && !IsSpace(s[|s| - 1]))
  }

  lemma {:induction false} TrimLeftLeaves(s: string)
    ensures |TrimLeft(s)| <= |s| && (TrimLeft(s) != "" ==> !IsSpace(TrimLeft(s)[0]))
    ensures s != "" && !IsSpace(s[0]) ==> TrimLeft(s) == s
    ensures s != "" && IsSpace(s[0]) ==> |TrimLeft(s)| < |s|
  {
    if s != "" && IsSpace(s[0]) {
      TrimLeftLeaves(s[1..]);
    }
  }

  lemma {:induction false} TrimRightLeaves(s: string)
    ensures |TrimRight(s)| <= |s| && TrimRight(s) <= s && (TrimRight(s) != "" ==> !IsSpace(TrimRight(s)[|TrimRight(s)| - 1]))
    ensures s != "" && !IsSpace(s[|s| - 1]) ==> TrimRight(s) == s
    ensures s != "" && IsSpace(s[|s| - 1]) ==> |TrimRight(s)| < |s|
  {
    if s != "" && IsSpace(s[|s| - 1]) {
      TrimRightLeaves(s[..|s| - 1]);
    }
  }

  lemma TrimLeaves(s: string)
    ensures Trimmed(Trim(s)) && |Trim(s)| <= |s|
    ensures Trimmed(s) ==> Trim(s) == s
    ensures !Trimmed(s) ==> |Trim(s)| < |s|
  {
    TrimLeftLeaves(s);
    TrimRightLeaves(TrimLeft(s));
  }

  /** Blanking keeps the last two characters of a path that does not end in a closing brace. */
  lemma {:induction false} BlankKeepsEnd(s: string)
    requires |s| >= 2 && s[|s| - 1] != '}'
    ensures |Blank(s)| >= 2 && Blank(s)[|Blank(s)| - 1] == s[|s| - 1] && Blank(s)[|Blank(s)| - 2] == s[|s| - 2]
    decreases |s|
  {
    var end := if s[0] == '{' then IndexOf(s[1..], '}') else 0;
    if s[0] == '{' && 0 < end < |s| - 1 {
      assert s[1..][end] == '}' && s[end + 1] == '}';
      var rest := s[end + 2..];
      assert Blank(s) == "{}" + Blank(rest);
      if |rest| >= 2 {
        BlankKeepsEnd(rest);
      } else {
        assert rest == [s[|s| - 1]];
        BlankOne(s[|s| - 1]);
      }
    } else {
      assert Blank(s) == [s[0]] + Blank(s[1..]);
      if |s| > 2 {
        BlankKeepsEnd(s[1..]);
      } else {
        assert s[1..] == [s[1]];
        BlankOne(s[1]);
      }
    }
  }

  lemma BlankOne(c: char)
    ensures Blank([c]) == [c]
  {
    assert [c][1..] == "";
    assert Blank("") == "";
  }

  lemma NormalizeLeaves(path: string)
    ensures var n := Normalize(path);
            && NoDoubleSlash(n) && Settled(n) && (|n| > 1 ==> !EndsWithSlash(n))
            && |n| <= |Trim(path)|
            && (n != "" ==> !IsSpace(n[0]))
  {
    var t := Trim(path);
    var c := Collapse(t);
    var b := Blank(c);
    TrimLeaves(path);
    CollapseLeaves(t);
    BlankLeaves(c);
    BlankSettles(c);
    BlankKeepsSingle(c);
    DropSlashLeaves(b);
  }

  lemma DropSlashLeaves(b: string)
    requires NoDoubleSlash(b) && Settled(b)
    ensures var n := DropSlash(b);
            && NoDoubleSlash(n) && Settled(n) && (|n| > 1 ==> !EndsWithSlash(n))
            && |n| <= |b| && (b != "" ==> n != "" && n[0] == b[0])
  {
    if |b| > 1 && EndsWithSlash(b) {
      assert b == DropSlash(b) + "/";
      SettledDropSlash(DropSlash(b));
    }
  }

  /** The last two passes bare white space exactly when it stands before the final slash. */
  lemma EndLaidBare(c: string)
    requires c != "" && !IsSpace(c[0]) && !IsSpace(c[|c| - 1])
    ensures var n := DropSlash(Blank(c));
            Trimmed(n) <==> !(|c| > 1 && EndsWithSlash(c) && IsSpace(c[|c| - 2]))
  {
    BlankLeaves(c);
    if |c| == 1 {
      BlankOne(c[0]);
    } else if c[|c| - 1] == '}' {
      BlankKeepsClosingBrace(c);
    } else {
      BlankKeepsEnd(c);
      EndDropped(Blank(c));
    }
  }

  lemma EndDropped(b: string)
    requires |b| >= 2 && !IsSpace(b[0]) && !IsSpace(b[|b| - 1])
    ensures Trimmed(DropSlash(b)) <==> !(EndsWithSlash(b) && IsSpace(b[|b| - 2]))
  {}

  /** The result has outer white space exactly when the path has some before its trailing slash. */
  lemma NormalizedIsTrimmed(path: string)
    ensures Trimmed(Normalize(path)) <==> !SpaceBeforeFinalSlash(path)
  {
    var t := Trim(path);
    TrimLeaves(path);
    CollapseLeaves(t);
    if t != "" {
      EndLaidBare(Collapse(t));
    }
  }

  lemma {:induction false} BlankKeepsClosingBrace(s: string)
    requires s != "" && s[|s| - 1] == '}'
    ensures Blank(s) != "" && Blank(s)[|Blank(s)| - 1] == '}'
    decreases |s|
  {
    var end := if s[0] == '{' then IndexOf(s[1..], '}') else 0;
    if s[0] == '{' && 0 < end < |s| - 1 {
      if |s[end + 2..]| > 0 {
        BlankKeepsClosingBrace(s[end + 2..]);
      }
    } else if |s| > 1 {
      BlankKeepsClosingBrace(s[1..]);
    }
  }

  /** Normalising twice is normalising once exactly when no white space stands before a trailing
      slash — so on every path without white space. */
  lemma NormalizeIdempotentIff(path: string)
    ensures Normalize(Normalize(path)) == Normalize(path) <==> !SpaceBeforeFinalSlash(path)
  {
    var n := Normalize(path);
    NormalizedIsTrimmed(path);
    NormalizeLeaves(path);
    TrimLeaves(n);
    NormalizeLeaves(n);
    if Trimmed(n) {
      CollapseFixed(n);
      BlankFixed(n);
    }
  }

  /** One such path, letter by letter. */
  lemma SpaceBeforeSlashShows(c: char)
    requires c != '/' && c != '{' && !IsSpace(c)
    ensures Normalize([c, ' ', '/']) == [c, ' '] && Normalize([c, ' ']) == [c]
  {
    var path := [c, ' ', '/'];
    TrimLeaves(path);
    assert NoDoubleSlash(path);
    CollapseFixed(path);
    BlankFixed(path) by {
      assert path[1..] == [' ', '/'] && path[1..][1..] == ['/'] && path[1..][1..][1..] == [];
      assert Settled(['/']) && Settled([' ', '/']);
    }
    assert TrimLeft([c, ' ']) == [c, ' '];
    assert [c, ' '][..1] == [c] && TrimRight([c]) == [c];
    BlankOne(c);
  }

  // --- Templates -----------------------------------------------------------------------------------

  datatype Token = Plain(c: char) | Variable(name: string)

  function Spelled(t: Token): string {
    match t case Plain(c) => [c] case Variable(name) => "{" + name + "}"
  }

  function Render(tokens: seq<Token>): string {
    if tokens == [] then "" else Spelled(tokens[0]) + Render(tokens[1..])
  }

  /** The template with its variables blanked. */
  function Shape(tokens: seq<Token>): string {
    if tokens == [] then ""
    else (match tokens[0] case Plain(c) => [c] case Variable(_) => "{}") + Shape(tokens[1..])
  }

  /** Literals without braces, variables with a name that closes where it should. */
  predicate WellFormed(tokens: seq<Token>) {
    forall i :: 0 <= i < |tokens| ==> IsToken(tokens[i])
  }

  predicate IsToken(t: Token) {
    match t case Plain(c) => c != '{' && c != '}' case Variable(name) => name != "" && '}' !in name
  }

  /** The same literals, and variables in the same places. */
  predicate SameLiterals(ts: seq<Token>, us: seq<Token>) {
    |ts| == |us| && forall i :: 0 <= i < |ts| ==> (ts[i].Plain? || us[i].Plain? ==> ts[i] == us[i])
  }

  lemma {:induction false} SameShape(ts: seq<Token>, us: seq<Token>)
    requires SameLiterals(ts, us)
    ensures Shape(ts) == Shape(us)
    decreases |ts|
  {
    if ts != [] {
      SameShape(ts[1..], us[1..]);
    }
  }

  lemma {:induction false} RenderAppend(ts: seq<Token>, us: seq<Token>)
    ensures Render(ts + us) == Render(ts) + Render(us)
    decreases |ts|
  {
    if ts == [] {
      assert ts + us == us;
    } else {
      assert (ts + us)[1..] == ts[1..] + us;
      RenderAppend(ts[1..], us);
    }
  }

  function TokensLeft(ts: seq<Token>): seq<Token> {
    if ts != [] && ts[0].Plain? && IsSpace(ts[0].c) then TokensLeft(ts[1..]) else ts
  }

  function TokensRight(ts: seq<Token>): seq<Token> {
    if ts != [] && ts[|ts| - 1].Plain? && IsSpace(ts[|ts| - 1].c) then TokensRight(ts[..|ts| - 1]) else ts
  }

  lemma {:induction false} TrimLeftTokens(ts: seq<Token>, us: seq<Token>)
    requires WellFormed(ts) && SameLiterals(ts, us)
    ensures TrimLeft(Render(ts)) == Render(TokensLeft(ts))
    ensures WellFormed(TokensLeft(ts)) && SameLiterals(TokensLeft(ts), TokensLeft(us))
    decreases |ts|
  {
    if ts != [] && ts[0].Plain? && IsSpace(ts[0].c) {
      assert Render(ts)[1..] == Render(ts[1..]);
      TrimLeftTokens(ts[1..], us[1..]);
    }
  }

  lemma {:induction false} TrimRightTokens(ts: seq<Token>, us: seq<Token>)
    requires WellFormed(ts) && SameLiterals(ts, us)
    ensures TrimRight(Render(ts)) == Render(TokensRight(ts))
    ensures WellFormed(TokensRight(ts)) && SameLiterals(TokensRight(ts), TokensRight(us))
    decreases |ts|
  {
    if ts != [] {
      var last := |ts| - 1;
      assert ts == ts[..last] + [ts[last]];
      RenderAppend(ts[..last], [ts[last]]);
      assert Render([ts[last]]) == Spelled(ts[last]) + Render([]);
      if ts[last].Plain? && IsSpace(ts[last].c) {
        assert Render(ts)[..|Render(ts)| - 1] == Render(ts[..last]);
        TrimRightTokens(ts[..last], us[..last]);
      }
    }
  }

  /** Slashes collapsed, inside variable names too. */
  function CollapseTokens(ts: seq<Token>): seq<Token> {
    if ts == [] then []
    else if ts[0].Variable? then [Variable(Collapse(ts[0].name))] + CollapseTokens(ts[1..])
    else if |ts| > 1 && ts[0].c == '/' && ts[1] == Plain('/') then CollapseTokens(ts[1..])
    else [ts[0]] + CollapseTokens(ts[1..])
  }

  lemma {:induction false} CollapseConcat(a: string, b: string)
    requires !EndsWithSlash(a) || b == "" || b[0] != '/'
    ensures Collapse(a + b) == Collapse(a) + Collapse(b)
    decreases |a|
  {
    if a == "" {
      assert a + b == b;
    } else if |a| == 1 {
      assert (a + b)[1..] == b;
      assert b == "" ==> a + b == a;
    } else {
      assert (a + b)[1..] == a[1..] + b;
      CollapseConcat(a[1..], b);
    }
  }

  lemma {:induction false} CollapseKeepsOut(s: string, c: char)
    requires c !in s
    ensures c !in Collapse(s)
  {
    if |s| >= 2 {
      CollapseKeepsOut(s[1..], c);
    }
  }

  lemma {:induction false} CollapseRender(ts: seq<Token>)
    requires WellFormed(ts)
    ensures Collapse(Render(ts)) == Render(CollapseTokens(ts)) && WellFormed(CollapseTokens(ts))
    decreases |ts|
  {
    if ts != [] {
      CollapseRender(ts[1..]);
      var rest := Render(ts[1..]);
      match ts[0]
      case Variable(name) =>
        CollapseConcat("{" + name + "}", rest);
        CollapseConcat("{" + name, "}");
        CollapseConcat("{", name);
        CollapseLeaves(name);
        CollapseKeepsOut(name, '}');
        assert CollapseTokens(ts)[1..] == CollapseTokens(ts[1..]);
      case Plain(c) =>
        assert Render(ts)[1..] == rest;
        assert rest != "" && rest[0] == '/' ==> ts[1] == Plain('/');
        assert |ts| > 1 && ts[1] == Plain('/') ==> rest[0] == '/';
        if !(|ts| > 1 && c == '/' && ts[1] == Plain('/')) {
          assert CollapseTokens(ts)[1..] == CollapseTokens(ts[1..]);
          CollapseConcat([c], rest);
        }
    }
  }

  lemma {:induction false} CollapseSameLiterals(ts: seq<Token>, us: seq<Token>)
    requires SameLiterals(ts, us)
    ensures SameLiterals(CollapseTokens(ts), CollapseTokens(us))
    decreases |ts|
  {
    if ts != [] {
      CollapseSameLiterals(ts[1..], us[1..]);
    }
  }

  lemma {:induction false} BlankRender(ts: seq<Token>)
    requires WellFormed(ts)
    ensures Blank(Render(ts)) == Shape(ts)
    decreases |ts|
  {
    if ts != [] {
      BlankRender(ts[1..]);
      var rest := Render(ts[1..]);
      match ts[0]
      case Plain(c) =>
        assert Render(ts)[1..] == rest;
      case Variable(name) =>
        var tail := Render(ts)[1..];
        assert tail == name + "}" + rest;
        var end := IndexOf(tail, '}');
        assert tail[|name|] == '}';
        assert end == |name|;
        assert Render(ts)[end + 2..] == rest;
    }
  }

  /** A template's normal form depends on its literals only: renaming variables changes nothing. */
  lemma NormalFormOfTemplate(ts: seq<Token>, us: seq<Token>)
    requires WellFormed(ts) && WellFormed(us) && SameLiterals(ts, us)
    ensures Normalize(Render(ts)) == Normalize(Render(us))
  {
    TrimLeftTokens(ts, us);
    TrimLeftTokens(us, ts);
    var tl, ul := TokensLeft(ts), TokensLeft(us);
    TrimRightTokens(tl, ul);
    TrimRightTokens(ul, tl);
    var tt, uu := TokensRight(tl), TokensRight(ul);
    CollapseRender(tt);
    CollapseRender(uu);
    CollapseSameLiterals(tt, uu);
    BlankRender(CollapseTokens(tt));
    BlankRender(CollapseTokens(uu));
    SameShape(CollapseTokens(tt), CollapseTokens(uu));
  }

  /** Trimming does not reach past a character that is no white space. */
  lemma {:induction false} TrimAround(a: string, m: string, b: string)
    requires m != "" && !IsSpace(m[0]) && !IsSpace(m[|m| - 1])
    ensures Trim(a + m + b) == TrimLeft(a) + m + TrimRight(b)
  {
    TrimLeftStops(a, m + b);
    assert a + m + b == a + (m + b);
    TrimRightStops(TrimLeft(a) + m, b);
    assert TrimLeft(a) + (m + b) == (TrimLeft(a) + m) + b;
  }

  lemma {:induction false} TrimLeftStops(a: string, rest: string)
    requires rest != "" && !IsSpace(rest[0])
    ensures TrimLeft(a + rest) == TrimLeft(a) + rest
  {
    if a != "" {
      assert (a + rest)[1..] == a[1..] + rest;
      TrimLeftStops(a[1..], rest);
    } else {
      assert a + rest == rest;
    }
  }

  lemma {:induction false} TrimRightStops(front: string, b: string)
    requires front != "" && !IsSpace(front[|front| - 1])
    ensures TrimRight(front + b) == front + TrimRight(b)
    decreases |b|
  {
    if b != "" {
      assert (front + b)[..|front + b| - 1] == front + b[..|b| - 1];
      TrimRightStops(front, b[..|b| - 1]);
    } else {
      assert front + b == front;
    }
  }

  /** A repeated slash makes no difference, wherever it stands. */
  lemma RepeatedSlash(a: string, b: string)
    ensures Normalize(a + "//" + b) == Normalize(a + "/" + b)
  {
    TrimAround(a, "//", b);
    TrimAround(a, "/", b);
    var x, y := TrimLeft(a), TrimRight(b);
    CollapseDouble(x, y);
  }

  lemma {:induction false} CollapseDouble(a: string, b: string)
    ensures Collapse(a + "//" + b) == Collapse(a + "/" + b)
    decreases |a|
  {
    if a == "" {
      assert (a + "//" + b)[1..] == "/" + b && a + "/" + b == "/" + b;
    } else {
      assert (a + "//" + b)[1..] == a[1..] + "//" + b;
      assert (a + "/" + b)[1..] == a[1..] + "/" + b;
      CollapseDouble(a[1..], b);
    }
  }

  lemma {:induction false} BlankAppend(s: string, c: char)
    requires c != '}'
    ensures Blank(s + [c]) == Blank(s) + [c]
    decreases |s|
  {
    if s == "" {
      assert s + [c] == [c];
      BlankOne(c);
    } else {
      assert (s + [c])[1..] == s[1..] + [c];
      if s[0] == '{' {
        IndexAppend(s[1..], c);
        var end := IndexOf(s[1..], '}');
        if 0 < end < |s| - 1 {
          assert (s + [c])[end + 2..] == s[end + 2..] + [c];
          BlankAppend(s[end + 2..], c);
        } else {
          BlankAppend(s[1..], c);
        }
      } else {
        BlankAppend(s[1..], c);
      }
    }
  }

  lemma {:induction false} IndexAppend(s: string, c: char)
    requires c != '}'
    ensures var i, j := IndexOf(s, '}'), IndexOf(s + [c], '}');
            if i < |s| then j == i else j == |s| + 1
  {
    if s == "" {
      assert s + [c] == [c] && [c][1..] == "";
    } else {
      assert (s + [c])[1..] == s[1..] + [c];
      IndexAppend(s[1..], c);
    }
  }

  /** A trailing slash makes no difference, after anything but white space or nothing. */
  lemma TrailingSlash(path: string)
    requires path != "" && !IsSpace(path[|path| - 1])
    ensures Normalize(path + "/") == Normalize(path)
  {
    var x := TrimLeft(path);
    TrimLeftLeaves(path);
    TrimLeftStopsAtLast(path);
    TrimLeftKeepsEnd(path, "/");
    TrimRightLeaves(x);
    TrimRightLeaves(x + "/");
    SlashDropped(x);
  }

  lemma SlashDropped(x: string)
    requires x != ""
    ensures DropSlash(Blank(Collapse(x + "/"))) == DropSlash(Blank(Collapse(x)))
  {
    CollapseAppend(x, '/');
    if !EndsWithSlash(x) {
      CollapseLeaves(x);
      BlankAppend(Collapse(x), '/');
      BlankLeaves(Collapse(x));
      NoTrailingSlash(x);
    }
  }

  lemma {:induction false} TrimLeftStopsAtLast(s: string)
    requires s != "" && !IsSpace(s[|s| - 1])
    ensures TrimLeft(s) != "" && TrimLeft(s)[|TrimLeft(s)| - 1] == s[|s| - 1]
  {
    if IsSpace(s[0]) {
      TrimLeftStopsAtLast(s[1..]);
    }
  }

  lemma {:induction false} TrimLeftKeepsEnd(s: string, tail: string)
    requires s != "" && !IsSpace(s[|s| - 1])
    ensures TrimLeft(s + tail) == TrimLeft(s) + tail
  {
    if IsSpace(s[0]) {
      assert (s + tail)[1..] == s[1..] + tail;
      TrimLeftKeepsEnd(s[1..], tail);
    }
  }

  lemma NoTrailingSlash(x: string)
    requires x != "" && !EndsWithSlash(x)
    ensures DropSlash(Blank(Collapse(x))) == Blank(Collapse(x))
  {
    var c := Collapse(x);
    CollapseLeaves(x);
    if |c| == 1 {
      BlankOne(c[0]);
    } else if c[|c| - 1] == '}' {
      BlankKeepsClosingBrace(c);
    } else {
      BlankKeepsEnd(c);
    }
  }
}
