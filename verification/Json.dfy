/** Documents as the service reads them (`serde_json::Value`), and local JSON pointers into them. */
module Json {

  datatype Option<+T> = None | Some(value: T)

  /** An object is a finite map: the source compares objects without regard to key order. */
  datatype Value =
    | Null
    | Bool(b: bool)
    | Number(n: real)
    | Str(s: string)
    | Array(items: seq<Value>)
    | Object(fields: map<string, Value>)

  function Get(v: Value, key: string): Option<Value> {
    if v.Object? && key in v.fields then Some(v.fields[key]) else None
  }

  function GetStr(v: Value, key: string): Option<string> {
    match Get(v, key)
    case Some(Str(s)) => Some(s)
    case _ => None
  }

  function GetObject(v: Value, key: string): Option<map<string, Value>> {
    match Get(v, key)
    case Some(Object(f)) => Some(f)
    case _ => None
  }

  function GetArray(v: Value, key: string): Option<seq<Value>> {
    match Get(v, key)
    case Some(Array(a)) => Some(a)
    case _ => None
  }

  /** The `$ref` string of a node, when it is a reference. */
  function RefOf(v: Value): Option<string> {
    GetStr(v, "$ref")
  }

  /** One step into a value: a field or an element. */
  datatype Selector = Key(key: string) | Index(index: nat)

  /** The part of a value that a path of steps leads to. */
  function Part(v: Value, path: seq<Selector>): Option<Value>
    decreases |path|
  {
    if path == [] then Some(v)
    else match (path[0], v)
      case (Key(k), Object(f)) => if k in f then Part(f[k], path[1..]) else None
      case (Index(i), Array(items)) => if i < |items| then Part(items[i], path[1..]) else None
      case _ => None
  }

  lemma FourKeys(v: Value, a: string, b: string, c: string, d: string)
    ensures Part(v, [Key(a), Key(b), Key(c), Key(d)]) ==
            match Get(v, a)
            case None => None
            case Some(x) => match Get(x, b)
              case None => None
              case Some(y) => match Get(y, c) case None => None case Some(z) => Get(z, d)
  {
    assert [Key(a), Key(b), Key(c), Key(d)][1..] == [Key(b), Key(c), Key(d)];
    if Get(v, a).Some? {
      ThreeKeys(Get(v, a).value, b, c, d);
    }
  }

  lemma ThreeKeys(v: Value, a: string, b: string, c: string)
    ensures Part(v, [Key(a), Key(b), Key(c)]) ==
            match Get(v, a)
            case None => None
            case Some(x) => match Get(x, b) case None => None case Some(y) => Get(y, c)
  {
    assert [Key(a), Key(b), Key(c)][1..] == [Key(b), Key(c)];
    if Get(v, a).Some? {
      TwoKeys(Get(v, a).value, b, c);
    }
  }

  lemma OneKey(v: Value, a: string)
    ensures Part(v, [Key(a)]) == Get(v, a)
  {
    assert [Key(a)][1..] == [];
    if Get(v, a).Some? {
      assert Part(Get(v, a).value, []) == Get(v, a);
    }
  }

  lemma TwoKeys(v: Value, a: string, b: string)
    ensures Part(v, [Key(a), Key(b)]) == match Get(v, a) case None => None case Some(x) => Get(x, b)
  {
    assert [Key(a), Key(b)][1..] == [Key(b)];
    if Get(v, a).Some? {
      OneKey(Get(v, a).value, b);
    }
  }

  // --- Strings ---------------------------------------------------------

  /** The pieces of `s` between separators: one more than there are separators. */
  function Split(s: string, sep: char): (parts: seq<string>)
    ensures |parts| >= 1
  {
    if s == "" then [""]
    else
      var rest := Split(s[1..], sep);
      if s[0] == sep then [""] + rest else [[s[0]] + rest[0]] + rest[1..]
  }

  lemma {:induction false} SplitAtSeparator(a: string, b: string, sep: char)
    ensures Split(a + [sep] + b, sep) == Split(a, sep) + Split(b, sep)
  {
    if a == "" {
      assert a + [sep] + b == [sep] + b;
      assert ([sep] + b)[1..] == b;
    } else {
      assert (a + [sep] + b)[1..] == a[1..] + [sep] + b;
      SplitAtSeparator(a[1..], b, sep);
    }
  }

  lemma {:induction false} SplitWithoutSeparator(s: string, sep: char)
    requires sep !in s
    ensures Split(s, sep) == [s]
  {
    if s != "" {
      SplitWithoutSeparator(s[1..], sep);
      assert s == [s[0]] + s[1..];
    }
  }

  lemma {:induction false} FirstPieceHasNoSeparator(s: string, sep: char)
    ensures sep !in Split(s, sep)[0]
    ensures |Split(s, sep)| == 1 ==> s == Split(s, sep)[0]
    ensures |Split(s, sep)| > 1 ==>
              var first := Split(s, sep)[0];
              |first| < |s| && s == first + [sep] + s[|first| + 1..] && Split(s[|first| + 1..], sep) == Split(s, sep)[1..]
  {
    if s != "" {
      FirstPieceHasNoSeparator(s[1..], sep);
      assert s == [s[0]] + s[1..];
      if |Split(s, sep)| > 1 && s[0] != sep {
        var first := Split(s[1..], sep)[0];
        assert s[1..][|first| + 1..] == s[|first| + 2..];
      }
    }
  }

  /** Every occurrence of the pair `a`,`b` replaced by `c`, left to right. */
  function ReplacePair(s: string, a: char, b: char, c: char): string {
    if |s| < 2 then s
    else if s[0] == a && s[1] == b then [c] + ReplacePair(s[2..], a, b, c)
    else [s[0]] + ReplacePair(s[1..], a, b, c)
  }

  lemma {:induction false} NothingToReplace(s: string, a: char, b: char, c: char)
    requires a !in s
    ensures ReplacePair(s, a, b, c) == s
  {
    if |s| >= 2 {
      NothingToReplace(s[1..], a, b, c);
    }
  }

  /** Section 4 of RFC 6901: `~1` is `/`, and then `~0` is `~`. */
  function Unescape(s: string): string {
    ReplacePair(ReplacePair(s, '~', '1', '/'), '~', '0', '~')
  }

  /** Section 3 of RFC 6901: how a key is spelled inside a pointer. */
  function Escape(s: string): string {
    if s == "" then ""
    else (if s[0] == '~' then "~0" else if s[0] == '/' then "~1" else [s[0]]) + Escape(s[1..])
  }

  /** Only the tildes of a key escaped: what the first of the two replacements leaves. */
  function EscapeTildes(s: string): string {
    if s == "" then "" else (if s[0] == '~' then "~0" else [s[0]]) + EscapeTildes(s[1..])
  }

  lemma {:induction false} SlashesReplaced(s: string)
    ensures ReplacePair(Escape(s), '~', '1', '/') == EscapeTildes(s)
  {
    if s != "" {
      SlashesReplaced(s[1..]);
      var rest := Escape(s[1..]);
      if s[0] == '~' {
        assert Escape(s)[1..] == "0" + rest && ("0" + rest)[1..] == rest;
        assert ReplacePair("0" + rest, '~', '1', '/') == "0" + ReplacePair(rest, '~', '1', '/');
      } else if s[0] == '/' {
        assert Escape(s)[2..] == rest;
      } else {
        assert Escape(s)[1..] == rest;
      }
    }
  }

  lemma {:induction false} TildesReplaced(s: string)
    ensures ReplacePair(EscapeTildes(s), '~', '0', '~') == s
  {
    if s != "" {
      TildesReplaced(s[1..]);
      var rest := EscapeTildes(s[1..]);
      assert s == [s[0]] + s[1..];
      if s[0] == '~' {
        assert EscapeTildes(s)[2..] == rest;
      } else {
        assert EscapeTildes(s)[1..] == rest;
      }
    }
  }

  /** Every key can be addressed: the two replacements, in that order, undo the escaping. */
  lemma UnescapeEscape(s: string)
    ensures Unescape(Escape(s)) == s
  {
    SlashesReplaced(s);
    TildesReplaced(s);
  }

  lemma UnescapePlain(s: string)
    requires '~' !in s
    ensures Unescape(s) == s
  {
    NothingToReplace(s, '~', '1', '/');
    NothingToReplace(s, '~', '0', '~');
  }

  // --- Pointers --------------------------------------------------------

  function ResolveKeys(node: Value, segments: seq<string>): Option<Value>
    decreases |segments|
  {
    if segments == [] then Some(node)
    else match Get(node, Unescape(segments[0]))
      case Some(child) => ResolveKeys(child, segments[1..])
      case None => None
  }

  /** Resolve a local JSON pointer (`#/a/b/c`); anything else resolves to nothing. */
  function Resolve(root: Value, pointer: string): Option<Value> {
    if "#/" <= pointer then ResolveKeys(root, Split(pointer[2..], '/')) else None
  }

  lemma {:induction false} ResolveKeysConcat(node: Value, a: seq<string>, b: seq<string>)
    ensures ResolveKeys(node, a + b) ==
            match ResolveKeys(node, a) case Some(v) => ResolveKeys(v, b) case None => None
    decreases |a|
  {
    if a == [] {
      assert a + b == b;
    } else {
      assert (a + b)[1..] == a[1..] + b;
      match Get(node, Unescape(a[0]))
      case None =>
      case Some(child) => ResolveKeysConcat(child, a[1..], b);
    }
  }

  /** The source's loop over the pointer's segments. */
  method ResolvePointer(root: Value, pointer: string) returns (target: Option<Value>)
    ensures target == Resolve(root, pointer)
  {
    if !("#/" <= pointer) {
      return None;
    }
    var segments := Split(pointer[2..], '/');
    var node, i := root, 0;
    while i < |segments|
      invariant 0 <= i <= |segments|
      invariant ResolveKeys(root, segments) == ResolveKeys(node, segments[i..])
    {
      match Get(node, Unescape(segments[i])) {
        case None => return None;
        case Some(child) =>
          assert segments[i..][1..] == segments[i + 1..];
          node := child;
      }
      i := i + 1;
    }
    return Some(node);
  }
}
