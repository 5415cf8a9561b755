/** The `$ref`s of a schema: which ones the conversion visits, what it carries over for each, and
    how it respells them. */
module SchemaRefs {
  import opened Json

  /** `#/components/schemas/` */
  const SCHEMAS := "#/" + "components" + "/" + "schemas" + "/"

  /** The references `rewrite_refs` visits: it does not look below a `$ref` key. */
  function VisitedRefs(v: Value): set<string> {
    match v
    case Object(f) =>
      (match RefOf(v) case Some(r) => {r} case None => {}) +
      (set k, r | k in f && k != "$ref" && r in VisitedRefs(f[k]) :: r)
    case Array(items) => set i, r | 0 <= i < |items| && r in VisitedRefs(items[i]) :: r
    case _ => {}
  }

  /** Every reference of a value, wherever it stands. */
  function AllRefs(v: Value): set<string> {
    match v
    case Object(f) =>
      (match RefOf(v) case Some(r) => {r} case None => {}) +
      (set k, r | k in f && r in AllRefs(f[k]) :: r)
    case Array(items) => set i, r | 0 <= i < |items| && r in AllRefs(items[i]) :: r
    case _ => {}
  }

  /** Some part of the value is an object whose `$ref` is this string. */
  ghost predicate RefersTo(v: Value, r: string) {
    exists path :: RefStandsAt(v, r, path)
  }

  ghost predicate RefStandsAt(v: Value, r: string, path: seq<Selector>) {
    match Part(v, path) case Some(Object(f)) => "$ref" in f && f["$ref"] == Str(r) case _ => false
  }

  lemma StandsBelow(v: Value, r: string, step: Selector, path: seq<Selector>)
    ensures RefStandsAt(v, r, [step] + path) <==>
              match (step, v)
              case (Key(k), Object(f)) => k in f && RefStandsAt(f[k], r, path)
              case (Index(i), Array(items)) => i < |items| && RefStandsAt(items[i], r, path)
              case _ => false
  {
    assert ([step] + path)[1..] == path;
  }

  lemma {:induction false} RefsStandSomewhere(v: Value, r: string)
    requires r in AllRefs(v)
    ensures RefersTo(v, r)
  {
    match v
    case Object(f) =>
      if RefOf(v) == Some(r) {
        assert RefStandsAt(v, r, []);
      } else {
        var k :| k in f && r in AllRefs(f[k]);
        RefsStandSomewhere(f[k], r);
        var path :| RefStandsAt(f[k], r, path);
        StandsBelow(v, r, Key(k), path);
      }
    case Array(items) =>
      var i :| 0 <= i < |items| && r in AllRefs(items[i]);
      RefsStandSomewhere(items[i], r);
      var path :| RefStandsAt(items[i], r, path);
      StandsBelow(v, r, Index(i), path);
  }

  lemma {:induction false} StandingRefsAreAll(v: Value, r: string, path: seq<Selector>)
    requires RefStandsAt(v, r, path)
    ensures r in AllRefs(v)
    decreases |path|
  {
    if path != [] {
      assert path == [path[0]] + path[1..];
      StandsBelow(v, r, path[0], path[1..]);
      match (path[0], v)
      case (Key(k), Object(f)) => StandingRefsAreAll(f[k], r, path[1..]);
      case (Index(i), Array(items)) => StandingRefsAreAll(items[i], r, path[1..]);
      case _ =>
    }
  }

  /** The references of a value are exactly the `$ref` strings that stand somewhere in it. */
  lemma AllRefsAre(v: Value, r: string)
    ensures r in AllRefs(v) <==> RefersTo(v, r)
  {
    if r in AllRefs(v) {
      RefsStandSomewhere(v, r);
    }
    if path :| RefStandsAt(v, r, path) {
      StandingRefsAreAll(v, r, path);
    }
  }

  /** Every `$ref` key holds a string. */
  ghost predicate RefsAreStrings(v: Value) {
    match v
    case Object(f) => forall k | k in f :: (k == "$ref" ==> f[k].Str?) && RefsAreStrings(f[k])
    case Array(items) => forall i | 0 <= i < |items| :: RefsAreStrings(items[i])
    case _ => true
  }

  lemma {:induction false} VisitedAmongAll(v: Value)
    ensures VisitedRefs(v) <= AllRefs(v)
    ensures RefsAreStrings(v) ==> VisitedRefs(v) == AllRefs(v)
  {
    match v
    case Object(f) =>
      forall k | k in f { VisitedAmongAll(f[k]); }
      if RefsAreStrings(v) {
        forall r | r in AllRefs(v) ensures r in VisitedRefs(v) {}
      }
    case Array(items) =>
      forall i | 0 <= i < |items| { VisitedAmongAll(items[i]); }
    case _ =>
  }

  lemma {:induction false} RefsBelow(v: Value, segments: seq<string>)
    ensures match ResolveKeys(v, segments) case Some(t) => AllRefs(t) <= AllRefs(v) case None => true
    decreases |segments|
  {
    if segments != [] {
      match Get(v, Unescape(segments[0]))
      case None =>
      case Some(child) =>
        assert AllRefs(child) <= AllRefs(v);
        RefsBelow(child, segments[1..]);
    }
  }

  // --- Names -----------------------------------------------------------

  function FirstSegment(s: string): string {
    Split(s, '/')[0]
  }

  function LastSegment(s: string): string {
    var parts := Split(s, '/');
    Unescape(parts[|parts| - 1])
  }

  predicate IsNameChar(c: char) {
    'a' <= c <= 'z' || 'A' <= c <= 'Z' || '0' <= c <= '9' || c in {'.', '_', '-'}
  }

  /** An OpenAPI component name for a message key or pointer segment. */
  function ComponentName(key: string): (name: string)
    ensures |name| == |key|
    ensures forall c :: c in name ==> IsNameChar(c)
    ensures forall i :: 0 <= i < |key| ==> name[i] == if IsNameChar(key[i]) then key[i] else '_'
  {
    if key == "" then "" else [if IsNameChar(key[0]) then key[0] else '_'] + ComponentName(key[1..])
  }

  /** Letters, digits, dot, underscore and hyphen. */
  lemma NameCharsAre(c: char)
    ensures IsNameChar(c) <==> var n := c as int; 48 <= n <= 57 || 65 <= n <= 90 || 97 <= n <= 122 || n == 45 || n == 46 || n == 95
  {}

  /** What follows the last slash, unescaped. */
  lemma LastSegmentIs(a: string, b: string)
    requires '/' !in b
    ensures LastSegment(a + "/" + b) == Unescape(b) && LastSegment(b) == Unescape(b)
  {
    SplitAtSeparator(a, b, '/');
    SplitWithoutSeparator(b, '/');
  }

  /** A reference into the component schemas keeps its spelling. */
  predicate Kept(r: string) {
    SCHEMAS <= r
  }

  /** The component name a reference is carried over under. */
  function RefName(r: string): string {
    if Kept(r) then Unescape(FirstSegment(r[|SCHEMAS|..])) else ComponentName(LastSegment(r))
  }

  /** The pointer whose target is carried over: the whole component a sub-pointer reaches into. */
  function CarriedPointer(r: string): string {
    if Kept(r) then SCHEMAS + FirstSegment(r[|SCHEMAS|..]) else r
  }

  function RewriteRef(r: string): string {
    if Kept(r) then r else SCHEMAS + RefName(r)
  }

  function Rewrite(v: Value): Value {
    match v
    case Object(f) =>
      Object(map k | k in f ::
        if k != "$ref" then Rewrite(f[k])
        else if f[k].Str? then Str(RewriteRef(f[k].s))
        else f[k])
    case Array(items) => Array(seq(|items|, i requires 0 <= i < |items| => Rewrite(items[i])))
    case _ => v
  }

  /** A reference into the component schemas stays; any other becomes one to a component named after its
      last segment. */
  lemma RewriteRefIs(r: string)
    ensures "#/components/schemas/" <= r ==> RewriteRef(r) == r
    ensures !("#/components/schemas/" <= r) ==> RewriteRef(r) == "#/components/schemas/" + ComponentName(LastSegment(r))
  {
    assert SCHEMAS == "#/components/schemas/";
  }

  function RewriteRefSet(refs: set<string>): set<string> {
    set r | r in refs :: RewriteRef(r)
  }

  lemma {:induction false} VisitedOfRewritten(v: Value)
    ensures VisitedRefs(Rewrite(v)) == RewriteRefSet(VisitedRefs(v))
  {
    match v
    case Object(f) =>
      var w := Rewrite(v);
      forall k | k in f && k != "$ref" { VisitedOfRewritten(f[k]); }
      forall r | r in VisitedRefs(v) ensures RewriteRef(r) in VisitedRefs(w) {
        RewrittenIsVisited(v, r);
      }
      forall q | q in VisitedRefs(w) ensures q in RewriteRefSet(VisitedRefs(v)) {
        if RefOf(w) != Some(q) {
          var k :| k in w.fields && k != "$ref" && q in VisitedRefs(w.fields[k]);
          var r :| r in VisitedRefs(f[k]) && q == RewriteRef(r);
          assert r in VisitedRefs(v);
        }
      }
    case Array(items) =>
      var w := Rewrite(v);
      forall i | 0 <= i < |items| { VisitedOfRewritten(items[i]); }
      forall r | r in VisitedRefs(v) ensures RewriteRef(r) in VisitedRefs(w) {
        var i :| 0 <= i < |items| && r in VisitedRefs(items[i]);
        assert RewriteRef(r) in VisitedRefs(w.items[i]);
      }
    case _ =>
  }

  lemma RewrittenIsVisited(v: Value, r: string)
    requires v.Object? && r in VisitedRefs(v)
    requires forall k :: k in v.fields && k != "$ref" ==> VisitedRefs(Rewrite(v.fields[k])) == RewriteRefSet(VisitedRefs(v.fields[k]))
    ensures RewriteRef(r) in VisitedRefs(Rewrite(v))
  {
    var w := Rewrite(v);
    if RefOf(v) != Some(r) {
      var k :| k in v.fields && k != "$ref" && r in VisitedRefs(v.fields[k]);
      assert RewriteRef(r) in VisitedRefs(w.fields[k]);
    }
  }

  /** Respelling references leaves every path of keys in place. */
  lemma {:induction false} RewriteKeepsPaths(v: Value, segments: seq<string>)
    requires ResolveKeys(v, segments).Some?
    ensures ResolveKeys(Rewrite(v), segments).Some?
    decreases |segments|
  {
    if segments != [] {
      var key := Unescape(segments[0]);
      if key != "$ref" {
        RewriteKeepsPaths(v.fields[key], segments[1..]);
      }
    }
  }

  lemma {:induction false} RewriteWithoutHoists(v: Value)
    requires forall r :: r in VisitedRefs(v) ==> Kept(r)
    ensures Rewrite(v) == v
  {
    match v
    case Object(f) =>
      assert forall k, r | k in f && k != "$ref" && r in VisitedRefs(f[k]) :: r in VisitedRefs(v);
      forall k | k in f && k != "$ref" { RewriteWithoutHoists(f[k]); }
      assert Rewrite(v).fields == f;
    case Array(items) =>
      assert forall i, r | 0 <= i < |items| && r in VisitedRefs(items[i]) :: r in VisitedRefs(v);
      forall i | 0 <= i < |items| { RewriteWithoutHoists(items[i]); }
      assert Rewrite(v).items == items;
    case _ =>
  }

  // --- Pointers into the component schemas ------------------------------

  lemma TwoKeySegments(a: string, b: string, rest: string)
    requires '/' !in a && '/' !in b
    ensures Split(a + "/" + (b + "/" + rest), '/') == [a] + ([b] + Split(rest, '/'))
  {
    SplitAtSeparator(a, b + "/" + rest, '/');
    SplitAtSeparator(b, rest, '/');
    SplitWithoutSeparator(a, '/');
    SplitWithoutSeparator(b, '/');
  }

  lemma PlainKey(node: Value, key: string, tail: seq<string>)
    requires '~' !in key
    ensures ResolveKeys(node, [key] + tail) ==
            match Get(node, key) case None => None case Some(child) => ResolveKeys(child, tail)
  {
    UnescapePlain(key);
    assert ([key] + tail)[1..] == tail;
  }

  /** A pointer through two plain keys. */
  lemma TwoKeyPointer(root: Value, a: string, b: string, rest: string)
    requires '/' !in a && '~' !in a && '/' !in b && '~' !in b
    ensures Resolve(root, "#/" + a + "/" + b + "/" + rest) ==
            match Get(root, a)
            case None => None
            case Some(outer) => match Get(outer, b) case None => None case Some(inner) => ResolveKeys(inner, Split(rest, '/'))
  {
    var pointer := "#/" + a + "/" + b + "/" + rest;
    assert pointer[2..] == a + "/" + (b + "/" + rest);
    TwoKeySegments(a, b, rest);
    PlainKey(root, a, [b] + Split(rest, '/'));
    if Get(root, a).Some? {
      PlainKey(Get(root, a).value, b, Split(rest, '/'));
    }
  }

  /** The component schemas of a document. */
  function ComponentSchemas(root: Value): Option<Value> {
    match Get(root, "components") case Some(c) => Get(c, "schemas") case None => None
  }

  lemma ResolveSchemaPointer(root: Value, rest: string)
    ensures Resolve(root, SCHEMAS + rest) ==
            match ComponentSchemas(root)
            case Some(schemas) => ResolveKeys(schemas, Split(rest, '/'))
            case None => None
  {
    TwoKeyPointer(root, "components", "schemas", rest);
  }

  /** A kept reference: its component, and the keys it follows inside that component. */
  lemma KeptRefResolves(root: Value, r: string)
    requires Kept(r)
    ensures Resolve(root, CarriedPointer(r)) ==
            match ComponentSchemas(root) case Some(schemas) => Get(schemas, RefName(r)) case None => None
    ensures Resolve(root, r) ==
            match Resolve(root, CarriedPointer(r))
            case Some(whole) => ResolveKeys(whole, Split(r[|SCHEMAS|..], '/')[1..])
            case None => None
  {
    var rest := r[|SCHEMAS|..];
    var segment := FirstSegment(rest);
    assert r == SCHEMAS + rest;
    ResolveSchemaPointer(root, rest);
    ResolveSchemaPointer(root, segment);
    FirstPieceHasNoSeparator(rest, '/');
    SplitWithoutSeparator(segment, '/');
    assert Split(rest, '/') == [segment] + Split(rest, '/')[1..];
    if ComponentSchemas(root).Some? {
      ResolveKeysConcat(ComponentSchemas(root).value, [segment], Split(rest, '/')[1..]);
    }
  }

  /** A hoisted reference is respelled to name exactly the component it is carried over under. */
  lemma HoistedRef(r: string)
    requires !Kept(r)
    ensures Kept(RewriteRef(r))
    ensures RefName(RewriteRef(r)) == RefName(r)
    ensures Split(RewriteRef(r)[|SCHEMAS|..], '/') == [RefName(r)]
  {
    var name := RefName(r);
    assert '/' !in name && '~' !in name;
    assert (SCHEMAS + name)[|SCHEMAS|..] == name;
    SplitWithoutSeparator(name, '/');
    UnescapePlain(name);
  }

  /** A reference below a `$ref` key that holds no string. */
  function Hidden(r: string): Value {
    Object(map["$ref" := Object(map["$ref" := Str(r)])])
  }

  lemma HiddenRefs(r: string)
    ensures VisitedRefs(Hidden(r)) == {} && r in AllRefs(Hidden(r))
  {
    var inner := Object(map["$ref" := Str(r)]);
    assert RefOf(inner) == Some(r) && r in AllRefs(inner);
    assert Hidden(r).fields.Keys == {"$ref"};
    assert Hidden(r).fields["$ref"] == inner;
  }

  lemma {:induction false} StringsBelow(v: Value, segments: seq<string>)
    requires RefsAreStrings(v)
    ensures match ResolveKeys(v, segments) case Some(t) => RefsAreStrings(t) case None => true
    decreases |segments|
  {
    if segments != [] {
      match Get(v, Unescape(segments[0]))
      case None =>
      case Some(child) => StringsBelow(child, segments[1..]);
    }
  }

  lemma {:induction false} RewriteKeepsStrings(v: Value)
    requires RefsAreStrings(v)
    ensures RefsAreStrings(Rewrite(v))
  {
    match v
    case Object(f) =>
      var g := Rewrite(v).fields;
      forall k | k in g ensures (k == "$ref" ==> g[k].Str?) && RefsAreStrings(g[k]) {
        RewriteKeepsStrings(f[k]);
      }
    case Array(items) =>
      forall i | 0 <= i < |items| { RewriteKeepsStrings(items[i]); }
    case _ =>
  }
}
