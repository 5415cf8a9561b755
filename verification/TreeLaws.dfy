/** What a reader finds in the tree of a schema, in the document's own terms. */
module TreeLaws {
  import opened Json
  import opened References
  import opened SchemaTree
  import SchemaRefs
  import opened Text

  // --- Where references lead --------------------------------------------------------------------

  /** A reference is tagged with its last segment. */
  function Tag(v: Value): string {
    match RefOf(v) case Some(r) => SchemaRefs.LastSegment(r) case None => ""
  }

  lemma {:induction false} FollowIsNamedWalk(root: Value, v: Value, name: Option<string>, hops: nat)
    ensures match Follow(root, v, name, hops)
            case Resolved(t, n) => NamedWalk(HopIn(root), Tag, v, name, hops) == Some(Arrival(t, n))
            case Unresolved(_) => NamedWalk(HopIn(root), Tag, v, name, hops) == None
    decreases hops
  {
    if hops > 0 {
      match HopIn(root)(v)
      case To(next) => FollowIsNamedWalk(root, next, Some(Tag(v)), hops - 1);
      case _ =>
    }
  }

  /** A chain from `v` to `t`; `n` is the last segment of its last reference, if it has one. */
  ghost predicate ChainLeads(root: Value, chain: seq<Value>, v: Value, t: Value, n: Option<string>) {
    && IsChain(HopIn(root), chain) && chain[0] == v && chain[|chain| - 1] == t
    && if |chain| == 1 then n == None
       else match RefOf(chain[|chain| - 2]) case Some(r) => n == Some(SchemaRefs.LastSegment(r)) case None => false
  }

  /** A schema is resolved exactly when a chain of at most 32 nodes leads to it, under the last segment of
      the chain's last reference, and under no name when there is none. */
  lemma FollowIff(root: Value, v: Value, t: Value, n: Option<string>)
    ensures Follow(root, v, None, MAX_REF_HOPS) == Resolved(t, n) <==> exists chain :: |chain| <= 32 && ChainLeads(root, chain, v, t, n)
  {
    FollowIsNamedWalk(root, v, None, 32);
    NamedWalkIff(HopIn(root), Tag, v, None, 32, Arrival(t, n));
    if chain :| ChainTo(HopIn(root), Tag, chain, v, None, 32, Arrival(t, n)) {
      SameChain(root, chain, v, t, n);
    }
    if chain :| |chain| <= 32 && ChainLeads(root, chain, v, t, n) {
      SameChain(root, chain, v, t, n);
    }
  }

  lemma SameChain(root: Value, chain: seq<Value>, v: Value, t: Value, n: Option<string>)
    ensures ChainTo(HopIn(root), Tag, chain, v, None, 32, Arrival(t, n)) <==> |chain| <= 32 && ChainLeads(root, chain, v, t, n)
  {
    if IsChain(HopIn(root), chain) && |chain| > 1 {
      LastIsReference(root, chain);
    }
  }

  lemma {:induction false} LastIsReference(root: Value, chain: seq<Value>)
    requires IsChain(HopIn(root), chain) && |chain| > 1
    ensures RefOf(chain[|chain| - 2]).Some?
    decreases |chain|
  {
    if |chain| > 2 {
      LastIsReference(root, chain[1..]);
    }
  }

  lemma PlainResolves(root: Value, v: Value)
    requires RefOf(v).None?
    ensures Follow(root, v, None, MAX_REF_HOPS) == Resolved(v, None)
  {}

  lemma RefResolves(root: Value, v: Value, r: string, s: Value)
    requires RefOf(v) == Some(r) && Resolve(root, r) == Some(s) && RefOf(s).None?
    ensures Follow(root, v, None, MAX_REF_HOPS) == Resolved(s, Some(SchemaRefs.LastSegment(r)))
  {
    assert Follow(root, s, Some(SchemaRefs.LastSegment(r)), 31) == Resolved(s, Some(SchemaRefs.LastSegment(r)));
  }

  /** A schema written in place is shown as it is, down to depth 48. */
  lemma ShownInPlace(root: Value, node: Node, s: Value, open: set<string>, depth: nat)
    requires Shows(root, node, s, open, depth) && depth <= 48 && RefOf(s).None?
    ensures ShowsSchema(root, node.children, s, open, depth)
  {
    PlainResolves(root, s);
    assert open + Opened(None) == open;
  }

  /** A schema given by reference is shown once, with its name open below. */
  lemma ShownByReference(root: Value, node: Node, raw: Value, r: string, s: Value, open: set<string>, depth: nat)
    requires Shows(root, node, raw, open, depth) && depth <= 48
    requires RefOf(raw) == Some(r) && Resolve(root, r) == Some(s) && RefOf(s).None? && SchemaRefs.LastSegment(r) !in open
    ensures ShowsSchema(root, node.children, s, open + {SchemaRefs.LastSegment(r)}, depth)
  {
    RefResolves(root, raw, r, s);
  }

  // --- Members ------------------------------------------------------------------------------------

  predicate Requires(s: Value, p: string) {
    match Get(s, "required") case Some(Array(names)) => Str(p) in names case _ => false
  }

  lemma RequiredIff(s: Value, p: string)
    ensures p in RequiredNames(s) <==> Requires(s, p)
  {
    if Requires(s, p) {
      assert Str(p).s == p;
    }
  }

  lemma OwnPropertyDeclared(root: Value, s: Value, open: set<string>, p: string, prop: Value)
    requires Part(s, [Key("properties"), Key(p)]) == Some(prop)
    ensures p in MembersOf(root, s, open).props && MembersOf(root, s, open).props[p] == prop
    ensures Get(s, "allOf").None? ==> (p in MembersOf(root, s, open).required <==> Requires(s, p))
    ensures IsObject(s) && !SinglePart(s)
  {
    PropertyPart(s, p, prop);
    RequiredIff(s, p);
    if Get(s, "allOf").None? {
      assert Parts(s) == [];
    }
  }

  lemma PropertyPart(s: Value, p: string, prop: Value)
    requires Part(s, [Key("properties"), Key(p)]) == Some(prop)
    ensures Get(s, "properties").Some? && p in OwnProperties(s) && OwnProperties(s)[p] == prop
  {
    var path := [Key("properties"), Key(p)];
    assert path[1..] == [Key(p)] && [Key(p)][1..] == [];
    assert Part(s.fields["properties"], [Key(p)]) == Some(prop);
    assert Part(prop, []) == Some(prop);
  }

  /** The child is the node of this schema, one level down. */
  ghost predicate IsNodeOf(root: Value, child: Node, key: string, raw: Value, open: set<string>, depth: nat) {
    child.key == key && Shows(root, child, raw, open, depth + 1) && NameShown(root, child, raw, open, depth + 1)
  }

  /** Every property is a child under its name, marked required exactly when the schema says so, and a
      cycle exactly when its schema is open above. */
  lemma PropertyIsShown(root: Value, children: seq<Node>, s: Value, open: set<string>, depth: nat, p: string, prop: Value)
    requires depth <= 48 && ShowsSchema(root, children, s, open, depth) && Part(s, [Key("properties"), Key(p)]) == Some(prop)
    ensures exists i ::
              && 0 <= i < |children| && IsNodeOf(root, children[i], p, prop, open, depth)
              && Labelled(root, children[i], prop, open, depth + 1)
              && (Get(s, "allOf").None? ==> (children[i].required <==> Requires(s, p)))
  {
    OwnPropertyDeclared(root, s, open, p, prop);
    OpenShown(root, children, s, open, depth);
    OpenShape(root, children, s, open, depth);
    OpenMembers(root, children, MembersOf(root, s, open), open, depth);
    var i := OpenMember(root, children, p, MembersOf(root, s, open), open, depth);
  }

  /** Below the node of a schema, a property that refers to that schema again is a cycle leaf. */
  lemma RecursivePropertyIsCut(root: Value, node: Node, raw: Value, r: string, s: Value, p: string, prop: Value, open: set<string>, depth: nat)
    requires Shows(root, node, raw, open, depth) && depth < 48
    requires RefOf(raw) == Some(r) && Resolve(root, r) == Some(s) && RefOf(s).None? && SchemaRefs.LastSegment(r) !in open
    requires Part(s, [Key("properties"), Key(p)]) == Some(prop) && RefOf(prop) == Some(r)
    ensures exists i :: 0 <= i < |node.children| && node.children[i].key == p && node.children[i].kind.Cycle? && node.children[i].children == []
  {
    var inside := open + {SchemaRefs.LastSegment(r)};
    ShownByReference(root, node, raw, r, s, open, depth);
    PropertyIsShown(root, node.children, s, inside, depth, p, prop);
    RefResolves(root, prop, r, s);
    var i :| 0 <= i < |node.children| && IsNodeOf(root, node.children[i], p, prop, inside, depth) && Labelled(root, node.children[i], prop, inside, depth + 1);
    assert Closes(root, prop, inside);
    assert node.children[i].children == [];
  }

  // --- Parts of an `allOf` --------------------------------------------------------------------------

  /** A single part without properties beside it reads as that part. */
  lemma SinglePartIsShown(root: Value, children: seq<Node>, s: Value, open: set<string>, depth: nat, part: Value)
    requires depth <= 48 && ShowsSchema(root, children, s, open, depth)
    requires Get(s, "allOf") == Some(Array([part])) && Get(s, "properties").None?
    ensures Shows(root, Node("", Member, false, None, children), part, open, depth + 1)
  {}

  ghost predicate SeveralParts(s: Value) {
    Get(s, "allOf").Some? && Get(s, "allOf").value.Array? && (|Get(s, "allOf").value.items| != 1 || Get(s, "properties").Some?)
  }

  /** A part written in place contributes every property it has. */
  lemma PartIsShown(root: Value, children: seq<Node>, s: Value, open: set<string>, depth: nat, k: nat, p: string, prop: Value)
    requires depth <= 48 && ShowsSchema(root, children, s, open, depth) && SeveralParts(s) && k < |Get(s, "allOf").value.items|
    requires RefOf(Get(s, "allOf").value.items[k]).None? && Part(Get(s, "allOf").value.items[k], [Key("properties"), Key(p)]) == Some(prop)
    ensures exists i :: 0 <= i < |children| && children[i].key == p
  {
    var parts := Get(s, "allOf").value.items;
    PropertyPart(parts[k], p, prop);
    PlainResolves(root, parts[k]);
    PartsContribute(root, parts, open, 0, Declared(map[], {}, []), k);
    assert p in MembersOf(root, s, open).props;
    OpenShown(root, children, s, open, depth);
    OpenShape(root, children, s, open, depth);
    OpenMembers(root, children, MembersOf(root, s, open), open, depth);
    var i := OpenMember(root, children, p, MembersOf(root, s, open), open, depth);
  }

  lemma {:induction false} OpenPartsAreCut(root: Value, parts: seq<Value>, open: set<string>, hops: nat, given: Declared, k: nat)
    requires hops <= MAX_DEPTH && k < |parts| && Closes(root, parts[k], open)
    ensures Leaf(Follow(root, parts[k], None, MAX_REF_HOPS).name.value, Cycle) in MergeParts(root, parts, open, hops, given).cuts
    decreases |parts|
  {
    var init := parts[..|parts| - 1];
    if k < |init| {
      OpenPartsAreCut(root, init, open, hops, given, k);
      CutsStayThrough(root, parts[|parts| - 1], open, hops, MergeParts(root, init, open, hops, given));
    }
  }

  lemma {:induction false} CutsStay(root: Value, schema: Value, open: set<string>, hops: nat, given: Declared)
    ensures given.cuts <= Merge(root, schema, open, hops, given).cuts
    decreases HopsLeft(hops), 2, 0
  {
    if hops <= MAX_DEPTH {
      CutsStayInParts(root, Parts(schema), open, hops, given);
    }
  }

  lemma {:induction false} CutsStayInParts(root: Value, parts: seq<Value>, open: set<string>, hops: nat, given: Declared)
    requires hops <= MAX_DEPTH
    ensures given.cuts <= MergeParts(root, parts, open, hops, given).cuts
    decreases HopsLeft(hops), 1, |parts|
  {
    if parts != [] {
      CutsStayInParts(root, parts[..|parts| - 1], open, hops, given);
      CutsStayThrough(root, parts[|parts| - 1], open, hops, MergeParts(root, parts[..|parts| - 1], open, hops, given));
    }
  }

  lemma {:induction false} CutsStayThrough(root: Value, raw: Value, open: set<string>, hops: nat, given: Declared)
    requires hops <= MAX_DEPTH
    ensures given.cuts <= MergePart(root, raw, open, hops, given).cuts
    decreases HopsLeft(hops), 0, 0
  {
    var r := Follow(root, raw, None, MAX_REF_HOPS);
    if r.Resolved? && !(r.name.Some? && r.name.value in open) {
      CutsStay(root, r.value, open + Opened(r.name), hops + 1, given);
    }
  }

  /** A part that refers to a schema open above is a cycle leaf under that schema's name. */
  lemma RecursivePartIsCut(root: Value, children: seq<Node>, s: Value, open: set<string>, depth: nat, k: nat, r: string, t: Value)
    requires depth <= 48 && ShowsSchema(root, children, s, open, depth) && SeveralParts(s) && k < |Get(s, "allOf").value.items|
    requires RefOf(Get(s, "allOf").value.items[k]) == Some(r) && Resolve(root, r) == Some(t) && RefOf(t).None?
    requires SchemaRefs.LastSegment(r) in open
    ensures Leaf(SchemaRefs.LastSegment(r), Cycle) in children
  {
    var parts := Get(s, "allOf").value.items;
    RefResolves(root, parts[k], r, t);
    OpenPartsAreCut(root, parts, open, 0, Declared(map[], {}, []), k);
    assert Leaf(SchemaRefs.LastSegment(r), Cycle) in MembersOf(root, s, open).cuts;
    OpenShown(root, children, s, open, depth);
    OpenShape(root, children, s, open, depth);
    OpenMembers(root, children, MembersOf(root, s, open), open, depth);
  }

  // --- Types, items, variants ----------------------------------------------------------------------

  ghost predicate FirstNamed(types: seq<Value>, t: string, i: nat) {
    && i < |types| && types[i] == Str(t) && t != "null"
    && forall j :: 0 <= j < i ==> !types[j].Str? || types[j] == Str("null")
  }

  lemma {:induction false} FirstTypeIff(types: seq<Value>, t: string)
    ensures FirstType(types) == Some(t) <==> exists i: nat :: FirstNamed(types, t, i)
    decreases |types|
  {
    if types != [] {
      var rest := types[1..];
      FirstTypeIff(rest, t);
      if types[0].Str? && types[0].s != "null" {
        if types[0] == Str(t) {
          assert FirstNamed(types, t, 0);
        }
      } else {
        if i: nat :| FirstNamed(rest, t, i) {
          assert FirstNamed(types, t, i + 1);
        }
        if i: nat :| FirstNamed(types, t, i) {
          assert i > 0;
          assert FirstNamed(rest, t, i - 1) by {
            forall j | 0 <= j < i - 1 ensures !rest[j].Str? || rest[j] == Str("null") {
              assert rest[j] == types[j + 1];
            }
          }
        }
      }
    }
  }

  /** The type is the string, or the first string of the list that is not `null`. */
  lemma JsonTypeIff(s: Value, t: string)
    ensures JsonType(s) == Some(t) <==>
              match Get(s, "type")
              case Some(Str(u)) => u == t
              case Some(Array(types)) => exists i: nat :: FirstNamed(types, t, i)
              case _ => false
  {
    match Get(s, "type")
    case Some(Array(types)) => FirstTypeIff(types, t);
    case _ =>
  }

  /** Typed `object`, or with properties, or put together of parts. */
  ghost predicate ObjectLike(s: Value) {
    || Get(s, "type") == Some(Str("object"))
    || Get(s, "properties").Some?
    || (Get(s, "allOf").Some? && Get(s, "allOf").value.Array?)
  }

  /** Not a single part that stands for the whole. */
  ghost predicate OnItsOwn(s: Value) {
    Get(s, "allOf").None? || Get(s, "properties").Some? || SeveralParts(s)
  }

  /** The schema of any further key is a child of an object. */
  lemma AnyKeyIsShown(root: Value, children: seq<Node>, s: Value, open: set<string>, depth: nat, f: map<string, Value>)
    requires depth <= 48 && ShowsSchema(root, children, s, open, depth)
    requires ObjectLike(s) && OnItsOwn(s) && Get(s, "additionalProperties") == Some(Object(f))
    ensures exists i :: 0 <= i < |children| && IsNodeOf(root, children[i], "{*}", Object(f), open, depth)
  {
    OpenShown(root, children, s, open, depth);
    assert HasChild(root, children, "{*}", Object(f), open, depth);
  }

  /** The items are the child of an array. */
  lemma ItemsAreShown(root: Value, children: seq<Node>, s: Value, open: set<string>, depth: nat, items: Value)
    requires depth <= 48 && ShowsSchema(root, children, s, open, depth)
    requires Get(s, "type") == Some(Str("array")) && Get(s, "properties").None? && Get(s, "allOf").None? && Get(s, "items") == Some(items)
    ensures exists i :: 0 <= i < |children| && IsNodeOf(root, children[i], "[]", items, open, depth)
  {
    OpenShown(root, children, s, open, depth);
    assert HasChild(root, children, "[]", items, open, depth);
  }

  /** Schema name, else title, else position. */
  predicate KeyFits(key: string, variant: Value, index: nat) {
    match Get(variant, "$ref")
    case Some(Str(r)) => key == SchemaRefs.LastSegment(r)
    case _ =>
      match Get(variant, "title")
      case Some(Str(title)) => if Trim(title) == "" then key == Decimal(index) else key == Trim(title)
      case _ => key == Decimal(index)
  }

  /** The variants are shown in order below one child, each under its key. */
  lemma VariantsAreShown(root: Value, children: seq<Node>, s: Value, open: set<string>, depth: nat, keyword: string, variants: seq<Value>)
    requires depth <= 48 && ShowsSchema(root, children, s, open, depth)
    requires keyword == "oneOf" || keyword == "anyOf"
    requires OnItsOwn(s) && Get(s, keyword) == Some(Array(variants))
    ensures exists i ::
              && 0 <= i < |children| && children[i].key == keyword && |children[i].children| == |variants|
              && forall j :: 0 <= j < |variants| ==>
                   && KeyFits(children[i].children[j].key, variants[j], j)
                   && Shows(root, children[i].children[j], variants[j], open, depth + 1)
                   && Labelled(root, children[i].children[j], variants[j], open, depth + 1)
  {
    OpenShown(root, children, s, open, depth);
    var i := OpenVariants(root, children, keyword, s, open, depth);
    OpenVariant(root, children[i].children, variants, open, depth);
    forall j | 0 <= j < |variants| ensures KeyFits(children[i].children[j].key, variants[j], j) {
      VariantKeyFits(variants[j], j);
    }
  }

  lemma VariantKeyFits(variant: Value, index: nat)
    ensures KeyFits(VariantKey(variant, index), variant, index)
  {}

  /** Apart from parts of an `allOf`, nothing else is shown. */
  lemma NothingElseIsShown(root: Value, children: seq<Node>, s: Value, open: set<string>, depth: nat, i: nat)
    requires depth <= 48 && ShowsSchema(root, children, s, open, depth) && Get(s, "allOf").None? && i < |children|
    ensures || Part(s, [Key("properties"), Key(children[i].key)]).Some?
            || (children[i].key == "{*}" && Get(s, "additionalProperties").Some?)
            || (children[i].key == "[]" && Get(s, "items").Some?)
            || (children[i].key == "oneOf" && Get(s, "oneOf").Some?)
            || (children[i].key == "anyOf" && Get(s, "anyOf").Some?)
  {
    OpenShown(root, children, s, open, depth);
    assert Accounted(root, children[i], s, open);
    OnlyOwnMembers(root, s, open);
    TwoKeys(s, "properties", children[i].key);
  }

  lemma OnlyOwnMembers(root: Value, s: Value, open: set<string>)
    requires Get(s, "allOf").None?
    ensures MembersOf(root, s, open).props == OwnProperties(s) && MembersOf(root, s, open).cuts == []
  {
    assert Parts(s) == [];
    assert map[] + OwnProperties(s) == OwnProperties(s);
  }

  // --- The tree as a whole ----------------------------------------------------------------------------

  /** The node a path of positions leads to. */
  function NodeAt(node: Node, path: seq<nat>): Option<Node>
    decreases |path|
  {
    if path == [] then Some(node)
    else if path[0] < |node.children| then NodeAt(node.children[path[0]], path[1..])
    else None
  }

  /** No path is as long as the height. */
  lemma {:induction false} HeightBoundsPaths(node: Node, h: nat, path: seq<nat>)
    requires AtMost(node, h) && NodeAt(node, path).Some?
    ensures |path| < h
    decreases |path|
  {
    if path != [] {
      HeightBoundsPaths(node.children[path[0]], h - 1, path[1..]);
    }
  }

  lemma {:induction false} NotBelowOpen(node: Node, open: set<string>, path: seq<nat>)
    requires NeverInsideItself(node, open) && NodeAt(node, path).Some?
    ensures NodeAt(node, path).value.unfolds.Some? ==> NodeAt(node, path).value.unfolds.value !in open
    decreases |path|
  {
    if path != [] {
      NotBelowOpen(node.children[path[0]], open + Opened(node.unfolds), path[1..]);
    }
  }

  /** Whatever node of the tree shows a named schema, nothing below it shows that schema again. */
  lemma {:induction false} NoSchemaBelowItself(node: Node, open: set<string>, path: seq<nat>, more: seq<nat>)
    requires NeverInsideItself(node, open) && more != []
    requires NodeAt(node, path).Some? && NodeAt(NodeAt(node, path).value, more).Some?
    ensures var upper, lower := NodeAt(node, path).value, NodeAt(NodeAt(node, path).value, more).value;
            upper.unfolds.Some? ==> lower.unfolds != upper.unfolds
    decreases |path|
  {
    if path == [] {
      NotBelowOpen(node.children[more[0]], open + Opened(node.unfolds), more[1..]);
    } else {
      NoSchemaBelowItself(node.children[path[0]], open + Opened(node.unfolds), path[1..], more);
    }
  }
}
