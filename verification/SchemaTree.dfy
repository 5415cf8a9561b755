/** The structure view of a schema: every `$ref` inlined, recursive ones cut. */
module SchemaTree {
  import opened Json
  import SchemaRefs
  import opened Text

  const MAX_DEPTH := 48
  const MAX_REF_HOPS := 32

  datatype NodeKind = Member | Items | Variants | Variant | Cycle | Note

  /** `unfolds` names the component schema whose content the node shows; display fields are left out. */
  datatype Node = Node(key: string, kind: NodeKind, required: bool, unfolds: Option<string>, children: seq<Node>)

  // --- Following references --------------------------------------------------------------

  datatype Resolved = Resolved(value: Value, name: Option<string>) | Unresolved(reference: string)

  function Follow(root: Value, v: Value, name: Option<string>, hops: nat): Resolved
    decreases hops
  {
    match RefOf(v)
    case None => if hops == 0 then Unresolved("$ref") else Resolved(v, name)
    case Some(r) =>
      if hops == 0 then Unresolved(r)
      else match Resolve(root, r)
        case None => Unresolved(r)
        case Some(t) => Follow(root, t, Some(SchemaRefs.LastSegment(r)), hops - 1)
  }

  /** The JSON type a schema declares; of a list, the first that is not `null`. */
  function JsonType(schema: Value): Option<string> {
    match Get(schema, "type")
    case Some(Str(t)) => Some(t)
    case Some(Array(types)) => FirstType(types)
    case _ => None
  }

  function FirstType(types: seq<Value>): Option<string> {
    if types == [] then None
    else if types[0].Str? && types[0].s != "null" then Some(types[0].s)
    else FirstType(types[1..])
  }

  /** A variant is keyed by its schema name, else by its title, else by its position. */
  function VariantKey(variant: Value, index: nat): string {
    match RefOf(variant)
    case Some(r) => SchemaRefs.LastSegment(r)
    case None =>
      match GetStr(variant, "title")
      case Some(title) => if Trim(title) != "" then Trim(title) else Decimal(index)
      case None => Decimal(index)
  }

  // --- What is said about the tree ----------------------------------------------------------

  /** At most `h` levels of nodes. */
  ghost predicate AtMost(node: Node, h: nat)
    decreases h
  {
    h > 0 && forall i | 0 <= i < |node.children| :: AtMost(node.children[i], h - 1)
  }

  /** No schema is unfolded inside itself, nor inside one of `open`. */
  ghost predicate NeverInsideItself(node: Node, open: set<string>)
    decreases node
  {
    && (node.unfolds.Some? ==> node.unfolds.value !in open)
    && forall i | 0 <= i < |node.children| :: NeverInsideItself(node.children[i], open + Opened(node.unfolds))
  }

  function Opened(name: Option<string>): set<string> {
    match name case Some(n) => {n} case None => {}
  }

  ghost function Names(stack: seq<string>): set<string> {
    set n | n in stack
  }

  ghost predicate Distinct(names: seq<string>) {
    forall i, j :: 0 <= i < j < |names| ==> names[i] != names[j]
  }

  /** Two node levels per step of depth. */
  function Levels(depth: nat): nat {
    if depth > MAX_DEPTH then 1 else 2 * (MAX_DEPTH + 1 - depth) + 1
  }

  lemma {:induction false} FewerOpen(node: Node, open: set<string>, fewer: set<string>)
    requires NeverInsideItself(node, open) && fewer <= open
    ensures NeverInsideItself(node, fewer)
    decreases node
  {
    forall i | 0 <= i < |node.children| ensures NeverInsideItself(node.children[i], fewer + Opened(node.unfolds)) {
      FewerOpen(node.children[i], open + Opened(node.unfolds), fewer + Opened(node.unfolds));
    }
  }

  lemma {:induction false} MoreLevels(node: Node, h: nat, more: nat)
    requires AtMost(node, h) && h <= more
    ensures AtMost(node, more)
    decreases h
  {
    forall i | 0 <= i < |node.children| ensures AtMost(node.children[i], more - 1) {
      MoreLevels(node.children[i], h - 1, more - 1);
    }
  }

  /** Nodes that fit below a node at some depth, with these schemas open. */
  ghost predicate Fit(nodes: seq<Node>, h: nat, open: set<string>) {
    forall i :: 0 <= i < |nodes| ==> AtMost(nodes[i], h) && NeverInsideItself(nodes[i], open)
  }

  lemma FitAdded(nodes: seq<Node>, child: Node, added: Node, h: nat, more: nat, open: set<string>)
    requires Fit(nodes, more, open) && h <= more && AtMost(child, h) && NeverInsideItself(child, open)
    requires added.unfolds == child.unfolds && added.children == child.children
    ensures Fit(nodes + [added], more, open)
  {
    MoreLevels(child, h, more);
    assert AtMost(added, more) && NeverInsideItself(added, open);
  }

  // --- What the tree shows -------------------------------------------------------------------

  predicate SinglePart(schema: Value) {
    var allOf := GetArray(schema, "allOf");
    allOf.Some? && |allOf.value| == 1 && Get(schema, "properties").None?
  }

  predicate IsObject(schema: Value) {
    JsonType(schema) == Some("object") || Get(schema, "properties").Some? || GetArray(schema, "allOf").Some?
  }

  function OwnProperties(schema: Value): map<string, Value> {
    match GetObject(schema, "properties") case Some(p) => p case None => map[]
  }

  function Parts(schema: Value): seq<Value> {
    match GetArray(schema, "allOf") case Some(p) => p case None => []
  }

  function RequiredNames(schema: Value): set<string> {
    var list := match GetArray(schema, "required") case Some(l) => l case None => [];
    set v | v in list && v.Str? :: v.s
  }

  /** `cuts` are the leaves that stand for `allOf` parts that are open or do not resolve, in order. */
  datatype Declared = Declared(props: map<string, Value>, required: set<string>, cuts: seq<Node>)

  /** What an object schema declares: the parts of its `allOf` in order, then its own, later ones winning. */
  function Merge(root: Value, schema: Value, open: set<string>, hops: nat, given: Declared): Declared
    decreases HopsLeft(hops), 1, 0
  {
    if hops > MAX_DEPTH then given
    else
      var merged := MergeParts(root, Parts(schema), open, hops, given);
      Declared(merged.props + OwnProperties(schema), merged.required + RequiredNames(schema), merged.cuts)
  }

  function MergeParts(root: Value, parts: seq<Value>, open: set<string>, hops: nat, given: Declared): Declared
    requires hops <= MAX_DEPTH
    decreases HopsLeft(hops), 0, |parts|
  {
    if parts == [] then given
    else MergePart(root, parts[|parts| - 1], open, hops, MergeParts(root, parts[..|parts| - 1], open, hops, given))
  }

  /** A part whose name is open, or that does not resolve, adds a leaf only. */
  function MergePart(root: Value, raw: Value, open: set<string>, hops: nat, given: Declared): Declared
    requires hops <= MAX_DEPTH
    decreases HopsLeft(hops), 0, 0
  {
    match Follow(root, raw, None, MAX_REF_HOPS)
    case Unresolved(reference) => given.(cuts := given.cuts + [Leaf(reference, Note)])
    case Resolved(part, name) =>
      if name.Some? && name.value in open then given.(cuts := given.cuts + [Leaf(name.value, Cycle)])
      else Merge(root, part, open + Opened(name), hops + 1, given)
  }

  function HopsLeft(hops: nat): nat {
    if hops > MAX_DEPTH then 0 else MAX_DEPTH + 1 - hops
  }

  function MembersOf(root: Value, schema: Value, open: set<string>): Declared {
    Merge(root, schema, open, 0, Declared(map[], {}, []))
  }

  /** No member and no required name is lost on the way. */
  lemma {:induction false} MergeKeeps(root: Value, schema: Value, open: set<string>, hops: nat, given: Declared)
    ensures given.props.Keys <= Merge(root, schema, open, hops, given).props.Keys
    ensures given.required <= Merge(root, schema, open, hops, given).required
    decreases HopsLeft(hops), 1, 0
  {
    if hops <= MAX_DEPTH {
      MergePartsKeeps(root, Parts(schema), open, hops, given);
    }
  }

  lemma {:induction false} MergePartsKeeps(root: Value, parts: seq<Value>, open: set<string>, hops: nat, given: Declared)
    requires hops <= MAX_DEPTH
    ensures given.props.Keys <= MergeParts(root, parts, open, hops, given).props.Keys
    ensures given.required <= MergeParts(root, parts, open, hops, given).required
    decreases HopsLeft(hops), 0, |parts|
  {
    if parts != [] {
      var init := parts[..|parts| - 1];
      MergePartsKeeps(root, init, open, hops, given);
      var r := Follow(root, parts[|parts| - 1], None, MAX_REF_HOPS);
      if r.Resolved? && !(r.name.Some? && r.name.value in open) {
        MergeKeeps(root, r.value, open + Opened(r.name), hops + 1, MergeParts(root, init, open, hops, given));
      }
    }
  }

  /** Every `allOf` part that resolves and is not open contributes all its own members and required names. */
  lemma {:induction false} PartsContribute(root: Value, parts: seq<Value>, open: set<string>, hops: nat, given: Declared, k: nat)
    requires hops < MAX_DEPTH && k < |parts|
    ensures var r := Follow(root, parts[k], None, MAX_REF_HOPS);
            r.Resolved? && !(r.name.Some? && r.name.value in open) ==>
              && OwnProperties(r.value).Keys <= MergeParts(root, parts, open, hops, given).props.Keys
              && RequiredNames(r.value) <= MergeParts(root, parts, open, hops, given).required
    decreases |parts|
  {
    var init := parts[..|parts| - 1];
    var before := MergeParts(root, init, open, hops, given);
    var r := Follow(root, parts[|parts| - 1], None, MAX_REF_HOPS);
    if k < |init| {
      PartsContribute(root, init, open, hops, given, k);
      if r.Resolved? && !(r.name.Some? && r.name.value in open) {
        MergeKeeps(root, r.value, open + Opened(r.name), hops + 1, before);
      }
    } else if r.Resolved? && !(r.name.Some? && r.name.value in open) {
      assert MergeParts(root, parts, open, hops, given) == Merge(root, r.value, open + Opened(r.name), hops + 1, before);
    }
  }

  /** The schema accounts for the child: a member, the any-key schema, the items, a group of variants, or
      the leaf that stands for an `allOf` part that is open or does not resolve. */
  ghost predicate Accounted(root: Value, child: Node, schema: Value, open: set<string>) {
    || (IsObject(schema) && child in MembersOf(root, schema, open).cuts)
    || (IsObject(schema) && child.key in MembersOf(root, schema, open).props)
    || (IsObject(schema) && GetObject(schema, "additionalProperties").Some? && child.key == "{*}")
    || (!IsObject(schema) && JsonType(schema) == Some("array") && Get(schema, "items").Some? && child.key == "[]")
    || (child.kind.Variants? && child.key in {"oneOf", "anyOf"} && GetArray(schema, child.key).Some?)
  }

  ghost predicate AllAccounted(root: Value, children: seq<Node>, schema: Value, open: set<string>) {
    forall i :: 0 <= i < |children| ==> Accounted(root, children[i], schema, open)
  }

  lemma AllAccountedTogether(root: Value, a: seq<Node>, b: seq<Node>, schema: Value, open: set<string>)
    requires AllAccounted(root, a, schema, open) && AllAccounted(root, b, schema, open)
    ensures AllAccounted(root, a + b, schema, open)
  {}

  /** The schema behind `raw` is one of those open above. */
  predicate Closes(root: Value, raw: Value, open: set<string>) {
    var r := Follow(root, raw, None, MAX_REF_HOPS);
    r.Resolved? && r.name.Some? && r.name.value in open
  }

  /** A node for a schema that was opened carries its name. */
  ghost predicate NameShown(root: Value, node: Node, raw: Value, open: set<string>, depth: nat) {
    depth <= MAX_DEPTH ==>
      match Follow(root, raw, None, MAX_REF_HOPS)
      case Resolved(_, Some(n)) => n !in open ==> node.unfolds == Some(n)
      case _ => true
  }

  /** And it is a cycle exactly when the schema is open above. */
  ghost predicate Labelled(root: Value, node: Node, raw: Value, open: set<string>, depth: nat) {
    (node.kind.Cycle? <==> depth <= MAX_DEPTH && Closes(root, raw, open)) && NameShown(root, node, raw, open, depth)
  }

  /** The node has nothing below it where the walk is cut — too deep, unresolvable, or already open —
      and shows the schema everywhere else. */
  ghost predicate Shows(root: Value, node: Node, raw: Value, open: set<string>, depth: nat)
    decreases Levels(depth), 5
  {
    if depth > MAX_DEPTH then node.children == []
    else match Follow(root, raw, None, MAX_REF_HOPS)
      case Unresolved(_) => node.children == []
      case Resolved(schema, name) =>
        if name.Some? && name.value in open then node.children == []
        else ShowsSchema(root, node.children, schema, open + Opened(name), depth)
  }

  /** Nothing but, and all of: every declared member with its required mark, the any-key schema, the items, and every variant of `oneOf` and `anyOf`. */
  ghost predicate ShowsSchema(root: Value, children: seq<Node>, schema: Value, open: set<string>, depth: nat)
    requires depth <= MAX_DEPTH
    decreases Levels(depth), 4
  {
    if SinglePart(schema) then
      Shows(root, Node("", Member, false, None, children), GetArray(schema, "allOf").value[0], open, depth + 1)
    else
      && AllAccounted(root, children, schema, open)
      && ShapeShown(root, children, schema, open, depth)
      && VariantsShown(root, children, "oneOf", schema, open, depth)
      && VariantsShown(root, children, "anyOf", schema, open, depth)
  }

  ghost predicate VariantsShown(root: Value, children: seq<Node>, keyword: string, schema: Value, open: set<string>, depth: nat)
    requires depth <= MAX_DEPTH
    decreases Levels(depth), 3
  {
    GetArray(schema, keyword).Some? ==> HasVariants(root, children, keyword, GetArray(schema, keyword).value, open, depth)
  }

  /** The declared members among the children. */
  ghost predicate MembersShown(root: Value, children: seq<Node>, declared: Declared, open: set<string>, depth: nat)
    requires depth <= MAX_DEPTH
    decreases Levels(depth), 2
  {
    && (forall p | p in declared.props :: HasMember(root, children, p, declared, open, depth))
    && (forall leaf | leaf in declared.cuts :: leaf in children)
  }

  ghost predicate ShapeShown(root: Value, children: seq<Node>, schema: Value, open: set<string>, depth: nat)
    requires depth <= MAX_DEPTH
    decreases Levels(depth), 3
  {
    && (IsObject(schema) ==> MembersShown(root, children, MembersOf(root, schema, open), open, depth))
    && (IsObject(schema) && GetObject(schema, "additionalProperties").Some? ==>
          HasChild(root, children, "{*}", Get(schema, "additionalProperties").value, open, depth))
    && (!IsObject(schema) && JsonType(schema) == Some("array") && Get(schema, "items").Some? ==>
          HasChild(root, children, "[]", Get(schema, "items").value, open, depth))
  }

  ghost predicate HasChild(root: Value, children: seq<Node>, key: string, raw: Value, open: set<string>, depth: nat)
    requires depth <= MAX_DEPTH
    decreases Levels(depth), 0
  {
    exists i :: 0 <= i < |children| && children[i].key == key && Shows(root, children[i], raw, open, depth + 1)
                && NameShown(root, children[i], raw, open, depth + 1)
  }

  ghost predicate HasMember(root: Value, children: seq<Node>, p: string, declared: Declared, open: set<string>, depth: nat)
    requires depth <= MAX_DEPTH && p in declared.props
    decreases Levels(depth), 0
  {
    exists i :: 0 <= i < |children| && children[i].key == p && children[i].required == (p in declared.required)
                && Shows(root, children[i], declared.props[p], open, depth + 1)
                && Labelled(root, children[i], declared.props[p], open, depth + 1)
  }

  ghost predicate HasVariants(root: Value, children: seq<Node>, keyword: string, variants: seq<Value>, open: set<string>, depth: nat)
    requires depth <= MAX_DEPTH
    decreases Levels(depth), 1
  {
    exists i :: 0 <= i < |children| && children[i].key == keyword && ShowsVariants(root, children[i].children, variants, open, depth)
  }

  ghost predicate ShowsVariants(root: Value, shown: seq<Node>, variants: seq<Value>, open: set<string>, depth: nat)
    requires depth <= MAX_DEPTH
    decreases Levels(depth), 0
  {
    |shown| == |variants| && forall j | 0 <= j < |shown| ::
      shown[j].key == VariantKey(variants[j], j) && Shows(root, shown[j], variants[j], open, depth + 1)
      && Labelled(root, shown[j], variants[j], open, depth + 1)
  }

  lemma HasChildStays(root: Value, a: seq<Node>, children: seq<Node>, b: seq<Node>, key: string, raw: Value, open: set<string>, depth: nat)
    requires depth <= MAX_DEPTH && HasChild(root, children, key, raw, open, depth)
    ensures HasChild(root, a + children + b, key, raw, open, depth)
  {
    var i :| 0 <= i < |children| && children[i].key == key && Shows(root, children[i], raw, open, depth + 1)
             && NameShown(root, children[i], raw, open, depth + 1);
    assert (a + children + b)[|a| + i] == children[i];
  }

  lemma HasMemberStays(root: Value, children: seq<Node>, more: seq<Node>, p: string, declared: Declared, open: set<string>, depth: nat)
    requires depth <= MAX_DEPTH && p in declared.props && HasMember(root, children, p, declared, open, depth)
    ensures HasMember(root, children + more, p, declared, open, depth)
  {
    var i :| 0 <= i < |children| && children[i].key == p && children[i].required == (p in declared.required)
             && Shows(root, children[i], declared.props[p], open, depth + 1)
             && Labelled(root, children[i], declared.props[p], open, depth + 1);
    assert (children + more)[i] == children[i];
  }

  lemma HasVariantsStays(root: Value, a: seq<Node>, children: seq<Node>, b: seq<Node>, keyword: string, variants: seq<Value>, open: set<string>, depth: nat)
    requires depth <= MAX_DEPTH && HasVariants(root, children, keyword, variants, open, depth)
    ensures HasVariants(root, a + children + b, keyword, variants, open, depth)
  {
    var i :| 0 <= i < |children| && children[i].key == keyword && ShowsVariants(root, children[i].children, variants, open, depth);
    assert (a + children + b)[|a| + i] == children[i];
  }

  // The predicates above, opened one at a time.

  lemma OpenShown(root: Value, children: seq<Node>, schema: Value, open: set<string>, depth: nat)
    requires depth <= MAX_DEPTH && ShowsSchema(root, children, schema, open, depth) && !SinglePart(schema)
    ensures AllAccounted(root, children, schema, open) && ShapeShown(root, children, schema, open, depth)
    ensures VariantsShown(root, children, "oneOf", schema, open, depth) && VariantsShown(root, children, "anyOf", schema, open, depth)
  {}

  lemma OpenShape(root: Value, children: seq<Node>, schema: Value, open: set<string>, depth: nat)
    requires depth <= MAX_DEPTH && ShapeShown(root, children, schema, open, depth) && IsObject(schema)
    ensures MembersShown(root, children, MembersOf(root, schema, open), open, depth)
  {}

  lemma OpenMembers(root: Value, children: seq<Node>, declared: Declared, open: set<string>, depth: nat)
    requires depth <= MAX_DEPTH && MembersShown(root, children, declared, open, depth)
    ensures forall p | p in declared.props :: HasMember(root, children, p, declared, open, depth)
    ensures forall leaf | leaf in declared.cuts :: leaf in children
  {}

  lemma OpenMember(root: Value, children: seq<Node>, p: string, declared: Declared, open: set<string>, depth: nat) returns (i: nat)
    requires depth <= MAX_DEPTH && p in declared.props && HasMember(root, children, p, declared, open, depth)
    ensures i < |children| && children[i].key == p && children[i].required == (p in declared.required)
    ensures Shows(root, children[i], declared.props[p], open, depth + 1) && Labelled(root, children[i], declared.props[p], open, depth + 1)
  {
    i :| 0 <= i < |children| && children[i].key == p && children[i].required == (p in declared.required)
         && Shows(root, children[i], declared.props[p], open, depth + 1)
         && Labelled(root, children[i], declared.props[p], open, depth + 1);
  }

  lemma OpenVariants(root: Value, children: seq<Node>, keyword: string, schema: Value, open: set<string>, depth: nat) returns (i: nat)
    requires depth <= MAX_DEPTH && VariantsShown(root, children, keyword, schema, open, depth) && GetArray(schema, keyword).Some?
    ensures i < |children| && children[i].key == keyword
    ensures ShowsVariants(root, children[i].children, GetArray(schema, keyword).value, open, depth)
  {
    i :| 0 <= i < |children| && children[i].key == keyword &&
         ShowsVariants(root, children[i].children, GetArray(schema, keyword).value, open, depth);
  }

  lemma OpenVariant(root: Value, shown: seq<Node>, variants: seq<Value>, open: set<string>, depth: nat)
    requires depth <= MAX_DEPTH && ShowsVariants(root, shown, variants, open, depth)
    ensures |shown| == |variants|
    ensures forall j :: 0 <= j < |shown| ==>
              && shown[j].key == VariantKey(variants[j], j) && Shows(root, shown[j], variants[j], open, depth + 1)
              && Labelled(root, shown[j], variants[j], open, depth + 1)
  {}

  /** Kind and key are no part of what is shown. */
  lemma SameChildrenShow(root: Value, a: Node, b: Node, raw: Value, open: set<string>, depth: nat)
    requires a.children == b.children && Shows(root, a, raw, open, depth)
    ensures Shows(root, b, raw, open, depth)
  {}

  function Leaf(key: string, kind: NodeKind): Node {
    Node(key, kind, false, None, [])
  }

  // --- The walk ------------------------------------------------------------------------------

  datatype Collected = Collected(props: seq<(string, Value)>, required: set<string>, extra: seq<Node>)

  /** A leaf in place of an `allOf` part. */
  predicate IsCut(node: Node) {
    node.unfolds.None? && node.children == [] && (node.kind.Cycle? || node.kind.Note?)
  }

  ghost predicate Tidy(found: Collected) {
    && (forall i, j :: 0 <= i < j < |found.props| ==> found.props[i].0 != found.props[j].0)
    && (forall i :: 0 <= i < |found.extra| ==> IsCut(found.extra[i]))
  }

  lemma ExtrasFit(nodes: seq<Node>, found: Collected, h: nat, open: set<string>)
    requires h > 0 && Fit(nodes, h, open) && Tidy(found)
    ensures Fit(nodes + found.extra, h, open)
  {}

  /** The list holds exactly the entries of the map. */
  ghost predicate Lists(props: seq<(string, Value)>, m: map<string, Value>) {
    && (forall i :: 0 <= i < |props| ==> props[i].0 in m && m[props[i].0] == props[i].1)
    && (forall p :: p in m ==> (p, m[p]) in props)
  }

  ghost predicate Holds(found: Collected, declared: Declared) {
    Tidy(found) && Lists(found.props, declared.props) && found.required == declared.required && found.extra == declared.cuts
  }

  class Walker {
    const root: Value
    var stack: seq<string>

    constructor (root: Value)
      ensures this.root == root && stack == []
    {
      this.root, stack := root, [];
    }

    /** The node of a schema. `stack` holds the schema names open above. */
    method SchemaNode(key: string, raw: Value, depth: nat) returns (node: Node)
      requires Distinct(stack)
      modifies this
      ensures stack == old(stack)
      ensures AtMost(node, Levels(depth)) && NeverInsideItself(node, Names(stack))
      ensures node.key == key && Shows(root, node, raw, Names(stack), depth)
      ensures Labelled(root, node, raw, Names(stack), depth)
      decreases Levels(depth), 4
    {
      if depth > MAX_DEPTH {
        return Leaf(key, Note);
      }
      match Follow(root, raw, None, MAX_REF_HOPS)
      case Unresolved(_) =>
        node := Leaf(key, Member);
      case Resolved(schema, name) =>
        if name.Some? && name.value in stack {
          return Leaf(key, Cycle);
        }
        if name.Some? {
          stack := stack + [name.value];
        }
        assert Names(stack) == Names(old(stack)) + Opened(name);
        node := OpenSchema(key, schema, name, depth);
        if name.Some? {
          stack := stack[..|stack| - 1];
        }
    }

    /** The content of a schema whose name is on the stack. */
    method OpenSchema(key: string, schema: Value, name: Option<string>, depth: nat) returns (node: Node)
      requires Distinct(stack) && depth <= MAX_DEPTH
      requires name.Some? ==> stack != [] && stack[|stack| - 1] == name.value
      modifies this
      ensures stack == old(stack)
      ensures AtMost(node, Levels(depth))
      ensures forall open :: open + Opened(name) == Names(stack) && open !! Opened(name) ==> NeverInsideItself(node, open)
      ensures node.key == key && node.kind.Member? && ShowsSchema(root, node.children, schema, Names(stack), depth)
      ensures name.Some? ==> node.unfolds == name
      decreases Levels(depth), 3
    {
      if SinglePart(schema) {
        var part := GetArray(schema, "allOf").value[0];
        var inner := SchemaNode(key, part, depth + 1);
        node := Node(key, Member, false, if name.Some? then name else inner.unfolds, inner.children);
        CollapsedPart(node, inner, name, Names(stack), depth);
        SameChildrenShow(root, inner, Node("", Member, false, None, node.children), part, Names(stack), depth + 1);
        return;
      }
      var children := Shape(schema, depth);
      var oneOf := VariantsNodes("oneOf", schema, depth);
      var anyOf := VariantsNodes("anyOf", schema, depth);
      node := Node(key, Member, false, name, children + oneOf + anyOf);
      NodeOver(node, name, Names(stack), depth);
      AllShown(root, children, oneOf, anyOf, schema, Names(stack), depth);
    }

    /** Members and the any-key schema of an object, or the items of an array. */
    method Shape(schema: Value, depth: nat) returns (children: seq<Node>)
      requires Distinct(stack) && depth <= MAX_DEPTH
      modifies this
      ensures stack == old(stack)
      ensures Fit(children, Levels(depth) - 1, Names(stack))
      ensures ShapeShown(root, children, schema, Names(stack), depth)
      ensures AllAccounted(root, children, schema, Names(stack))
      decreases Levels(depth), 2
    {
      children := [];
      if IsObject(schema) {
        children := Members(schema, depth);
        if GetObject(schema, "additionalProperties").Some? {
          var members := children;
          children := Below(members, "{*}", Member, Get(schema, "additionalProperties").value, depth);
          MembersStay(root, members, children[|members|..], MembersOf(root, schema, Names(stack)), Names(stack), depth);
          assert members + children[|members|..] == children;
        }
      } else if JsonType(schema) == Some("array") && Get(schema, "items").Some? {
        children := Below([], "[]", Items, Get(schema, "items").value, depth);
      }
    }

    /** One more child under a fixed key, of a fixed kind. */
    method Below(children: seq<Node>, key: string, kind: NodeKind, raw: Value, depth: nat) returns (more: seq<Node>)
      requires Distinct(stack) && depth <= MAX_DEPTH && Fit(children, Levels(depth) - 1, Names(stack))
      modifies this
      ensures stack == old(stack)
      ensures Fit(more, Levels(depth) - 1, Names(stack))
      ensures children <= more && HasChild(root, more, key, raw, Names(stack), depth)
      ensures |more| == |children| + 1 && more[|children|].key == key
      decreases Levels(depth), 0
    {
      var child := SchemaNode(key, raw, depth + 1);
      ChildPlaced(root, children, child, kind, raw, Names(stack), depth);
      more := children + [child.(kind := kind)];
    }

    method Members(schema: Value, depth: nat) returns (children: seq<Node>)
      requires Distinct(stack) && depth <= MAX_DEPTH
      modifies this
      ensures stack == old(stack)
      ensures Fit(children, Levels(depth) - 1, Names(stack))
      ensures MembersShown(root, children, MembersOf(root, schema, Names(stack)), Names(stack), depth)
      ensures IsObject(schema) ==> AllAccounted(root, children, schema, Names(stack))
      decreases Levels(depth), 1
    {
      var found := CollectMembers(schema, Collected([], {}, []), 0, Declared(map[], {}, []));
      children := MemberNodes(found, depth);
      PropsShowMembers(root, children, found, MembersOf(root, schema, Names(stack)), Names(stack), depth);
      MembersAccounted(root, children, found, schema, Names(stack), depth);
      ExtrasFit(children, found, Levels(depth) - 1, Names(stack));
      children := children + found.extra;
    }

    method MemberNodes(found: Collected, depth: nat) returns (children: seq<Node>)
      requires Distinct(stack) && depth <= MAX_DEPTH
      modifies this
      ensures stack == old(stack)
      ensures Fit(children, Levels(depth) - 1, Names(stack))
      ensures PropsShown(root, children, found, |found.props|, Names(stack), depth)
      decreases Levels(depth), 0
    {
      children := [];
      for i := 0 to |found.props|
        invariant stack == old(stack)
        invariant Fit(children, Levels(depth) - 1, Names(stack))
        invariant PropsShown(root, children, found, i, Names(stack), depth)
      {
        var child := SchemaNode(found.props[i].0, found.props[i].1, depth + 1);
        var member := (if child.kind.Cycle? || child.kind.Note? then child else child.(kind := Member))
          .(required := found.props[i].0 in found.required);
        FitAdded(children, child, member, Levels(depth + 1), Levels(depth) - 1, Names(stack));
        PropAdded(root, children, child, member, found, i, Names(stack), depth);
        children := children + [member];
      }
    }

    /** `oneOf`/`anyOf` as one node over its variants, if the schema has it. */
    method VariantsNodes(keyword: string, schema: Value, depth: nat) returns (nodes: seq<Node>)
      requires Distinct(stack) && depth <= MAX_DEPTH
      modifies this
      ensures stack == old(stack)
      ensures Fit(nodes, Levels(depth) - 1, Names(stack))
      ensures VariantsShown(root, nodes, keyword, schema, Names(stack), depth)
      ensures forall i :: 0 <= i < |nodes| ==> nodes[i].key == keyword && nodes[i].kind.Variants? && GetArray(schema, keyword).Some?
      decreases Levels(depth), 1
    {
      var variants := GetArray(schema, keyword);
      if variants.None? {
        return [];
      }
      var children := VariantNodes(variants.value, depth);
      nodes := [Node(keyword, Variants, false, None, children)];
      GroupOver(root, nodes[0], variants.value, Names(stack), depth);
    }

    method VariantNodes(variants: seq<Value>, depth: nat) returns (children: seq<Node>)
      requires Distinct(stack) && depth <= MAX_DEPTH
      modifies this
      ensures stack == old(stack)
      ensures Fit(children, Levels(depth + 1), Names(stack)) && ShowsVariants(root, children, variants, Names(stack), depth)
      decreases Levels(depth), 0
    {
      children := [];
      for i := 0 to |variants|
        invariant stack == old(stack)
        invariant Fit(children, Levels(depth + 1), Names(stack))
        invariant ShowsVariants(root, children, variants[..i], Names(stack), depth)
      {
        var child := SchemaNode(VariantKey(variants[i], i), variants[i], depth + 1);
        var variant := if child.kind.Cycle? || child.kind.Note? then child else child.(kind := Variant);
        FitAdded(children, child, variant, Levels(depth + 1), Levels(depth + 1), Names(stack));
        VariantAdded(root, children, child, variant, variants, i, Names(stack), depth);
        children := children + [variant];
      }
      assert variants[..|variants|] == variants;
    }

    /** The members an object schema and its `allOf` parts declare; a part already open is a cycle. */
    method CollectMembers(schema: Value, given: Collected, hops: nat, ghost declared: Declared) returns (found: Collected)
      requires Distinct(stack) && Holds(given, declared)
      modifies this
      ensures stack == old(stack)
      ensures Holds(found, Merge(root, schema, Names(stack), hops, declared))
      decreases HopsLeft(hops), 2
    {
      found := given;
      if hops > MAX_DEPTH {
        return;
      }
      var parts := Parts(schema);
      ghost var open := Names(stack);
      for i := 0 to |parts|
        invariant stack == old(stack)
        invariant Holds(found, MergeParts(root, parts[..i], open, hops, declared))
      {
        assert parts[..i + 1][..i] == parts[..i];
        found := CollectPart(parts[i], found, hops, MergeParts(root, parts[..i], open, hops, declared));
      }
      assert parts[..|parts|] == parts;
      ghost var merged := MergeParts(root, parts, open, hops, declared);
      found := OwnMembers(schema, found, merged);
      found := found.(required := found.required + RequiredNames(schema));
    }

    method CollectPart(raw: Value, given: Collected, hops: nat, ghost declared: Declared) returns (found: Collected)
      requires Distinct(stack) && Holds(given, declared) && hops <= MAX_DEPTH
      modifies this
      ensures stack == old(stack)
      ensures Holds(found, MergePart(root, raw, Names(stack), hops, declared))
      decreases HopsLeft(hops), 1
    {
      match Follow(root, raw, None, MAX_REF_HOPS)
      case Unresolved(reference) =>
        found := WithCut(given, Leaf(reference, Note), declared);
      case Resolved(part, name) =>
        if name.Some? && name.value in stack {
          found := WithCut(given, Leaf(name.value, Cycle), declared);
        } else {
          found := OpenPart(part, name, given, hops, declared);
        }
    }

    /** While a named part is read, its name is on the stack. */
    method OpenPart(part: Value, name: Option<string>, given: Collected, hops: nat, ghost declared: Declared) returns (found: Collected)
      requires Distinct(stack) && Holds(given, declared) && hops <= MAX_DEPTH && (name.Some? ==> name.value !in stack)
      modifies this
      ensures stack == old(stack)
      ensures Holds(found, Merge(root, part, Names(stack) + Opened(name), hops + 1, declared))
      decreases HopsLeft(hops), 0
    {
      if name.Some? {
        stack := stack + [name.value];
      }
      assert Names(stack) == Names(old(stack)) + Opened(name);
      found := CollectMembers(part, given, hops + 1, declared);
      if name.Some? {
        stack := stack[..|stack| - 1];
      }
    }
  }

  method WithCut(given: Collected, leaf: Node, ghost declared: Declared) returns (found: Collected)
    requires Holds(given, declared) && IsCut(leaf)
    ensures Holds(found, declared.(cuts := declared.cuts + [leaf]))
  {
    found := given.(extra := given.extra + [leaf]);
  }

  method OwnMembers(schema: Value, given: Collected, ghost declared: Declared) returns (found: Collected)
    requires Holds(given, declared)
    ensures Holds(found, declared.(props := declared.props + OwnProperties(schema)))
  {
    found := given;
    var properties := OwnProperties(schema);
    var todo := properties.Keys;
    assert declared.props + (properties - todo) == declared.props;
    while todo != {}
      invariant todo <= properties.Keys
      invariant Holds(found, declared.(props := declared.props + (properties - todo)))
    {
      var name :| name in todo;
      ghost var m := declared.props + (properties - todo);
      found := Declare(found, name, properties[name], m);
      assert m[name := properties[name]] == declared.props + (properties - (todo - {name}));
      todo := todo - {name};
    }
    assert properties - {} == properties;
  }

  /** A later declaration of a member takes the place of an earlier one. */
  method Declare(given: Collected, name: string, prop: Value, ghost m: map<string, Value>) returns (found: Collected)
    requires Tidy(given) && Lists(given.props, m)
    ensures Tidy(found) && found.extra == given.extra && found.required == given.required
    ensures Lists(found.props, m[name := prop])
  {
    for i := 0 to |given.props|
      invariant forall j :: 0 <= j < i ==> given.props[j].0 != name
    {
      if given.props[i].0 == name {
        EntryReplaced(given.props, i, prop, m);
        return given.(props := given.props[i := (name, prop)]);
      }
    }
    EntryAdded(given.props, name, prop, m);
    found := given.(props := given.props + [(name, prop)]);
  }

  lemma EntryReplaced(props: seq<(string, Value)>, i: nat, prop: Value, m: map<string, Value>)
    requires i < |props| && Lists(props, m) && forall j, k :: 0 <= j < k < |props| ==> props[j].0 != props[k].0
    ensures Lists(props[i := (props[i].0, prop)], m[props[i].0 := prop])
  {
    var name, updated := props[i].0, props[i := (props[i].0, prop)];
    forall p | p in m && p != name ensures (p, m[p]) in updated {
      var j :| 0 <= j < |props| && props[j] == (p, m[p]);
      assert updated[j] == (p, m[p]);
    }
    assert updated[i] == (name, prop);
  }

  lemma EntryAdded(props: seq<(string, Value)>, name: string, prop: Value, m: map<string, Value>)
    requires Lists(props, m) && forall j :: 0 <= j < |props| ==> props[j].0 != name
    ensures Lists(props + [(name, prop)], m[name := prop])
  {
    var more := props + [(name, prop)];
    assert more[|props|] == (name, prop);
    forall p | p in m && p != name ensures (p, m[p]) in more {
      var j :| 0 <= j < |props| && props[j] == (p, m[p]);
      assert more[j] == (p, m[p]);
    }
  }

  ghost predicate PropsShown(root: Value, children: seq<Node>, found: Collected, n: nat, open: set<string>, depth: nat)
    requires n <= |found.props| && depth <= MAX_DEPTH
  {
    |children| == n && forall i :: 0 <= i < n ==>
      && children[i].key == found.props[i].0
      && children[i].required == (found.props[i].0 in found.required)
      && Shows(root, children[i], found.props[i].1, open, depth + 1)
      && Labelled(root, children[i], found.props[i].1, open, depth + 1)
  }

  lemma PropsShowMembers(root: Value, children: seq<Node>, found: Collected, declared: Declared, open: set<string>, depth: nat)
    requires depth <= MAX_DEPTH && PropsShown(root, children, found, |found.props|, open, depth) && Holds(found, declared)
    ensures MembersShown(root, children + found.extra, declared, open, depth)
  {
    forall p | p in declared.props ensures HasMember(root, children + found.extra, p, declared, open, depth) {
      var i :| 0 <= i < |found.props| && found.props[i] == (p, declared.props[p]);
      assert children[i].key == p && Shows(root, children[i], declared.props[p], open, depth + 1);
      HasMemberStays(root, children, found.extra, p, declared, open, depth);
    }
  }

  lemma MembersAccounted(root: Value, children: seq<Node>, found: Collected, schema: Value, open: set<string>, depth: nat)
    requires depth <= MAX_DEPTH && PropsShown(root, children, found, |found.props|, open, depth)
    requires Holds(found, MembersOf(root, schema, open))
    ensures IsObject(schema) ==> AllAccounted(root, children + found.extra, schema, open)
  {}

  lemma PropAdded(root: Value, children: seq<Node>, child: Node, member: Node, found: Collected, n: nat, open: set<string>, depth: nat)
    requires depth <= MAX_DEPTH && n < |found.props| && PropsShown(root, children, found, n, open, depth)
    requires child.key == found.props[n].0 && Shows(root, child, found.props[n].1, open, depth + 1)
    requires Labelled(root, child, found.props[n].1, open, depth + 1) && SameLabel(child, member)
    requires member.key == child.key && member.children == child.children && member.required == (child.key in found.required)
    ensures PropsShown(root, children + [member], found, n + 1, open, depth)
  {
    SameChildrenShow(root, child, member, found.props[n].1, open, depth + 1);
  }

  predicate SameLabel(a: Node, b: Node) {
    (a.kind.Cycle? <==> b.kind.Cycle?) && a.unfolds == b.unfolds
  }

  lemma MembersStay(root: Value, children: seq<Node>, more: seq<Node>, declared: Declared, open: set<string>, depth: nat)
    requires depth <= MAX_DEPTH && MembersShown(root, children, declared, open, depth)
    ensures MembersShown(root, children + more, declared, open, depth)
  {
    forall p | p in declared.props ensures HasMember(root, children + more, p, declared, open, depth) {
      HasMemberStays(root, children, more, p, declared, open, depth);
    }
  }

  lemma ChildAdded(root: Value, children: seq<Node>, child: Node, kind: NodeKind, raw: Value, open: set<string>, depth: nat)
    requires depth <= MAX_DEPTH && Shows(root, child, raw, open, depth + 1) && NameShown(root, child, raw, open, depth + 1)
    ensures HasChild(root, children + [child.(kind := kind)], child.key, raw, open, depth)
  {
    var added := child.(kind := kind);
    SameChildrenShow(root, child, added, raw, open, depth + 1);
    assert (children + [added])[|children|] == added;
  }

  lemma ChildPlaced(root: Value, children: seq<Node>, child: Node, kind: NodeKind, raw: Value, open: set<string>, depth: nat)
    requires depth <= MAX_DEPTH && Fit(children, Levels(depth) - 1, open)
    requires AtMost(child, Levels(depth + 1)) && NeverInsideItself(child, open)
    requires Shows(root, child, raw, open, depth + 1) && NameShown(root, child, raw, open, depth + 1)
    ensures Fit(children + [child.(kind := kind)], Levels(depth) - 1, open)
    ensures HasChild(root, children + [child.(kind := kind)], child.key, raw, open, depth)
  {
    FitAdded(children, child, child.(kind := kind), Levels(depth + 1), Levels(depth) - 1, open);
    ChildAdded(root, children, child, kind, raw, open, depth);
  }

  lemma VariantAdded(root: Value, shown: seq<Node>, child: Node, variant: Node, variants: seq<Value>, n: nat, open: set<string>, depth: nat)
    requires depth <= MAX_DEPTH && n < |variants| && ShowsVariants(root, shown, variants[..n], open, depth)
    requires child.key == VariantKey(variants[n], n) && Shows(root, child, variants[n], open, depth + 1)
    requires Labelled(root, child, variants[n], open, depth + 1) && SameLabel(child, variant)
    requires variant.key == child.key && variant.children == child.children
    ensures ShowsVariants(root, shown + [variant], variants[..n + 1], open, depth)
  {
    SameChildrenShow(root, child, variant, variants[n], open, depth + 1);
  }

  lemma GroupOver(root: Value, group: Node, variants: seq<Value>, open: set<string>, depth: nat)
    requires depth <= MAX_DEPTH && group.unfolds.None? && Fit(group.children, Levels(depth + 1), open)
    requires ShowsVariants(root, group.children, variants, open, depth)
    ensures Fit([group], Levels(depth) - 1, open)
    ensures HasVariants(root, [group], group.key, variants, open, depth)
  {
    assert open + Opened(None) == open;
    MoreLevels(group, Levels(depth + 1) + 1, Levels(depth) - 1);
    assert [group][0].key == group.key;
  }

  lemma ShapeStays(root: Value, shape: seq<Node>, more: seq<Node>, schema: Value, open: set<string>, depth: nat)
    requires depth <= MAX_DEPTH && ShapeShown(root, shape, schema, open, depth)
    ensures ShapeShown(root, shape + more, schema, open, depth)
  {
    assert [] + shape + more == shape + more;
    if IsObject(schema) {
      MembersStay(root, shape, more, MembersOf(root, schema, open), open, depth);
    }
    if IsObject(schema) && GetObject(schema, "additionalProperties").Some? {
      HasChildStays(root, [], shape, more, "{*}", Get(schema, "additionalProperties").value, open, depth);
    }
    if !IsObject(schema) && JsonType(schema) == Some("array") && Get(schema, "items").Some? {
      HasChildStays(root, [], shape, more, "[]", Get(schema, "items").value, open, depth);
    }
  }

  lemma VariantsStay(root: Value, a: seq<Node>, children: seq<Node>, b: seq<Node>, keyword: string, schema: Value, open: set<string>, depth: nat)
    requires depth <= MAX_DEPTH && VariantsShown(root, children, keyword, schema, open, depth)
    ensures VariantsShown(root, a + children + b, keyword, schema, open, depth)
  {
    if GetArray(schema, keyword).Some? {
      HasVariantsStays(root, a, children, b, keyword, GetArray(schema, keyword).value, open, depth);
    }
  }

  lemma Regrouped(a: seq<Node>, b: seq<Node>, c: seq<Node>)
    ensures a + (b + c) == a + b + c && (a + b) + c + [] == a + b + c
  {}

  lemma AllShown(root: Value, shape: seq<Node>, oneOf: seq<Node>, anyOf: seq<Node>, schema: Value, open: set<string>, depth: nat)
    requires depth <= MAX_DEPTH && !SinglePart(schema) && ShapeShown(root, shape, schema, open, depth)
    requires VariantsShown(root, oneOf, "oneOf", schema, open, depth) && VariantsShown(root, anyOf, "anyOf", schema, open, depth)
    requires AllAccounted(root, shape, schema, open)
    requires AllAccounted(root, oneOf, schema, open) && AllAccounted(root, anyOf, schema, open)
    ensures ShowsSchema(root, shape + oneOf + anyOf, schema, open, depth)
  {
    var all := shape + oneOf + anyOf;
    Regrouped(shape, oneOf, anyOf);
    AllAccountedTogether(root, shape, oneOf, schema, open);
    AllAccountedTogether(root, shape + oneOf, anyOf, schema, open);
    ShapeStays(root, shape, oneOf + anyOf, schema, open, depth);
    VariantsStay(root, shape, oneOf, anyOf, "oneOf", schema, open, depth);
    VariantsStay(root, shape + oneOf, anyOf, [], "anyOf", schema, open, depth);
  }

  lemma NodeOver(node: Node, name: Option<string>, open: set<string>, depth: nat)
    requires depth <= MAX_DEPTH && node.unfolds == name && Fit(node.children, Levels(depth) - 1, open)
    ensures AtMost(node, Levels(depth))
    ensures forall outer :: outer + Opened(name) == open && outer !! Opened(name) ==> NeverInsideItself(node, outer)
  {}

  lemma CollapsedPart(node: Node, inner: Node, name: Option<string>, open: set<string>, depth: nat)
    requires depth <= MAX_DEPTH
    requires AtMost(inner, Levels(depth + 1)) && NeverInsideItself(inner, open)
    requires node.unfolds == (if name.Some? then name else inner.unfolds) && node.children == inner.children
    ensures AtMost(node, Levels(depth))
    ensures forall outer :: outer + Opened(name) == open && outer !! Opened(name) ==> NeverInsideItself(node, outer)
  {
    MoreLevels(inner, Levels(depth + 1), Levels(depth));
    forall outer | outer + Opened(name) == open && outer !! Opened(name) ensures NeverInsideItself(node, outer) {
      forall i | 0 <= i < |node.children| ensures NeverInsideItself(node.children[i], outer + Opened(node.unfolds)) {
        FewerOpen(inner.children[i], open + Opened(inner.unfolds), outer + Opened(node.unfolds));
      }
    }
  }

  /** The tree of a body or payload: for every document, cyclic or not, the walk ends, no schema is
      unfolded inside itself, and the height is bounded by the depth limit alone. */
  method BodyNode(root: Value, key: string, raw: Value) returns (node: Node)
    ensures AtMost(node, 99)
    ensures NeverInsideItself(node, {})
    ensures node.key == key && Shows(root, node, raw, {}, 0) && Labelled(root, node, raw, {}, 0)
  {
    var walker := new Walker(root);
    node := walker.SchemaNode(key, raw, 0);
    assert Names([]) == {};
  }
}
