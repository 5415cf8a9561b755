/** Cutting an OpenAPI document into one snippet per operation, and merging snippets back. */
module OpenApiSplit {
  import opened Json
  import opened Reachability
  import SchemaRefs

  const COMPONENTS := "#/components/"

  datatype Category =
    | Schemas | Responses | Parameters | Examples | RequestBodies | Headers | SecuritySchemes | Links | Callbacks

  function CategoryName(c: Category): (name: string)
    ensures '/' !in name
  {
    match c
    case Schemas => "schemas"
    case Responses => "responses"
    case Parameters => "parameters"
    case Examples => "examples"
    case RequestBodies => "requestBodies"
    case Headers => "headers"
    case SecuritySchemes => "securitySchemes"
    case Links => "links"
    case Callbacks => "callbacks"
  }

  function CategoryNamed(name: string): Option<Category> {
    if name == "schemas" then Some(Schemas)
    else if name == "responses" then Some(Responses)
    else if name == "parameters" then Some(Parameters)
    else if name == "examples" then Some(Examples)
    else if name == "requestBodies" then Some(RequestBodies)
    else if name == "headers" then Some(Headers)
    else if name == "securitySchemes" then Some(SecuritySchemes)
    else if name == "links" then Some(Links)
    else if name == "callbacks" then Some(Callbacks)
    else None
  }

  datatype Id = Id(category: Category, name: string)

  /** Components by category and name, as serialised; none at all is no components section. */
  type Components = map<Id, Value>

  datatype Method = Get | Post | Put | Delete | Options | Head | Patch | Trace

  /** `shared` is what a path item holds beside its operations. */
  datatype PathEntry = PathItem(operations: map<Method, Value>, shared: Value) | PathReference(reference: string)

  /** `header` is the version, info and servers; `extra` what a document holds besides. */
  datatype Document = Document(header: Value, extra: Value, paths: map<string, PathEntry>, components: Components)

  // --- References ------------------------------------------------------------------------

  /** How a component is spelled after `#/components/`. */
  function KeyOf(x: Id): string {
    CategoryName(x.category) + "/" + x.name
  }

  /** The key split at its first slash. */
  function IdOf(key: string): Option<Id> {
    var category := Split(key, '/')[0];
    if |category| >= |key| then None
    else match CategoryNamed(category)
      case Some(c) => Some(Id(c, key[|category| + 1..]))
      case None => None
  }

  lemma {:induction false} SplitStart(a: string, b: string)
    requires '/' !in a
    ensures Split(a + "/" + b, '/')[0] == a
  {
    SplitAtSeparator(a, b, '/');
    SplitWithoutSeparator(a, '/');
  }

  lemma KeyRoundTrip(x: Id)
    ensures IdOf(KeyOf(x)) == Some(x)
  {
    var category := CategoryName(x.category);
    SplitStart(category, x.name);
    assert KeyOf(x)[|category| + 1..] == x.name;
    assert CategoryNamed(category) == Some(x.category);
  }

  lemma IdIsKey(key: string)
    requires IdOf(key).Some?
    ensures KeyOf(IdOf(key).value) == key
  {
    FirstPieceHasNoSeparator(key, '/');
    var category := Split(key, '/')[0];
    assert CategoryName(CategoryNamed(category).value) == category;
  }

  /** The component keys a serialised value refers to. */
  function CollectRefs(v: Value): set<string> {
    set r | r in SchemaRefs.AllRefs(v) && COMPONENTS <= r :: r[|COMPONENTS|..]
  }

  /** The dependency graph of the components. */
  function Graph(components: Components): string -> set<string> {
    (key: string) =>
      match IdOf(key) case Some(x) => if x in components then CollectRefs(components[x]) else {} case None => {}
  }

  ghost predicate Reached(components: Components, operation: Value, key: string) {
    Reach(CollectRefs(operation), Graph(components), key)
  }

  // --- One snippet's components -------------------------------------------------------------

  ghost function AllKeys(components: Components, operation: Value): set<string> {
    CollectRefs(operation) + set x, k | x in components && k in CollectRefs(components[x]) :: k
  }

  ghost predicate Consistent(components: Components, operation: Value, visited: set<string>, toVisit: seq<string>) {
    && (forall k :: k in visited || k in toVisit ==> Reached(components, operation, k) && k in AllKeys(components, operation))
    && (forall k :: k in CollectRefs(operation) ==> k in visited || k in toVisit)
    && (forall k, n :: k in visited && n in Graph(components)(k) ==> n in visited || n in toVisit)
  }

  lemma VisitStep(components: Components, operation: Value, visited: set<string>, toVisit: seq<string>, key: string, more: seq<string>)
    requires Consistent(components, operation, visited, toVisit + [key]) && key !in visited
    requires forall n :: n in more <==> n in Graph(components)(key) && n !in visited + {key}
    ensures Consistent(components, operation, visited + {key}, toVisit + more)
    ensures AllKeys(components, operation) - (visited + {key}) < AllKeys(components, operation) - visited
  {
    assert key in toVisit + [key];
    assert key in AllKeys(components, operation) - visited;
    forall n | n in Graph(components)(key) ensures Reached(components, operation, n) && n in AllKeys(components, operation) {
      ReachStep(CollectRefs(operation), Graph(components), key, n);
    }
    forall k, n | k in visited + {key} && n in Graph(components)(k) ensures n in visited + {key} || n in toVisit + more {
      if k in visited {
        assert n in visited || n in toVisit + [key];
      }
    }
    forall k | k in CollectRefs(operation) ensures k in visited + {key} || k in toVisit + more {
      assert k in visited || k in toVisit + [key];
    }
  }

  lemma NothingVisited(components: Components, operation: Value, toVisit: seq<string>)
    requires forall k :: k in toVisit <==> k in CollectRefs(operation)
    ensures Consistent(components, operation, {}, toVisit)
  {
    forall k | k in CollectRefs(operation) ensures Reached(components, operation, k) {
      ReachStart(CollectRefs(operation), Graph(components), k);
    }
  }

  lemma SkipVisited(components: Components, operation: Value, visited: set<string>, rest: seq<string>, key: string)
    requires Consistent(components, operation, visited, rest + [key]) && key in visited
    ensures Consistent(components, operation, visited, rest)
  {
    assert forall k :: k in rest + [key] <==> k in rest || k == key;
  }

  ghost predicate ExactlyReached(components: Components, operation: Value, visited: set<string>) {
    forall k :: k in visited <==> Reached(components, operation, k)
  }

  lemma VisitedIsReached(components: Components, operation: Value, visited: set<string>)
    requires Consistent(components, operation, visited, [])
    ensures ExactlyReached(components, operation, visited)
  {
    assert forall k, n :: k in visited && n in Graph(components)(k) ==> n in visited;
    forall k | Reached(components, operation, k) ensures k in visited {
      ReachStaysWithin(CollectRefs(operation), Graph(components), visited, k);
    }
  }

  /** A set in some order. */
  method ToSeq(s: set<string>) returns (list: seq<string>)
    ensures forall x :: x in list <==> x in s
  {
    list := [];
    var todo := s;
    while todo != {}
      invariant todo <= s
      invariant forall x :: x in list <==> x in s - todo
    {
      var x :| x in todo;
      list, todo := list + [x], todo - {x};
    }
  }

  /** Pop one key; a new one is visited and its unvisited neighbours are pushed. */
  method VisitNext(components: Components, operation: Value, visited: set<string>, toVisit: seq<string>)
    returns (visited': set<string>, toVisit': seq<string>)
    requires toVisit != [] && Consistent(components, operation, visited, toVisit)
    ensures Consistent(components, operation, visited', toVisit')
    ensures || AllKeys(components, operation) - visited' < AllKeys(components, operation) - visited
            || (visited' == visited && |toVisit'| < |toVisit|)
  {
    var key, rest := toVisit[|toVisit| - 1], toVisit[..|toVisit| - 1];
    assert toVisit == rest + [key];
    if key in visited {
      SkipVisited(components, operation, visited, rest, key);
      return visited, rest;
    }
    var more := ToSeq(Graph(components)(key) - (visited + {key}));
    VisitStep(components, operation, visited, rest, key, more);
    return visited + {key}, rest + more;
  }

  /** The worklist: `toVisit` is a stack, `visited` grows; cycles end because a key is visited once. */
  method VisitAll(components: Components, operation: Value) returns (visited: set<string>)
    ensures ExactlyReached(components, operation, visited)
  {
    var toVisit := ToSeq(CollectRefs(operation));
    visited := {};
    NothingVisited(components, operation, toVisit);
    while toVisit != []
      invariant Consistent(components, operation, visited, toVisit)
      decreases AllKeys(components, operation) - visited, |toVisit|
    {
      visited, toVisit := VisitNext(components, operation, visited, toVisit);
    }
    VisitedIsReached(components, operation, visited);
  }

  /** What an operation reaches, with its definitions. */
  ghost function Used(components: Components, operation: Value): Components {
    map x | x in components && Reached(components, operation, KeyOf(x)) :: components[x]
  }

  /** The components among the visited keys. */
  ghost predicate Picked(components: Components, keys: set<string>, used: Components) {
    && (forall x :: x in used <==> x in components && KeyOf(x) in keys)
    && (forall x :: x in used ==> used[x] == components[x])
  }

  lemma PickOne(components: Components, keys: set<string>, used: Components, key: string)
    requires Picked(components, keys, used)
    ensures Picked(components, keys + {key},
              match IdOf(key)
              case Some(x) => if x in components then used[x := components[x]] else used
              case None => used)
  {
    forall x ensures KeyOf(x) == key <==> IdOf(key) == Some(x) {
      KeyRoundTrip(x);
      if IdOf(key).Some? {
        IdIsKey(key);
      }
    }
  }

  method Pick(components: Components, used: Components, key: string, ghost keys: set<string>) returns (more: Components)
    requires Picked(components, keys, used)
    ensures Picked(components, keys + {key}, more)
  {
    PickOne(components, keys, used, key);
    more := used;
    match IdOf(key)
    case None =>
    case Some(x) =>
      if x in components {
        more := used[x := components[x]];
      }
  }

  lemma PickedIsUsed(components: Components, operation: Value, keys: set<string>, used: Components)
    requires Picked(components, keys, used) && ExactlyReached(components, operation, keys)
    ensures used == Used(components, operation)
  {}

  method PickAll(components: Components, keys: set<string>) returns (used: Components)
    ensures Picked(components, keys, used)
  {
    used := map[];
    var todo := keys;
    while todo != {}
      invariant todo <= keys
      invariant Picked(components, keys - todo, used)
    {
      var key :| key in todo;
      used := Pick(components, used, key, keys - todo);
      assert keys - todo + {key} == keys - (todo - {key});
      todo := todo - {key};
    }
    assert keys - todo == keys;
  }

  method ExtractUsedComponents(components: Components, operation: Value) returns (used: Components)
    ensures used == Used(components, operation)
  {
    var visited := VisitAll(components, operation);
    used := PickAll(components, visited);
    PickedIsUsed(components, operation, visited, used);
  }

  // --- The same in the document's own spelling -----------------------------------------------

  /** How a reference names a component. */
  function Spelling(x: Id): string {
    "#/components/" + CategoryName(x.category) + "/" + x.name
  }

  /** The components that a value names, wherever in it the reference stands. */
  function NamedBy(components: Components, v: Value): set<Id> {
    set x | x in components && Spelling(x) in SchemaRefs.AllRefs(v)
  }

  function Uses(components: Components): Id -> set<Id> {
    (x: Id) => if x in components then NamedBy(components, components[x]) else {}
  }

  lemma SpelledIff(v: Value, x: Id)
    ensures KeyOf(x) in CollectRefs(v) <==> Spelling(x) in SchemaRefs.AllRefs(v)
  {
    var prefix := "#/components/";
    assert Spelling(x) == prefix + KeyOf(x);
    assert (prefix + KeyOf(x))[|prefix|..] == KeyOf(x);
    if KeyOf(x) in CollectRefs(v) {
      var r :| r in SchemaRefs.AllRefs(v) && COMPONENTS <= r && r[|COMPONENTS|..] == KeyOf(x);
      assert r == COMPONENTS + KeyOf(x);
    }
  }

  ghost predicate Needed(components: Components, operation: Value, x: Id) {
    Reach(NamedBy(components, operation), Uses(components), x)
  }

  lemma {:induction false} NeededIsUsed(components: Components, operation: Value, x: Id)
    requires Needed(components, operation, x)
    ensures x in Used(components, operation)
  {
    forall y | y in NamedBy(components, operation) ensures y in Used(components, operation) {
      SpelledIff(operation, y);
      ReachStart(CollectRefs(operation), Graph(components), KeyOf(y));
    }
    forall u: Id, w: Id | u in Used(components, operation) && w in Uses(components)(u) ensures w in Used(components, operation) {
      SpelledIff(components[u], w);
      KeyRoundTrip(u);
      ReachStep(CollectRefs(operation), Graph(components), KeyOf(u), KeyOf(w));
    }
    ReachInduction(NamedBy(components, operation), Uses(components), (y: Id) => y in Used(components, operation), x);
  }

  /** A key that names a component is needed. */
  ghost predicate KeyNeeded(components: Components, operation: Value, key: string) {
    match IdOf(key) case Some(x) => x in components ==> Needed(components, operation, x) case None => true
  }

  lemma KeyNeededStart(components: Components, operation: Value, key: string)
    requires key in CollectRefs(operation)
    ensures KeyNeeded(components, operation, key)
  {
    if IdOf(key).Some? && IdOf(key).value in components {
      IdIsKey(key);
      SpelledIff(operation, IdOf(key).value);
      ReachStart(NamedBy(components, operation), Uses(components), IdOf(key).value);
    }
  }

  lemma KeyNeededStep(components: Components, operation: Value, key: string, next: string)
    requires KeyNeeded(components, operation, key) && next in Graph(components)(key)
    ensures KeyNeeded(components, operation, next)
  {
    if IdOf(next).Some? && IdOf(next).value in components {
      IdIsKey(next);
      var x, y := IdOf(key).value, IdOf(next).value;
      SpelledIff(components[x], y);
      assert y in Uses(components)(x);
      ReachStep(NamedBy(components, operation), Uses(components), x, y);
    }
  }

  /** A snippet carries exactly the components reachable from the operation by the references as spelled. */
  lemma {:induction false} UsedIffNeeded(components: Components, operation: Value, x: Id)
    ensures x in Used(components, operation) <==> x in components && Needed(components, operation, x)
  {
    if x in Used(components, operation) {
      forall key | key in CollectRefs(operation) ensures KeyNeeded(components, operation, key) {
        KeyNeededStart(components, operation, key);
      }
      forall u, w | KeyNeeded(components, operation, u) && w in Graph(components)(u) ensures KeyNeeded(components, operation, w) {
        KeyNeededStep(components, operation, u, w);
      }
      ReachInduction(CollectRefs(operation), Graph(components), (key: string) => KeyNeeded(components, operation, key), KeyOf(x));
      KeyRoundTrip(x);
    }
    if Needed(components, operation, x) {
      NeededIsUsed(components, operation, x);
    }
  }

  /** Every reference in a snippet, from the operation or from a carried component, that resolves in the
      original resolves in the snippet, to the same definition; and nothing is carried that neither the
      operation nor another carried component names. */
  lemma SnippetIsExact(components: Components, operation: Value, x: Id)
    ensures var used := Used(components, operation);
            && (x in components && Spelling(x) in SchemaRefs.AllRefs(operation) ==> x in used)
            && (forall y :: y in used && x in components && Spelling(x) in SchemaRefs.AllRefs(used[y]) ==> x in used)
            && (x in used ==> x in components && used[x] == components[x])
            && (x in used && Spelling(x) !in SchemaRefs.AllRefs(operation) ==>
                  exists y :: y in used && Spelling(x) in SchemaRefs.AllRefs(used[y]))
  {
    var used := Used(components, operation);
    UsedIffNeeded(components, operation, x);
    if x in components && Spelling(x) in SchemaRefs.AllRefs(operation) {
      ReachStart(NamedBy(components, operation), Uses(components), x);
    }
    forall y | y in used && x in components && Spelling(x) in SchemaRefs.AllRefs(used[y]) ensures x in used {
      UsedIffNeeded(components, operation, y);
      assert x in Uses(components)(y);
      ReachStep(NamedBy(components, operation), Uses(components), y, x);
    }
    if x in used && Spelling(x) !in SchemaRefs.AllRefs(operation) {
      NamedByCarried(components, operation, x);
    }
  }

  lemma NamedByCarried(components: Components, operation: Value, x: Id)
    requires x in Used(components, operation) && Spelling(x) !in SchemaRefs.AllRefs(operation)
    ensures exists y :: y in Used(components, operation) && Spelling(x) in SchemaRefs.AllRefs(Used(components, operation)[y])
  {
    UsedIffNeeded(components, operation, x);
    ReachedLast(NamedBy(components, operation), Uses(components), x);
    var y :| Needed(components, operation, y) && x in Uses(components)(y);
    NeededIsUsed(components, operation, y);
    assert y in Used(components, operation);
  }

  // --- Splitting -----------------------------------------------------------------------------

  datatype Place = Place(path: string, verb: Method)

  /** Where a document has operations; path items given by reference are passed over. */
  function Places(d: Document): (places: set<Place>)
    ensures forall at :: at in places <==> HasOperation(d, at)
  {
    var places := set p, m | p in d.paths && d.paths[p].PathItem? && m in d.paths[p].operations :: Place(p, m);
    assert forall at :: HasOperation(d, at) ==> Place(at.path, at.verb) in places;
    places
  }

  predicate HasOperation(d: Document, at: Place) {
    at.path in d.paths && d.paths[at.path].PathItem? && at.verb in d.paths[at.path].operations
  }

  function OperationAt(d: Document, at: Place): Value
    requires at in Places(d)
  {
    d.paths[at.path].operations[at.verb]
  }

  /** A single-operation document around the given components. */
  function Around(d: Document, at: Place, components: Components): Document
    requires at in Places(d)
  {
    Document(d.header, Null, map[at.path := PathItem(map[at.verb := OperationAt(d, at)], Null)], components)
  }

  ghost function SnippetOf(d: Document, at: Place): Document
    requires at in Places(d)
  {
    Around(d, at, Used(d.components, OperationAt(d, at)))
  }

  datatype Endpoint = Endpoint(at: Place, snippet: Document)

  ghost function PlacesOf(endpoints: seq<Endpoint>): set<Place> {
    set e | e in endpoints :: e.at
  }

  ghost predicate AllCut(d: Document, endpoints: seq<Endpoint>) {
    forall e :: e in endpoints ==> e.at in Places(d) && e.snippet == SnippetOf(d, e.at)
  }

  lemma OneMoreCut(d: Document, endpoints: seq<Endpoint>, e: Endpoint)
    requires AllCut(d, endpoints) && e.at in Places(d) && e.snippet == SnippetOf(d, e.at)
    ensures AllCut(d, endpoints + [e]) && PlacesOf(endpoints + [e]) == PlacesOf(endpoints) + {e.at}
  {}

  method CutSnippet(d: Document, at: Place) returns (snippet: Document)
    requires at in Places(d)
    ensures snippet == SnippetOf(d, at)
  {
    var used := ExtractUsedComponents(d.components, OperationAt(d, at));
    snippet := Around(d, at, used);
  }

  /** One snippet per operation, each once. */
  method SplitOpenApi(d: Document) returns (endpoints: seq<Endpoint>)
    ensures PlacesOf(endpoints) == Places(d) && |endpoints| == |Places(d)|
    ensures AllCut(d, endpoints)
  {
    endpoints := [];
    var todo := Places(d);
    while todo != {}
      invariant todo <= Places(d) && |endpoints| + |todo| == |Places(d)|
      invariant PlacesOf(endpoints) == Places(d) - todo
      invariant AllCut(d, endpoints)
    {
      var at :| at in todo;
      var snippet := CutSnippet(d, at);
      OneMoreCut(d, endpoints, Endpoint(at, snippet));
      endpoints := endpoints + [Endpoint(at, snippet)];
      todo := todo - {at};
    }
  }

  // --- Merging -----------------------------------------------------------------------------------

  /** The categories a later snippet contributes to. */
  predicate Carried(c: Category) {
    !c.Examples? && !c.Links? && !c.Callbacks?
  }

  /** Operations of the later item win; with a reference on either side nothing is merged. */
  function MergeEntry(merged: PathEntry, later: PathEntry): PathEntry {
    if merged.PathItem? && later.PathItem?
    then merged.(operations := merged.operations + later.operations)
    else merged
  }

  function MergePaths(merged: map<string, PathEntry>, later: map<string, PathEntry>): map<string, PathEntry> {
    map p | p in merged.Keys + later.Keys ::
      if p !in later then merged[p] else if p !in merged then later[p] else MergeEntry(merged[p], later[p])
  }

  /** A component already there stays. */
  function MergeComponents(merged: Components, later: Components): Components {
    (map x | x in later && Carried(x.category) :: later[x]) + merged
  }

  function MergeInto(merged: Document, later: Document): Document {
    merged.(paths := MergePaths(merged.paths, later.paths), components := MergeComponents(merged.components, later.components))
  }

  function Merged(snippets: seq<Document>): Document
    requires snippets != []
  {
    var last := |snippets| - 1;
    if last == 0 then snippets[0] else MergeInto(Merged(snippets[..last]), snippets[last])
  }

  method MergeEndpoints(snippets: seq<Document>) returns (merged: Option<Document>)
    ensures snippets == [] ==> merged == None
    ensures snippets != [] ==> merged == Some(Merged(snippets))
  {
    if snippets == [] {
      return None;
    }
    var base := snippets[0];
    for i := 1 to |snippets|
      invariant base == Merged(snippets[..i])
    {
      assert snippets[..i + 1][..i] == snippets[..i];
      base := MergeInto(base, snippets[i]);
    }
    assert snippets[..|snippets|] == snippets;
    return Some(base);
  }

  // What merging any snippets keeps, whoever cut them.

  /** The snippet brings the component: from any but the first, only in the merged categories. */
  predicate Brings(snippets: seq<Document>, i: nat, x: Id)
    requires i < |snippets|
  {
    x in snippets[i].components && (i == 0 || (!x.category.Examples? && !x.category.Links? && !x.category.Callbacks?))
  }

  ghost predicate BroughtFirst(snippets: seq<Document>, x: Id, i: nat, v: Value) {
    && i < |snippets| && Brings(snippets, i, x) && snippets[i].components[x] == v
    && forall j :: 0 <= j < i ==> !Brings(snippets, j, x)
  }

  /** A component is that of the first snippet to bring it. */
  lemma {:induction false} FirstComponentStays(snippets: seq<Document>, x: Id, v: Value)
    requires snippets != []
    ensures (x in Merged(snippets).components && Merged(snippets).components[x] == v) <==> exists i: nat :: BroughtFirst(snippets, x, i, v)
    decreases |snippets|
  {
    var last := |snippets| - 1;
    if last == 0 {
      if x in snippets[0].components {
        assert BroughtFirst(snippets, x, 0, snippets[0].components[x]);
      }
    } else {
      var front := snippets[..last];
      FirstComponentStays(front, x, v);
      assert forall i :: 0 <= i < last ==> (Brings(front, i, x) <==> Brings(snippets, i, x));
      if i: nat :| BroughtFirst(front, x, i, v) {
        assert BroughtFirst(snippets, x, i, v);
      }
      if x in Merged(front).components {
        var w := Merged(front).components[x];
        FirstComponentStays(front, x, w);
        var i: nat :| BroughtFirst(front, x, i, w);
        assert Brings(snippets, i, x);
      } else {
        NotBrought(front, x);
        if Brings(snippets, last, x) {
          assert BroughtFirst(snippets, x, last, snippets[last].components[x]);
        }
      }
    }
  }

  lemma {:induction false} NotBrought(snippets: seq<Document>, x: Id)
    requires snippets != [] && x !in Merged(snippets).components
    ensures forall i :: 0 <= i < |snippets| ==> !Brings(snippets, i, x)
    decreases |snippets|
  {
    var last := |snippets| - 1;
    if last > 0 {
      NotBrought(snippets[..last], x);
      assert forall i :: 0 <= i < last ==> (Brings(snippets[..last], i, x) <==> Brings(snippets, i, x));
    }
  }

  ghost predicate GivenLast(snippets: seq<Document>, at: Place, i: nat, v: Value) {
    && i < |snippets| && HasOperation(snippets[i], at) && snippets[i].paths[at.path].operations[at.verb] == v
    && forall j :: i < j < |snippets| ==> !HasOperation(snippets[j], at)
  }

  ghost predicate AllItems(snippets: seq<Document>) {
    forall i, p :: 0 <= i < |snippets| && p in snippets[i].paths ==> snippets[i].paths[p].PathItem?
  }

  lemma {:induction false} MergedItems(snippets: seq<Document>)
    requires snippets != [] && AllItems(snippets)
    ensures forall p :: p in Merged(snippets).paths ==> Merged(snippets).paths[p].PathItem?
    ensures Merged(snippets).header == snippets[0].header && Merged(snippets).extra == snippets[0].extra
    decreases |snippets|
  {
    if |snippets| > 1 {
      assert AllItems(snippets[..|snippets| - 1]);
      MergedItems(snippets[..|snippets| - 1]);
    }
  }

  /** An operation is that of the last snippet to give it; header and the rest are the first snippet's. */
  lemma {:induction false} LastOperationWins(snippets: seq<Document>, at: Place, v: Value)
    requires snippets != [] && AllItems(snippets)
    ensures var m := Merged(snippets);
            && m.header == snippets[0].header && m.extra == snippets[0].extra
            && ((HasOperation(m, at) && m.paths[at.path].operations[at.verb] == v) <==> exists i: nat :: GivenLast(snippets, at, i, v))
    decreases |snippets|
  {
    var last := |snippets| - 1;
    MergedItems(snippets);
    if last == 0 {
      if HasOperation(snippets[0], at) {
        assert GivenLast(snippets, at, 0, snippets[0].paths[at.path].operations[at.verb]);
      }
    } else {
      var front := snippets[..last];
      assert AllItems(front);
      LastOperationWins(front, at, v);
      MergedItems(front);
      MergedOnto(Merged(front), snippets[last], at);
      GivenLastStep(snippets, at, v);
    }
  }

  lemma GivenLastStep(snippets: seq<Document>, at: Place, v: Value)
    requires |snippets| > 1
    ensures var last := |snippets| - 1;
            (exists i: nat :: GivenLast(snippets, at, i, v)) <==>
              if HasOperation(snippets[last], at) then snippets[last].paths[at.path].operations[at.verb] == v
              else exists i: nat :: GivenLast(snippets[..last], at, i, v)
  {
    var last := |snippets| - 1;
    var front := snippets[..last];
    if HasOperation(snippets[last], at) {
      assert GivenLast(snippets, at, last, snippets[last].paths[at.path].operations[at.verb]);
    } else {
      if i: nat :| GivenLast(front, at, i, v) {
        assert GivenLast(snippets, at, i, v);
      }
      if i: nat :| GivenLast(snippets, at, i, v) {
        assert GivenLast(front, at, i, v);
      }
    }
  }

  ghost predicate FirstWithPath(snippets: seq<Document>, p: string, i: nat) {
    i < |snippets| && p in snippets[i].paths && forall j :: 0 <= j < i ==> p !in snippets[j].paths
  }

  /** What a path item holds beside its operations is that of the first snippet with the path. */
  lemma {:induction false} FirstItemStays(snippets: seq<Document>, p: string)
    requires snippets != [] && AllItems(snippets)
    ensures p in Merged(snippets).paths <==> exists i: nat :: FirstWithPath(snippets, p, i)
    ensures forall i: nat :: FirstWithPath(snippets, p, i) ==>
              p in Merged(snippets).paths && Merged(snippets).paths[p].PathItem? &&
              Merged(snippets).paths[p].shared == snippets[i].paths[p].shared
    decreases |snippets|
  {
    var last := |snippets| - 1;
    MergedItems(snippets);
    if last == 0 {
      if p in snippets[0].paths {
        assert FirstWithPath(snippets, p, 0);
      }
    } else {
      var front := snippets[..last];
      assert AllItems(front);
      FirstItemStays(front, p);
      MergedItems(front);
      ItemOnto(Merged(front), snippets[last], p);
      assert forall i: nat :: i < last ==> (FirstWithPath(front, p, i) <==> FirstWithPath(snippets, p, i));
      if p !in Merged(front).paths {
        NoneWithPath(front, p);
        assert p in snippets[last].paths ==> FirstWithPath(snippets, p, last);
      }
    }
  }

  lemma ItemOnto(m: Document, later: Document, p: string)
    requires forall q :: q in m.paths ==> m.paths[q].PathItem?
    requires forall q :: q in later.paths ==> later.paths[q].PathItem?
    ensures var r := MergeInto(m, later);
            && (p in r.paths <==> p in m.paths || p in later.paths)
            && (p in m.paths ==> r.paths[p].PathItem? && r.paths[p].shared == m.paths[p].shared)
            && (p in later.paths && p !in m.paths ==> r.paths[p] == later.paths[p])
  {}

  lemma {:induction false} NoneWithPath(snippets: seq<Document>, p: string)
    requires snippets != [] && p !in Merged(snippets).paths
    ensures forall i :: 0 <= i < |snippets| ==> p !in snippets[i].paths
    decreases |snippets|
  {
    var last := |snippets| - 1;
    if last > 0 {
      NoneWithPath(snippets[..last], p);
    }
  }

  lemma MergedOnto(m: Document, later: Document, at: Place)
    requires forall p :: p in m.paths ==> m.paths[p].PathItem?
    requires forall p :: p in later.paths ==> later.paths[p].PathItem?
    ensures var r := MergeInto(m, later);
            && (HasOperation(r, at) <==> HasOperation(m, at) || HasOperation(later, at))
            && (HasOperation(later, at) ==> r.paths[at.path].operations[at.verb] == later.paths[at.path].operations[at.verb])
            && (HasOperation(m, at) && !HasOperation(later, at) ==>
                  r.paths[at.path].operations[at.verb] == m.paths[at.path].operations[at.verb])
  {}

  // --- The round trip --------------------------------------------------------------------------------

  /** The snippets of a document at a list of places, in that order. */
  ghost predicate SnippetsAt(d: Document, places: seq<Place>, snippets: seq<Document>) {
    && |snippets| == |places|
    && forall i :: 0 <= i < |places| ==> places[i] in Places(d) && snippets[i] == SnippetOf(d, places[i])
  }

  ghost function Elements(places: seq<Place>): set<Place> {
    set at | at in places
  }

  /** The operations at these places and no others, under items without fields of their own. */
  ghost predicate OperationsOf(d: Document, places: set<Place>, m: Document) {
    && (forall at :: at in places ==> HasOperation(d, at))
    && (forall at :: HasOperation(m, at) <==> at in places)
    && (forall at :: at in places ==> m.paths[at.path].operations[at.verb] == d.paths[at.path].operations[at.verb])
    && (forall p :: p in m.paths ==> ItemOf(places, p, m.paths[p]))
  }

  ghost predicate ItemOf(places: set<Place>, p: string, entry: PathEntry) {
    entry.PathItem? && entry.shared == Null && exists at :: at in places && at.path == p
  }

  /** Some operation at these places reaches the component. */
  ghost predicate ReachedFrom(d: Document, places: set<Place>, x: Id) {
    exists at :: at in places && HasOperation(d, at) && x in Used(d.components, d.paths[at.path].operations[at.verb])
  }

  /** For the carried categories: exactly what one of the operations reaches, as defined. */
  ghost predicate ComponentsOf(d: Document, places: set<Place>, components: Components) {
    && (forall x :: x in components ==> x in d.components && components[x] == d.components[x])
    && (forall x: Id :: !x.category.Examples? && !x.category.Links? && !x.category.Callbacks? ==>
          (x in components <==> ReachedFrom(d, places, x)))
  }

  ghost predicate MergedRight(d: Document, places: set<Place>, m: Document) {
    m.header == d.header && m.extra == Null && OperationsOf(d, places, m) && ComponentsOf(d, places, m.components)
  }

  lemma MergedOperation(m: Document, d: Document, at: Place, components: Components, b: Place)
    requires at in Places(d) && forall p :: p in m.paths ==> m.paths[p].PathItem?
    ensures var r := MergeInto(m, Around(d, at, components));
            && (HasOperation(r, b) <==> HasOperation(m, b) || b == at)
            && (HasOperation(r, b) && b == at ==> r.paths[b.path].operations[b.verb] == OperationAt(d, at))
            && (HasOperation(r, b) && b != at ==> r.paths[b.path].operations[b.verb] == m.paths[b.path].operations[b.verb])
  {}

  lemma MergedOperationsStep(d: Document, places: set<Place>, m: Document, at: Place)
    requires OperationsOf(d, places, m) && at in Places(d)
    ensures OperationsOf(d, places + {at}, MergeInto(m, SnippetOf(d, at)))
  {
    var r := MergeInto(m, SnippetOf(d, at));
    forall b ensures HasOperation(r, b) <==> b in places + {at} {
      MergedOperation(m, d, at, SnippetOf(d, at).components, b);
    }
    forall b | b in places + {at} ensures r.paths[b.path].operations[b.verb] == d.paths[b.path].operations[b.verb] {
      MergedOperation(m, d, at, SnippetOf(d, at).components, b);
    }
    forall p | p in r.paths ensures ItemOf(places + {at}, p, r.paths[p]) {
      if p in m.paths {
        assert ItemOf(places, p, m.paths[p]);
        var b :| b in places && b.path == p;
        assert b in places + {at};
      } else {
        assert at in places + {at} && at.path == p;
      }
    }
  }

  lemma MergedComponentsStep(d: Document, places: set<Place>, components: Components, at: Place)
    requires ComponentsOf(d, places, components) && at in Places(d)
    ensures ComponentsOf(d, places + {at}, MergeComponents(components, SnippetOf(d, at).components))
  {
    var r := MergeComponents(components, SnippetOf(d, at).components);
    forall x: Id | !x.category.Examples? && !x.category.Links? && !x.category.Callbacks?
      ensures x in r <==> ReachedFrom(d, places + {at}, x)
    {
      assert x in r <==> x in components || x in Used(d.components, OperationAt(d, at));
    }
  }

  lemma MergedStep(d: Document, places: set<Place>, m: Document, at: Place)
    requires MergedRight(d, places, m) && at in Places(d)
    ensures MergedRight(d, places + {at}, MergeInto(m, SnippetOf(d, at)))
  {
    MergedOperationsStep(d, places, m, at);
    MergedComponentsStep(d, places, m.components, at);
  }

  lemma FirstSnippet(d: Document, at: Place)
    requires at in Places(d)
    ensures MergedRight(d, {at}, SnippetOf(d, at))
  {
    var m := SnippetOf(d, at);
    forall b ensures HasOperation(m, b) <==> b == at {}
    assert at in {at};
  }

  lemma {:induction false} MergedSnippets(d: Document, places: seq<Place>, snippets: seq<Document>)
    requires places != [] && SnippetsAt(d, places, snippets)
    ensures MergedRight(d, Elements(places), Merged(snippets))
    decreases |places|
  {
    LastSnippet(d, places, snippets);
    if |places| == 1 {
      FirstSnippet(d, places[0]);
      assert Elements(places) == {places[0]} && Merged(snippets) == snippets[0];
    } else {
      MergedSnippets(d, places[..|places| - 1], snippets[..|places| - 1]);
      MergedOneMore(d, places, snippets);
    }
  }

  lemma {:induction false} MergedOneMore(d: Document, places: seq<Place>, snippets: seq<Document>)
    requires |places| > 1 && |snippets| == |places|
    requires places[|places| - 1] in Places(d) && snippets[|places| - 1] == SnippetOf(d, places[|places| - 1])
    requires MergedRight(d, Elements(places[..|places| - 1]), Merged(snippets[..|places| - 1]))
    ensures MergedRight(d, Elements(places), Merged(snippets))
  {
    var last := |places| - 1;
    LastElement(places);
    MergedStep(d, Elements(places[..last]), Merged(snippets[..last]), places[last]);
    assert Merged(snippets) == MergeInto(Merged(snippets[..last]), snippets[last]);
  }

  lemma LastSnippet(d: Document, places: seq<Place>, snippets: seq<Document>)
    requires places != [] && SnippetsAt(d, places, snippets)
    ensures var last := |places| - 1;
            && SnippetsAt(d, places[..last], snippets[..last])
            && places[last] in Places(d) && snippets[last] == SnippetOf(d, places[last])
  {}

  lemma LastElement(places: seq<Place>)
    requires places != []
    ensures Elements(places) == Elements(places[..|places| - 1]) + {places[|places| - 1]}
  {}

  /** Split then merge, in any order of the snippets and with repetitions: every original operation at
      its path and method and no others, and of every carried category exactly what they reach. */
  lemma SplitMergeRoundTrip(d: Document, places: seq<Place>, snippets: seq<Document>)
    requires places != [] && SnippetsAt(d, places, snippets) && Elements(places) == Places(d)
    ensures var m := Merged(snippets);
            && m.header == d.header
            && Places(m) == Places(d)
            && (forall at :: at in Places(d) ==> OperationAt(m, at) == OperationAt(d, at))
            && (forall x: Id :: x.category in {Schemas, Responses, Parameters, RequestBodies, Headers, SecuritySchemes} ==>
                  (x in m.components <==> NeededSomewhere(d, x)))
            && (forall x :: x in m.components ==> x in d.components && m.components[x] == d.components[x])
  {
    MergedSnippets(d, places, snippets);
    var m := Merged(snippets);
    forall x: Id | x.category in {Schemas, Responses, Parameters, RequestBodies, Headers, SecuritySchemes}
      ensures x in m.components <==> NeededSomewhere(d, x)
    {
      MergedHolds(d, m, x);
    }
  }

  lemma MergedHolds(d: Document, m: Document, x: Id)
    requires ComponentsOf(d, Places(d), m.components)
    requires x.category in {Schemas, Responses, Parameters, RequestBodies, Headers, SecuritySchemes}
    ensures x in m.components <==> NeededSomewhere(d, x)
  {
    ReachedIsNeeded(d, x);
  }

  /** The component is reachable, by references as spelled, from some operation of the document. */
  ghost predicate NeededSomewhere(d: Document, x: Id) {
    x in d.components && exists at :: HasOperation(d, at) && Needed(d.components, d.paths[at.path].operations[at.verb], x)
  }

  lemma ReachedIsNeeded(d: Document, x: Id)
    ensures ReachedFrom(d, Places(d), x) <==> NeededSomewhere(d, x)
  {
    if ReachedFrom(d, Places(d), x) {
      var at :| at in Places(d) && HasOperation(d, at) && x in Used(d.components, d.paths[at.path].operations[at.verb]);
      UsedIffNeeded(d.components, d.paths[at.path].operations[at.verb], x);
    }
    if NeededSomewhere(d, x) {
      var at :| HasOperation(d, at) && Needed(d.components, d.paths[at.path].operations[at.verb], x);
      UsedIffNeeded(d.components, d.paths[at.path].operations[at.verb], x);
      assert at in Places(d);
    }
  }

  /** The same components, equally defined, in the carried categories. */
  ghost predicate SameCarried(a: Components, b: Components) {
    forall x: Id :: !x.category.Examples? && !x.category.Links? && !x.category.Callbacks? ==>
      (x in a <==> x in b) && (x in a ==> a[x] == b[x])
  }

  /** The merged operations and carried components do not depend on the order of the snippets. */
  lemma MergeOrderIrrelevant(d: Document, places: seq<Place>, snippets: seq<Document>, places': seq<Place>, snippets': seq<Document>)
    requires places != [] && places' != [] && SnippetsAt(d, places, snippets) && SnippetsAt(d, places', snippets')
    requires Elements(places) == Elements(places')
    ensures Merged(snippets).paths == Merged(snippets').paths && Merged(snippets).header == Merged(snippets').header
    ensures SameCarried(Merged(snippets).components, Merged(snippets').components)
  {
    MergedSnippets(d, places, snippets);
    MergedSnippets(d, places', snippets');
    SamePlacesSameMerge(d, Elements(places), Merged(snippets), Merged(snippets'));
  }

  lemma SamePlacesSameMerge(d: Document, places: set<Place>, m: Document, m': Document)
    requires MergedRight(d, places, m) && MergedRight(d, places, m')
    ensures m.paths == m'.paths
    ensures SameCarried(m.components, m'.components)
  {
    forall p | p in m.paths || p in m'.paths ensures p in m.paths && p in m'.paths && m.paths[p] == m'.paths[p] {
      if p in m.paths { SamePath(d, places, m, m', p); } else { SamePath(d, places, m', m, p); }
    }
  }

  lemma SamePath(d: Document, places: set<Place>, m: Document, m': Document, p: string)
    requires OperationsOf(d, places, m) && OperationsOf(d, places, m') && p in m.paths
    ensures p in m'.paths && m.paths[p] == m'.paths[p]
  {
    assert ItemOf(places, p, m.paths[p]);
    var at :| at in places && at.path == p;
    assert HasOperation(m', at) && ItemOf(places, p, m'.paths[p]);
    var o, o' := m.paths[p].operations, m'.paths[p].operations;
    forall verb ensures verb in o <==> verb in o' {
      assert HasOperation(m, Place(p, verb)) <==> HasOperation(m', Place(p, verb));
    }
    forall verb | verb in o ensures o[verb] == o'[verb] {
      assert HasOperation(m, Place(p, verb));
      assert o[verb] == d.paths[p].operations[verb] == o'[verb];
    }
    assert o == o';
  }

  lemma SplitGivesSnippets(d: Document, endpoints: seq<Endpoint>, places: seq<Place>, snippets: seq<Document>)
    requires AllCut(d, endpoints)
    requires |places| == |snippets| == |endpoints|
    requires forall i :: 0 <= i < |endpoints| ==> places[i] == endpoints[i].at && snippets[i] == endpoints[i].snippet
    ensures SnippetsAt(d, places, snippets) && Elements(places) == PlacesOf(endpoints)
  {
    forall at ensures at in Elements(places) <==> at in PlacesOf(endpoints) {
      if at in PlacesOf(endpoints) {
        var i :| 0 <= i < |endpoints| && endpoints[i].at == at;
        assert places[i] == at;
      }
    }
  }

  /** The two operations one after the other. */
  method SplitThenMerge(d: Document) returns (merged: Option<Document>)
    ensures merged.None? <==> Places(d) == {}
    ensures merged.Some? ==> MergedRight(d, Places(d), merged.value)
  {
    var endpoints := SplitOpenApi(d);
    var snippets := seq(|endpoints|, i requires 0 <= i < |endpoints| => endpoints[i].snippet);
    merged := MergeEndpoints(snippets);
    if endpoints != [] {
      ghost var places := seq(|endpoints|, i requires 0 <= i < |endpoints| => endpoints[i].at);
      SplitGivesSnippets(d, endpoints, places, snippets);
      MergedSnippets(d, places, snippets);
    }
  }
}
