/** Backward compatibility of two OpenAPI documents. */
module OpenApiCompat {
  import opened Json
  import opened Reachability
  import opened SchemaCompat
  import SchemaRefs
  import opened Text

  datatype Location = Query | Header | Path | Cookie
  datatype Method = Get | Post | Put | Delete | Options | Head | Patch | Trace

  /** A parameter's schema; one described by `content` is not compared. */
  datatype Format = BySchema(schema: SchemaRef) | ByContent
  datatype Parameter = Parameter(location: Location, name: string, required: bool, deprecated: bool, format: Format)
  datatype ParameterRef = InlineParameter(parameter: Parameter) | ParameterAt(reference: string)

  /** A request body or a response: its schema per media type, if any, and what else it holds. */
  datatype Body = InlineBody(content: map<string, Option<SchemaRef>>, rest: Value) | BodyAt(reference: string)

  datatype Operation = Operation(
    deprecated: bool, parameters: seq<ParameterRef>, body: Option<Body>, responses: map<string, Body>)

  datatype PathItem = PathItem(parameters: seq<ParameterRef>, operations: map<Method, Operation>) | PathAt

  datatype Document = Document(
    paths: map<string, PathItem>, schemas: Components, parameters: map<string, ParameterRef>)

  // --- Request schemas ----------------------------------------------------------

  /** Every reference in a schema's serialised form. */
  function SchemaRefStrings(s: Schema): set<string> {
    ChildRefs(s) + InnerRests(s)
  }

  function InnerRests(s: Schema): set<string> {
    SchemaRefs.AllRefs(s.rest) +
    match s.kind
    case ArrayType(Some(Inline(t))) => InnerRests(t)
    case ObjectType(props, _) => set p, r | p in props && props[p].Inline? && r in InnerRests(props[p].schema) :: r
    case _ => {}
  }

  function SchemaRefStringsOf(x: SchemaRef): set<string> {
    match x case Inline(s) => SchemaRefStrings(s) case Ref(r) => {r}
  }

  function BodyRefs(body: Body): set<string> {
    match body
    case BodyAt(r) => {r}
    case InlineBody(content, rest) =>
      SchemaRefs.AllRefs(rest) +
      set m, r | m in content && content[m].Some? && r in SchemaRefStringsOf(content[m].value) :: r
  }

  function Named(refs: set<string>): set<string> {
    set r | r in refs && RefTarget(r).Some? :: RefTarget(r).value
  }

  /** The schemas named in request bodies. */
  function RequestRoots(d: Document): set<string> {
    set p, m, n |
      && p in d.paths && d.paths[p].PathItem? && m in d.paths[p].operations
      && d.paths[p].operations[m].body.Some?
      && n in Named(BodyRefs(d.paths[p].operations[m].body.value))
      :: n
  }

  function SchemaNext(d: Document): string -> set<string> {
    (name: string) => if name in d.schemas && d.schemas[name].Inline? then Named(SchemaRefStrings(d.schemas[name].schema)) else {}
  }

  ghost predicate RequestSchema(d: Document, name: string) {
    Reach(RequestRoots(d), SchemaNext(d), name)
  }

  /** Every name the closure can hold. */
  ghost function Mentioned(d: Document): set<string> {
    RequestRoots(d) + set c, n | c in d.schemas && n in SchemaNext(d)(c) :: n
  }

  ghost function RequestSchemas(d: Document): set<string> {
    set n | n in Mentioned(d) && RequestSchema(d, n)
  }

  lemma RequestSchemasAre(d: Document, name: string)
    ensures name in RequestSchemas(d) <==> RequestSchema(d, name)
  {
    if RequestSchema(d, name) {
      forall u, n | u in Mentioned(d) && n in SchemaNext(d)(u) ensures n in Mentioned(d) {
        assert u in d.schemas;
      }
      ReachStaysWithin(RequestRoots(d), SchemaNext(d), Mentioned(d), name);
    }
  }

  /** The names the schemas found so far mention and that are not found yet. */
  function Newly(d: Document, found: set<string>): set<string> {
    set n, m | n in found && m in SchemaNext(d)(n) && m !in found :: m
  }

  ghost predicate AllRequest(d: Document, found: set<string>) {
    forall n :: n in found ==> RequestSchema(d, n)
  }

  lemma RootsAreRequest(d: Document)
    ensures AllRequest(d, RequestRoots(d))
  {
    forall n | n in RequestRoots(d) ensures RequestSchema(d, n) {
      ReachStart(RequestRoots(d), SchemaNext(d), n);
    }
  }

  lemma NewlyAreRequest(d: Document, found: set<string>)
    requires AllRequest(d, found)
    ensures AllRequest(d, found + Newly(d, found))
    ensures Newly(d, found) <= Mentioned(d)
  {
    forall m | m in Newly(d, found) ensures RequestSchema(d, m) && m in Mentioned(d) {
      var n :| n in found && m in SchemaNext(d)(n);
      ReachStep(RequestRoots(d), SchemaNext(d), n, m);
    }
  }

  lemma NothingNewIsClosed(d: Document, found: set<string>)
    requires RequestRoots(d) <= found && AllRequest(d, found) && Newly(d, found) == {}
    ensures forall name :: name in found <==> RequestSchema(d, name)
  {
    forall n, m | n in found && m in SchemaNext(d)(n) ensures m in found {
      assert m !in found ==> m in Newly(d, found);
    }
    forall name | RequestSchema(d, name) ensures name in found {
      ReachStaysWithin(RequestRoots(d), SchemaNext(d), found, name);
    }
  }

  /** The source's loop: add what the schemas found so far name, until nothing is added. */
  method CollectRequestSchemas(d: Document) returns (found: set<string>)
    ensures forall name :: name in found <==> RequestSchema(d, name)
  {
    found := RequestRoots(d);
    RootsAreRequest(d);
    var changed := true;
    while changed
      invariant RequestRoots(d) <= found && AllRequest(d, found)
      invariant !changed ==> Newly(d, found) == {}
      decreases Mentioned(d) - found, changed
    {
      var more := Newly(d, found);
      changed := more != {};
      NewlyAreRequest(d, found);
      if changed {
        var m :| m in more;
        assert m in Mentioned(d) - found && m !in Mentioned(d) - (found + more);
      } else {
        assert found + more == found;
      }
      found := found + more;
    }
    NothingNewIsClosed(d, found);
  }

  // --- Parameters ------------------------------------------------------------------

  function ResolveParameter(d: Document, x: ParameterRef): Option<Parameter> {
    match x
    case InlineParameter(p) => Some(p)
    case ParameterAt(r) =>
      var prefix := "#/components/parameters/";
      if prefix <= r && r[|prefix|..] in d.parameters && d.parameters[r[|prefix|..]].InlineParameter?
      then Some(d.parameters[r[|prefix|..]].parameter) else None
  }

  type ParameterKey = (Location, string)

  /** Header names are case-insensitive. */
  function KeyOf(p: Parameter): ParameterKey {
    (p.location, if p.location.Header? then Lower(p.name) else p.name)
  }

  /** Later entries override earlier ones; an unresolvable one is left out. */
  function ParameterMap(d: Document, refs: seq<ParameterRef>): map<ParameterKey, Parameter> {
    if refs == [] then map[]
    else
      var last := |refs| - 1;
      var m := ParameterMap(d, refs[..last]);
      match ResolveParameter(d, refs[last]) case Some(p) => m[KeyOf(p) := p] case None => m
  }

  lemma SingleParameter(d: Document, p: Parameter)
    ensures ParameterMap(d, [] + [InlineParameter(p)]) == map[KeyOf(p) := p]
  {
    var refs := [] + [InlineParameter(p)];
    assert refs[..0] == [];
  }

  /** The path item's parameters, overridden by the operation's own. */
  function ParametersOf(d: Document, item: PathItem, op: Operation): map<ParameterKey, Parameter>
    requires item.PathItem?
  {
    ParameterMap(d, item.parameters + op.parameters)
  }

  /** None removed without notice, none newly required; path parameters are exempt. */
  predicate ParametersKept(was: map<ParameterKey, Parameter>, now: map<ParameterKey, Parameter>) {
    && (forall k | k in was ::
          if k in now then k.0.Path? || was[k].required || !now[k].required
          else was[k].deprecated || k.0.Path?)
    && (forall k | k in now :: now[k].required && !k.0.Path? ==> k in was)
  }

  // --- Documents -----------------------------------------------------------------------

  predicate OperationKept(was: Document, now: Document, wasItem: PathItem, nowItem: PathItem, m: Method)
    requires wasItem.PathItem? && nowItem.PathItem? && m in wasItem.operations
  {
    var o := wasItem.operations[m];
    if m !in nowItem.operations then o.deprecated
    else
      var n := nowItem.operations[m];
      && o.responses.Keys <= n.responses.Keys
      && ParametersKept(ParametersOf(was, wasItem, o), ParametersOf(now, nowItem, n))
  }

  /** A removed path must have had only deprecated operations. */
  predicate PathKept(was: Document, now: Document, p: string)
    requires p in was.paths && was.paths[p].PathItem?
  {
    var item := was.paths[p];
    if p in now.paths && now.paths[p].PathItem? then
      forall m | m in item.operations :: OperationKept(was, now, item, now.paths[p], m)
    else
      forall m | m in item.operations :: item.operations[m].deprecated
  }

  predicate SurfaceKept(was: Document, now: Document) {
    forall p | p in was.paths && was.paths[p].PathItem? :: PathKept(was, now, p)
  }

  /** Two schemas the documents' comparison puts side by side. */
  datatype Comparison = Comparison(was: Schema, now: Schema, isRequest: bool)

  /** Both sides resolved one level, when both can be. */
  function Pair(was: Document, now: Document, x: SchemaRef, y: SchemaRef, isRequest: bool): set<Comparison> {
    match (ResolveRef(was.schemas, x), ResolveRef(now.schemas, y))
    case (Some(o), Some(n)) => {Comparison(o, n, isRequest)}
    case _ => {}
  }

  function NamedPairs(was: Document, now: Document, request: set<string>): set<Comparison> {
    set n | n in was.schemas && n in now.schemas && was.schemas[n].Inline? && now.schemas[n].Inline?
      :: Comparison(was.schemas[n].schema, now.schemas[n].schema, n in request)
  }

  function ContentPairs(was: Document, now: Document, x: Body, y: Body, isRequest: bool): set<Comparison> {
    match (x, y)
    case (InlineBody(xs, _), InlineBody(ys, _)) =>
      set m, c | m in xs && m in ys && xs[m].Some? && ys[m].Some? && c in Pair(was, now, xs[m].value, ys[m].value, isRequest) :: c
    case _ => {}
  }

  function ParameterPairs(was: Document, now: Document, xs: map<ParameterKey, Parameter>, ys: map<ParameterKey, Parameter>): set<Comparison> {
    set k, c |
      && k in xs && k in ys && xs[k].format.BySchema? && ys[k].format.BySchema?
      && c in Pair(was, now, xs[k].format.schema, ys[k].format.schema, true)
      :: c
  }

  function BodyPairs(was: Document, now: Document, o: Operation, n: Operation): set<Comparison> {
    match (o.body, n.body) case (Some(x), Some(y)) => ContentPairs(was, now, x, y, true) case _ => {}
  }

  function ResponsePairs(was: Document, now: Document, o: Operation, n: Operation): set<Comparison> {
    set s, c | s in o.responses && s in n.responses && c in ContentPairs(was, now, o.responses[s], n.responses[s], false) :: c
  }

  function OperationPairs(was: Document, now: Document, p: string, m: Method): set<Comparison>
    requires p in was.paths && was.paths[p].PathItem? && m in was.paths[p].operations
    requires p in now.paths && now.paths[p].PathItem? && m in now.paths[p].operations
  {
    var o, n := was.paths[p].operations[m], now.paths[p].operations[m];
    BodyPairs(was, now, o, n) + ResponsePairs(was, now, o, n) +
    ParameterPairs(was, now, ParametersOf(was, was.paths[p], o), ParametersOf(now, now.paths[p], n))
  }

  predicate InBoth(was: Document, now: Document, p: string, m: Method) {
    && p in was.paths && was.paths[p].PathItem? && m in was.paths[p].operations
    && p in now.paths && now.paths[p].PathItem? && m in now.paths[p].operations
  }

  function PathPairs(was: Document, now: Document): set<Comparison> {
    set p, m, c | p in was.paths && was.paths[p].PathItem? && m in was.paths[p].operations && InBoth(was, now, p, m) &&
                  c in OperationPairs(was, now, p, m) :: c
  }

  function Comparisons(was: Document, now: Document, request: set<string>): set<Comparison> {
    NamedPairs(was, now, request) + PathPairs(was, now)
  }

  lemma ComparisonSource(was: Document, now: Document, c: Comparison) returns (p: string, m: Method)
    requires c in PathPairs(was, now)
    ensures InBoth(was, now, p, m) && c in OperationPairs(was, now, p, m)
  {
    p, m :| p in was.paths && was.paths[p].PathItem? && m in was.paths[p].operations && InBoth(was, now, p, m) &&
            c in OperationPairs(was, now, p, m);
  }

  function SpecsOf(was: Document, now: Document): Specs {
    Specs(was.schemas, now.schemas)
  }

  function CheckPair(was: Document, now: Document, c: Comparison, fuel: nat): Verdict {
    Check(SpecsOf(was, now), c.was, c.now, c.isRequest, fuel)
  }

  /** All of these pairs, in some order: one that does not finish may come before one that is rejected. */
  function CheckAll(was: Document, now: Document, pairs: set<Comparison>, fuel: nat): Verdict {
    if exists c | c in pairs :: CheckPair(was, now, c, fuel).Unfinished? then Unfinished
    else if exists c | c in pairs :: CheckPair(was, now, c, fuel).Reject? then Reject
    else Accept
  }

  /** The verdict on two documents, given the new document's request schemas: the named schemas, then
      the paths. */
  function CheckDocuments(was: Document, now: Document, request: set<string>, fuel: nat): Verdict {
    match CheckAll(was, now, NamedPairs(was, now, request), fuel)
    case Unfinished => Unfinished
    case Reject => Reject
    case Accept =>
      if SurfaceKept(was, now) then CheckAll(was, now, PathPairs(was, now), fuel)
      else if CheckAll(was, now, PathPairs(was, now), fuel).Unfinished? then Unfinished
      else Reject
  }

  lemma AcceptedMeans(was: Document, now: Document, request: set<string>, fuel: nat)
    ensures CheckDocuments(was, now, request, fuel) == Accept <==>
              && SurfaceKept(was, now)
              && forall c :: c in Comparisons(was, now, request) ==> CheckPair(was, now, c, fuel) == Accept
  {}

  /** Named schemas that the new document's requests reach are compared as requests, and only those. */
  method CheckOpenApiCompatible(was: Document, now: Document, fuel: nat) returns (verdict: Verdict)
    ensures verdict == CheckDocuments(was, now, RequestSchemas(now), fuel)
  {
    var request := CollectRequestSchemas(now);
    assert request == RequestSchemas(now) by {
      forall name { RequestSchemasAre(now, name); }
    }
    verdict := CheckDocuments(was, now, request, fuel);
  }

  // --- The verdict does not depend on the fuel ----------------------------------------

  lemma {:induction false} EnoughForAll(was: Document, now: Document, pairs: set<Comparison>) returns (enough: nat)
    requires forall c :: c in pairs ==> exists n: nat :: CheckPair(was, now, c, n) != Unfinished
    ensures forall c :: c in pairs ==> CheckPair(was, now, c, enough) != Unfinished
    decreases pairs
  {
    if pairs == {} {
      enough := 0;
    } else {
      var c :| c in pairs;
      var rest := EnoughForAll(was, now, pairs - {c});
      var n: nat :| CheckPair(was, now, c, n) != Unfinished;
      enough := if n < rest then rest else n;
      forall d | d in pairs ensures CheckPair(was, now, d, enough) != Unfinished {
        if d == c {
          FuelIrrelevant(SpecsOf(was, now), c.was, c.now, c.isRequest, n, enough);
        } else {
          assert d in pairs - {c};
          FuelIrrelevant(SpecsOf(was, now), d.was, d.now, d.isRequest, rest, enough);
        }
      }
    }
  }

  lemma AllStay(was: Document, now: Document, pairs: set<Comparison>, fuel: nat, more: nat)
    requires fuel <= more && CheckAll(was, now, pairs, fuel) != Unfinished
    ensures CheckAll(was, now, pairs, more) == CheckAll(was, now, pairs, fuel)
  {
    forall c | c in pairs ensures CheckPair(was, now, c, more) == CheckPair(was, now, c, fuel) {
      FuelIrrelevant(SpecsOf(was, now), c.was, c.now, c.isRequest, fuel, more);
    }
  }

  lemma VerdictStays(was: Document, now: Document, request: set<string>, fuel: nat, more: nat)
    requires fuel <= more && CheckDocuments(was, now, request, fuel) != Unfinished
    ensures CheckDocuments(was, now, request, more) == CheckDocuments(was, now, request, fuel)
  {
    AllStay(was, now, NamedPairs(was, now, request), fuel, more);
    if CheckAll(was, now, PathPairs(was, now), fuel) != Unfinished {
      AllStay(was, now, PathPairs(was, now), fuel, more);
    }
  }

  /** With one acyclic document the check of two documents ends, and its verdict is fixed. */
  lemma DocumentCheckEnds(was: Document, now: Document, request: set<string>) returns (enough: nat)
    requires Acyclic(was.schemas) || Acyclic(now.schemas)
    ensures forall fuel :: fuel >= enough ==>
              CheckDocuments(was, now, request, fuel) == CheckDocuments(was, now, request, enough) != Unfinished
  {
    forall c | c in Comparisons(was, now, request) ensures exists n: nat :: CheckPair(was, now, c, n) != Unfinished {
      var n := ComparisonEnds(SpecsOf(was, now), c.was, c.now, c.isRequest);
      assert CheckPair(was, now, c, n) != Unfinished;
    }
    enough := EnoughForAll(was, now, Comparisons(was, now, request));
    forall fuel | fuel >= enough ensures CheckDocuments(was, now, request, fuel) == CheckDocuments(was, now, request, enough) {
      VerdictStays(was, now, request, enough, fuel);
    }
  }

  // --- Impact ------------------------------------------------------------------------------

  datatype Impact = NoImpact | Minor | Major | NoAnswer

  predicate NewOperations(was: PathItem, now: PathItem)
    requires was.PathItem? && now.PathItem?
  {
    exists m | m in now.operations ::
      m !in was.operations || !(now.operations[m].responses.Keys <= was.operations[m].responses.Keys)
  }

  predicate NewFields(was: Schema, now: Schema) {
    was.kind.ObjectType? && now.kind.ObjectType? && !(now.kind.properties.Keys <= was.kind.properties.Keys)
  }

  /** New paths, methods, response codes, named schemas or fields of a named schema. */
  predicate HasAdditions(was: Document, now: Document) {
    || (exists p | p in now.paths :: p !in was.paths)
    || (exists p | p in now.paths && p in was.paths && now.paths[p].PathItem? && was.paths[p].PathItem? ::
          NewOperations(was.paths[p], now.paths[p]))
    || (exists n | n in now.schemas && now.schemas[n].Inline? ::
          if n in was.schemas && was.schemas[n].Inline? then NewFields(was.schemas[n].schema, now.schemas[n].schema) else true)
  }

  function AnalyzeImpact(was: Document, now: Document, request: set<string>, fuel: nat): Impact {
    match CheckDocuments(was, now, request, fuel)
    case Reject => Major
    case Accept => if HasAdditions(was, now) then Minor else NoImpact
    case Unfinished => NoAnswer
  }

  lemma SelfPairs(d: Document, x: Body, isRequest: bool)
    ensures forall c :: c in ContentPairs(d, d, x, x, isRequest) ==> c.was == c.now
  {}

  lemma SelfOperationPairs(d: Document, p: string, m: Method)
    requires InBoth(d, d, p, m)
    ensures forall c :: c in OperationPairs(d, d, p, m) ==> c.was == c.now
  {
    var o := d.paths[p].operations[m];
    if o.body.Some? {
      SelfPairs(d, o.body.value, true);
    }
    forall s | s in o.responses { SelfPairs(d, o.responses[s], false); }
  }

  /** Every document has no impact against itself, recursive schemas and overridden parameters included. */
  lemma SelfHasNoImpact(d: Document, request: set<string>) returns (enough: nat)
    ensures forall fuel :: fuel >= enough ==> AnalyzeImpact(d, d, request, fuel) == NoImpact
  {
    var pairs := Comparisons(d, d, request);
    forall c | c in pairs ensures c.was == c.now {
      if c !in NamedPairs(d, d, request) {
        var p, m := ComparisonSource(d, d, c);
        SelfOperationPairs(d, p, m);
      }
    }
    forall c | c in pairs ensures exists n: nat :: CheckPair(d, d, c, n) != Unfinished {
      AcceptsItself(d.schemas, c.was, c.isRequest, Height(c.was));
      assert CheckPair(d, d, c, Height(c.was)) == Accept;
    }
    enough := EnoughForAll(d, d, pairs);
    forall c | c in pairs ensures CheckPair(d, d, c, enough) == Accept {
      var h := Height(c.was);
      AcceptsItself(d.schemas, c.was, c.isRequest, if h < enough then enough else h);
      FuelIrrelevant(SpecsOf(d, d), c.was, c.now, c.isRequest, enough, if h < enough then enough else h);
    }
    assert SurfaceKept(d, d);
    AcceptedMeans(d, d, request, enough);
    forall fuel | fuel >= enough ensures AnalyzeImpact(d, d, request, fuel) == NoImpact {
      VerdictStays(d, d, request, enough, fuel);
    }
  }

  // --- What acceptance promises --------------------------------------------------------------------

  /** An accepted change keeps every operation that was not deprecated, with all its response codes; a
      parameter other than a path parameter is dropped only if deprecated and required only if it was. */
  lemma AcceptedKeepsSurface(was: Document, now: Document, request: set<string>, fuel: nat, p: string, m: Method)
    requires CheckDocuments(was, now, request, fuel) == Accept
    requires p in was.paths && was.paths[p].PathItem? && m in was.paths[p].operations
    ensures InBoth(was, now, p, m) || was.paths[p].operations[m].deprecated
    ensures InBoth(was, now, p, m) ==>
              var o, n := was.paths[p].operations[m], now.paths[p].operations[m];
              var olds, news := ParametersOf(was, was.paths[p], o), ParametersOf(now, now.paths[p], n);
              && (forall s :: s in o.responses ==> s in n.responses)
              && (forall k :: k in olds && k !in news ==> olds[k].deprecated || k.0.Path?)
              && (forall k :: k in news && news[k].required && !k.0.Path? ==> k in olds && olds[k].required)
  {
    AcceptedMeans(was, now, request, fuel);
    assert PathKept(was, now, p);
    if InBoth(was, now, p, m) {
      assert OperationKept(was, now, was.paths[p], now.paths[p], m);
    }
  }

  /** Without impact the new document shows no path, operation, response code, named schema or top-level
      field that the old one did not have. */
  lemma NoImpactAddsNothing(was: Document, now: Document, request: set<string>, fuel: nat)
    requires AnalyzeImpact(was, now, request, fuel) == NoImpact
    ensures now.paths.Keys <= was.paths.Keys
    ensures forall p, m :: p in now.paths && now.paths[p].PathItem? && was.paths[p].PathItem? && m in now.paths[p].operations ==>
              m in was.paths[p].operations && now.paths[p].operations[m].responses.Keys <= was.paths[p].operations[m].responses.Keys
    ensures forall n :: n in now.schemas && now.schemas[n].Inline? ==>
              && n in was.schemas && was.schemas[n].Inline?
              && !NewFields(was.schemas[n].schema, now.schemas[n].schema)
  {
    forall p, m | p in now.paths && now.paths[p].PathItem? && was.paths[p].PathItem? && m in now.paths[p].operations
      ensures m in was.paths[p].operations && now.paths[p].operations[m].responses.Keys <= was.paths[p].operations[m].responses.Keys
    {
      assert !NewOperations(was.paths[p], now.paths[p]);
    }
  }

  lemma FinishedPairs(was: Document, now: Document, pairs: set<Comparison>, fuel: nat)
    requires CheckAll(was, now, pairs, fuel) != Unfinished
    ensures CheckAll(was, now, pairs, fuel) == Accept <==>
              forall c :: c in pairs ==> NoClash(SpecsOf(was, now), c.was, c.now, c.isRequest)
  {
    forall c | c in pairs ensures CheckPair(was, now, c, fuel) == Accept <==> NoClash(SpecsOf(was, now), c.was, c.now, c.isRequest) {
      assert CheckPair(was, now, c, fuel) != Unfinished;
      AcceptsIffNoClash(SpecsOf(was, now), c.was, c.now, c.isRequest, fuel);
    }
  }

  lemma AcceptedIffNoClash(was: Document, now: Document, request: set<string>, fuel: nat)
    requires CheckDocuments(was, now, request, fuel) != Unfinished
    ensures CheckDocuments(was, now, request, fuel) == Accept <==>
              && SurfaceKept(was, now)
              && forall c :: c in Comparisons(was, now, request) ==> NoClash(SpecsOf(was, now), c.was, c.now, c.isRequest)
  {
    FinishedPairs(was, now, NamedPairs(was, now, request), fuel);
    if CheckAll(was, now, NamedPairs(was, now, request), fuel) == Accept {
      FinishedPairs(was, now, PathPairs(was, now), fuel);
    }
  }

  predicate Has(d: Document, p: string, m: Method) {
    p in d.paths && d.paths[p].PathItem? && m in d.paths[p].operations
  }

  /** Without impact both documents have the same operations, except deprecated ones that went, and each
      has the same response codes; only a path item given by reference escapes. */
  lemma NoImpactKeepsSurface(was: Document, now: Document, request: set<string>, fuel: nat, p: string, m: Method)
    requires AnalyzeImpact(was, now, request, fuel) == NoImpact
    ensures Has(was, p, m) && !was.paths[p].operations[m].deprecated ==> Has(now, p, m)
    ensures Has(now, p, m) ==> p in was.paths && (was.paths[p].PathItem? ==> Has(was, p, m))
    ensures Has(was, p, m) && Has(now, p, m) ==>
              was.paths[p].operations[m].responses.Keys == now.paths[p].operations[m].responses.Keys
  {
    NoImpactAddsNothing(was, now, request, fuel);
    if Has(was, p, m) {
      AcceptedKeepsSurface(was, now, request, fuel, p, m);
    }
  }
}
