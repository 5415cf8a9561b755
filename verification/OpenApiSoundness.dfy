/** What an accepted change of an OpenAPI document means for the requests of old clients. */
module OpenApiSoundness {
  import opened Json
  import opened Reachability
  import opened SchemaCompat
  import opened OpenApiCompat
  import opened CompatMeaning

  // --- Which values a schema admits -------------------------------------------------

  /** What a composition or an untyped schema admits. Every result here holds for any such reading. */
  type Reading = (Schema, Value) -> bool

  ghost predicate Valid(c: Components, other: Reading, s: Schema, v: Value)
    decreases v, 0
  {
    match s.kind
    case StringType(values) => v.Str? && (values == {} || v in values)
    case NumberType(values) => v.Number? && (values == {} || v in values)
    case IntegerType(values) => v.Number? && v.n == v.n.Floor as real && (values == {} || v in values)
    case BooleanType(values) => v.Bool? && (values == {} || v in values)
    case ArrayType(items) =>
      v.Array? && (items.Some? ==> forall i | 0 <= i < |v.items| :: ValidRef(c, other, items.value, v.items[i]))
    case ObjectType(props, required) =>
      && v.Object?
      && required <= v.fields.Keys
      && forall k | k in v.fields :: k in props ==> ValidRef(c, other, props[k], v.fields[k])
    case Other => other(s, v)
  }

  ghost predicate ValidRef(c: Components, other: Reading, x: SchemaRef, v: Value)
    decreases v, 1
  {
    match ResolveRef(c, x) case Some(s) => Valid(c, other, s, v) case None => false
  }

  /** The value uses only properties that the schema declares. */
  ghost predicate Declared(c: Components, s: Schema, v: Value)
    decreases v, 0
  {
    match (s.kind, v)
    case (ArrayType(Some(x)), Array(items)) => forall i | 0 <= i < |items| :: DeclaredRef(c, x, items[i])
    case (ObjectType(props, _), Object(fields)) => forall k | k in fields :: k in props && DeclaredRef(c, props[k], fields[k])
    case _ => true
  }

  ghost predicate DeclaredRef(c: Components, x: SchemaRef, v: Value)
    decreases v, 1
  {
    match ResolveRef(c, x) case Some(s) => Declared(c, s, v) case None => false
  }

  /** A request an old client can send. */
  ghost predicate Sendable(c: Components, other: Reading, s: Schema, v: Value) {
    Valid(c, other, s, v) && Declared(c, s, v)
  }

  ghost predicate SendableRef(c: Components, other: Reading, x: SchemaRef, v: Value) {
    ValidRef(c, other, x, v) && DeclaredRef(c, x, v)
  }

  // --- Arrays that gain items ---------------------------------------------------------

  /** Items that exclude nothing: some composition or untyped schema that admits every value. */
  ghost predicate AdmitsAll(c: Components, other: Reading, y: SchemaRef) {
    match ResolveRef(c, y)
    case Some(s) => s.kind.Other? && forall w :: other(s, w)
    case None => false
  }

  ghost predicate AllValid(c: Components, other: Reading, y: SchemaRef) {
    forall w :: ValidRef(c, other, y, w)
  }

  lemma AdmitsAllMeans(c: Components, other: Reading, y: SchemaRef)
    ensures AdmitsAll(c, other, y) <==> AllValid(c, other, y)
  {
    if AdmitsAll(c, other, y) {
      var s := ResolveRef(c, y).value;
      forall w ensures ValidRef(c, other, y, w) {
        OtherIsRead(c, other, s, w);
        assert other(s, w);
      }
    }
    if AllValid(c, other, y) {
      assert ValidRef(c, other, y, Null);
      var s := ResolveRef(c, y).value;
      TypedExcludesNull(c, other, s);
      forall w ensures other(s, w) {
        assert ValidRef(c, other, y, w);
        OtherIsRead(c, other, s, w);
      }
    }
  }

  lemma OtherIsRead(c: Components, other: Reading, s: Schema, v: Value)
    ensures s.kind.Other? ==> (Valid(c, other, s, v) <==> other(s, v))
  {}

  lemma TypedExcludesNull(c: Components, other: Reading, s: Schema)
    ensures Valid(c, other, s, Null) ==> s.kind.Other?
  {}

  /** An array that gains `items` is accepted, in a request too; what could be sent stays valid if and
      only if the new items admit every value, so with a typed item schema it never does. */
  lemma GainedItems(specs: Specs, other: Reading, s: Schema, t: Schema, y: SchemaRef, isRequest: bool, fuel: nat)
    requires s.kind == ArrayType(None) && t.kind == ArrayType(Some(y)) && fuel > 0
    ensures Check(specs, s, t, isRequest, fuel) == Accept
    ensures (forall v :: Sendable(specs.was, other, s, v) ==> Valid(specs.now, other, t, v)) <==> AdmitsAll(specs.now, other, y)
  {
    AdmitsAllMeans(specs.now, other, y);
    if forall v :: Sendable(specs.was, other, s, v) ==> Valid(specs.now, other, t, v) {
      forall w ensures ValidRef(specs.now, other, y, w) {
        var v := Array([w]);
        assert Sendable(specs.was, other, s, v);
        assert Valid(specs.now, other, t, v) && v.items[0] == w;
      }
    } else if AdmitsAll(specs.now, other, y) {
      var v :| Sendable(specs.was, other, s, v) && !Valid(specs.now, other, t, v);
      ItemsAdmitted(specs.now, other, t, y, v);
      assert false;
    }
  }

  lemma ItemsAdmitted(c: Components, other: Reading, t: Schema, y: SchemaRef, v: Value)
    requires t.kind == ArrayType(Some(y)) && v.Array? && AllValid(c, other, y)
    ensures Valid(c, other, t, v)
  {}

  /** One such value: a boolean in an array that now holds strings. */
  lemma ItemsMayBeAdded(specs: Specs, other: Reading, fuel: nat)
    requires fuel > 0
    ensures var s := Schema(false, ArrayType(None), Null);
            var t := Schema(false, ArrayType(Some(Inline(Schema(false, StringType({}), Null)))), Null);
            var v := Array([Bool(true)]);
            && Check(specs, s, t, true, fuel) == Accept
            && Sendable(specs.was, other, s, v)
            && !Valid(specs.now, other, t, v)
  {
    var x := Inline(Schema(false, StringType({}), Null));
    assert !ValidRef(specs.now, other, x, Array([Bool(true)]).items[0]);
  }

  // --- The pairs a value meets ----------------------------------------------------------

  function MetAt(specs: Specs, x: SchemaRef, y: SchemaRef): set<Facing> {
    match (ResolveRef(specs.was, x), ResolveRef(specs.now, y))
    case (Some(o), Some(n)) => {Facing(o, n)}
    case _ => {}
  }

  /** Where a value read by both sides leads: unlike the comparison, through equal references too. */
  function NextMet(specs: Specs): Facing -> set<Facing> {
    (p: Facing) =>
      match (p.was.kind, p.now.kind)
      case (ObjectType(op, _), ObjectType(np, _)) => set k, q | k in op && k in np && q in MetAt(specs, op[k], np[k]) :: q
      case (ArrayType(Some(x)), ArrayType(Some(y))) => MetAt(specs, x, y)
      case _ => {}
  }

  /** Where the old reference leads to a schema, so does the new one. */
  predicate StillLeads(specs: Specs, x: SchemaRef, y: SchemaRef) {
    ResolveRef(specs.was, x).Some? ==> ResolveRef(specs.now, y).Some?
  }

  predicate ReferencesKept(specs: Specs, p: Facing) {
    match (p.was.kind, p.now.kind)
    case (ObjectType(op, _), ObjectType(np, _)) => forall k | k in op && k in np :: StillLeads(specs, op[k], np[k])
    case (ArrayType(Some(x)), ArrayType(Some(y))) => StillLeads(specs, x, y)
    case _ => true
  }

  ghost predicate ItemsKept(specs: Specs, other: Reading, p: Facing) {
    p.was.kind == ArrayType(None) && p.now.kind.ArrayType? && p.now.kind.items.Some? ==>
      AdmitsAll(specs.now, other, p.now.kind.items.value)
  }

  /** A pair the check does compare: typed on both sides, no array gaining items that exclude anything,
      and references that still lead to inline components. */
  ghost predicate Comparable(specs: Specs, other: Reading, p: Facing) {
    !p.was.kind.Other? && !p.now.kind.Other? && ItemsKept(specs, other, p) && ReferencesKept(specs, p)
  }

  ghost predicate ComparableThroughout(specs: Specs, other: Reading, s: Schema, t: Schema) {
    forall p :: Reach({Facing(s, t)}, NextMet(specs), p) ==> Comparable(specs, other, p)
  }

  /** Two typed scalars are one such case. */
  lemma ScalarsAreComparable(specs: Specs, other: Reading, s: Schema, t: Schema)
    requires IsScalar(s.kind) && IsScalar(t.kind)
    ensures ComparableThroughout(specs, other, s, t)
  {
    var start := Facing(s, t);
    assert NextMet(specs)(start) == {};
    forall p | Reach({start}, NextMet(specs), p) ensures Comparable(specs, other, p) {
      ReachStaysWithin({start}, NextMet(specs), {start}, p);
    }
  }

  // --- Soundness -----------------------------------------------------------------------

  /** The components of these names are accepted as requests and refer to each other only. */
  ghost predicate AgreeAsRequests(was: Document, now: Document, names: set<string>, fuel: nat) {
    && (forall n :: n in names && n in was.schemas && n in now.schemas && was.schemas[n].Inline? && now.schemas[n].Inline? ==>
          Check(SpecsOf(was, now), was.schemas[n].schema, now.schemas[n].schema, true, fuel) == Accept)
    && (forall n :: n in names && n in now.schemas && now.schemas[n].Inline? ==> Named(ChildRefs(now.schemas[n].schema)) <= names)
  }

  /** Comparable pairs that only lead to pairs of the same kind. */
  ghost predicate MeetsComparable(specs: Specs, other: Reading, met: Facing -> bool) {
    && (forall p :: met(p) ==> Comparable(specs, other, p))
    && (forall p, q :: met(p) && q in NextMet(specs)(p) ==> met(q))
  }

  /** The induction, at a pair the value meets on the way. The value gets smaller, not the schema. */
  lemma {:induction false} MetStaysValid(
    was: Document, now: Document, other: Reading, names: set<string>, named: nat, met: Facing -> bool, p: Facing, v: Value, fuel: nat)
    requires AgreeAsRequests(was, now, names, named)
    requires Check(SpecsOf(was, now), p.was, p.now, true, fuel) == Accept && Named(ChildRefs(p.now)) <= names
    requires MeetsComparable(SpecsOf(was, now), other, met) && met(p)
    requires Sendable(was.schemas, other, p.was, v)
    ensures Valid(now.schemas, other, p.now, v)
    decreases v, 1
  {
    assert Comparable(SpecsOf(was, now), other, p);
    match (p.was.kind, p.now.kind)
    case (ObjectType(_, _), ObjectType(_, _)) => MetObjectStaysValid(was, now, other, names, named, met, p, v, fuel);
    case (ArrayType(Some(x)), ArrayType(Some(y))) =>
      assert NextMet(SpecsOf(was, now))(p) == MetAt(SpecsOf(was, now), x, y);
      forall i | 0 <= i < |v.items| ensures ValidRef(now.schemas, other, y, v.items[i]) {
        MetRefStaysValid(was, now, other, names, named, met, p, x, y, v.items[i], fuel - 1);
      }
    case (ArrayType(None), ArrayType(Some(y))) =>
      AdmitsAllMeans(now.schemas, other, y);
      ItemsAdmitted(now.schemas, other, p.now, y, v);
    case _ =>
  }

  lemma {:induction false} MetObjectStaysValid(
    was: Document, now: Document, other: Reading, names: set<string>, named: nat, met: Facing -> bool, p: Facing, v: Value, fuel: nat)
    requires p.was.kind.ObjectType? && p.now.kind.ObjectType? && AgreeAsRequests(was, now, names, named)
    requires Check(SpecsOf(was, now), p.was, p.now, true, fuel) == Accept && Named(ChildRefs(p.now)) <= names
    requires MeetsComparable(SpecsOf(was, now), other, met) && met(p)
    requires Sendable(was.schemas, other, p.was, v)
    ensures Valid(now.schemas, other, p.now, v)
    decreases v, 0
  {
    var op, np := p.was.kind.properties, p.now.kind.properties;
    forall k | k in v.fields && k in np ensures ValidRef(now.schemas, other, np[k], v.fields[k]) {
      FieldSendable(was.schemas, other, p.was, v, k);
      MetProperty(SpecsOf(was, now), p, k, true, fuel);
      PropertyLeads(SpecsOf(was, now), other, met, p, k);
      MetRefStaysValid(was, now, other, names, named, met, p, op[k], np[k], v.fields[k], fuel - 1);
    }
    assert p.now.kind.required <= p.was.kind.required;
  }

  lemma FieldSendable(c: Components, other: Reading, s: Schema, v: Value, k: string)
    requires s.kind.ObjectType? && Sendable(c, other, s, v) && v.Object? && k in v.fields
    ensures k in s.kind.properties && SendableRef(c, other, s.kind.properties[k], v.fields[k])
  {}

  lemma PropertyLeads(specs: Specs, other: Reading, met: Facing -> bool, p: Facing, k: string)
    requires MeetsComparable(specs, other, met) && met(p)
    requires p.was.kind.ObjectType? && p.now.kind.ObjectType? && k in p.was.kind.properties && k in p.now.kind.properties
    ensures StillLeads(specs, p.was.kind.properties[k], p.now.kind.properties[k])
  {
    assert Comparable(specs, other, p);
  }

  lemma MetProperty(specs: Specs, p: Facing, k: string, isRequest: bool, fuel: nat)
    requires p.was.kind.ObjectType? && p.now.kind.ObjectType? && k in p.was.kind.properties && k in p.now.kind.properties
    requires Check(specs, p.was, p.now, isRequest, fuel) == Accept
    ensures var x, y := p.was.kind.properties[k], p.now.kind.properties[k];
            && MetAt(specs, x, y) <= NextMet(specs)(p)
            && RefsOf(y) <= ChildRefs(p.now)
            && CheckRef(specs, x, y, isRequest, fuel - 1) == Accept
  {}

  lemma {:induction false} MetRefStaysValid(
    was: Document, now: Document, other: Reading, names: set<string>, named: nat, met: Facing -> bool, p: Facing,
    x: SchemaRef, y: SchemaRef, v: Value, fuel: nat)
    requires AgreeAsRequests(was, now, names, named)
    requires CheckRef(SpecsOf(was, now), x, y, true, fuel) == Accept && Named(RefsOf(y)) <= names
    requires MeetsComparable(SpecsOf(was, now), other, met) && met(p)
    requires MetAt(SpecsOf(was, now), x, y) <= NextMet(SpecsOf(was, now))(p) && StillLeads(SpecsOf(was, now), x, y)
    requires SendableRef(was.schemas, other, x, v)
    ensures ValidRef(now.schemas, other, y, v)
    decreases v, 2
  {
    var specs := SpecsOf(was, now);
    var q := Facing(ResolveRef(was.schemas, x).value, ResolveRef(now.schemas, y).value);
    assert q in MetAt(specs, x, y);
    NamedBelow(was, now, names, named, y);
    if x.Ref? && y.Ref? {
      assert RefTarget(y.reference).value in Named(RefsOf(y));
      MetStaysValid(was, now, other, names, named, met, q, v, named);
    } else {
      MetStaysValid(was, now, other, names, named, met, q, v, fuel);
    }
  }

  lemma NamedBelow(was: Document, now: Document, names: set<string>, named: nat, y: SchemaRef)
    requires AgreeAsRequests(was, now, names, named) && Named(RefsOf(y)) <= names && ResolveRef(now.schemas, y).Some?
    ensures Named(ChildRefs(ResolveRef(now.schemas, y).value)) <= names
  {
    if y.Ref? {
      assert RefTarget(y.reference).value in Named(RefsOf(y));
    }
  }

  /** An accepted request comparison keeps every value an old client can send valid, through any depth and
      through recursive references, provided the pairs such a value can meet are compared at all. */
  lemma AcceptedKeepsValid(
    was: Document, now: Document, other: Reading, names: set<string>, named: nat, s: Schema, t: Schema, v: Value, fuel: nat)
    requires AgreeAsRequests(was, now, names, named) && Named(ChildRefs(t)) <= names
    requires Check(SpecsOf(was, now), s, t, true, fuel) == Accept
    requires ComparableThroughout(SpecsOf(was, now), other, s, t)
    requires Sendable(was.schemas, other, s, v)
    ensures Valid(now.schemas, other, t, v)
  {
    var specs, start := SpecsOf(was, now), Facing(s, t);
    var met := (p: Facing) => Reach({start}, NextMet(specs), p);
    ReachStart({start}, NextMet(specs), start);
    forall p, q | met(p) && q in NextMet(specs)(p) ensures met(q) {
      ReachStep({start}, NextMet(specs), p, q);
    }
    MetStaysValid(was, now, other, names, named, met, start, v, fuel);
  }

  lemma RequestsClosed(now: Document, n: string)
    requires n in RequestSchemas(now) && n in now.schemas && now.schemas[n].Inline?
    ensures Named(ChildRefs(now.schemas[n].schema)) <= RequestSchemas(now)
  {
    RequestSchemasAre(now, n);
    forall m | m in Named(ChildRefs(now.schemas[n].schema)) ensures m in RequestSchemas(now) {
      assert m in SchemaNext(now)(n);
      ReachStep(RequestRoots(now), SchemaNext(now), n, m);
      RequestSchemasAre(now, m);
    }
  }

  lemma AcceptedAgree(was: Document, now: Document, fuel: nat)
    requires CheckDocuments(was, now, RequestSchemas(now), fuel) == Accept
    ensures AgreeAsRequests(was, now, RequestSchemas(now), fuel)
  {
    AcceptedMeans(was, now, RequestSchemas(now), fuel);
    forall n | n in RequestSchemas(now) && n in was.schemas && n in now.schemas && was.schemas[n].Inline? && now.schemas[n].Inline?
      ensures Check(SpecsOf(was, now), was.schemas[n].schema, now.schemas[n].schema, true, fuel) == Accept
    {
      var c := Comparison(was.schemas[n].schema, now.schemas[n].schema, true);
      assert c in NamedPairs(was, now, RequestSchemas(now));
      assert CheckPair(was, now, c, fuel) == Accept;
    }
    forall n | n in RequestSchemas(now) && n in now.schemas && now.schemas[n].Inline?
      ensures Named(ChildRefs(now.schemas[n].schema)) <= RequestSchemas(now)
    {
      RequestsClosed(now, n);
    }
  }

  lemma BodyCovered(now: Document, p: string, m: Method, media: string, y: SchemaRef)
    requires BodySchema(now, p, m, media, y)
    ensures Named(RefsOf(y)) <= RequestSchemas(now)
  {
    var body := now.paths[p].operations[m].body.value;
    forall n | n in Named(RefsOf(y)) ensures n in RequestSchemas(now) {
      var r :| r in RefsOf(y) && RefTarget(r) == Some(n);
      assert r in SchemaRefStringsOf(body.content[media].value);
      assert r in BodyRefs(body);
      assert n in Named(BodyRefs(body));
      ReachStart(RequestRoots(now), SchemaNext(now), n);
      RequestSchemasAre(now, n);
    }
  }

  lemma BodiesCompared(
    was: Document, now: Document, request: set<string>, fuel: nat, p: string, m: Method, media: string, x: SchemaRef, y: SchemaRef)
    requires CheckDocuments(was, now, request, fuel) == Accept
    requires BodySchema(was, p, m, media, x) && BodySchema(now, p, m, media, y)
    requires ResolveRef(was.schemas, x).Some? && ResolveRef(now.schemas, y).Some?
    ensures Check(SpecsOf(was, now), ResolveRef(was.schemas, x).value, ResolveRef(now.schemas, y).value, true, fuel) == Accept
  {
    AcceptedMeans(was, now, request, fuel);
    var c := Comparison(ResolveRef(was.schemas, x).value, ResolveRef(now.schemas, y).value, true);
    assert LeadTo(was, now, x, y, c) && FacesInBody(was, now, c);
    FacesIff(was, now, request, c);
    assert CheckPair(was, now, c, fuel) == Accept;
  }

  /** The two sides resolve, and the pairs a value can meet below them are compared. */
  ghost predicate ComparableRefs(was: Document, now: Document, other: Reading, x: SchemaRef, y: SchemaRef) {
    match (ResolveRef(was.schemas, x), ResolveRef(now.schemas, y))
    case (Some(s), Some(t)) => ComparableThroughout(SpecsOf(was, now), other, s, t)
    case _ => false
  }

  /** The request-body theorem: if the check accepts, whatever an old client could send as an inline
      request body is valid under the new schema of the same media type. */
  lemma RequestBodiesStayValid(
    was: Document, now: Document, other: Reading, fuel: nat,
    p: string, m: Method, media: string, x: SchemaRef, y: SchemaRef, v: Value)
    requires CheckDocuments(was, now, RequestSchemas(now), fuel) == Accept
    requires BodySchema(was, p, m, media, x) && BodySchema(now, p, m, media, y)
    requires ComparableRefs(was, now, other, x, y)
    requires SendableRef(was.schemas, other, x, v)
    ensures ValidRef(now.schemas, other, y, v)
  {
    var request := RequestSchemas(now);
    AcceptedAgree(was, now, fuel);
    BodyCovered(now, p, m, media, y);
    NamedBelow(was, now, request, fuel, y);
    BodiesCompared(was, now, request, fuel, p, m, media, x, y);
    AcceptedKeepsValid(was, now, other, request, fuel, ResolveRef(was.schemas, x).value, ResolveRef(now.schemas, y).value, v, fuel);
  }

  lemma ParametersCompared(
    was: Document, now: Document, request: set<string>, fuel: nat, p: string, m: Method, k: ParameterKey, x: SchemaRef, y: SchemaRef)
    requires CheckDocuments(was, now, request, fuel) == Accept
    requires ParameterSchema(was, p, m, k, x) && ParameterSchema(now, p, m, k, y)
    requires ResolveRef(was.schemas, x).Some? && ResolveRef(now.schemas, y).Some?
    ensures Check(SpecsOf(was, now), ResolveRef(was.schemas, x).value, ResolveRef(now.schemas, y).value, true, fuel) == Accept
  {
    AcceptedMeans(was, now, request, fuel);
    var c := Comparison(ResolveRef(was.schemas, x).value, ResolveRef(now.schemas, y).value, true);
    assert LeadTo(was, now, x, y, c) && FacesInParameter(was, now, c);
    FacesIff(was, now, request, c);
    assert CheckPair(was, now, c, fuel) == Accept;
  }

  /** The same for a kept parameter. The request schemas start from request bodies alone, so the
      components its new schema refers to have to agree as requests by themselves: any set of names that
      covers them and is closed will do, whether or not the check looked at it that way. */
  lemma ParameterValuesStayValid(
    was: Document, now: Document, other: Reading, request: set<string>, fuel: nat, names: set<string>, named: nat,
    p: string, m: Method, k: ParameterKey, x: SchemaRef, y: SchemaRef, v: Value)
    requires CheckDocuments(was, now, request, fuel) == Accept
    requires ParameterSchema(was, p, m, k, x) && ParameterSchema(now, p, m, k, y)
    requires ComparableRefs(was, now, other, x, y)
    requires AgreeAsRequests(was, now, names, named) && Named(ChildRefs(ResolveRef(now.schemas, y).value)) <= names
    requires SendableRef(was.schemas, other, x, v)
    ensures ValidRef(now.schemas, other, y, v)
  {
    ParametersCompared(was, now, request, fuel, p, m, k, x, y);
    AcceptedKeepsValid(was, now, other, names, named, ResolveRef(was.schemas, x).value, ResolveRef(now.schemas, y).value, v, fuel);
  }

  // --- Where parameters differ from bodies ---------------------------------------------------

  function ListOf(name: string): Schema {
    Schema(false, ArrayType(Some(RefTo(name))), Null)
  }

  function ListParameter(name: string): Parameter {
    Parameter(Query, name, false, false, BySchema(Inline(ListOf(name))))
  }

  /** A document with one query parameter, an array of the named enum. */
  function EnumDocument(path: string, name: string, values: set<Value>): Document {
    Document(
      map[path := PathItem([], map[Method.Get := Operation(false, [InlineParameter(ListParameter(name))], None, map[])])],
      map[name := Inline(Schema(false, StringType(values), Null))],
      map[])
  }

  lemma EnumDocumentPairs(path: string, name: string, values: set<Value>, fewer: set<Value>, c: Comparison)
    requires c in Comparisons(EnumDocument(path, name, values), EnumDocument(path, name, fewer), {})
    ensures c == Comparison(Schema(false, StringType(values), Null), Schema(false, StringType(fewer), Null), false)
         || c.was == c.now == ListOf(name)
  {
    var was, now := EnumDocument(path, name, values), EnumDocument(path, name, fewer);
    if c !in NamedPairs(was, now, {}) {
      var p, m := ComparisonSource(was, now, c);
      SingleParameter(was, ListParameter(name));
      SingleParameter(now, ListParameter(name));
    }
  }

  lemma EnumDocumentsAccepted(path: string, name: string, gone: string, kept: string)
    requires gone != kept
    ensures CheckDocuments(EnumDocument(path, name, {Str(gone), Str(kept)}), EnumDocument(path, name, {Str(kept)}), {}, 2) == Accept
  {
    var was := EnumDocument(path, name, {Str(gone), Str(kept)});
    var now := EnumDocument(path, name, {Str(kept)});
    forall c | c in Comparisons(was, now, {}) ensures CheckPair(was, now, c, 2) == Accept {
      EnumDocumentPairs(path, name, {Str(gone), Str(kept)}, {Str(kept)}, c);
      ResponseEnumAccepted(SpecsOf(was, now), {Str(gone), Str(kept)}, {Str(kept)});
      ListAccepted(SpecsOf(was, now), name, c.isRequest);
    }
    EnumSurfaceKept(path, name, {Str(gone), Str(kept)}, {Str(kept)});
    AcceptedMeans(was, now, {}, 2);
  }

  lemma ResponseEnumAccepted(specs: Specs, values: set<Value>, fewer: set<Value>)
    ensures Check(specs, Schema(false, StringType(values), Null), Schema(false, StringType(fewer), Null), false, 2) == Accept
  {}

  lemma ListAccepted(specs: Specs, name: string, isRequest: bool)
    ensures Check(specs, ListOf(name), ListOf(name), isRequest, 2) == Accept
  {
    assert CheckRef(specs, RefTo(name), RefTo(name), isRequest, 1) == Accept;
  }

  lemma EnumSurfaceKept(path: string, name: string, values: set<Value>, fewer: set<Value>)
    ensures SurfaceKept(EnumDocument(path, name, values), EnumDocument(path, name, fewer))
  {
    SingleParameter(EnumDocument(path, name, values), ListParameter(name));
    SingleParameter(EnumDocument(path, name, fewer), ListParameter(name));
  }

  lemma NoBodyNoRequestSchema(path: string, name: string, values: set<Value>)
    ensures RequestSchemas(EnumDocument(path, name, values)) == {}
  {
    var d := EnumDocument(path, name, values);
    assert RequestRoots(d) == {};
    forall n ensures n !in RequestSchemas(d) {
      RequestSchemasAre(d, n);
    }
  }

  /** An enum that only parameters use is not a request schema, so narrowing it is accepted, and a
      value an old client could send in the parameter is no longer valid. */
  lemma ParameterEnumMayNarrow(path: string, name: string, gone: string, kept: string, other: Reading)
    requires gone != kept
    ensures var was := EnumDocument(path, name, {Str(gone), Str(kept)});
            var now := EnumDocument(path, name, {Str(kept)});
            var v := Array([Str(gone)]);
            && CheckDocuments(was, now, RequestSchemas(now), 2) == Accept
            && Sendable(was.schemas, other, ListOf(name), v)
            && !Valid(now.schemas, other, ListOf(name), v)
  {
    var was := EnumDocument(path, name, {Str(gone), Str(kept)});
    var now := EnumDocument(path, name, {Str(kept)});
    var v := Array([Str(gone)]);
    NoBodyNoRequestSchema(path, name, {Str(kept)});
    EnumDocumentsAccepted(path, name, gone, kept);
    assert RefTarget(RefTo(name).reference) == Some(name);
    assert !ValidRef(now.schemas, other, RefTo(name), v.items[0]);
    assert ValidRef(was.schemas, other, RefTo(name), v.items[0]) && DeclaredRef(was.schemas, RefTo(name), v.items[0]);
  }
}
