/** What an accepted change of an OpenAPI document means for old clients that read its answers. */
module OpenApiReading {
  import opened Json
  import opened SchemaCompat
  import opened OpenApiCompat
  import opened CompatMeaning

  /** How a client gets from a value to a part of it. */
  datatype Step = Property(name: string) | Items

  /** The schema declared for the part at the end of a path. */
  function Declared(c: Components, s: Schema, path: seq<Step>): Option<Schema>
    decreases |path|, 0
  {
    if path == [] then Some(s)
    else match Subschema(s, path[0])
      case Some(x) => DeclaredBelow(c, x, path[1..])
      case None => None
  }

  function DeclaredBelow(c: Components, x: SchemaRef, path: seq<Step>): Option<Schema>
    decreases |path|, 1
  {
    match ResolveRef(c, x) case Some(s) => Declared(c, s, path) case None => None
  }

  function Subschema(s: Schema, step: Step): Option<SchemaRef> {
    match (step, s.kind)
    case (Property(k), ObjectType(props, _)) => if k in props then Some(props[k]) else None
    case (Items, ArrayType(items)) => items
    case _ => None
  }

  /** No property on the way is marked deprecated. */
  predicate Undeprecated(c: Components, s: Schema, path: seq<Step>)
    decreases |path|
  {
    path == [] ||
    match Subschema(s, path[0])
    case None => true
    case Some(x) =>
      && !(path[0].Property? && x.Inline? && x.schema.deprecated)
      && match ResolveRef(c, x) case Some(t) => Undeprecated(c, t, path[1..]) case None => true
  }

  /** What the check does not look at is not in the way: on neither side does a composition or untyped
      schema face a typed one, no array loses its items, and no reference stops leading anywhere. */
  predicate Unobstructed(specs: Specs, s: Schema, t: Schema, path: seq<Step>)
    decreases |path|
  {
    && (s.kind.Other? <==> t.kind.Other?)
    && (path == [] ||
        match (Subschema(s, path[0]), Subschema(t, path[0]))
        case (Some(x), Some(y)) =>
          (match (ResolveRef(specs.was, x), ResolveRef(specs.now, y))
           case (Some(o), Some(n)) => Unobstructed(specs, o, n, path[1..])
           case (Some(_), None) => false
           case _ => true)
        case (Some(_), None) => path[0].Property?
        case _ => true)
  }

  /** The named schemas agree, as requests or as answers. */
  ghost predicate NamedAgree(specs: Specs) {
    forall n :: n in specs.was && n in specs.now && specs.was[n].Inline? && specs.now[n].Inline? ==>
      Agree(specs, specs.was[n].schema, specs.now[n].schema)
  }

  ghost predicate Agree(specs: Specs, s: Schema, t: Schema) {
    exists isRequest: bool, fuel: nat :: Check(specs, s, t, isRequest, fuel) == Accept
  }

  ghost predicate StillDeclared(specs: Specs, s: Schema, t: Schema, path: seq<Step>) {
    match (Declared(specs.was, s, path), Declared(specs.now, t, path))
    case (Some(o), Some(n)) => SameType(o.kind, n.kind)
    case _ => false
  }

  lemma AgreedHere(specs: Specs, s: Schema, t: Schema)
    requires Agree(specs, s, t)
    ensures SameType(s.kind, t.kind) || s.kind.Other? || t.kind.Other?
    ensures s.kind.ObjectType? && t.kind.ObjectType? ==> PropertiesKept(s.kind.properties, t.kind.properties)
  {
    var isRequest: bool, fuel: nat :| Check(specs, s, t, isRequest, fuel) == Accept;
    KeptHereIff(s.kind, t.kind, isRequest);
  }

  lemma AgreedBelow(specs: Specs, s: Schema, t: Schema, step: Step)
    requires Agree(specs, s, t) && NamedAgree(specs)
    ensures match (Subschema(s, step), Subschema(t, step))
            case (Some(x), Some(y)) =>
              (match (ResolveRef(specs.was, x), ResolveRef(specs.now, y)) case (Some(o), Some(n)) => Agree(specs, o, n) case _ => true)
            case _ => true
  {
    var isRequest: bool, fuel: nat :| Check(specs, s, t, isRequest, fuel) == Accept;
    match (Subschema(s, step), Subschema(t, step))
    case (Some(x), Some(y)) =>
      assert CheckRef(specs, x, y, isRequest, fuel - 1) == Accept;
      AgreedRef(specs, x, y, isRequest, fuel - 1);
    case _ =>
  }

  lemma AgreedRef(specs: Specs, x: SchemaRef, y: SchemaRef, isRequest: bool, fuel: nat)
    requires CheckRef(specs, x, y, isRequest, fuel) == Accept && NamedAgree(specs)
    ensures match (ResolveRef(specs.was, x), ResolveRef(specs.now, y)) case (Some(o), Some(n)) => Agree(specs, o, n) case _ => true
  {
    match (ResolveRef(specs.was, x), ResolveRef(specs.now, y))
    case (Some(o), Some(n)) =>
      if x.Ref? && y.Ref? {
        assert Agree(specs, specs.was[RefTarget(x.reference).value].schema, specs.now[RefTarget(y.reference).value].schema);
      } else {
        assert Check(specs, o, n, isRequest, fuel) == Accept;
      }
    case _ =>
  }

  /** A path of undeprecated properties and items that the old schema declares is declared by the new one,
      with the same type, exactly when nothing the check passes over is in the way. */
  lemma {:induction false} ReadingKept(specs: Specs, s: Schema, t: Schema, path: seq<Step>)
    requires Agree(specs, s, t) && NamedAgree(specs)
    requires Declared(specs.was, s, path).Some? && Undeprecated(specs.was, s, path)
    ensures StillDeclared(specs, s, t, path) <==> Unobstructed(specs, s, t, path)
    decreases |path|
  {
    AgreedHere(specs, s, t);
    if path != [] {
      AgreedBelow(specs, s, t, path[0]);
      match (Subschema(s, path[0]), Subschema(t, path[0]))
      case (Some(x), Some(y)) =>
        assert Declared(specs.was, s, path) == DeclaredBelow(specs.was, x, path[1..]);
        assert Declared(specs.now, t, path) == DeclaredBelow(specs.now, y, path[1..]);
        if ResolveRef(specs.now, y).Some? {
          ReadingKept(specs, ResolveRef(specs.was, x).value, ResolveRef(specs.now, y).value, path[1..]);
        }
      case _ =>
    }
  }

  // --- Documents -----------------------------------------------------------------------

  lemma ResponsesCompared(
    was: Document, now: Document, request: set<string>, fuel: nat, p: string, m: Method, status: string, media: string,
    x: SchemaRef, y: SchemaRef)
    requires CheckDocuments(was, now, request, fuel) == Accept
    requires ResponseSchema(was, p, m, status, media, x) && ResponseSchema(now, p, m, status, media, y)
    requires ResolveRef(was.schemas, x).Some? && ResolveRef(now.schemas, y).Some?
    ensures Agree(SpecsOf(was, now), ResolveRef(was.schemas, x).value, ResolveRef(now.schemas, y).value)
  {
    AcceptedMeans(was, now, request, fuel);
    var c := Comparison(ResolveRef(was.schemas, x).value, ResolveRef(now.schemas, y).value, false);
    assert LeadTo(was, now, x, y, c) && FacesInResponse(was, now, c);
    FacesIff(was, now, request, c);
    assert CheckPair(was, now, c, fuel) == Accept;
  }

  lemma AcceptedNamedAgree(was: Document, now: Document, request: set<string>, fuel: nat)
    requires CheckDocuments(was, now, request, fuel) == Accept
    ensures NamedAgree(SpecsOf(was, now))
  {
    AcceptedMeans(was, now, request, fuel);
    forall n | n in was.schemas && n in now.schemas && was.schemas[n].Inline? && now.schemas[n].Inline?
      ensures Agree(SpecsOf(was, now), was.schemas[n].schema, now.schemas[n].schema)
    {
      var c := Comparison(was.schemas[n].schema, now.schemas[n].schema, n in request);
      assert c in NamedPairs(was, now, request);
      assert CheckPair(was, now, c, fuel) == Accept;
    }
  }

  /** The response theorem: if the check accepts, whatever undeprecated part of a response an old client
      reads is still declared, with the same type, in the new response of that status and media type,
      exactly when nothing the check passes over is in the way. */
  lemma ResponsesStayReadable(
    was: Document, now: Document, request: set<string>, fuel: nat, p: string, m: Method, status: string, media: string,
    x: SchemaRef, y: SchemaRef, path: seq<Step>)
    requires CheckDocuments(was, now, request, fuel) == Accept
    requires ResponseSchema(was, p, m, status, media, x) && ResponseSchema(now, p, m, status, media, y)
    requires ResolveRef(was.schemas, x).Some? && ResolveRef(now.schemas, y).Some?
    requires Declared(was.schemas, ResolveRef(was.schemas, x).value, path).Some?
    requires Undeprecated(was.schemas, ResolveRef(was.schemas, x).value, path)
    ensures var s, t := ResolveRef(was.schemas, x).value, ResolveRef(now.schemas, y).value;
            StillDeclared(SpecsOf(was, now), s, t, path) <==> Unobstructed(SpecsOf(was, now), s, t, path)
  {
    ResponsesCompared(was, now, request, fuel, p, m, status, media, x, y);
    AcceptedNamedAgree(was, now, request, fuel);
    ReadingKept(SpecsOf(was, now), ResolveRef(was.schemas, x).value, ResolveRef(now.schemas, y).value, path);
  }

  /** An array that loses its items is accepted, and what was declared of them is gone. */
  lemma ItemsMayGo(specs: Specs, s: Schema, t: Schema, x: SchemaRef, isRequest: bool, fuel: nat)
    requires s.kind == ArrayType(Some(x)) && t.kind == ArrayType(None) && fuel > 0 && ResolveRef(specs.was, x).Some?
    ensures Check(specs, s, t, isRequest, fuel) == Accept
    ensures Declared(specs.was, s, [Items]) == ResolveRef(specs.was, x) && Declared(specs.now, t, [Items]) == None
  {
    assert [Items][1..] == [];
    assert Declared(specs.was, ResolveRef(specs.was, x).value, []) == ResolveRef(specs.was, x);
  }
}
